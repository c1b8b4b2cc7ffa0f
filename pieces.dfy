/**
 * The piece catalogue: the two sides, the fourteen piece types and, for each
 * type, the ray definitions it moves along as a function of its tier (the
 * height of the stack it stands on).  Directions are written for the `Self`
 * side, which moves towards row 0; the move generator mirrors them for the
 * `Opponent` side.
 */
module Pieces {

  datatype Side = Self | Opponent {
    function Other(): (s: Side)
      ensures s != this
    {
      if this == Self then Opponent else Self
    }
  }

  datatype PieceType =
    | Marshal | General | LtGeneral | Major | Samurai | Lance | Knight
    | Ninja | Fortress | Pawn | Cannon | Archer | Musket | Spy

  /** A piece is its type and its owner; it carries no position. */
  datatype Piece = Piece(name: PieceType, owner: Side)

  /** A displacement in (row, column). */
  datatype Vec = Vec(r: int, c: int)

  const Zero := Vec(0, 0)

  const Up := Vec(-1, 0)
  const Down := Vec(1, 0)
  const Left := Vec(0, -1)
  const Right := Vec(0, 1)
  const UpLeft := Vec(-1, -1)
  const UpRight := Vec(-1, 1)
  const DownLeft := Vec(1, -1)
  const DownRight := Vec(1, 1)

  const All8: seq<Vec> := [Up, Down, Left, Right, UpLeft, UpRight, DownLeft, DownRight]
  const Cross: seq<Vec> := [Up, Down, Left, Right]
  const Diag: seq<Vec> := [UpLeft, UpRight, DownLeft, DownRight]

  /** A one-step direction: each component in {-1, 0, 1}, not both zero. */
  predicate IsUnit(v: Vec) {
    -1 <= v.r <= 1 && -1 <= v.c <= 1 && v != Zero
  }

  lemma DirectionsAreUnit()
    ensures forall d :: d in All8 ==> IsUnit(d)
    ensures forall d :: d in Cross + Diag <==> d in All8
    ensures forall v :: IsUnit(v) ==> v in All8
  {
  }

  /** How many cells a ray may visit: a bound, or no bound at all. */
  datatype Range = Finite(n: nat) | Unbounded

  /**
   * One ray of a piece: its direction, how far it reaches, whether it may
   * pass over shorter stacks, and where it starts relative to the piece.
   */
  datatype MoveDef = MoveDef(dir: Vec, range: Range, canJump: bool, offset: Vec)

  /** One definition per direction, in order, all sharing the other fields. */
  function Def(dirs: seq<Vec>, range: Range, canJump: bool, offset: Vec): (defs: seq<MoveDef>)
    ensures |defs| == |dirs|
    ensures forall i :: 0 <= i < |dirs| ==> defs[i] == MoveDef(dirs[i], range, canJump, offset)
    ensures forall d :: d in defs ==> d.dir in dirs && d.range == range && d.canJump == canJump && d.offset == offset
  {
    seq(|dirs|, i requires 0 <= i < |dirs| => MoveDef(dirs[i], range, canJump, offset))
  }

  /** The set of directions a list of definitions covers. */
  function Dirs(defs: seq<MoveDef>): set<Vec> {
    set d | d in defs :: d.dir
  }

  lemma DirsOfDef(dirs: seq<Vec>, range: Range, canJump: bool, offset: Vec)
    ensures Dirs(Def(dirs, range, canJump, offset)) == set v | v in dirs
  {
    var defs := Def(dirs, range, canJump, offset);
    forall v | v in dirs ensures v in Dirs(defs) {
      var i :| 0 <= i < |dirs| && dirs[i] == v;
      assert defs[i] in defs;
    }
  }

  lemma DirsOfConcat(a: seq<MoveDef>, b: seq<MoveDef>)
    ensures Dirs(a + b) == Dirs(a) + Dirs(b)
  {
  }

  /** The piece types whose table holds a leaping ray. */
  lemma LeapingPieces(t: PieceType, tier: nat)
    ensures (exists d :: d in Definitions(t, tier) && d.canJump) <==> t in {Cannon, Archer, Musket}
    ensures (exists d :: d in Definitions(t, tier) && d.range == Unbounded) <==> t in {General, LtGeneral}
  {
    var defs := Definitions(t, tier);
    assert |defs| > 0 by { DirsOfDef([Up], Finite(tier), false, Zero); }
    assert defs[0] in defs;
  }

  /**
   * What every catalogue entry satisfies: a one-step direction, a reach of
   * `tier`, `tier + 1` or unbounded, and a non-zero origin offset exactly
   * when the ray may leap, that offset lying straight ahead of the piece in
   * a ray that also points ahead.
   */
  predicate WellShaped(d: MoveDef, tier: nat) {
    && IsUnit(d.dir)
    && (d.range == Unbounded || d.range == Finite(tier) || d.range == Finite(tier + 1))
    && (d.canJump <==> d.offset != Zero)
    && (d.offset != Zero ==> d.offset.c == 0 && d.offset.r < 0 && d.dir.r == -1)
  }

  /**
   * The definitions of a piece type at a tier.  The result does not depend
   * on the owner: both sides receive the same table before mirroring.
   */
  function Definitions(t: PieceType, tier: nat): (defs: seq<MoveDef>)
    ensures forall d :: d in defs ==> WellShaped(d, tier)
  {
    match t
    case Marshal => Def(All8, Finite(tier), false, Zero)
    case General => Def(Cross, Unbounded, false, Zero) + Def(Diag, Finite(tier), false, Zero)
    case LtGeneral => Def(Diag, Unbounded, false, Zero) + Def(Cross, Finite(tier), false, Zero)
    case Major => Def([Up, Left, Right, UpLeft, UpRight, Down], Finite(tier), false, Zero)
    case Samurai => Def([Up, UpLeft, UpRight, Down], Finite(tier), false, Zero)
    case Lance => Def([Up], Finite(tier + 1), false, Zero) + Def([UpLeft, UpRight, Down], Finite(tier), false, Zero)
    case Knight => Def(Cross, Finite(tier + 1), false, Zero)
    case Ninja => Def(Diag, Finite(tier + 1), false, Zero)
    case Fortress => Def([Up, Left, Right, DownLeft, DownRight], Finite(tier), false, Zero)
    case Pawn => Def([Up, Down], Finite(tier), false, Zero)
    case Cannon => Def([Up], Finite(tier), true, Vec(-2, 0)) + Def([Left, Right, Down], Finite(tier), false, Zero)
    case Archer => Def([Up, UpLeft, UpRight], Finite(tier), true, Vec(-1, 0)) + Def([Down], Finite(tier), false, Zero)
    case Musket => Def([Up], Finite(tier), true, Vec(-1, 0)) + Def([DownLeft, DownRight], Finite(tier), false, Zero)
    case Spy => Def([UpLeft, UpRight, Down], Finite(tier), false, Zero)
  }

  lemma MarshalTable(tier: nat)
    ensures Dirs(Definitions(Marshal, tier)) == set d | d in All8
    ensures forall d :: d in Definitions(Marshal, tier) ==>
      d.range == Finite(tier) && !d.canJump && d.offset == Zero
  {
    DirsOfDef(All8, Finite(tier), false, Zero);
  }

  lemma GeneralTable(tier: nat)
    ensures forall d :: d in Definitions(General, tier) ==>
      d.range == (if d.dir in Cross then Unbounded else Finite(tier))
    ensures Dirs(Definitions(General, tier)) == set d | d in All8
  {
    DirsOfDef(Cross, Unbounded, false, Zero);
    DirsOfDef(Diag, Finite(tier), false, Zero);
    DirsOfConcat(Def(Cross, Unbounded, false, Zero), Def(Diag, Finite(tier), false, Zero));
  }

  lemma LtGeneralTable(tier: nat)
    ensures forall d :: d in Definitions(LtGeneral, tier) ==>
      d.range == (if d.dir in Diag then Unbounded else Finite(tier))
    ensures Dirs(Definitions(LtGeneral, tier)) == set d | d in All8
  {
    DirsOfDef(Diag, Unbounded, false, Zero);
    DirsOfDef(Cross, Finite(tier), false, Zero);
    DirsOfConcat(Def(Diag, Unbounded, false, Zero), Def(Cross, Finite(tier), false, Zero));
  }

  lemma LanceTable(tier: nat)
    ensures forall d :: d in Definitions(Lance, tier) ==>
      d.range == (if d.dir == Up then Finite(tier + 1) else Finite(tier))
    ensures Dirs(Definitions(Lance, tier)) == {Up, UpLeft, UpRight, Down}
  {
    DirsOfDef([Up], Finite(tier + 1), false, Zero);
    DirsOfDef([UpLeft, UpRight, Down], Finite(tier), false, Zero);
    DirsOfConcat(Def([Up], Finite(tier + 1), false, Zero), Def([UpLeft, UpRight, Down], Finite(tier), false, Zero));
  }

  lemma KnightTable(tier: nat)
    ensures Dirs(Definitions(Knight, tier)) == set d | d in Cross
    ensures forall d :: d in Definitions(Knight, tier) ==>
      d.range == Finite(tier + 1) && !d.canJump && d.offset == Zero
  {
    DirsOfDef(Cross, Finite(tier + 1), false, Zero);
  }

  lemma NinjaTable(tier: nat)
    ensures Dirs(Definitions(Ninja, tier)) == set d | d in Diag
    ensures forall d :: d in Definitions(Ninja, tier) ==>
      d.range == Finite(tier + 1) && !d.canJump && d.offset == Zero
  {
    DirsOfDef(Diag, Finite(tier + 1), false, Zero);
  }

  lemma CannonTable(tier: nat)
    ensures forall d :: d in Definitions(Cannon, tier) ==> d.range == Finite(tier)
    ensures forall d :: d in Definitions(Cannon, tier) ==>
      if d.dir == Up then d.canJump && d.offset == Vec(-2, 0)
      else !d.canJump && d.offset == Zero
    ensures Dirs(Definitions(Cannon, tier)) == {Up, Left, Right, Down}
  {
    DirsOfDef([Up], Finite(tier), true, Vec(-2, 0));
    DirsOfDef([Left, Right, Down], Finite(tier), false, Zero);
    DirsOfConcat(Def([Up], Finite(tier), true, Vec(-2, 0)), Def([Left, Right, Down], Finite(tier), false, Zero));
  }

  lemma ArcherTable(tier: nat)
    ensures forall d :: d in Definitions(Archer, tier) ==> d.range == Finite(tier)
    ensures forall d :: d in Definitions(Archer, tier) ==>
      if d.dir == Down then !d.canJump && d.offset == Zero
      else d.canJump && d.offset == Vec(-1, 0)
    ensures Dirs(Definitions(Archer, tier)) == {Up, UpLeft, UpRight, Down}
  {
    DirsOfDef([Up, UpLeft, UpRight], Finite(tier), true, Vec(-1, 0));
    DirsOfDef([Down], Finite(tier), false, Zero);
    DirsOfConcat(Def([Up, UpLeft, UpRight], Finite(tier), true, Vec(-1, 0)), Def([Down], Finite(tier), false, Zero));
  }

  lemma MusketTable(tier: nat)
    ensures forall d :: d in Definitions(Musket, tier) ==> d.range == Finite(tier)
    ensures forall d :: d in Definitions(Musket, tier) ==>
      if d.dir == Up then d.canJump && d.offset == Vec(-1, 0)
      else !d.canJump && d.offset == Zero
    ensures Dirs(Definitions(Musket, tier)) == {Up, DownLeft, DownRight}
  {
    DirsOfDef([Up], Finite(tier), true, Vec(-1, 0));
    DirsOfDef([DownLeft, DownRight], Finite(tier), false, Zero);
    DirsOfConcat(Def([Up], Finite(tier), true, Vec(-1, 0)), Def([DownLeft, DownRight], Finite(tier), false, Zero));
  }

  lemma MajorTable(tier: nat)
    ensures Dirs(Definitions(Major, tier)) == {Up, Left, Right, UpLeft, UpRight, Down}
    ensures forall d :: d in Definitions(Major, tier) ==>
      d.range == Finite(tier) && !d.canJump && d.offset == Zero
  {
    DirsOfDef([Up, Left, Right, UpLeft, UpRight, Down], Finite(tier), false, Zero);
  }

  lemma SamuraiTable(tier: nat)
    ensures Dirs(Definitions(Samurai, tier)) == {Up, UpLeft, UpRight, Down}
    ensures forall d :: d in Definitions(Samurai, tier) ==>
      d.range == Finite(tier) && !d.canJump && d.offset == Zero
  {
    DirsOfDef([Up, UpLeft, UpRight, Down], Finite(tier), false, Zero);
  }

  lemma FortressTable(tier: nat)
    ensures Dirs(Definitions(Fortress, tier)) == {Up, Left, Right, DownLeft, DownRight}
    ensures forall d :: d in Definitions(Fortress, tier) ==>
      d.range == Finite(tier) && !d.canJump && d.offset == Zero
  {
    DirsOfDef([Up, Left, Right, DownLeft, DownRight], Finite(tier), false, Zero);
  }

  lemma PawnTable(tier: nat)
    ensures Dirs(Definitions(Pawn, tier)) == {Up, Down}
    ensures forall d :: d in Definitions(Pawn, tier) ==>
      d.range == Finite(tier) && !d.canJump && d.offset == Zero
  {
    DirsOfDef([Up, Down], Finite(tier), false, Zero);
  }

  lemma SpyTable(tier: nat)
    ensures Dirs(Definitions(Spy, tier)) == {UpLeft, UpRight, Down}
    ensures forall d :: d in Definitions(Spy, tier) ==>
      d.range == Finite(tier) && !d.canJump && d.offset == Zero
  {
    DirsOfDef([UpLeft, UpRight, Down], Finite(tier), false, Zero);
  }
}
