/**
 * The game state as a value and every rule of the engine as a transition
 * on it: applying a move (with consecutive capture, the Marshal win and the
 * betrayal exchange), dropping from the hand, the draft state machine, and
 * the per-level setup.  The engine class mirrors these step by step; the
 * lemmas here state what the transitions guarantee.
 */
module GameRules {
  import opened Wrappers
  import opened Pieces
  import opened StackBoard
  import opened MoveGen

  /** The pieces each side holds in hand, in the order they were added. */
  datatype Hands = Hands(selfHand: seq<Piece>, opponentHand: seq<Piece>) {
    function Of(side: Side): seq<Piece> {
      if side == Self then selfHand else opponentHand
    }

    function With(side: Side, h: seq<Piece>): (r: Hands)
      ensures r.Of(side) == h && r.Of(side.Other()) == Of(side.Other())
    {
      if side == Self then this.(selfHand := h) else this.(opponentHand := h)
    }
  }

  datatype Phase = Setup | Draft | Playing

  /** Progress of the free-placement opening. */
  datatype DraftState = DraftState(
    selfDone: bool, opponentDone: bool,
    selfMarshalPlaced: bool, opponentMarshalPlaced: bool,
    turnMoved: bool)
  {
    function Done(side: Side): bool {
      if side == Self then selfDone else opponentDone
    }

    function MarshalPlaced(side: Side): bool {
      if side == Self then selfMarshalPlaced else opponentMarshalPlaced
    }
  }

  const NoDraft := DraftState(false, false, false, false, false)

  datatype State = State(
    cells: Grid, hands: Hands, turn: Side, phase: Phase,
    draft: DraftState, winner: Option<Side>, rules: Rules)

  predicate WellFormed(s: State) {
    IsGrid(s.cells)
  }

  /** A freshly constructed game: empty board and hands, `Self` to move, no level yet. */
  function Initial(): (s: State)
    ensures WellFormed(s)
    ensures forall r, c :: IsValidPos(r, c) ==> s.cells[r][c] == []
    ensures s.hands.Of(Self) == [] && s.hands.Of(Opponent) == []
    ensures s.turn == Self && s.phase == Setup && s.winner == None
    ensures s.draft == NoDraft
    ensures s.rules == Rules(2, false, None)
  {
    State(EmptyGrid(), Hands([], []), Self, Setup, NoDraft, None, Rules(2, false, None))
  }

  // ----- sequences of pieces ------------------------------------------------

  /** The hand without its `i`-th piece (`splice(i, 1)`). */
  function RemoveAt(h: seq<Piece>, i: nat): (r: seq<Piece>)
    requires i < |h|
    ensures |r| == |h| - 1
    ensures multiset(r) + multiset{h[i]} == multiset(h)
    ensures forall j :: 0 <= j < i ==> r[j] == h[j]
    ensures forall j :: i <= j < |r| ==> r[j] == h[j + 1]
  {
    assert h == h[..i] + [h[i]] + h[i + 1..];
    h[..i] + h[i + 1..]
  }

  /** The first position of a piece with the given name (`findIndex`). */
  function FindName(h: seq<Piece>, name: PieceType): (k: Option<nat>)
    ensures k.None? <==> !HasName(h, name)
    ensures k.Some? ==> k.value < |h| && h[k.value].name == name
    ensures k.Some? ==> forall j :: 0 <= j < k.value ==> h[j].name != name
  {
    if h == [] then None
    else if h[0].name == name then Some(0)
    else
      match FindName(h[1..], name)
      case None => None
      case Some(j) => Some(j + 1)
  }

  /** How many pieces of `h` have the given name. */
  function CountName(h: seq<Piece>, name: PieceType): nat {
    if h == [] then 0 else (if h[0].name == name then 1 else 0) + CountName(h[1..], name)
  }

  lemma {:induction false} CountNameConcat(a: seq<Piece>, b: seq<Piece>, name: PieceType)
    ensures CountName(a + b, name) == CountName(a, name) + CountName(b, name)
  {
    if a == [] {
      assert a + b == b;
    } else {
      assert (a + b)[1..] == a[1..] + b;
      CountNameConcat(a[1..], b, name);
    }
  }

  lemma CountNameRemoveAt(h: seq<Piece>, i: nat, name: PieceType)
    requires i < |h|
    ensures CountName(RemoveAt(h, i), name) == CountName(h, name) - if h[i].name == name then 1 else 0
  {
    assert h == h[..i] + ([h[i]] + h[i + 1..]);
    CountNameConcat(h[..i], [h[i]] + h[i + 1..], name);
    CountNameConcat([h[i]], h[i + 1..], name);
    CountNameConcat(h[..i], h[i + 1..], name);
  }

  lemma {:induction false} CountNamePositive(h: seq<Piece>, name: PieceType)
    ensures CountName(h, name) > 0 <==> HasName(h, name)
  {
    if h != [] {
      CountNamePositive(h[1..], name);
      if HasName(h[1..], name) {
        var i :| 0 <= i < |h[1..]| && h[1..][i].name == name;
        assert h[i + 1].name == name;
      }
      if HasName(h, name) && h[0].name != name {
        var i :| 0 <= i < |h| && h[i].name == name;
        assert h[1..][i - 1].name == name;
      }
    }
  }

  // ----- moves ----------------------------------------------------------------

  function SetStack(g: Grid, r: int, c: int, st: PieceStack): (g': Grid)
    requires IsGrid(g) && IsValidPos(r, c)
    ensures IsGrid(g') && g'[r][c] == st
    ensures forall r', c' :: IsValidPos(r', c') && (r', c') != (r, c) ==> g'[r'][c'] == g[r'][c']
  {
    g[r := g[r][c := st]]
  }

  /** The piece on top of (r, c) as a mover: its stack height is its tier. */
  function MoverAt(s: State, r: int, c: int): Mover
    requires WellFormed(s) && StackAt(s.cells, r, c) != []
  {
    var st := s.cells[r][c];
    Mover(st[|st| - 1], |st|, s.hands.Of(st[|st| - 1].owner))
  }

  /** The tagged destinations of whatever tops (r, c); none for an empty cell. */
  function ValidMoves(s: State, r: int, c: int): (acts: seq<Action>)
    requires WellFormed(s)
    ensures StackAt(s.cells, r, c) == [] ==> acts == []
    ensures forall a :: a in acts ==> IsValidPos(a.r, a.c) && a.kind != Drop
  {
    if StackAt(s.cells, r, c) == [] then []
    else
      MovesSound(s.cells, s.rules, MoverAt(s, r, c), r, c);
      MoveTagsJustified(s.cells, s.rules, MoverAt(s, r, c), r, c);
      Moves(s.cells, s.rules, MoverAt(s, r, c), r, c)
  }

  /** The entries of `acts` aimed at (r, c), in order. */
  function AtCell(acts: seq<Action>, r: int, c: int): (res: seq<Action>)
    ensures forall a :: a in res <==> a in acts && a.r == r && a.c == c
  {
    if acts == [] then []
    else (if acts[0].r == r && acts[0].c == c then [acts[0]] else []) + AtCell(acts[1..], r, c)
  }

  function Targets(s: State, fr: int, fc: int, tr: int, tc: int): seq<Action>
    requires WellFormed(s)
  {
    AtCell(ValidMoves(s, fr, fc), tr, tc)
  }

  function KindsOf(acts: seq<Action>): set<ActionKind> {
    set a | a in acts :: a.kind
  }

  /**
   * How the action kind is chosen when a destination offers several: a
   * local player answers a prompt (which may be cancelled, or answered with
   * a kind not on offer, both giving no answer); a move received from the
   * peer carries its kind.
   */
  datatype Choice = Local(answer: Option<ActionKind>) | Remote(kind: ActionKind)

  /**
   * The kind to perform: the peer's kind as received; otherwise the only
   * kind on offer, or the player's answer when several kinds are offered.
   */
  function ResolveKind(targets: seq<Action>, choice: Choice): (k: Option<ActionKind>)
    requires targets != []
    ensures choice.Remote? ==> k == Some(choice.kind)
    ensures choice.Local? && k.Some? ==> k.value in KindsOf(targets)
    ensures choice.Local? ==>
      (k.None? <==> |KindsOf(targets)| > 1 && (choice.answer.None? || choice.answer.value !in KindsOf(targets)))
    ensures choice.Local? && |KindsOf(targets)| <= 1 ==> k == Some(targets[0].kind)
  {
    assert targets[0].kind in KindsOf(targets);
    match choice
    case Remote(kind) => Some(kind)
    case Local(answer) =>
      if |KindsOf(targets)| > 1 then
        if answer.Some? && answer.value in KindsOf(targets) then answer else None
      else Some(targets[0].kind)
  }

  /** A kind received from the peer is one the destination offers. */
  predicate ChoiceFits(s: State, fr: int, fc: int, tr: int, tc: int, choice: Choice)
    requires WellFormed(s)
  {
    choice.Remote? ==> Targets(s, fr, fc, tr, tc) == [] || choice.kind in KindsOf(Targets(s, fr, fc, tr, tc))
  }

  /**
   * Height of the stack an attack leaves under the attacker: pieces not
   * belonging to `side` come off the top until one of its own, or the
   * floor, is reached.
   */
  function KeepLen(st: PieceStack, side: Side): (n: nat)
    ensures n <= |st|
    ensures n > 0 ==> st[n - 1].owner == side
    ensures forall i :: n <= i < |st| ==> st[i].owner != side
  {
    if st == [] then 0
    else if st[|st| - 1].owner == side then |st|
    else KeepLen(st[..|st| - 1], side)
  }

  /** Whether the pieces an attack removes include a Marshal. */
  predicate CapturesMarshal(st: PieceStack, side: Side) {
    HasName(st[KeepLen(st, side)..], Marshal)
  }

  /** Puts the moving piece `p` onto (r, c) as `kind` prescribes. */
  function Land(s: State, r: int, c: int, p: Piece, kind: ActionKind): (s': State)
    requires WellFormed(s) && IsValidPos(r, c)
    requires kind == Betrayal ==> s.cells[r][c] != []
    ensures WellFormed(s')
    ensures s'.turn == s.turn && s'.phase == s.phase && s'.draft == s.draft && s'.rules == s.rules
    ensures s'.hands.Of(s.turn.Other()) == s.hands.Of(s.turn.Other())
    ensures kind != Attack ==> s'.winner == s.winner
  {
    var st := s.cells[r][c];
    match kind
    case Attack =>
      s.(cells := SetStack(s.cells, r, c, st[..KeepLen(st, s.turn)] + [p]),
         winner := if CapturesMarshal(st, s.turn) then Some(s.turn) else s.winner)
    case Betrayal =>
      var hand := s.hands.Of(s.turn);
      var k := FindName(hand, st[|st| - 1].name);
      if k.Some? then
        s.(cells := SetStack(s.cells, r, c, st[..|st| - 1] + [hand[k.value], p]),
           hands := s.hands.With(s.turn, RemoveAt(hand, k.value)))
      else s.(cells := Push(s.cells, r, c, p))
    case _ => s.(cells := Push(s.cells, r, c, p))
  }

  /**
   * What every destination offered from (fr, fc) guarantees: the source
   * cell is occupied, the destination is another cell on the board, and
   * each tag satisfies what it promises.
   */
  lemma TargetFacts(s: State, fr: int, fc: int, tr: int, tc: int)
    requires WellFormed(s) && Targets(s, fr, fc, tr, tc) != []
    ensures IsValidPos(fr, fc) && s.cells[fr][fc] != []
    ensures IsValidPos(tr, tc) && (tr, tc) != (fr, fc)
    ensures forall a :: a in Targets(s, fr, fc, tr, tc) ==>
      a.r == tr && a.c == tc && TagJustified(s.cells, s.rules, MoverAt(s, fr, fc), a)
    ensures forall a :: a in Targets(s, fr, fc, tr, tc) && a.kind == Betrayal ==>
      Action(tr, tc, Stack) in Targets(s, fr, fc, tr, tc)
  {
    var a := Targets(s, fr, fc, tr, tc)[0];
    assert a in ValidMoves(s, fr, fc);
    var m := MoverAt(s, fr, fc);
    MoveTagsJustified(s.cells, s.rules, m, fr, fc);
    NoActionAtOrigin(s.cells, s.rules, m, fr, fc);
  }

  /** The cells a move offered to (tr, tc) as `kind` involves. */
  lemma TargetCells(s: State, fr: int, fc: int, tr: int, tc: int, kind: ActionKind)
    requires WellFormed(s) && Targets(s, fr, fc, tr, tc) != [] && kind in KindsOf(Targets(s, fr, fc, tr, tc))
    ensures IsValidPos(fr, fc) && s.cells[fr][fc] != [] && IsValidPos(tr, tc) && (tr, tc) != (fr, fc)
    ensures kind == Betrayal ==> s.cells[tr][tc] != []
  {
    TargetFacts(s, fr, fc, tr, tc);
    var a :| a in Targets(s, fr, fc, tr, tc) && a.kind == kind;
  }

  /**
   * `tryMovePiece`: nothing happens unless (tr, tc) is among the moves of
   * the piece at (fr, fc) and a kind is settled; then the piece leaves its
   * cell, lands as that kind, and the turn passes.
   */
  function ApplyMove(s: State, fr: int, fc: int, tr: int, tc: int, choice: Choice): (s': State)
    requires WellFormed(s) && ChoiceFits(s, fr, fc, tr, tc, choice)
    ensures WellFormed(s')
    ensures s'.phase == s.phase && s'.draft == s.draft && s'.rules == s.rules
    ensures s'.hands.Of(s.turn.Other()) == s.hands.Of(s.turn.Other())
    ensures s' == s || s'.turn == s.turn.Other()
  {
    var targets := Targets(s, fr, fc, tr, tc);
    if targets == [] then s
    else
      var kind := ResolveKind(targets, choice);
      if kind.None? then s
      else
        TargetCells(s, fr, fc, tr, tc, kind.value);
        var (mover, g1) := Pop(s.cells, fr, fc);
        assert StackAt(g1, tr, tc) == s.cells[tr][tc];
        Land(s.(cells := g1), tr, tc, mover.value, kind.value).(turn := s.turn.Other())
  }

  /** A move actually happens: the destination is offered and a kind is settled. */
  predicate Moved(s: State, fr: int, fc: int, tr: int, tc: int, choice: Choice)
    requires WellFormed(s)
  {
    Targets(s, fr, fc, tr, tc) != [] && ResolveKind(Targets(s, fr, fc, tr, tc), choice).Some?
  }

  /** The kind a move performs, when it happens. */
  function MoveKind(s: State, fr: int, fc: int, tr: int, tc: int, choice: Choice): ActionKind
    requires WellFormed(s) && Moved(s, fr, fc, tr, tc, choice)
  {
    ResolveKind(Targets(s, fr, fc, tr, tc), choice).value
  }

  /** A move that happens is a pop from the source, a landing, and a turn change. */
  lemma MoveSteps(s: State, fr: int, fc: int, tr: int, tc: int, choice: Choice)
    requires WellFormed(s) && ChoiceFits(s, fr, fc, tr, tc, choice) && Moved(s, fr, fc, tr, tc, choice)
    ensures IsValidPos(fr, fc) && IsValidPos(tr, tc) && (fr, fc) != (tr, tc) && s.cells[fr][fc] != []
    ensures IsGrid(Pop(s.cells, fr, fc).1) && Pop(s.cells, fr, fc).1[tr][tc] == s.cells[tr][tc]
    ensures MoveKind(s, fr, fc, tr, tc, choice) == Betrayal ==> s.cells[tr][tc] != []
    ensures ApplyMove(s, fr, fc, tr, tc, choice) ==
      Land(s.(cells := Pop(s.cells, fr, fc).1), tr, tc, MoverAt(s, fr, fc).piece,
           MoveKind(s, fr, fc, tr, tc, choice)).(turn := s.turn.Other())
  {
    var kind := MoveKind(s, fr, fc, tr, tc, choice);
    assert kind in KindsOf(Targets(s, fr, fc, tr, tc));
    TargetCells(s, fr, fc, tr, tc, kind);
    assert StackAt(Pop(s.cells, fr, fc).1, tr, tc) == StackAt(s.cells, tr, tc);
  }

  /** A move that does not happen changes nothing. */
  lemma MoveSkipped(s: State, fr: int, fc: int, tr: int, tc: int, choice: Choice)
    requires WellFormed(s) && ChoiceFits(s, fr, fc, tr, tc, choice) && !Moved(s, fr, fc, tr, tc, choice)
    ensures ApplyMove(s, fr, fc, tr, tc, choice) == s
  {
  }

  /** Landing changes only the destination cell, the winner and the side to move's hand. */
  lemma LandFrame(s: State, r: int, c: int, p: Piece, kind: ActionKind)
    requires WellFormed(s) && IsValidPos(r, c) && (kind == Betrayal ==> s.cells[r][c] != [])
    ensures var s' := Land(s, r, c, p, kind);
      && (forall r', c' :: IsValidPos(r', c') && (r', c') != (r, c) ==> s'.cells[r'][c'] == s.cells[r'][c'])
      && s'.turn == s.turn && s'.phase == s.phase && s'.draft == s.draft && s'.rules == s.rules
      && s'.hands.Of(s.turn.Other()) == s.hands.Of(s.turn.Other())
  {
    var s' := Land(s, r, c, p, kind);
    forall r', c' | IsValidPos(r', c') && (r', c') != (r, c) ensures s'.cells[r'][c'] == s.cells[r'][c'] {
      assert StackAt(s'.cells, r', c') == StackAt(s.cells, r', c');
    }
  }

  /**
   * Nothing changes unless the move happens.  When it does, the source and
   * destination are two different cells on the board, the source loses its
   * top piece, every other cell, the phase, the draft record, the level
   * configuration and the other side's hand are untouched, and the turn
   * passes to the other side.
   */
  lemma MoveFrame(s: State, fr: int, fc: int, tr: int, tc: int, choice: Choice)
    requires WellFormed(s) && ChoiceFits(s, fr, fc, tr, tc, choice)
    ensures !Moved(s, fr, fc, tr, tc, choice) ==> ApplyMove(s, fr, fc, tr, tc, choice) == s
    ensures Moved(s, fr, fc, tr, tc, choice) ==>
      var s' := ApplyMove(s, fr, fc, tr, tc, choice);
      && IsValidPos(fr, fc) && IsValidPos(tr, tc) && (fr, fc) != (tr, tc)
      && s.cells[fr][fc] != [] && s'.cells[fr][fc] == s.cells[fr][fc][..|s.cells[fr][fc]| - 1]
      && (forall r, c :: IsValidPos(r, c) && (r, c) != (fr, fc) && (r, c) != (tr, tc) ==>
            s'.cells[r][c] == s.cells[r][c])
      && s'.turn == s.turn.Other() && s'.phase == s.phase && s'.draft == s.draft && s'.rules == s.rules
      && s'.hands.Of(s.turn.Other()) == s.hands.Of(s.turn.Other())
  {
    if Moved(s, fr, fc, tr, tc, choice) {
      MoveSteps(s, fr, fc, tr, tc, choice);
      var g1 := Pop(s.cells, fr, fc).1;
      var s1 := s.(cells := g1);
      LandFrame(s1, tr, tc, MoverAt(s, fr, fc).piece, MoveKind(s, fr, fc, tr, tc, choice));
      forall r, c | IsValidPos(r, c) && (r, c) != (fr, fc) ensures g1[r][c] == s.cells[r][c] {
        assert StackAt(g1, r, c) == StackAt(s.cells, r, c);
      }
      assert StackAt(g1, fr, fc) == s.cells[fr][fc][..|s.cells[fr][fc]| - 1];
    }
  }

  /** The kind a move performs is always one the destination offers. */
  lemma {:induction false} ResolvedKindOffered(s: State, fr: int, fc: int, tr: int, tc: int, choice: Choice)
    requires WellFormed(s) && ChoiceFits(s, fr, fc, tr, tc, choice) && Moved(s, fr, fc, tr, tc, choice)
    ensures exists a :: (a in Targets(s, fr, fc, tr, tc) && a.kind == MoveKind(s, fr, fc, tr, tc, choice))
  {
    var targets := Targets(s, fr, fc, tr, tc);
    var k := MoveKind(s, fr, fc, tr, tc, choice);
    assert k in KindsOf(targets);
    var a :| a in targets && a.kind == k;
  }

  /**
   * What an attack leaves when `p` lands on (r, c) of `s`, giving `s'`:
   * pieces not belonging to the side to move come off the top of the
   * stack (down to `KeepLen`) and `p` goes on top; the side to move becomes
   * the winner when a removed piece is a Marshal, whatever the winner was
   * before; no removed Marshal leaves the winner alone; hands are untouched.
   */
  predicate AttackLanded(s: State, s': State, r: int, c: int, p: Piece)
    requires WellFormed(s) && WellFormed(s') && IsValidPos(r, c)
  {
    var st := s.cells[r][c];
    var n := KeepLen(st, s.turn);
    && s'.cells[r][c] == st[..n] + [p]
    && s'.winner == (if HasName(st[n..], Marshal) then Some(s.turn) else s.winner)
    && s'.hands == s.hands
  }

  /** Landing as an attack, on its own. */
  lemma LandAttack(s: State, r: int, c: int, p: Piece)
    requires WellFormed(s) && IsValidPos(r, c)
    ensures AttackLanded(s, Land(s, r, c, p, Attack), r, c, p)
  {
  }

  /**
   * What a betrayal leaves when `p` lands on the occupied (r, c) of `s`,
   * giving `s'`: the stack grows by one; when the side to move holds a
   * piece named like the top piece there, the top piece is replaced by the
   * first such piece of that hand, which is spliced out of it (the other
   * hand is untouched), and `p` goes on top; otherwise `p` is simply pushed
   * and hands are untouched.  The winner does not change.
   */
  predicate BetrayalLanded(s: State, s': State, r: int, c: int, p: Piece)
    requires WellFormed(s) && WellFormed(s') && StackAt(s.cells, r, c) != []
  {
    var st := s.cells[r][c];
    var h := s.hands.Of(s.turn);
    && |s'.cells[r][c]| == |st| + 1
    && (HasName(h, st[|st| - 1].name) ==>
          exists i :: (0 <= i < |h| && FindName(h, st[|st| - 1].name) == Some(i)
            && s'.cells[r][c] == st[..|st| - 1] + [h[i], p]
            && s'.hands.Of(s.turn) == RemoveAt(h, i)
            && s'.hands.Of(s.turn.Other()) == s.hands.Of(s.turn.Other())))
    && (!HasName(h, st[|st| - 1].name) ==> s'.cells[r][c] == st + [p] && s'.hands == s.hands)
    && s'.winner == s.winner
  }

  /** Landing as a betrayal, on its own. */
  lemma LandBetrayal(s: State, r: int, c: int, p: Piece)
    requires WellFormed(s) && IsValidPos(r, c) && s.cells[r][c] != []
    ensures BetrayalLanded(s, Land(s, r, c, p, Betrayal), r, c, p)
  {
    var st := s.cells[r][c];
    var h := s.hands.Of(s.turn);
    var k := FindName(h, st[|st| - 1].name);
    if k.Some? {
      var i := k.value;
      assert h[i].name == st[|st| - 1].name;
    } else {
      assert StackAt(Push(s.cells, r, c, p), r, c) == st + [p];
    }
  }

  /**
   * An attack lands as `AttackLanded` describes for the board without the
   * mover.  An attack by a piece of the side to move removes at least the
   * top piece.
   */
  lemma AttackEffect(s: State, fr: int, fc: int, tr: int, tc: int, choice: Choice)
    requires WellFormed(s) && ChoiceFits(s, fr, fc, tr, tc, choice) && Moved(s, fr, fc, tr, tc, choice)
    requires MoveKind(s, fr, fc, tr, tc, choice) == Attack
    ensures StackAt(s.cells, fr, fc) != [] && IsValidPos(tr, tc)
    ensures AttackLanded(s, ApplyMove(s, fr, fc, tr, tc, choice), tr, tc, MoverAt(s, fr, fc).piece)
    ensures MoverAt(s, fr, fc).piece.owner == s.turn ==> KeepLen(s.cells[tr][tc], s.turn) < |s.cells[tr][tc]|
  {
    MoveSteps(s, fr, fc, tr, tc, choice);
    var s1 := s.(cells := Pop(s.cells, fr, fc).1);
    LandAttack(s1, tr, tc, MoverAt(s, fr, fc).piece);
    AttackTargetOccupied(s, fr, fc, tr, tc, choice);
  }

  /**
   * The destination `(tr, tc)` of an attack from `(fr, fc)` holds a piece
   * of the other owner on top, in a stack no taller than the attacker's.
   */
  predicate Attackable(g: Grid, fr: int, fc: int, tr: int, tc: int)
    requires IsGrid(g)
  {
    var src := StackAt(g, fr, fc);
    var st := StackAt(g, tr, tc);
    src != [] && st != [] && st[|st| - 1].owner != src[|src| - 1].owner && |st| <= |src|
  }

  /** The destination of an attack holds an opposing piece on top, no taller than the attacker. */
  lemma AttackTargetOccupied(s: State, fr: int, fc: int, tr: int, tc: int, choice: Choice)
    requires WellFormed(s) && ChoiceFits(s, fr, fc, tr, tc, choice) && Moved(s, fr, fc, tr, tc, choice)
    requires MoveKind(s, fr, fc, tr, tc, choice) == Attack
    ensures Attackable(s.cells, fr, fc, tr, tc)
  {
    ResolvedKindOffered(s, fr, fc, tr, tc, choice);
    var a :| a in Targets(s, fr, fc, tr, tc) && a.kind == Attack;
    OfferedAttack(s, fr, fc, tr, tc, a);
  }

  /** An attack offered at (tr, tc) finds that cell attackable. */
  lemma OfferedAttack(s: State, fr: int, fc: int, tr: int, tc: int, a: Action)
    requires WellFormed(s) && a in Targets(s, fr, fc, tr, tc) && a.kind == Attack
    ensures Attackable(s.cells, fr, fc, tr, tc)
  {
    TargetTag(s, fr, fc, tr, tc, a);
    AttackJustified(s, fr, fc, a);
  }

  /** One offered target: its cell is (tr, tc) and its tag is justified for the top of (fr, fc). */
  lemma TargetTag(s: State, fr: int, fc: int, tr: int, tc: int, a: Action)
    requires WellFormed(s) && a in Targets(s, fr, fc, tr, tc)
    ensures IsValidPos(fr, fc) && s.cells[fr][fc] != [] && a.r == tr && a.c == tc && IsValidPos(a.r, a.c)
    ensures TagJustified(s.cells, s.rules, MoverAt(s, fr, fc), a)
  {
    TargetFacts(s, fr, fc, tr, tc);
  }

  /** An attack tag from the top of (fr, fc) makes its cell attackable. */
  lemma AttackJustified(s: State, fr: int, fc: int, a: Action)
    requires WellFormed(s) && IsValidPos(fr, fc) && s.cells[fr][fc] != [] && IsValidPos(a.r, a.c)
    requires a.kind == Attack && TagJustified(s.cells, s.rules, MoverAt(s, fr, fc), a)
    ensures Attackable(s.cells, fr, fc, a.r, a.c)
  {
  }

  /**
   * A betrayal lands as `BetrayalLanded` describes: the destination's top
   * piece goes back and a piece of the same name from the side to move's
   * hand takes its place under the mover.
   */
  lemma BetrayalEffect(s: State, fr: int, fc: int, tr: int, tc: int, choice: Choice)
    requires WellFormed(s) && ChoiceFits(s, fr, fc, tr, tc, choice) && Moved(s, fr, fc, tr, tc, choice)
    requires MoveKind(s, fr, fc, tr, tc, choice) == Betrayal
    ensures StackAt(s.cells, fr, fc) != [] && StackAt(s.cells, tr, tc) != []
    ensures BetrayalLanded(s, ApplyMove(s, fr, fc, tr, tc, choice), tr, tc, MoverAt(s, fr, fc).piece)
  {
    MoveSteps(s, fr, fc, tr, tc, choice);
    var s1 := s.(cells := Pop(s.cells, fr, fc).1);
    LandBetrayal(s1, tr, tc, MoverAt(s, fr, fc).piece);
  }

  /** Every stack on the board is within the level's height cap. */
  ghost predicate HeightBound(s: State)
    requires WellFormed(s)
  {
    forall r, c :: IsValidPos(r, c) ==> |s.cells[r][c]| <= s.rules.maxStackHeight
  }

  /**
   * Moving one of the side to move's own pieces keeps every stack within
   * the height cap: an attack removes at least one piece before adding the
   * attacker, and stacking or a betrayal are only offered below the cap.
   */
  lemma MoveKeepsHeightBound(s: State, fr: int, fc: int, tr: int, tc: int, choice: Choice)
    requires WellFormed(s) && ChoiceFits(s, fr, fc, tr, tc, choice)
    requires HeightBound(s) && s.rules.maxStackHeight >= 1
    requires StackAt(s.cells, fr, fc) != [] ==> MoverAt(s, fr, fc).piece.owner == s.turn
    ensures HeightBound(ApplyMove(s, fr, fc, tr, tc, choice))
  {
    if Moved(s, fr, fc, tr, tc, choice) {
      var s' := ApplyMove(s, fr, fc, tr, tc, choice);
      MoveFrame(s, fr, fc, tr, tc, choice);
      DestinationHeight(s, fr, fc, tr, tc, choice);
      forall r, c | IsValidPos(r, c) ensures |s'.cells[r][c]| <= s'.rules.maxStackHeight {
        if (r, c) != (tr, tc) && (r, c) != (fr, fc) {
          assert s'.cells[r][c] == s.cells[r][c];
        }
      }
    }
  }

  /** The destination of a move by the side to move stays within the height cap. */
  lemma DestinationHeight(s: State, fr: int, fc: int, tr: int, tc: int, choice: Choice)
    requires WellFormed(s) && ChoiceFits(s, fr, fc, tr, tc, choice) && Moved(s, fr, fc, tr, tc, choice)
    requires HeightBound(s) && s.rules.maxStackHeight >= 1
    requires StackAt(s.cells, fr, fc) != [] ==> MoverAt(s, fr, fc).piece.owner == s.turn
    ensures IsValidPos(tr, tc)
    ensures |ApplyMove(s, fr, fc, tr, tc, choice).cells[tr][tc]| <= s.rules.maxStackHeight
  {
    var kind := MoveKind(s, fr, fc, tr, tc, choice);
    if kind == Attack {
      AttackHeight(s, fr, fc, tr, tc, choice);
    } else if kind == Betrayal {
      BetrayalHeight(s, fr, fc, tr, tc, choice);
    } else {
      PlainHeight(s, fr, fc, tr, tc, choice);
    }
  }

  /** An attack takes off at least one piece before putting the attacker on. */
  lemma AttackHeight(s: State, fr: int, fc: int, tr: int, tc: int, choice: Choice)
    requires WellFormed(s) && ChoiceFits(s, fr, fc, tr, tc, choice) && Moved(s, fr, fc, tr, tc, choice)
    requires HeightBound(s) && s.rules.maxStackHeight >= 1
    requires StackAt(s.cells, fr, fc) != [] ==> MoverAt(s, fr, fc).piece.owner == s.turn
    requires MoveKind(s, fr, fc, tr, tc, choice) == Attack
    ensures IsValidPos(tr, tc)
    ensures |ApplyMove(s, fr, fc, tr, tc, choice).cells[tr][tc]| <= s.rules.maxStackHeight
  {
    AttackEffect(s, fr, fc, tr, tc, choice);
  }

  /** A betrayal is only offered where stacking is, that is below the cap. */
  lemma BetrayalHeight(s: State, fr: int, fc: int, tr: int, tc: int, choice: Choice)
    requires WellFormed(s) && ChoiceFits(s, fr, fc, tr, tc, choice) && Moved(s, fr, fc, tr, tc, choice)
    requires HeightBound(s) && s.rules.maxStackHeight >= 1
    requires StackAt(s.cells, fr, fc) != [] ==> MoverAt(s, fr, fc).piece.owner == s.turn
    requires MoveKind(s, fr, fc, tr, tc, choice) == Betrayal
    ensures IsValidPos(tr, tc)
    ensures |ApplyMove(s, fr, fc, tr, tc, choice).cells[tr][tc]| <= s.rules.maxStackHeight
  {
    BetrayalEffect(s, fr, fc, tr, tc, choice);
    TargetFacts(s, fr, fc, tr, tc);
    ResolvedKindOffered(s, fr, fc, tr, tc, choice);
    var a :| a in Targets(s, fr, fc, tr, tc) && a.kind == Betrayal;
    assert Action(tr, tc, Stack) in Targets(s, fr, fc, tr, tc);
  }

  /** A plain move lands on an empty cell, a stack below the cap. */
  lemma PlainHeight(s: State, fr: int, fc: int, tr: int, tc: int, choice: Choice)
    requires WellFormed(s) && ChoiceFits(s, fr, fc, tr, tc, choice) && Moved(s, fr, fc, tr, tc, choice)
    requires HeightBound(s) && s.rules.maxStackHeight >= 1
    requires StackAt(s.cells, fr, fc) != [] ==> MoverAt(s, fr, fc).piece.owner == s.turn
    requires MoveKind(s, fr, fc, tr, tc, choice) !in {Attack, Betrayal}
    ensures IsValidPos(tr, tc)
    ensures |ApplyMove(s, fr, fc, tr, tc, choice).cells[tr][tc]| <= s.rules.maxStackHeight
  {
    PlainEffect(s, fr, fc, tr, tc, choice);
    TargetFacts(s, fr, fc, tr, tc);
    ResolvedKindOffered(s, fr, fc, tr, tc, choice);
    var a :| a in Targets(s, fr, fc, tr, tc) && a.kind == MoveKind(s, fr, fc, tr, tc, choice);
    assert TagJustified(s.cells, s.rules, MoverAt(s, fr, fc), a);
  }

  /**
   * A move that is neither an attack nor a betrayal puts the mover on top
   * of the destination and leaves the hands and the winner alone.
   */
  lemma PlainEffect(s: State, fr: int, fc: int, tr: int, tc: int, choice: Choice)
    requires WellFormed(s) && ChoiceFits(s, fr, fc, tr, tc, choice) && Moved(s, fr, fc, tr, tc, choice)
    requires MoveKind(s, fr, fc, tr, tc, choice) !in {Attack, Betrayal}
    ensures IsValidPos(fr, fc) && IsValidPos(tr, tc) && s.cells[fr][fc] != []
    ensures var s' := ApplyMove(s, fr, fc, tr, tc, choice);
      && s'.cells[tr][tc] == s.cells[tr][tc] + [MoverAt(s, fr, fc).piece]
      && s'.hands == s.hands && s'.winner == s.winner
  {
    MoveSteps(s, fr, fc, tr, tc, choice);
    var s1 := s.(cells := Pop(s.cells, fr, fc).1);
    LandPlain(s1, tr, tc, MoverAt(s, fr, fc).piece, MoveKind(s, fr, fc, tr, tc, choice));
  }

  /** A plain landing pushes the piece and touches neither hands nor winner. */
  lemma LandPlain(s: State, r: int, c: int, p: Piece, kind: ActionKind)
    requires WellFormed(s) && IsValidPos(r, c) && kind !in {Attack, Betrayal}
    ensures var s' := Land(s, r, c, p, kind);
      s'.cells[r][c] == s.cells[r][c] + [p] && s'.hands == s.hands && s'.winner == s.winner
  {
    assert StackAt(Push(s.cells, r, c, p), r, c) == s.cells[r][c] + [p];
  }

  // ----- drops during play ------------------------------------------------------

  /**
   * `tryDropPiece`: when the frontline rule allows (r, c), the `idx`-th
   * piece of the hand of the side to move is put there and the turn passes.
   */
  function ApplyDrop(s: State, idx: nat, r: int, c: int): (s': State)
    requires WellFormed(s) && idx < |s.hands.Of(s.turn)|
    ensures WellFormed(s')
    ensures s'.phase == s.phase && s'.draft == s.draft && s'.rules == s.rules && s'.winner == s.winner
    ensures s'.hands.Of(s.turn.Other()) == s.hands.Of(s.turn.Other())
    ensures DropAllowed(s.cells, s.turn, r, c) <==> s'.turn == s.turn.Other()
  {
    if !DropAllowed(s.cells, s.turn, r, c) then s
    else
      var hand := s.hands.Of(s.turn);
      s.(cells := Push(s.cells, r, c, hand[idx]),
         hands := s.hands.With(s.turn, RemoveAt(hand, idx)),
         turn := s.turn.Other())
  }

  /**
   * A drop the frontline rule forbids changes nothing.  An allowed one puts
   * exactly the chosen hand piece on the empty cell, which the hand loses,
   * leaves every other cell alone, passes the turn, and keeps the height cap.
   */
  lemma DropEffect(s: State, idx: nat, r: int, c: int)
    requires WellFormed(s) && idx < |s.hands.Of(s.turn)|
    ensures !DropAllowed(s.cells, s.turn, r, c) ==> ApplyDrop(s, idx, r, c) == s
    ensures DropAllowed(s.cells, s.turn, r, c) ==>
      var s' := ApplyDrop(s, idx, r, c);
      var h := s.hands.Of(s.turn);
      && s.cells[r][c] == [] && s'.cells[r][c] == [h[idx]]
      && (forall r', c' :: IsValidPos(r', c') && (r', c') != (r, c) ==> s'.cells[r'][c'] == s.cells[r'][c'])
      && s'.hands.Of(s.turn) == RemoveAt(h, idx)
      && s'.hands.Of(s.turn.Other()) == s.hands.Of(s.turn.Other())
      && s'.turn == s.turn.Other()
      && s'.phase == s.phase && s'.draft == s.draft && s'.winner == s.winner && s'.rules == s.rules
      && (HeightBound(s) && s.rules.maxStackHeight >= 1 ==> HeightBound(s'))
  {
    if DropAllowed(s.cells, s.turn, r, c) {
      var s' := ApplyDrop(s, idx, r, c);
      assert StackAt(s'.cells, r, c) == StackAt(s.cells, r, c) + [s.hands.Of(s.turn)[idx]];
      forall r', c' | IsValidPos(r', c') && (r', c') != (r, c) ensures s'.cells[r'][c'] == s.cells[r'][c'] {
        assert StackAt(s'.cells, r', c') == StackAt(s.cells, r', c');
      }
    }
  }

  // ----- the draft ------------------------------------------------------------

  /** `startGame`: play begins with `Self` to move; nothing else changes. */
  function StartGame(s: State): (s': State)
    ensures s'.phase == Playing && s'.turn == Self
    ensures s'.cells == s.cells && s'.hands == s.hands && s'.draft == s.draft
    ensures s'.winner == s.winner && s'.rules == s.rules
  {
    s.(phase := Playing, turn := Self)
  }

  /** `switchTurn`: the other side moves next; nothing else changes. */
  function SwitchTurn(s: State): (s': State)
    ensures s'.turn != s.turn && s' == s.(turn := s'.turn)
  {
    s.(turn := s.turn.Other())
  }

  /** The rows a side may place on while drafting: its own three back rows. */
  predicate DraftRow(side: Side, r: int) {
    if side == Self then 6 <= r <= 8 else 0 <= r <= 2
  }

  function MarkMarshalPlaced(d: DraftState, side: Side): (d': DraftState)
    ensures d'.MarshalPlaced(side) && d'.MarshalPlaced(side.Other()) == d.MarshalPlaced(side.Other())
    ensures d'.selfDone == d.selfDone && d'.opponentDone == d.opponentDone && d'.turnMoved == d.turnMoved
  {
    if side == Self then d.(selfMarshalPlaced := true) else d.(opponentMarshalPlaced := true)
  }

  /** Whether a draft placement is refused before anything changes. */
  predicate DraftDropRefused(s: State, idx: nat, r: int, c: int)
    requires WellFormed(s) && idx < |s.hands.Of(s.turn)|
  {
    || !DraftRow(s.turn, r)
    || StackAt(s.cells, r, c) != []
    || (!s.draft.MarshalPlaced(s.turn) && s.hands.Of(s.turn)[idx].name != Marshal)
  }

  /**
   * `tryDraftDrop`: the side to move places its `idx`-th hand piece on an
   * empty cell of its back rows, its Marshal first.  Only the row is
   * checked, not the column: an off-board column passes the checks, so the
   * hand piece is used up without reaching the board.
   */
  function ApplyDraftDrop(s: State, idx: nat, r: int, c: int): (s': State)
    requires WellFormed(s) && idx < |s.hands.Of(s.turn)|
    ensures WellFormed(s')
    ensures s'.rules == s.rules && s'.winner == s.winner
    ensures s'.hands.Of(s.turn.Other()) == s.hands.Of(s.turn.Other())
    ensures DraftDropRefused(s, idx, r, c) <==> |s'.hands.Of(s.turn)| == |s.hands.Of(s.turn)|
  {
    if DraftDropRefused(s, idx, r, c) then s
    else
      var hand := s.hands.Of(s.turn);
      var p := hand[idx];
      var d := if p.name == Marshal then MarkMarshalPlaced(s.draft, s.turn) else s.draft;
      var s1 := s.(cells := Push(s.cells, r, c, p), hands := s.hands.With(s.turn, RemoveAt(hand, idx)), draft := d);
      if s.turn != Self && s.draft.selfDone then StartGame(s1)
      else s1.(draft := d.(turnMoved := true))
  }

  /**
   * A refused placement changes nothing.  An accepted one moves exactly the
   * chosen hand piece onto the (empty) target cell and records that the
   * side has placed; the turn stays, unless `Opponent` places while `Self`
   * is already done, which starts play.
   */
  lemma DraftDropEffect(s: State, idx: nat, r: int, c: int)
    requires WellFormed(s) && idx < |s.hands.Of(s.turn)|
    ensures DraftDropRefused(s, idx, r, c) ==> ApplyDraftDrop(s, idx, r, c) == s
    ensures !DraftDropRefused(s, idx, r, c) ==>
      var s' := ApplyDraftDrop(s, idx, r, c);
      var h := s.hands.Of(s.turn);
      && DraftRow(s.turn, r)
      && (IsValidPos(r, c) ==> s.cells[r][c] == [] && s'.cells[r][c] == [h[idx]])
      && (forall r', c' :: IsValidPos(r', c') && (r', c') != (r, c) ==> s'.cells[r'][c'] == s.cells[r'][c'])
      && s'.hands.Of(s.turn) == RemoveAt(h, idx)
      && s'.hands.Of(s.turn.Other()) == s.hands.Of(s.turn.Other())
      && s'.winner == s.winner && s'.rules == s.rules
      && s'.draft.selfDone == s.draft.selfDone && s'.draft.opponentDone == s.draft.opponentDone
      && s'.draft.MarshalPlaced(s.turn) == (s.draft.MarshalPlaced(s.turn) || h[idx].name == Marshal)
      && s'.draft.MarshalPlaced(s.turn.Other()) == s.draft.MarshalPlaced(s.turn.Other())
      && (s.turn == Opponent && s.draft.selfDone ==> s'.phase == Playing && s'.turn == Self)
      && (!(s.turn == Opponent && s.draft.selfDone) ==>
            s'.turn == s.turn && s'.phase == s.phase && s'.draft.turnMoved)
  {
    if !DraftDropRefused(s, idx, r, c) {
      var s' := ApplyDraftDrop(s, idx, r, c);
      forall r', c' | IsValidPos(r', c') && (r', c') != (r, c) ensures s'.cells[r'][c'] == s.cells[r'][c'] {
        assert StackAt(s'.cells, r', c') == StackAt(s.cells, r', c');
      }
      if IsValidPos(r, c) {
        assert StackAt(s'.cells, r, c) == StackAt(s.cells, r, c) + [s.hands.Of(s.turn)[idx]];
      }
    }
  }

  /**
   * `switchDraftTurn` (passing): when `Opponent` passes after `Self` is
   * done, play starts; otherwise the turn goes to the other side unless it
   * is already done, and the placement mark is cleared.
   */
  function SwitchDraftTurn(s: State): (s': State)
    ensures s'.cells == s.cells && s'.hands == s.hands && s'.winner == s.winner && s'.rules == s.rules
    ensures s'.draft.selfDone == s.draft.selfDone && s'.draft.opponentDone == s.draft.opponentDone
  {
    if s.turn == Opponent && s.draft.selfDone then StartGame(s)
    else
      var next := s.turn.Other();
      s.(draft := s.draft.(turnMoved := false),
         turn := if s.draft.Done(next) then s.turn else next)
  }

  /** Passing never hands the draft turn to a side that has already finished. */
  lemma SwitchDraftTurnSkipsDone(s: State)
    ensures var s' := SwitchDraftTurn(s);
      s.turn == Opponent && s.draft.selfDone ==> s'.phase == Playing && s'.turn == Self
    ensures var s' := SwitchDraftTurn(s);
      !(s.turn == Opponent && s.draft.selfDone) ==>
        (s'.turn == s.turn || !s.draft.Done(s'.turn)) && !s'.draft.turnMoved &&
        (s'.turn == s.turn <==> s.draft.Done(s.turn.Other()))
  {
  }

  /**
   * `declareSetupDone`: outside the draft, or before the side to move has
   * placed its Marshal, nothing happens.  `Self` finishing hands the draft
   * to `Opponent`; `Opponent` finishing starts play.
   */
  function DeclareSetupDone(s: State): (s': State)
    ensures s.phase != Draft || !s.draft.MarshalPlaced(s.turn) ==> s' == s
    ensures s.phase == Draft && s.draft.MarshalPlaced(s.turn) && s.turn == Self ==>
      s'.draft.selfDone && s'.turn == Opponent && s'.phase == Draft && !s'.draft.turnMoved
    ensures s.phase == Draft && s.draft.MarshalPlaced(s.turn) && s.turn == Opponent ==>
      s'.draft.opponentDone && s'.turn == Self && s'.phase == Playing
    ensures s'.cells == s.cells && s'.hands == s.hands
  {
    if s.phase != Draft || !s.draft.MarshalPlaced(s.turn) then s
    else if s.turn == Self then
      s.(draft := s.draft.(selfDone := true, turnMoved := false), turn := Opponent)
    else StartGame(s.(draft := s.draft.(opponentDone := true)))
  }

  /**
   * What the draft keeps true for each side: it holds its Marshal in hand
   * exactly until it has placed it, and it only finishes after placing it.
   */
  predicate DraftSideConsistent(s: State, side: Side) {
    && CountName(s.hands.Of(side), Marshal) == (if s.draft.MarshalPlaced(side) then 0 else 1)
    && (s.draft.Done(side) ==> s.draft.MarshalPlaced(side))
  }

  /**
   * The draft invariant: both sides consistent and, while drafting, the
   * side to move has not finished and `Opponent` has not finished (its
   * finishing starts play).
   */
  predicate DraftInvariant(s: State) {
    && DraftSideConsistent(s, Self) && DraftSideConsistent(s, Opponent)
    && (s.phase == Draft ==> !s.draft.Done(s.turn) && !s.draft.opponentDone)
  }

  lemma {:induction false} DraftDropKeepsInvariant(s: State, idx: nat, r: int, c: int)
    requires WellFormed(s) && idx < |s.hands.Of(s.turn)| && DraftInvariant(s)
    ensures DraftInvariant(ApplyDraftDrop(s, idx, r, c))
  {
    if !DraftDropRefused(s, idx, r, c) {
      var h := s.hands.Of(s.turn);
      CountNameRemoveAt(h, idx, Marshal);
      var s' := ApplyDraftDrop(s, idx, r, c);
      assert s'.hands.Of(s.turn) == RemoveAt(h, idx);
      assert s'.hands.Of(s.turn.Other()) == s.hands.Of(s.turn.Other());
      assert s'.draft.Done(Self) == s.draft.Done(Self) && s'.draft.Done(Opponent) == s.draft.Done(Opponent);
      if s.turn == Self {
        assert DraftSideConsistent(s', Self);
      } else {
        assert DraftSideConsistent(s', Opponent);
      }
    }
  }

  lemma SwitchDraftTurnKeepsInvariant(s: State)
    requires DraftInvariant(s)
    ensures DraftInvariant(SwitchDraftTurn(s))
  {
    var s' := SwitchDraftTurn(s);
    assert s'.hands == s.hands;
  }

  lemma DeclareSetupDoneKeepsInvariant(s: State)
    requires DraftInvariant(s)
    ensures DraftInvariant(DeclareSetupDone(s))
  {
    var s' := DeclareSetupDone(s);
    assert s'.hands == s.hands;
  }

  // ----- setup ----------------------------------------------------------------

  /** The names of the 24 pieces each side drafts from, Marshal first. */
  const DraftNames: seq<PieceType> := [
    Marshal, General, LtGeneral, Spy, Musket, Cannon, Archer,
    Major, Major, Samurai, Samurai, Ninja, Ninja,
    Knight, Knight, Fortress, Fortress,
    Lance, Lance, Lance,
    Pawn, Pawn, Pawn, Pawn]

  function OwnedBy(names: seq<PieceType>, owner: Side): (h: seq<Piece>)
    ensures |h| == |names| && forall i :: 0 <= i < |h| ==> h[i] == Piece(names[i], owner)
  {
    seq(|names|, i requires 0 <= i < |names| => Piece(names[i], owner))
  }

  /**
   * `setupDraftBoard`: each side receives the full draft set in hand and the
   * draft record starts afresh; the board is left as it is.
   */
  function SetupDraft(s: State): (s': State)
    ensures s'.hands.Of(Self) == OwnedBy(DraftNames, Self)
    ensures s'.hands.Of(Opponent) == OwnedBy(DraftNames, Opponent)
    ensures s'.draft == NoDraft
    ensures s' == s.(hands := s'.hands, draft := NoDraft)
  {
    s.(hands := Hands(OwnedBy(DraftNames, Self), OwnedBy(DraftNames, Opponent)), draft := NoDraft)
  }

  /** The variants of the fixed opening. */
  datatype Special = Basic | ArcherOnly

  /** The piece types a fixed opening leaves out. */
  function RemovedTypes(sp: Special): set<PieceType> {
    if sp == Basic then {Archer, Musket, Cannon, Spy} else {Musket, Cannon, Spy}
  }

  /** The hand each side starts a fixed opening with, before removal. */
  const InitialHandNames: seq<PieceType> := [Major, Major, Lance, Knight, Ninja, Pawn, Cannon, Musket, Spy]

  /** The pieces named in `names`, in order, less the removed types. */
  function HandFrom(names: seq<PieceType>, owner: Side, removed: set<PieceType>): (h: seq<Piece>)
    ensures |h| <= |names|
    ensures removed == {} ==> |h| == |names|
  {
    if names == [] then []
    else (if names[0] in removed then [] else [Piece(names[0], owner)]) + HandFrom(names[1..], owner, removed)
  }

  /**
   * The dealt hand holds only pieces of `owner` whose names are listed and
   * not removed, and each listed name not removed as many times as it is listed.
   */
  lemma {:induction false} HandFromContents(names: seq<PieceType>, owner: Side, removed: set<PieceType>)
    ensures forall p :: p in HandFrom(names, owner, removed) ==> p.owner == owner && p.name in names && p.name !in removed
    ensures forall n :: n !in removed ==> CountName(HandFrom(names, owner, removed), n) == Count(names, n)
    ensures forall n :: n in removed ==> CountName(HandFrom(names, owner, removed), n) == 0
  {
    if names != [] {
      HandFromContents(names[1..], owner, removed);
      var head: seq<Piece> := if names[0] in removed then [] else [Piece(names[0], owner)];
      forall n ensures CountName(HandFrom(names, owner, removed), n) == CountName(head, n) + CountName(HandFrom(names[1..], owner, removed), n) {
        CountNameConcat(head, HandFrom(names[1..], owner, removed), n);
      }
      forall p | p in HandFrom(names, owner, removed) ensures p.name in names {
        if p !in head {
          assert p.name in names[1..];
        }
      }
    }
  }

  /** How many times a name is listed. */
  function Count(names: seq<PieceType>, n: PieceType): nat {
    if names == [] then 0 else (if names[0] == n then 1 else 0) + Count(names[1..], n)
  }

  datatype Placement = Placement(r: int, c: int, piece: Piece)

  /** The fixed opening, in the order the pieces are put down. */
  const FixedLayout: seq<Placement> := [
    Placement(0, 3, Piece(General, Opponent)),
    Placement(0, 4, Piece(Marshal, Opponent)),
    Placement(0, 5, Piece(LtGeneral, Opponent)),
    Placement(1, 1, Piece(Ninja, Opponent)),
    Placement(1, 2, Piece(Archer, Opponent)),
    Placement(1, 4, Piece(Lance, Opponent)),
    Placement(1, 6, Piece(Archer, Opponent)),
    Placement(1, 7, Piece(Knight, Opponent)),
    Placement(2, 0, Piece(Pawn, Opponent)),
    Placement(2, 2, Piece(Fortress, Opponent)),
    Placement(2, 3, Piece(Samurai, Opponent)),
    Placement(2, 4, Piece(Pawn, Opponent)),
    Placement(2, 5, Piece(Samurai, Opponent)),
    Placement(2, 6, Piece(Fortress, Opponent)),
    Placement(2, 8, Piece(Pawn, Opponent)),
    Placement(8, 3, Piece(LtGeneral, Self)),
    Placement(8, 4, Piece(Marshal, Self)),
    Placement(8, 5, Piece(General, Self)),
    Placement(7, 1, Piece(Ninja, Self)),
    Placement(7, 2, Piece(Archer, Self)),
    Placement(7, 4, Piece(Lance, Self)),
    Placement(7, 6, Piece(Archer, Self)),
    Placement(7, 7, Piece(Knight, Self)),
    Placement(6, 0, Piece(Pawn, Self)),
    Placement(6, 2, Piece(Fortress, Self)),
    Placement(6, 3, Piece(Samurai, Self)),
    Placement(6, 4, Piece(Pawn, Self)),
    Placement(6, 5, Piece(Samurai, Self)),
    Placement(6, 6, Piece(Fortress, Self)),
    Placement(6, 8, Piece(Pawn, Self))
  ]

  /** Puts the pieces of `ps` down one after another. */
  function PlaceAll(g: Grid, ps: seq<Placement>): (g': Grid)
    requires IsGrid(g)
    ensures IsGrid(g')
  {
    if ps == [] then g
    else
      var last := ps[|ps| - 1];
      Push(PlaceAll(g, ps[..|ps| - 1]), last.r, last.c, last.piece)
  }

  /** Placing only adds pieces on top: every stack before is a prefix of the stack after. */
  lemma {:induction false} PlaceAllExtends(g: Grid, ps: seq<Placement>)
    requires IsGrid(g)
    ensures forall r, c :: IsValidPos(r, c) ==> g[r][c] <= PlaceAll(g, ps)[r][c]
  {
    if ps != [] {
      PlaceAllExtends(g, ps[..|ps| - 1]);
    }
  }

  /**
   * The sweep of a fixed opening: a cell whose bottom piece is of a removed
   * type is cleared, every other cell is left as it is.
   */
  function Sweep(g: Grid, removed: set<PieceType>): (g': Grid)
    requires IsGrid(g)
    ensures IsGrid(g')
    ensures forall r, c :: IsValidPos(r, c) ==>
      (g'[r][c] == [] && g[r][c] != [] && g[r][c][0].name in removed) ||
      (g'[r][c] == g[r][c] && (g[r][c] == [] || g[r][c][0].name !in removed))
  {
    seq(Rows, r requires 0 <= r < Rows =>
      seq(Cols, c requires 0 <= c < Cols =>
        if g[r][c] != [] && g[r][c][0].name in removed then [] else g[r][c]))
  }

  /**
   * `setupFixedBoard`: the fixed opening goes onto the board, the cells
   * whose bottom piece is of a removed type are cleared, and each side's
   * hand becomes the initial hand less the removed types.
   */
  function SetupFixed(s: State, sp: Special): (s': State)
    requires WellFormed(s)
    ensures WellFormed(s')
    ensures s'.turn == s.turn && s'.phase == s.phase && s'.draft == s.draft
    ensures s'.winner == s.winner && s'.rules == s.rules
  {
    s.(cells := Sweep(PlaceAll(s.cells, FixedLayout), RemovedTypes(sp)),
       hands := Hands(HandFrom(InitialHandNames, Self, RemovedTypes(sp)),
                      HandFrom(InitialHandNames, Opponent, RemovedTypes(sp))))
  }

  /**
   * `startLevel`: a fresh board, `Self` to move, no winner; then the
   * configuration of the level.  An unknown level gets the basic fixed
   * opening but keeps the previous phase, cap and Marshal-stacking flag.
   */
  function StartLevel(s: State, level: Level): (s': State)
    ensures WellFormed(s')
    ensures s'.turn == Self && s'.winner == None && s'.rules.level == Some(level)
  {
    ConfigureLevel(s.(cells := EmptyGrid(), turn := Self, winner := None, rules := s.rules.(level := Some(level))), level)
  }

  /** The level switch of `startLevel`, applied once the board is fresh. */
  function ConfigureLevel(s0: State, level: Level): (s': State)
    requires WellFormed(s0)
    ensures WellFormed(s')
    ensures s'.turn == s0.turn && s'.winner == s0.winner && s'.rules.level == s0.rules.level
    ensures !level.Other? ==> s'.rules.maxStackHeight == 2 && (s'.rules.canMarshalStack <==> level == Intermediate)
    ensures level.Other? ==> s'.phase == s0.phase && s'.rules == s0.rules
  {
    match level
    case Beginner => SetupFixed(s0.(rules := s0.rules.(maxStackHeight := 2, canMarshalStack := false), phase := Playing), Basic)
    case Novice => SetupFixed(s0.(rules := s0.rules.(maxStackHeight := 2, canMarshalStack := false), phase := Playing), ArcherOnly)
    case Intermediate => SetupDraft(s0.(rules := s0.rules.(maxStackHeight := 2, canMarshalStack := true), phase := Draft))
    case Other(_) => SetupFixed(s0, Basic)
  }

  /** Orders the rows of the fixed opening: 0, 1, 2, then 8, 7, 6, then the rest. */
  function RowRank(r: int): int {
    if r <= 2 then r else 11 - r
  }

  function LayoutKey(p: Placement): int {
    RowRank(p.r) * Cols + p.c
  }

  /** Every entry of a layout is on the board, each side on its own three back rows. */
  predicate OnBackRows(ps: seq<Placement>) {
    forall i :: 0 <= i < |ps| ==>
      && IsValidPos(ps[i].r, ps[i].c)
      && (ps[i].piece.owner == Self ==> 6 <= ps[i].r <= 8)
      && (ps[i].piece.owner == Opponent ==> 0 <= ps[i].r <= 2)
  }

  /** The entries of a layout come in increasing key order, so no two share a cell. */
  predicate KeysSorted(ps: seq<Placement>) {
    forall k :: 0 <= k < |ps| - 1 ==> LayoutKey(ps[k]) < LayoutKey(ps[k + 1])
  }

  lemma FixedLayoutShape()
    ensures OnBackRows(FixedLayout) && KeysSorted(FixedLayout)
  {
    FixedLayoutOnBackRows();
    FixedLayoutSorted();
  }

  lemma FixedLayoutOnBackRows()
    ensures OnBackRows(FixedLayout)
  {
    var ps := FixedLayout;
    assert forall i :: 0 <= i < |ps| ==>
      var p := ps[i];
      && IsValidPos(p.r, p.c)
      && (p.piece.owner == Self ==> 6 <= p.r <= 8)
      && (p.piece.owner == Opponent ==> 0 <= p.r <= 2);
  }

  lemma FixedLayoutSorted()
    ensures KeysSorted(FixedLayout)
  {
    var ps := FixedLayout;
    assert forall i :: 0 <= i < |ps| - 1 ==> LayoutKey(ps[i]) < LayoutKey(ps[i + 1]);
  }

  /** The piece a layout puts at (r, c), if any (the last one when several do). */
  function PlacedAt(ps: seq<Placement>, r: int, c: int): (p: Option<Piece>)
    ensures p.Some? ==> exists i :: 0 <= i < |ps| && ps[i] == Placement(r, c, p.value)
    ensures p.None? ==> forall i :: 0 <= i < |ps| ==> (ps[i].r, ps[i].c) != (r, c)
  {
    if ps == [] then None
    else
      var last := ps[|ps| - 1];
      if last.r == r && last.c == c then Some(last.piece)
      else
        var q := PlacedAt(ps[..|ps| - 1], r, c);
        assert forall i :: 0 <= i < |ps| - 1 ==> ps[..|ps| - 1][i] == ps[i];
        q
  }

  lemma {:induction false} KeysIncreasing(ps: seq<Placement>, i: int, j: int)
    requires KeysSorted(ps)
    requires 0 <= i < j < |ps|
    ensures LayoutKey(ps[i]) < LayoutKey(ps[j])
    decreases j - i
  {
    if i + 1 < j {
      KeysIncreasing(ps, i + 1, j);
    }
  }

  /**
   * Putting down a layout whose cells have increasing keys adds exactly one
   * piece to each cell it names and nothing anywhere else.
   */
  lemma {:induction false} PlaceAllDistinct(g: Grid, ps: seq<Placement>)
    requires IsGrid(g)
    requires forall i :: 0 <= i < |ps| ==> IsValidPos(ps[i].r, ps[i].c)
    requires KeysSorted(ps)
    ensures forall r, c :: IsValidPos(r, c) ==>
      PlaceAll(g, ps)[r][c] == g[r][c] + match PlacedAt(ps, r, c) case Some(p) => [p] case None => []
  {
    if ps != [] {
      var n := |ps| - 1;
      var init := ps[..n];
      var last := ps[n];
      assert forall k :: 0 <= k < |init| ==> init[k] == ps[k];
      assert KeysSorted(init);
      PlaceAllDistinct(g, init);
      var prev := PlaceAll(g, init);
      forall r, c | IsValidPos(r, c)
        ensures PlaceAll(g, ps)[r][c] == g[r][c] + match PlacedAt(ps, r, c) case Some(p) => [p] case None => []
      {
        assert StackAt(PlaceAll(g, ps), r, c) ==
          if (r, c) == (last.r, last.c) then StackAt(prev, r, c) + [last.piece] else StackAt(prev, r, c);
        if (r, c) == (last.r, last.c) {
          if PlacedAt(init, r, c).Some? {
            var i :| 0 <= i < |init| && init[i] == Placement(r, c, PlacedAt(init, r, c).value);
            KeysIncreasing(ps, i, n);
            assert false;
          }
        }
      }
    }
  }

  /** Two entries of a sorted layout never name the same cell. */
  lemma LayoutUnique(ps: seq<Placement>, i: int, j: int)
    requires KeysSorted(ps) && OnBackRows(ps)
    requires 0 <= i < |ps| && 0 <= j < |ps|
    requires ps[i].r == ps[j].r && ps[i].c == ps[j].c
    ensures i == j
  {
    if i < j {
      KeysIncreasing(ps, i, j);
    } else if j < i {
      KeysIncreasing(ps, j, i);
    }
  }

  /** A cell of a sorted layout put down on an empty board and swept. */
  lemma OpeningCell(g: Grid, ps: seq<Placement>, removed: set<PieceType>, r: int, c: int)
    requires IsGrid(g) && forall r, c :: IsValidPos(r, c) ==> g[r][c] == []
    requires OnBackRows(ps) && KeysSorted(ps) && IsValidPos(r, c)
    ensures var cell := Sweep(PlaceAll(g, ps), removed)[r][c];
      && |cell| <= 1
      && (cell != [] ==> PlacedAt(ps, r, c) == Some(cell[0]))
      && (forall p :: p in cell ==> p.name !in removed)
      && (forall p :: p in cell && p.owner == Self ==> 6 <= r <= 8)
      && (forall p :: p in cell && p.owner == Opponent ==> 0 <= r <= 2)
  {
    var placed := PlaceAll(g, ps);
    PlacedCell(g, ps, r, c);
    var cell := Sweep(placed, removed)[r][c];
    assert cell == [] || cell == placed[r][c];
    if PlacedAt(ps, r, c).Some? {
      var q := PlacedAt(ps, r, c).value;
      var i :| 0 <= i < |ps| && ps[i] == Placement(r, c, q);
    }
  }

  /** On an empty board, a layout with increasing keys leaves each cell with the piece it names, if any. */
  lemma PlacedCell(g: Grid, ps: seq<Placement>, r: int, c: int)
    requires IsGrid(g) && forall r, c :: IsValidPos(r, c) ==> g[r][c] == []
    requires OnBackRows(ps) && KeysSorted(ps) && IsValidPos(r, c)
    ensures PlaceAll(g, ps)[r][c] == match PlacedAt(ps, r, c) case Some(p) => [p] case None => []
  {
    PlaceAllDistinct(g, ps);
  }

  /** An entry of a sorted layout whose type is kept stands alone on its cell. */
  lemma OpeningEntry(g: Grid, ps: seq<Placement>, removed: set<PieceType>, i: int)
    requires IsGrid(g) && forall r, c :: IsValidPos(r, c) ==> g[r][c] == []
    requires OnBackRows(ps) && KeysSorted(ps) && 0 <= i < |ps| && ps[i].piece.name !in removed
    ensures IsValidPos(ps[i].r, ps[i].c)
    ensures Sweep(PlaceAll(g, ps), removed)[ps[i].r][ps[i].c] == [ps[i].piece]
  {
    PlaceAllDistinct(g, ps);
    var e := ps[i];
    var q := PlacedAt(ps, e.r, e.c);
    assert q.Some?;
    var j :| 0 <= j < |ps| && ps[j] == Placement(e.r, e.c, q.value);
    LayoutUnique(ps, i, j);
  }

  /**
   * What a fixed opening yields on an empty board: each cell holds at most
   * the one piece the layout names for it, and only if its type is not
   * removed, and every piece stands on its own side's back rows.
   */
  lemma FixedOpening(s: State, sp: Special)
    requires WellFormed(s) && forall r, c :: IsValidPos(r, c) ==> s.cells[r][c] == []
    ensures var s' := SetupFixed(s, sp);
      forall r, c :: IsValidPos(r, c) ==>
        && |s'.cells[r][c]| <= 1
        && (s'.cells[r][c] != [] ==> PlacedAt(FixedLayout, r, c) == Some(s'.cells[r][c][0]))
        && (forall p :: p in s'.cells[r][c] ==> p.name !in RemovedTypes(sp))
        && (forall p :: p in s'.cells[r][c] && p.owner == Self ==> 6 <= r <= 8)
        && (forall p :: p in s'.cells[r][c] && p.owner == Opponent ==> 0 <= r <= 2)
  {
    var s' := SetupFixed(s, sp);
    var removed := RemovedTypes(sp);
    FixedLayoutShape();
    assert s'.cells == Sweep(PlaceAll(s.cells, FixedLayout), removed);
    forall r, c | IsValidPos(r, c) {
      OpeningCell(s.cells, FixedLayout, removed, r, c);
    }
  }

  lemma FixedLayoutMarshals()
    ensures |FixedLayout| == 30
    ensures FixedLayout[1] == Placement(0, 4, Piece(Marshal, Opponent))
    ensures FixedLayout[16] == Placement(8, 4, Piece(Marshal, Self))
  {
  }

  /** In the fixed opening each Marshal stands alone on the middle of its back row. */
  lemma FixedMarshals(s: State, sp: Special)
    requires WellFormed(s) && forall r, c :: IsValidPos(r, c) ==> s.cells[r][c] == []
    ensures var s' := SetupFixed(s, sp);
      s'.cells[8][4] == [Piece(Marshal, Self)] && s'.cells[0][4] == [Piece(Marshal, Opponent)]
  {
    FixedLayoutShape();
    FixedLayoutMarshals();
    MarshalEntry(s.cells, FixedLayout, RemovedTypes(sp), 16);
    MarshalEntry(s.cells, FixedLayout, RemovedTypes(sp), 1);
  }

  lemma MarshalEntry(g: Grid, ps: seq<Placement>, removed: set<PieceType>, i: int)
    requires IsGrid(g) && forall r, c :: IsValidPos(r, c) ==> g[r][c] == []
    requires OnBackRows(ps) && KeysSorted(ps) && 0 <= i < |ps| && ps[i].piece.name == Marshal
    requires removed <= {Archer, Musket, Cannon, Spy}
    ensures IsValidPos(ps[i].r, ps[i].c)
    ensures Sweep(PlaceAll(g, ps), removed)[ps[i].r][ps[i].c] == [ps[i].piece]
  {
    OpeningEntry(g, ps, removed, i);
  }

  /** Each side drafts from a set holding exactly one Marshal. */
  lemma DraftHandMarshal(side: Side)
    ensures CountName(OwnedBy(DraftNames, side), Marshal) == 1
  {
    var rest := DraftNames[1..];
    forall i | 0 <= i < |rest| ensures rest[i] != Marshal {
      assert rest[i] == DraftNames[i + 1];
    }
    CountAbsent(rest, Marshal);
    CountOwnedBy(DraftNames, side, Marshal);
  }

  /** A name that is not listed is counted zero times. */
  lemma {:induction false} CountAbsent(names: seq<PieceType>, n: PieceType)
    requires n !in names
    ensures Count(names, n) == 0
  {
    if names != [] {
      assert names[0] != n;
      CountAbsent(names[1..], n);
    }
  }

  /** Giving every listed type to one owner keeps the count of each name. */
  lemma {:induction false} CountOwnedBy(names: seq<PieceType>, owner: Side, n: PieceType)
    ensures CountName(OwnedBy(names, owner), n) == Count(names, n)
  {
    if names != [] {
      var h := OwnedBy(names, owner);
      assert h[1..] == OwnedBy(names[1..], owner);
      CountOwnedBy(names[1..], owner, n);
    }
  }

  /**
   * The beginner and novice levels start play at once from the fixed
   * opening, without and with the archers, under a cap of two with no
   * Marshal stacking; every stack is within the cap.
   */
  lemma StartFixedLevel(s: State, level: Level)
    requires level == Beginner || level == Novice
    ensures var s' := StartLevel(s, level);
      && s'.turn == Self && s'.winner == None && s'.phase == Playing
      && s'.rules == Rules(2, false, Some(level))
      && HeightBound(s')
      && s'.cells == SetupFixed(s.(cells := EmptyGrid()), if level == Beginner then Basic else ArcherOnly).cells
      && s'.hands == SetupFixed(s.(cells := EmptyGrid()), if level == Beginner then Basic else ArcherOnly).hands
  {
    var sp := if level == Beginner then Basic else ArcherOnly;
    var s0 := s.(cells := EmptyGrid(), turn := Self, winner := None, rules := Rules(2, false, Some(level)), phase := Playing);
    FixedOpening(s0, sp);
    assert StartLevel(s, level) == SetupFixed(s0, sp);
  }

  /**
   * The intermediate level drafts from an empty board under a cap of two
   * with Marshal stacking allowed; each side holds the full draft set, and
   * the draft invariant holds.
   */
  lemma StartDraftLevel(s: State)
    ensures var s' := StartLevel(s, Intermediate);
      && s'.turn == Self && s'.winner == None && s'.phase == Draft && s'.draft == NoDraft
      && s'.rules == Rules(2, true, Some(Intermediate))
      && (forall r, c :: IsValidPos(r, c) ==> s'.cells[r][c] == [])
      && s'.hands.Of(Self) == OwnedBy(DraftNames, Self)
      && s'.hands.Of(Opponent) == OwnedBy(DraftNames, Opponent)
      && DraftInvariant(s')
  {
    DraftHandMarshal(Self);
    DraftHandMarshal(Opponent);
  }

  /**
   * An unknown level falls back to the basic fixed opening but keeps the
   * previous phase, cap and Marshal-stacking flag.
   */
  lemma StartUnknownLevel(s: State, name: UnknownLevelName)
    ensures var s' := StartLevel(s, Other(name));
      && s'.turn == Self && s'.winner == None && s'.phase == s.phase
      && s'.rules == s.rules.(level := Some(Other(name)))
      && s'.cells == SetupFixed(s.(cells := EmptyGrid()), Basic).cells
  {
  }
}
