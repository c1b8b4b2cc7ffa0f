/**
 * Move and drop generation as pure functions of a board value.  A piece's
 * legal destinations are the cells its rays visit, each tagged with the
 * actions allowed there; the lemmas characterise that list exactly (which
 * cells a ray reaches, and what each tag requires of the cell).
 */
module MoveGen {
  import opened Wrappers
  import opened Pieces
  import opened StackBoard

  datatype ActionKind = Move | Attack | Stack | Betrayal | Drop

  /** A destination with the action to perform there. */
  datatype Action = Action(r: int, c: int, kind: ActionKind)

  /** A level name the configuration switch does not recognise. */
  type UnknownLevelName = s: string | s != "BEGINNER" && s != "NOVICE" && s != "INTERMEDIATE" witness ""

  datatype Level = Beginner | Novice | Intermediate | Other(name: UnknownLevelName)

  /** The per-level configuration move generation consults. */
  datatype Rules = Rules(maxStackHeight: int, canMarshalStack: bool, level: Option<Level>)

  /** The moving piece, the height of the stack it tops, and its owner's hand. */
  datatype Mover = Mover(piece: Piece, height: nat, hand: seq<Piece>)

  function Neg(v: Vec): Vec {
    Vec(-v.r, -v.c)
  }

  function Add(a: Vec, b: Vec): Vec {
    Vec(a.r + b.r, a.c + b.c)
  }

  predicate OnBoard(v: Vec) {
    IsValidPos(v.r, v.c)
  }

  /** A definition as the given side plays it: the opponent's is the point reflection. */
  function Oriented(d: MoveDef, owner: Side): (o: MoveDef)
    ensures o.range == d.range && o.canJump == d.canJump
    ensures owner == Self ==> o == d
    ensures owner == Opponent ==> o.dir == Neg(d.dir) && o.offset == Neg(d.offset)
    ensures IsUnit(d.dir) ==> IsUnit(o.dir)
  {
    if owner == Self then d else d.(dir := Neg(d.dir), offset := Neg(d.offset))
  }

  predicate HasName(hand: seq<Piece>, name: PieceType) {
    exists i :: 0 <= i < |hand| && hand[i].name == name
  }

  /**
   * May the mover be put onto the non-empty stack `s`: the stack is below
   * the cap, its top is not a Marshal, and a Marshal may only stack when
   * the level allows it.
   */
  predicate CanStackOn(rules: Rules, m: Mover, s: PieceStack)
    requires s != []
    ensures |s| >= rules.maxStackHeight ==> !CanStackOn(rules, m, s)
    ensures s[|s| - 1].name == Marshal ==> !CanStackOn(rules, m, s)
    ensures m.piece.name == Marshal && !rules.canMarshalStack ==> !CanStackOn(rules, m, s)
  {
    && |s| < rules.maxStackHeight
    && (m.piece.name != Marshal || rules.canMarshalStack)
    && s[|s| - 1].name != Marshal
  }

  /** The actions the mover may take at one cell its ray visits, in emission order. */
  function CellActions(g: Grid, rules: Rules, m: Mover, r: int, c: int): (acts: seq<Action>)
    requires IsGrid(g) && IsValidPos(r, c)
    ensures |acts| <= 3
  {
    var s := g[r][c];
    if s == [] then [Action(r, c, Move)]
    else
      var top := s[|s| - 1];
      var canInteract := m.height >= |s|;
      var allowStack := CanStackOn(rules, m, s);
      if top.owner != m.piece.owner then
        if canInteract then
          [Action(r, c, Attack)] +
          if allowStack then
            [Action(r, c, Stack)] +
            if m.piece.name == Spy && rules.level == Some(Intermediate) && HasName(m.hand, top.name)
            then [Action(r, c, Betrayal)] else []
          else []
        else []
      else if allowStack then [Action(r, c, Stack)] else []
  }

  /**
   * What a cell contributes: only actions at that cell, none a drop, none
   * twice; a move exactly onto an empty cell; an attack exactly onto an
   * opposing stack no taller than the mover's; a stack exactly where
   * stacking is allowed and the stack is the mover's own or no taller; a
   * betrayal exactly alongside an attack and a stack, by a Spy at the
   * intermediate level whose hand holds a piece named like the top.
   */
  lemma CellActionsTags(g: Grid, rules: Rules, m: Mover, r: int, c: int)
    requires IsGrid(g) && IsValidPos(r, c)
    ensures var acts := CellActions(g, rules, m, r, c);
      forall a :: a in acts ==> a.r == r && a.c == c && a.kind != Drop
    ensures var acts := CellActions(g, rules, m, r, c);
      forall i, j :: 0 <= i < j < |acts| ==> acts[i] != acts[j]
    ensures var acts := CellActions(g, rules, m, r, c);
      Action(r, c, Move) in acts <==> g[r][c] == []
    ensures var acts := CellActions(g, rules, m, r, c);
      Action(r, c, Attack) in acts <==>
        g[r][c] != [] && g[r][c][|g[r][c]| - 1].owner != m.piece.owner && m.height >= |g[r][c]|
    ensures var acts := CellActions(g, rules, m, r, c);
      Action(r, c, Stack) in acts <==>
        g[r][c] != [] && CanStackOn(rules, m, g[r][c]) &&
        (g[r][c][|g[r][c]| - 1].owner == m.piece.owner || m.height >= |g[r][c]|)
    ensures var acts := CellActions(g, rules, m, r, c);
      Action(r, c, Betrayal) in acts <==>
        && Action(r, c, Attack) in acts && Action(r, c, Stack) in acts
        && m.piece.name == Spy && rules.level == Some(Intermediate)
        && HasName(m.hand, g[r][c][|g[r][c]| - 1].name)
  {
  }

  /** The actions at a cell, none off the board. */
  function ActionsAt(g: Grid, rules: Rules, m: Mover, v: Vec): seq<Action>
    requires IsGrid(g)
  {
    if OnBoard(v) then CellActions(g, rules, m, v.r, v.c) else []
  }

  /**
   * A ray continues past the cell `v` when `v` is empty, or when the ray may
   * leap and the stack there is strictly lower than the mover's.
   */
  predicate Passable(g: Grid, o: MoveDef, h: nat, v: Vec)
    requires IsGrid(g)
    ensures Passable(g, o, h, v) ==> OnBoard(v)
    ensures OnBoard(v) && g[v.r][v.c] != [] && (!o.canJump || |g[v.r][v.c]| >= h) ==> !Passable(g, o, h, v)
  {
    OnBoard(v) && (g[v.r][v.c] == [] || (o.canJump && |g[v.r][v.c]| < h))
  }

  /** Steps left along `d` before leaving the board (termination measure). */
  function StepsToEdge(v: Vec, d: Vec): nat {
    if !OnBoard(v) then 0
    else 1 + if d.r == 1 then Rows - 1 - v.r
             else if d.r == -1 then v.r
             else if d.c == 1 then Cols - 1 - v.c
             else v.c
  }

  /**
   * The walk of one (oriented) ray from cell `p`, which is its
   * `dist + 1`-th cell: it stops off the board, beyond its range, or after
   * a cell it cannot pass.
   */
  function Ray(g: Grid, rules: Rules, m: Mover, o: MoveDef, p: Vec, dist: nat): (acts: seq<Action>)
    requires IsGrid(g) && IsUnit(o.dir)
    ensures |acts| <= 3 * StepsToEdge(p, o.dir)
    decreases StepsToEdge(p, o.dir)
  {
    if !OnBoard(p) then []
    else if o.range.Finite? && dist + 1 > o.range.n then []
    else
      CellActions(g, rules, m, p.r, p.c) +
      if Passable(g, o, m.height, p) then Ray(g, rules, m, o, Add(p, o.dir), dist + 1) else []
  }

  /** Where a ray of a piece at (r, c) is anchored: the piece plus the origin offset. */
  function Origin(o: MoveDef, r: int, c: int): Vec {
    Vec(r + o.offset.r, c + o.offset.c)
  }

  /**
   * `k` times a direction component; components are -1, 0 or 1, so this
   * is written without multiplication.
   */
  function Scaled(k: int, x: int): int {
    if x == 1 then k else if x == -1 then -k else 0
  }

  /** The `k`-th cell of a ray anchored at `b`: `k` unit steps along `d`. */
  function RayCell(b: Vec, d: Vec, k: int): Vec {
    Vec(b.r + Scaled(k, d.r), b.c + Scaled(k, d.c))
  }

  function RayFrom(g: Grid, rules: Rules, m: Mover, o: MoveDef, r: int, c: int): (acts: seq<Action>)
    requires IsGrid(g) && IsUnit(o.dir)
    ensures |acts| <= 3 * Rows
  {
    Ray(g, rules, m, o, RayCell(Origin(o, r, c), o.dir, 1), 0)
  }

  function DefsMoves(g: Grid, rules: Rules, m: Mover, defs: seq<MoveDef>, r: int, c: int): (acts: seq<Action>)
    requires IsGrid(g) && forall d :: d in defs ==> IsUnit(d.dir)
    ensures |acts| <= 27 * |defs|
  {
    if defs == [] then []
    else
      DefsMoves(g, rules, m, defs[..|defs| - 1], r, c) +
      RayFrom(g, rules, m, Oriented(defs[|defs| - 1], m.piece.owner), r, c)
  }

  /** Appending one more definition appends its ray. */
  lemma DefsMovesStep(g: Grid, rules: Rules, m: Mover, defs: seq<MoveDef>, i: nat, r: int, c: int)
    requires IsGrid(g) && i < |defs| && forall d :: d in defs ==> IsUnit(d.dir)
    ensures forall d :: d in defs[..i] ==> IsUnit(d.dir)
    ensures IsUnit(Oriented(defs[i], m.piece.owner).dir)
    ensures DefsMoves(g, rules, m, defs[..i + 1], r, c) ==
      DefsMoves(g, rules, m, defs[..i], r, c) + RayFrom(g, rules, m, Oriented(defs[i], m.piece.owner), r, c)
  {
    assert defs[..i + 1][..i] == defs[..i];
    assert defs[i] in defs;
  }

  /** Every action of the mover standing at (r, c), ray by ray in catalogue order. */
  function Moves(g: Grid, rules: Rules, m: Mover, r: int, c: int): (acts: seq<Action>)
    requires IsGrid(g)
    ensures |acts| <= 27 * |Definitions(m.piece.name, m.height)|
  {
    DefsMoves(g, rules, m, Definitions(m.piece.name, m.height), r, c)
  }

  predicate InRange(range: Range, k: int) {
    range.Unbounded? || k <= range.n
  }

  /**
   * Cells `lo` to `k` of the ray anchored at `b` are on the board and the
   * ray can pass every one of them before the `k`-th.
   */
  predicate Reach(g: Grid, o: MoveDef, h: nat, b: Vec, lo: int, k: int)
    requires IsGrid(g)
  {
    forall j :: lo <= j <= k ==>
      OnBoard(RayCell(b, o.dir, j)) && (j < k ==> Passable(g, o, h, RayCell(b, o.dir, j)))
  }

  /** Action `a` is one of those at the `k`-th cell of oriented ray `o` of a piece at (r, c). */
  predicate OnRay(g: Grid, rules: Rules, m: Mover, o: MoveDef, r: int, c: int, k: int, a: Action)
    requires IsGrid(g)
  {
    && 1 <= k && InRange(o.range, k)
    && Reach(g, o, m.height, Origin(o, r, c), 1, k)
    && a in ActionsAt(g, rules, m, RayCell(Origin(o, r, c), o.dir, k))
  }

  /** The ray anchored at `b`, walked from its `dist + 1`-th cell. */
  function RayAt(g: Grid, rules: Rules, m: Mover, o: MoveDef, b: Vec, dist: nat): seq<Action>
    requires IsGrid(g) && IsUnit(o.dir)
  {
    Ray(g, rules, m, o, RayCell(b, o.dir, dist + 1), dist)
  }

  lemma RayCellStep(b: Vec, d: Vec, k: int)
    requires IsUnit(d)
    ensures Add(RayCell(b, d, k), d) == RayCell(b, d, k + 1)
  {
  }

  /** Everything a ray emits belongs to a cell it reaches within range. */
  lemma {:induction false} RaySound(g: Grid, rules: Rules, m: Mover, o: MoveDef, b: Vec, dist: nat)
    requires IsGrid(g) && IsUnit(o.dir)
    ensures forall a :: a in RayAt(g, rules, m, o, b, dist) ==>
      exists k :: dist < k && InRange(o.range, k) && Reach(g, o, m.height, b, dist + 1, k)
        && a in ActionsAt(g, rules, m, RayCell(b, o.dir, k))
    decreases StepsToEdge(RayCell(b, o.dir, dist + 1), o.dir)
  {
    var p := RayCell(b, o.dir, dist + 1);
    if OnBoard(p) && !(o.range.Finite? && dist + 1 > o.range.n) {
      RayCellStep(b, o.dir, dist + 1);
      var here := CellActions(g, rules, m, p.r, p.c);
      var rest := if Passable(g, o, m.height, p) then Ray(g, rules, m, o, Add(p, o.dir), dist + 1) else [];
      assert Ray(g, rules, m, o, p, dist) == here + rest;
      if Passable(g, o, m.height, p) {
        RaySound(g, rules, m, o, b, dist + 1);
        assert rest == RayAt(g, rules, m, o, b, dist + 1);
      }
      forall a | a in Ray(g, rules, m, o, p, dist)
        ensures exists k :: (dist < k && InRange(o.range, k) && Reach(g, o, m.height, b, dist + 1, k)
          && a in ActionsAt(g, rules, m, RayCell(b, o.dir, k)))
      {
        if a in here {
          assert Reach(g, o, m.height, b, dist + 1, dist + 1);
        } else {
          assert a in rest;
          var k :| dist + 1 < k && InRange(o.range, k) && Reach(g, o, m.height, b, dist + 2, k)
            && a in ActionsAt(g, rules, m, RayCell(b, o.dir, k));
          assert Reach(g, o, m.height, b, dist + 1, k);
        }
      }
    }
  }

  /** Every action of every cell a ray reaches within range is emitted by it. */
  lemma {:induction false} RayComplete(g: Grid, rules: Rules, m: Mover, o: MoveDef, b: Vec, dist: nat, k: int)
    requires IsGrid(g) && IsUnit(o.dir)
    requires dist < k && InRange(o.range, k) && Reach(g, o, m.height, b, dist + 1, k)
    ensures forall a :: a in ActionsAt(g, rules, m, RayCell(b, o.dir, k)) ==> a in RayAt(g, rules, m, o, b, dist)
    decreases k - dist
  {
    var p := RayCell(b, o.dir, dist + 1);
    assert OnBoard(p);
    if k > dist + 1 {
      assert Passable(g, o, m.height, p);
      RayCellStep(b, o.dir, dist + 1);
      assert Reach(g, o, m.height, b, dist + 2, k);
      RayComplete(g, rules, m, o, b, dist + 1, k);
    }
  }

  /** The cells of `DefsMoves` are exactly the actions on the reached cells of its rays. */
  lemma DefsMovesExact(g: Grid, rules: Rules, m: Mover, defs: seq<MoveDef>, r: int, c: int)
    requires IsGrid(g) && forall d :: d in defs ==> IsUnit(d.dir)
    ensures forall a :: a in DefsMoves(g, rules, m, defs, r, c) <==>
      exists i, k :: 0 <= i < |defs| && OnRay(g, rules, m, Oriented(defs[i], m.piece.owner), r, c, k, a)
  {
    forall a ensures a in DefsMoves(g, rules, m, defs, r, c) <==>
      exists i, k :: 0 <= i < |defs| && OnRay(g, rules, m, Oriented(defs[i], m.piece.owner), r, c, k, a)
    {
      if a in DefsMoves(g, rules, m, defs, r, c) {
        DefsMovesSound(g, rules, m, defs, r, c, a);
      }
      if exists i, k :: 0 <= i < |defs| && OnRay(g, rules, m, Oriented(defs[i], m.piece.owner), r, c, k, a) {
        var i, k :| 0 <= i < |defs| && OnRay(g, rules, m, Oriented(defs[i], m.piece.owner), r, c, k, a);
        DefsMovesComplete(g, rules, m, defs, r, c, i, k, a);
      }
    }
  }

  /** Each action the rays of `defs` emit lies on one of them, within range. */
  lemma {:induction false} DefsMovesSound(g: Grid, rules: Rules, m: Mover, defs: seq<MoveDef>, r: int, c: int, a: Action)
    requires IsGrid(g) && forall d :: d in defs ==> IsUnit(d.dir)
    requires a in DefsMoves(g, rules, m, defs, r, c)
    ensures exists i, k :: 0 <= i < |defs| && OnRay(g, rules, m, Oriented(defs[i], m.piece.owner), r, c, k, a)
  {
    var n := |defs| - 1;
    var init := defs[..n];
    if a in DefsMoves(g, rules, m, init, r, c) {
      DefsMovesSound(g, rules, m, init, r, c, a);
      var i, k :| 0 <= i < |init| && OnRay(g, rules, m, Oriented(init[i], m.piece.owner), r, c, k, a);
      assert defs[i] == init[i];
    } else {
      var o := Oriented(defs[n], m.piece.owner);
      assert a in RayAt(g, rules, m, o, Origin(o, r, c), 0);
      RaySound(g, rules, m, o, Origin(o, r, c), 0);
      var k :| 0 < k && InRange(o.range, k) && Reach(g, o, m.height, Origin(o, r, c), 1, k)
        && a in ActionsAt(g, rules, m, RayCell(Origin(o, r, c), o.dir, k));
      assert OnRay(g, rules, m, o, r, c, k, a);
    }
  }

  /** Each action on a reached cell of a ray of `defs` is emitted. */
  lemma {:induction false} DefsMovesComplete(g: Grid, rules: Rules, m: Mover, defs: seq<MoveDef>, r: int, c: int,
                                             i: int, k: int, a: Action)
    requires IsGrid(g) && forall d :: d in defs ==> IsUnit(d.dir)
    requires 0 <= i < |defs| && OnRay(g, rules, m, Oriented(defs[i], m.piece.owner), r, c, k, a)
    ensures a in DefsMoves(g, rules, m, defs, r, c)
  {
    var n := |defs| - 1;
    var init := defs[..n];
    if i < n {
      assert init[i] == defs[i];
      DefsMovesComplete(g, rules, m, init, r, c, i, k, a);
    } else {
      var o := Oriented(defs[n], m.piece.owner);
      RayComplete(g, rules, m, o, Origin(o, r, c), 0, k);
      assert RayAt(g, rules, m, o, Origin(o, r, c), 0) == RayFrom(g, rules, m, o, r, c);
    }
  }

  /**
   * The move list exactly: an action is generated if and only if it is
   * one of the actions at the `k`-th cell of some catalogue ray, mirrored
   * for the mover's side and anchored at its origin offset, with `k` within
   * the ray's range and every earlier cell on the board and passable.
   */
  lemma MovesExact(g: Grid, rules: Rules, m: Mover, r: int, c: int)
    requires IsGrid(g)
    ensures forall a :: a in Moves(g, rules, m, r, c) <==>
      exists i, k :: 0 <= i < |Definitions(m.piece.name, m.height)| &&
        OnRay(g, rules, m, Oriented(Definitions(m.piece.name, m.height)[i], m.piece.owner), r, c, k, a)
  {
    DefsMovesExact(g, rules, m, Definitions(m.piece.name, m.height), r, c);
  }

  /**
   * Every generated action is on the board, is one of the actions its cell
   * allows, and every action that cell allows is generated with it.
   */
  lemma MovesSound(g: Grid, rules: Rules, m: Mover, r: int, c: int)
    requires IsGrid(g)
    ensures forall a :: a in Moves(g, rules, m, r, c) ==>
      && IsValidPos(a.r, a.c)
      && a in CellActions(g, rules, m, a.r, a.c)
      && forall b :: b in CellActions(g, rules, m, a.r, a.c) ==> b in Moves(g, rules, m, r, c)
  {
    MovesExact(g, rules, m, r, c);
    var defs := Definitions(m.piece.name, m.height);
    forall a | a in Moves(g, rules, m, r, c)
      ensures IsValidPos(a.r, a.c) && a in CellActions(g, rules, m, a.r, a.c)
      ensures forall b :: b in CellActions(g, rules, m, a.r, a.c) ==> b in Moves(g, rules, m, r, c)
    {
      var i, k :| 0 <= i < |defs| && OnRay(g, rules, m, Oriented(defs[i], m.piece.owner), r, c, k, a);
      var o := Oriented(defs[i], m.piece.owner);
      var v := RayCell(Origin(o, r, c), o.dir, k);
      CellActionsTags(g, rules, m, v.r, v.c);
      assert OnBoard(v) && a in CellActions(g, rules, m, v.r, v.c);
      forall b | b in CellActions(g, rules, m, a.r, a.c) ensures b in Moves(g, rules, m, r, c) {
        assert OnRay(g, rules, m, o, r, c, k, b);
      }
    }
  }

  /**
   * What a tag promises about its cell: `move` only onto an empty cell;
   * `attack` only onto an opposing stack no taller than the mover's; `stack`
   * never onto a full stack or a Marshal, nor by a Marshal unless the level
   * allows it; `betrayal` only by a Spy at the intermediate level onto an
   * opposing stack whose top is named like a piece in the hand.  In no case
   * is the cell an opposing stack taller than the mover's.
   */
  predicate TagJustified(g: Grid, rules: Rules, m: Mover, a: Action)
    requires IsGrid(g) && IsValidPos(a.r, a.c)
  {
    var s := g[a.r][a.c];
    && !(s != [] && s[|s| - 1].owner != m.piece.owner && |s| > m.height)
    && match a.kind
       case Move => s == []
       case Attack => s != [] && s[|s| - 1].owner != m.piece.owner && m.height >= |s|
       case Stack =>
         && s != [] && |s| < rules.maxStackHeight && s[|s| - 1].name != Marshal
         && (m.piece.name != Marshal || rules.canMarshalStack)
       case Betrayal =>
         && s != [] && s[|s| - 1].owner != m.piece.owner
         && m.piece.name == Spy && rules.level == Some(Intermediate)
         && HasName(m.hand, s[|s| - 1].name)
       case Drop => false
  }

  lemma CellTag(g: Grid, rules: Rules, m: Mover, a: Action)
    requires IsGrid(g) && IsValidPos(a.r, a.c) && a in CellActions(g, rules, m, a.r, a.c)
    ensures TagJustified(g, rules, m, a)
  {
    CellActionsTags(g, rules, m, a.r, a.c);
    assert a == Action(a.r, a.c, a.kind);
  }

  /**
   * Every generated action satisfies what its tag promises, and a
   * `betrayal` always comes with the `attack` and the `stack` on that cell.
   */
  lemma MoveTagsJustified(g: Grid, rules: Rules, m: Mover, r: int, c: int)
    requires IsGrid(g)
    ensures forall a :: a in Moves(g, rules, m, r, c) ==> IsValidPos(a.r, a.c) && TagJustified(g, rules, m, a)
    ensures forall a :: a in Moves(g, rules, m, r, c) && a.kind == Betrayal ==>
      Action(a.r, a.c, Attack) in Moves(g, rules, m, r, c) && Action(a.r, a.c, Stack) in Moves(g, rules, m, r, c)
  {
    MovesSound(g, rules, m, r, c);
    forall a | a in Moves(g, rules, m, r, c)
      ensures IsValidPos(a.r, a.c) && TagJustified(g, rules, m, a)
      ensures a.kind == Betrayal ==>
        Action(a.r, a.c, Attack) in Moves(g, rules, m, r, c) && Action(a.r, a.c, Stack) in Moves(g, rules, m, r, c)
    {
      CellTag(g, rules, m, a);
      if a.kind == Betrayal {
        CellActionsTags(g, rules, m, a.r, a.c);
        assert Action(a.r, a.c, Betrayal) in CellActions(g, rules, m, a.r, a.c);
      }
    }
  }

  /** The cells of a well-shaped ray, for either side, all differ from the piece's own cell. */
  lemma AwayFromOrigin(d: MoveDef, o: MoveDef, tier: nat, r: int, c: int, k: int)
    requires WellShaped(d, tier) && k >= 1
    requires o == d || Reflects(o, d)
    ensures RayCell(Origin(o, r, c), o.dir, k) != Vec(r, c)
  {
    OffsetAhead(d, o, k);
    ShiftedAway(o, r, c, k);
  }

  /** A ray cell differs from (r, c) when its displacement from (r, c) is not zero. */
  lemma ShiftedAway(o: MoveDef, r: int, c: int, k: int)
    requires o.offset.r + Scaled(k, o.dir.r) != 0 || o.offset.c + Scaled(k, o.dir.c) != 0
    ensures RayCell(Origin(o, r, c), o.dir, k) != Vec(r, c)
  {
  }

  /** The displacement from a piece to the `k`-th cell of one of its well-shaped rays is never zero. */
  lemma OffsetAhead(d: MoveDef, o: MoveDef, k: int)
    requires IsUnit(d.dir) && (d.canJump <==> d.offset != Zero)
    requires d.offset != Zero ==> d.offset.c == 0 && d.offset.r < 0 && d.dir.r == -1
    requires k >= 1
    requires o == d || Reflects(o, d)
    ensures o.offset.r + Scaled(k, o.dir.r) != 0 || o.offset.c + Scaled(k, o.dir.c) != 0
  {
    Displaced(d.dir, d.offset, k);
    if o != d {
      NegDisplaced(d.dir, d.offset, k);
    }
  }

  /** As catalogued (facing `Self`), `k >= 1` steps from the offset never return to the piece. */
  lemma Displaced(dir: Vec, off: Vec, k: int)
    requires IsUnit(dir)
    requires off != Zero ==> off.c == 0 && off.r < 0 && dir.r == -1
    requires k >= 1
    ensures off.r + Scaled(k, dir.r) != 0 || off.c + Scaled(k, dir.c) != 0
  {
  }

  /** Reflecting offset and direction through the piece keeps a displacement non-zero. */
  lemma NegDisplaced(dir: Vec, off: Vec, k: int)
    requires off.r + Scaled(k, dir.r) != 0 || off.c + Scaled(k, dir.c) != 0
    ensures Neg(off).r + Scaled(k, Neg(dir).r) != 0 || Neg(off).c + Scaled(k, Neg(dir).c) != 0
  {
  }

  /** No ray of a catalogue piece ever comes back to the piece's own cell. */
  lemma NoActionAtOrigin(g: Grid, rules: Rules, m: Mover, r: int, c: int)
    requires IsGrid(g)
    ensures forall a :: a in Moves(g, rules, m, r, c) ==> (a.r, a.c) != (r, c)
  {
    MovesExact(g, rules, m, r, c);
    var defs := Definitions(m.piece.name, m.height);
    forall a | a in Moves(g, rules, m, r, c) ensures (a.r, a.c) != (r, c) {
      var i, k :| 0 <= i < |defs| && OnRay(g, rules, m, Oriented(defs[i], m.piece.owner), r, c, k, a);
      assert defs[i] in defs;
      var o := Oriented(defs[i], m.piece.owner);
      var v := RayCell(Origin(o, r, c), o.dir, k);
      CellActionsTags(g, rules, m, v.r, v.c);
      OrientedEither(defs[i], m.piece.owner);
      AwayFromOrigin(defs[i], o, m.height, r, c, k);
    }
  }

  // ----- the two sides mirror each other ------------------------------------

  /** The action at the cell opposite `a` through the centre of the board. */
  function Mirror(a: Action): (b: Action)
    ensures b.kind == a.kind && Rows - 1 - b.r == a.r && Cols - 1 - b.c == a.c
    ensures IsValidPos(a.r, a.c) <==> IsValidPos(b.r, b.c)
  {
    Action(Rows - 1 - a.r, Cols - 1 - a.c, a.kind)
  }

  lemma ScaledNeg(k: int, x: int)
    ensures Scaled(k, -x) == -Scaled(k, x)
  {
  }

  /** Reflecting anchor and direction through the centre reflects every ray cell. */
  lemma MirrorVec(dir: Vec, off: Vec, r: int, c: int, j: int)
    ensures var x := RayCell(Vec(r + off.r, c + off.c), dir, j);
      RayCell(Vec(Rows - 1 - r + Neg(off).r, Cols - 1 - c + Neg(off).c), Neg(dir), j) ==
      Vec(Rows - 1 - x.r, Cols - 1 - x.c)
  {
    ScaledNeg(j, dir.r);
    ScaledNeg(j, dir.c);
  }

  /** A side plays a definition either as catalogued or reflected. */
  lemma OrientedEither(d: MoveDef, owner: Side)
    ensures Oriented(d, owner) == d || Reflects(Oriented(d, owner), d)
  {
  }

  /** `o` is `d` reflected through the piece, as `Oriented` turns it for `Opponent`. */
  predicate Reflects(o: MoveDef, d: MoveDef) {
    o.dir == Neg(d.dir) && o.offset == Neg(d.offset) && o.range == d.range
  }

  /** The reflected ray's `j`-th cell from the opposite square is the mirror of the original's. */
  lemma MirrorCell(d: MoveDef, o: MoveDef, r: int, c: int, j: int)
    requires Reflects(o, d)
    ensures var x := RayCell(Origin(d, r, c), d.dir, j);
      RayCell(Origin(o, Rows - 1 - r, Cols - 1 - c), o.dir, j) == Vec(Rows - 1 - x.r, Cols - 1 - x.c)
  {
    MirrorVec(d.dir, d.offset, r, c, j);
  }

  /** Every square of `g` is empty. */
  predicate Cleared(g: Grid) {
    IsGrid(g) && forall r, c :: 0 <= r < Rows && 0 <= c < Cols ==> g[r][c] == []
  }

  /** On an empty board every on-board cell can be passed. */
  lemma ReachEmpty(g: Grid, o: MoveDef, h: nat, b: Vec, k: int)
    requires Cleared(g)
    ensures Reach(g, o, h, b, 1, k) <==> forall j :: 1 <= j <= k ==> OnBoard(RayCell(b, o.dir, j))
  {
    forall v | OnBoard(v) ensures Passable(g, o, h, v) {
      assert g[v.r][v.c] == [];
    }
  }

  /** On an empty board a ray reaches its `k`-th cell exactly when its reflection does from the opposite square. */
  lemma MirrorReach(g: Grid, d: MoveDef, o: MoveDef, hs: nat, ho: nat, r: int, c: int, k: int)
    requires Cleared(g) && Reflects(o, d)
    ensures Reach(g, d, hs, Origin(d, r, c), 1, k) <==>
      Reach(g, o, ho, Origin(o, Rows - 1 - r, Cols - 1 - c), 1, k)
  {
    var b, b' := Origin(d, r, c), Origin(o, Rows - 1 - r, Cols - 1 - c);
    ReachEmpty(g, d, hs, b, k);
    ReachEmpty(g, o, ho, b', k);
    forall j ensures OnBoard(RayCell(b, d.dir, j)) <==> OnBoard(RayCell(b', o.dir, j)) {
      MirrorCell(d, o, r, c, j);
    }
  }

  /**
   * On an empty board, `a` lies on the `k`-th cell of ray `d` of a piece at
   * (r, c) exactly when the mirror of `a` lies on the `k`-th cell of the
   * reflected ray of a piece at the opposite square.
   */
  lemma MirrorOnRay(g: Grid, rules: Rules, ms: Mover, mo: Mover, d: MoveDef, o: MoveDef, r: int, c: int, r': int, c': int,
                    k: int, a: Action)
    requires Cleared(g) && Reflects(o, d) && r + r' == Rows - 1 && c + c' == Cols - 1
    ensures OnRay(g, rules, ms, d, r, c, k, a) <==> OnRay(g, rules, mo, o, r', c', k, Mirror(a))
  {
    var v := RayCell(Origin(d, r, c), d.dir, k);
    MirrorReach(g, d, o, ms.height, mo.height, r, c, k);
    MirrorCell(d, o, r, c, k);
    OnRayEmpty(g, rules, ms, d, r, c, k, a);
    OnRayEmpty(g, rules, mo, o, r', c', k, Mirror(a));
    assert a == Action(v.r, v.c, Move) <==> Mirror(a) == Action(Rows - 1 - v.r, Cols - 1 - v.c, Move);
  }

  /** On the empty board a ray offers a plain move at each cell it reaches. */
  lemma OnRayEmpty(g: Grid, rules: Rules, m: Mover, o: MoveDef, r: int, c: int, k: int, a: Action)
    requires Cleared(g)
    ensures var v := RayCell(Origin(o, r, c), o.dir, k);
      OnRay(g, rules, m, o, r, c, k, a) <==>
      (1 <= k && InRange(o.range, k) && Reach(g, o, m.height, Origin(o, r, c), 1, k) && a == Action(v.r, v.c, Move))
  {
    var v := RayCell(Origin(o, r, c), o.dir, k);
    if 1 <= k && Reach(g, o, m.height, Origin(o, r, c), 1, k) {
      assert OnBoard(v);
      ActionsEmpty(g, rules, m, v);
    }
  }

  /** On the empty board the only action at an on-board cell is a plain move there. */
  lemma ActionsEmpty(g: Grid, rules: Rules, m: Mover, v: Vec)
    requires Cleared(g) && OnBoard(v)
    ensures ActionsAt(g, rules, m, v) == [Action(v.r, v.c, Move)]
  {
    assert g[v.r][v.c] == [];
  }

  /**
   * The opponent's pieces move as the point reflection of `Self`'s: on an
   * empty board, a piece of `Opponent` at the square opposite (r, c) has
   * exactly the mirrored actions of the same piece of `Self` at (r, c).
   */
  lemma MirrorMoves(rules: Rules, name: PieceType, h: nat, hs: seq<Piece>, ho: seq<Piece>, r: int, c: int, r': int, c': int)
    requires r + r' == Rows - 1 && c + c' == Cols - 1
    ensures var ms := Mover(Piece(name, Self), h, hs);
      var mo := Mover(Piece(name, Opponent), h, ho);
      forall a :: a in Moves(EmptyGrid(), rules, ms, r, c) <==>
        Mirror(a) in Moves(EmptyGrid(), rules, mo, r', c')
  {
    EmptyCleared();
    MirrorMovesOn(EmptyGrid(), rules, Mover(Piece(name, Self), h, hs), Mover(Piece(name, Opponent), h, ho), r, c, r', c');
  }

  lemma EmptyCleared()
    ensures Cleared(EmptyGrid())
  {
  }

  /** `MirrorMoves` for any empty grid and two movers of the same type and height on opposite sides. */
  lemma MirrorMovesOn(g: Grid, rules: Rules, ms: Mover, mo: Mover, r: int, c: int, r': int, c': int)
    requires Cleared(g) && r + r' == Rows - 1 && c + c' == Cols - 1
    requires ms.piece.name == mo.piece.name && ms.height == mo.height
    requires ms.piece.owner == Self && mo.piece.owner == Opponent
    ensures forall a :: a in Moves(g, rules, ms, r, c) <==> Mirror(a) in Moves(g, rules, mo, r', c')
  {
    var defs := Definitions(ms.piece.name, ms.height);
    OrientationsReflect(defs);
    MirrorDefs(g, rules, ms, mo, defs, r, c, r', c');
  }

  /** `MirrorMoves` for any list of unit definitions oriented by the two sides. */
  lemma MirrorDefs(g: Grid, rules: Rules, ms: Mover, mo: Mover, defs: seq<MoveDef>, r: int, c: int, r': int, c': int)
    requires Cleared(g) && forall d :: d in defs ==> IsUnit(d.dir)
    requires r + r' == Rows - 1 && c + c' == Cols - 1
    requires forall i :: 0 <= i < |defs| ==> Reflects(Oriented(defs[i], mo.piece.owner), Oriented(defs[i], ms.piece.owner))
    ensures forall a :: a in DefsMoves(g, rules, ms, defs, r, c) <==> Mirror(a) in DefsMoves(g, rules, mo, defs, r', c')
  {
    forall a ensures a in DefsMoves(g, rules, ms, defs, r, c) <==> Mirror(a) in DefsMoves(g, rules, mo, defs, r', c') {
      if a in DefsMoves(g, rules, ms, defs, r, c) {
        MirrorMovesTo(g, rules, ms, mo, defs, r, c, r', c', a);
      }
      if Mirror(a) in DefsMoves(g, rules, mo, defs, r', c') {
        MirrorMovesFrom(g, rules, ms, mo, defs, r, c, r', c', a);
      }
    }
  }

  /** The opponent's orientation of every definition reflects `Self`'s. */
  lemma OrientationsReflect(defs: seq<MoveDef>)
    ensures forall i :: 0 <= i < |defs| ==> Reflects(Oriented(defs[i], Opponent), Oriented(defs[i], Self))
  {
  }

  lemma MirrorMovesTo(g: Grid, rules: Rules, ms: Mover, mo: Mover, defs: seq<MoveDef>, r: int, c: int, r': int, c': int, a: Action)
    requires Cleared(g) && forall d :: d in defs ==> IsUnit(d.dir)
    requires r + r' == Rows - 1 && c + c' == Cols - 1
    requires forall i :: 0 <= i < |defs| ==> Reflects(Oriented(defs[i], mo.piece.owner), Oriented(defs[i], ms.piece.owner))
    requires a in DefsMoves(g, rules, ms, defs, r, c)
    ensures Mirror(a) in DefsMoves(g, rules, mo, defs, r', c')
  {
    DefsMovesSound(g, rules, ms, defs, r, c, a);
    var i, k :| 0 <= i < |defs| && OnRay(g, rules, ms, Oriented(defs[i], ms.piece.owner), r, c, k, a);
    MirrorOnRay(g, rules, ms, mo, Oriented(defs[i], ms.piece.owner), Oriented(defs[i], mo.piece.owner), r, c, r', c', k, a);
    DefsMovesComplete(g, rules, mo, defs, r', c', i, k, Mirror(a));
  }

  lemma MirrorMovesFrom(g: Grid, rules: Rules, ms: Mover, mo: Mover, defs: seq<MoveDef>, r: int, c: int, r': int, c': int, a: Action)
    requires Cleared(g) && forall d :: d in defs ==> IsUnit(d.dir)
    requires r + r' == Rows - 1 && c + c' == Cols - 1
    requires forall i :: 0 <= i < |defs| ==> Reflects(Oriented(defs[i], mo.piece.owner), Oriented(defs[i], ms.piece.owner))
    requires Mirror(a) in DefsMoves(g, rules, mo, defs, r', c')
    ensures a in DefsMoves(g, rules, ms, defs, r, c)
  {
    DefsMovesSound(g, rules, mo, defs, r', c', Mirror(a));
    var i, k :| 0 <= i < |defs| && OnRay(g, rules, mo, Oriented(defs[i], mo.piece.owner), r', c', k, Mirror(a));
    MirrorOnRay(g, rules, ms, mo, Oriented(defs[i], ms.piece.owner), Oriented(defs[i], mo.piece.owner), r, c, r', c', k, a);
    DefsMovesComplete(g, rules, ms, defs, r, c, i, k, a);
  }

  /** The top piece at (r, c) belongs to `owner`. */
  predicate Owns(g: Grid, owner: Side, r: int, c: int)
    requires IsGrid(g)
  {
    IsValidPos(r, c) && g[r][c] != [] && g[r][c][|g[r][c]| - 1].owner == owner
  }

  predicate HasPieces(g: Grid, owner: Side)
    requires IsGrid(g)
  {
    exists r, c :: 0 <= r < Rows && 0 <= c < Cols && Owns(g, owner, r, c)
  }

  /**
   * A drop is allowed on an empty cell not beyond the side's front line:
   * for `Self` no row above its topmost piece, for `Opponent` no row below
   * its bottommost piece; a side with nothing on the board may drop anywhere.
   */
  predicate DropAllowed(g: Grid, owner: Side, r: int, c: int)
    requires IsGrid(g)
    ensures !HasPieces(g, owner) ==> (DropAllowed(g, owner, r, c) <==> IsValidPos(r, c) && g[r][c] == [])
  {
    IsValidPos(r, c) && g[r][c] == [] && FrontlineRow(g, owner, r)
  }

  /** Row `r` is not beyond the front line of `owner`. */
  predicate FrontlineRow(g: Grid, owner: Side, r: int)
    requires IsGrid(g)
    ensures !HasPieces(g, owner) ==> FrontlineRow(g, owner, r)
    ensures forall c :: Owns(g, owner, r, c) ==> FrontlineRow(g, owner, r)
  {
    HasPieces(g, owner) ==>
      exists r', c' :: 0 <= r' < Rows && 0 <= c' < Cols && Owns(g, owner, r', c') &&
        if owner == Self then r' <= r else r' >= r
  }

  /** Position in row-major order, the order drops are listed in. */
  function RowMajor(a: Action): int {
    a.r * Cols + a.c
  }
}
