/**
 * The game object: a board, the two hands, whose turn it is, the phase,
 * the draft record, the winner and the level configuration, all updated
 * in place.  Every method is proved to take the game from a state `s` to
 * the state the corresponding transition of `GameRules` gives for `s`, so
 * the lemmas proved there hold of the object as well.
 */
module GameEngine {
  import opened Wrappers
  import opened Pieces
  import opened StackBoard
  import opened MoveGen
  import opened GameRules

  /** Writing back the stack a cell already holds changes nothing. */
  lemma SetStackSame(g: Grid, r: int, c: int)
    requires IsGrid(g) && IsValidPos(r, c)
    ensures SetStack(g, r, c, g[r][c]) == g
  {
    assert g[r][c := g[r][c]] == g[r];
  }

  lemma SetStackTwice(g: Grid, r: int, c: int, a: PieceStack, b: PieceStack)
    requires IsGrid(g) && IsValidPos(r, c)
    ensures SetStack(SetStack(g, r, c, a), r, c, b) == SetStack(g, r, c, b)
  {
    assert g[r][c := a][c := b] == g[r][c := b];
  }

  lemma PushAt(g: Grid, r: int, c: int, p: Piece)
    requires IsGrid(g) && IsValidPos(r, c)
    ensures Push(g, r, c, p) == SetStack(g, r, c, g[r][c] + [p])
  {
  }

  lemma PopAt(g: Grid, r: int, c: int)
    requires IsGrid(g) && IsValidPos(r, c) && g[r][c] != []
    ensures Pop(g, r, c).1 == SetStack(g, r, c, g[r][c][..|g[r][c]| - 1])
  {
  }

  /** Popping a cell that holds a prefix of `st` leaves the prefix one shorter. */
  lemma PopPrefix(g: Grid, r: int, c: int, st: PieceStack, k: nat)
    requires IsGrid(g) && IsValidPos(r, c) && 0 < k <= |st|
    ensures Pop(SetStack(g, r, c, st[..k]), r, c) == (Some(st[k - 1]), SetStack(g, r, c, st[..k - 1]))
  {
    assert st[..k][..k - 1] == st[..k - 1];
    SetStackTwice(g, r, c, st[..k], st[..k - 1]);
  }

  /** Taking one more piece off the top adds that piece to the captured suffix. */
  lemma CapturedSuffix(st: PieceStack, k: nat)
    requires 0 < k <= |st|
    ensures HasName(st[k - 1..], Marshal) <==> st[k - 1].name == Marshal || HasName(st[k..], Marshal)
  {
    assert st[k - 1..] == [st[k - 1]] + st[k..];
    HasNameCons(st[k - 1], st[k..], Marshal);
  }

  /** The capture stops exactly at `KeepLen`: the floor or a piece of `side`. */
  lemma KeepLenReached(st: PieceStack, side: Side, k: nat)
    requires KeepLen(st, side) <= k <= |st|
    requires k == 0 || st[k - 1].owner == side
    ensures k == KeepLen(st, side)
  {
  }

  /** Above `KeepLen` every piece belongs to the other side. */
  lemma KeepLenBelow(st: PieceStack, side: Side, k: nat)
    requires KeepLen(st, side) <= k <= |st| && k > 0 && st[k - 1].owner != side
    ensures KeepLen(st, side) <= k - 1
  {
  }

  lemma HasNameCons(p: Piece, h: seq<Piece>, name: PieceType)
    ensures HasName([p] + h, name) <==> p.name == name || HasName(h, name)
  {
    if HasName(h, name) {
      var i :| 0 <= i < |h| && h[i].name == name;
      assert ([p] + h)[i + 1] == h[i];
    }
    if HasName([p] + h, name) && p.name != name {
      var i :| 0 <= i < |[p] + h| && ([p] + h)[i].name == name;
      assert h[i - 1] == ([p] + h)[i];
    }
    if p.name == name {
      assert ([p] + h)[0] == p;
    }
  }

  class Game {
    var board: Board
    var hands: Hands
    var turn: Side
    var phase: Phase
    var draft: DraftState
    var winner: Option<Side>
    var level: Option<Level>
    var maxStackHeight: int
    var canMarshalStack: bool

    ghost predicate Valid()
      reads this, board, board.grid
    {
      board.Valid()
    }

    /** The level configuration move generation consults. */
    function Config(): Rules
      reads this
    {
      Rules(maxStackHeight, canMarshalStack, level)
    }

    /** The whole game as a value. */
    ghost function Snapshot(): State
      reads this, board
    {
      State(board.Cells, hands, turn, phase, draft, winner, Config())
    }

    constructor ()
      ensures Valid() && fresh(board) && fresh(board.grid)
      ensures Snapshot() == Initial()
    {
      board := new Board();
      turn := Self;
      winner := None;
      level := None;
      phase := Setup;
      maxStackHeight := 2;
      canMarshalStack := false;
      draft := NoDraft;
      hands := Hands([], []);
    }

    // ----- move generation ----------------------------------------------------

    /**
     * The actions the mover may take at (cr, cc), and whether the ray of
     * `o` stops there.
     */
    method ScanCell(m: Mover, o: MoveDef, cr: int, cc: int) returns (acts: seq<Action>, blocked: bool)
      requires Valid() && IsValidPos(cr, cc)
      ensures acts == CellActions(board.Cells, Config(), m, cr, cc)
      ensures blocked == !Passable(board.Cells, o, m.height, Vec(cr, cc))
    {
      var targetStack := board.GetStack(cr, cc);
      var targetHeight := |targetStack|;
      var targetPiece := board.GetPiece(cr, cc);
      acts := [];
      blocked := false;
      if targetPiece.None? {
        acts := [Action(cr, cc, Move)];
      } else {
        var tp := targetPiece.value;
        var canInteract := m.height >= targetHeight;
        var notFull := targetHeight < maxStackHeight;
        var isMarshalStacking := m.piece.name == Marshal;
        var isTargetMarshal := tp.name == Marshal;
        var allowStack := notFull && (!isMarshalStacking || canMarshalStack) && !isTargetMarshal;
        if tp.owner != m.piece.owner {
          if canInteract {
            acts := acts + [Action(cr, cc, Attack)];
            if allowStack {
              acts := acts + [Action(cr, cc, Stack)];
              if m.piece.name == Spy && level == Some(Intermediate) {
                if HasName(m.hand, tp.name) {
                  acts := acts + [Action(cr, cc, Betrayal)];
                }
              }
            }
          }
        } else if allowStack {
          acts := acts + [Action(cr, cc, Stack)];
        }
        blocked := !(o.canJump && targetHeight < m.height);
      }
    }

    /**
     * The body `calculateMoves` runs for one move definition, already
     * mirrored for the mover's side: walk the ray from its first cell
     * until it leaves the board, exceeds its range or is blocked.
     */
    method WalkRay(m: Mover, o: MoveDef, r: int, c: int) returns (acts: seq<Action>)
      requires Valid() && IsUnit(o.dir)
      ensures acts == RayFrom(board.Cells, Config(), m, o, r, c)
    {
      var cur := Vec(r + o.offset.r + o.dir.r, c + o.offset.c + o.dir.c);
      assert cur == RayCell(Origin(o, r, c), o.dir, 1);
      var dist := 0;
      acts := [];
      while IsValidPos(cur.r, cur.c)
        invariant acts + Ray(board.Cells, Config(), m, o, cur, dist) == RayFrom(board.Cells, Config(), m, o, r, c)
        decreases StepsToEdge(cur, o.dir)
      {
        ghost var rest := Ray(board.Cells, Config(), m, o, cur, dist);
        dist := dist + 1;
        if o.range.Finite? && dist > o.range.n {
          assert rest == [];
          break;
        }
        var cellActs, blocked := ScanCell(m, o, cur.r, cur.c);
        acts := acts + cellActs;
        ghost var next := Add(cur, o.dir);
        assert rest == cellActs + if blocked then [] else Ray(board.Cells, Config(), m, o, next, dist);
        if blocked {
          break;
        }
        cur := Vec(cur.r + o.dir.r, cur.c + o.dir.c);
        assert cur == next;
      }
    }

    /**
     * `calculateMoves`: casts every ray of the piece's table, mirrored for
     * its side, from (r, c) and collects the tagged destinations.
     */
    method CalculateMoves(piece: Piece, stackHeight: nat, r: int, c: int) returns (moves: seq<Action>)
      requires Valid()
      ensures moves == Moves(board.Cells, Config(), Mover(piece, stackHeight, hands.Of(piece.owner)), r, c)
    {
      var m := Mover(piece, stackHeight, hands.Of(piece.owner));
      var definitions := Definitions(piece.name, stackHeight);
      assert forall d :: d in definitions ==> IsUnit(d.dir);
      moves := [];
      for i := 0 to |definitions|
        invariant moves == DefsMoves(board.Cells, Config(), m, definitions[..i], r, c)
      {
        DefsMovesStep(board.Cells, Config(), m, definitions, i, r, c);
        var o := Oriented(definitions[i], piece.owner);
        var rayActs := WalkRay(m, o, r, c);
        moves := moves + rayActs;
      }
      assert definitions[..|definitions|] == definitions;
    }

    /** `getValidMoves`: the moves of whatever tops (r, c); none for an empty cell. */
    method GetValidMoves(r: int, c: int) returns (moves: seq<Action>)
      requires Valid()
      ensures moves == ValidMoves(Snapshot(), r, c)
    {
      var piece := board.GetPiece(r, c);
      if piece.None? {
        return [];
      }
      var currentStack := board.GetStack(r, c);
      moves := CalculateMoves(piece.value, |currentStack|, r, c);
    }

    /**
     * The scan `getValidDrops` starts with: whether `owner` has a piece on
     * top of some cell, and the lowest and highest rows holding one.
     */
    method FindFrontline(owner: Side) returns (hasPiece: bool, minR: int, maxR: int)
      requires Valid()
      ensures hasPiece <==> HasPieces(board.Cells, owner)
      ensures hasPiece ==> 0 <= minR <= maxR < Rows
      ensures hasPiece ==> exists c :: 0 <= c < Cols && Owns(board.Cells, owner, minR, c)
      ensures hasPiece ==> exists c :: 0 <= c < Cols && Owns(board.Cells, owner, maxR, c)
      ensures forall r, c :: 0 <= r < Rows && 0 <= c < Cols && Owns(board.Cells, owner, r, c) ==> minR <= r <= maxR
    {
      ghost var g := board.Cells;
      ghost var minC, maxC := 0, 0;
      minR := 9;
      maxR := -1;
      hasPiece := false;
      for r := 0 to 9
        invariant hasPiece ==> 0 <= minR <= maxR < Rows && 0 <= minC < Cols && 0 <= maxC < Cols
        invariant hasPiece ==> Owns(g, owner, minR, minC) && Owns(g, owner, maxR, maxC)
        invariant !hasPiece ==> minR == 9 && maxR == -1
        invariant forall r', c' :: 0 <= r' < r && 0 <= c' < Cols && Owns(g, owner, r', c') ==> minR <= r' <= maxR
      {
        for c := 0 to 9
          invariant hasPiece ==> 0 <= minR <= maxR < Rows && 0 <= minC < Cols && 0 <= maxC < Cols
          invariant hasPiece ==> Owns(g, owner, minR, minC) && Owns(g, owner, maxR, maxC)
          invariant !hasPiece ==> minR == 9 && maxR == -1
          invariant forall r', c' :: 0 <= r' < r && 0 <= c' < Cols && Owns(g, owner, r', c') ==> minR <= r' <= maxR
          invariant forall c' :: 0 <= c' < c && Owns(g, owner, r, c') ==> minR <= r <= maxR
        {
          var piece := board.GetPiece(r, c);
          if piece.Some? && piece.value.owner == owner {
            hasPiece := true;
            if r < minR {
              minR := r;
              minC := c;
            }
            if r > maxR {
              maxR := r;
              maxC := c;
            }
          }
        }
      }
      assert hasPiece ==> Owns(g, owner, minR, minC);
    }

    /** The listing `getValidDrops` ends with: every empty cell of rows `startR` to `endR`, row by row. */
    method EmptyCells(startR: int, endR: int) returns (drops: seq<Action>)
      requires Valid() && 0 <= startR && endR < Rows
      ensures forall a :: a in drops <==>
        (a.kind == Drop && startR <= a.r <= endR && 0 <= a.c < Cols && board.Cells[a.r][a.c] == [])
      ensures forall i, j :: 0 <= i < j < |drops| ==> RowMajor(drops[i]) < RowMajor(drops[j])
    {
      ghost var g := board.Cells;
      drops := [];
      if startR > endR {
        return;
      }
      for r := startR to endR + 1
        invariant forall a :: a in drops <==> a.kind == Drop && startR <= a.r < r && 0 <= a.c < Cols && g[a.r][a.c] == []
        invariant forall i, j :: 0 <= i < j < |drops| ==> RowMajor(drops[i]) < RowMajor(drops[j])
        invariant forall i :: 0 <= i < |drops| ==> RowMajor(drops[i]) < r * Cols
      {
        for c := 0 to 9
          invariant forall a :: a in drops <==>
            (a.kind == Drop && 0 <= a.c < Cols &&
             ((startR <= a.r < r && g[a.r][a.c] == []) || (a.r == r && a.c < c && g[a.r][a.c] == [])))
          invariant forall i, j :: 0 <= i < j < |drops| ==> RowMajor(drops[i]) < RowMajor(drops[j])
          invariant forall i :: 0 <= i < |drops| ==> RowMajor(drops[i]) < r * Cols + c
        {
          var piece := board.GetPiece(r, c);
          if piece.None? {
            drops := drops + [Action(r, c, Drop)];
          }
        }
      }
    }

    /**
     * `getValidDrops`: every cell the frontline rule allows `owner` to drop
     * on, in row-major order.
     */
    method GetValidDrops(owner: Side) returns (drops: seq<Action>)
      requires Valid()
      ensures forall a :: a in drops <==> a.kind == Drop && DropAllowed(board.Cells, owner, a.r, a.c)
      ensures forall i, j :: 0 <= i < j < |drops| ==> RowMajor(drops[i]) < RowMajor(drops[j])
    {
      ghost var g := board.Cells;
      var hasPiece, minR, maxR := FindFrontline(owner);
      var startR := 0;
      var endR := 8;
      if hasPiece {
        if owner == Self {
          startR := minR;
          endR := 8;
        } else {
          startR := 0;
          endR := maxR;
        }
      }
      forall r | 0 <= r < Rows ensures startR <= r <= endR <==> FrontlineRow(g, owner, r) {
        if hasPiece {
          if owner == Self && minR <= r {
            var c' :| 0 <= c' < Cols && Owns(g, owner, minR, c');
            assert Owns(g, owner, minR, c') && minR <= r;
          }
          if owner == Opponent && r <= maxR {
            var c' :| 0 <= c' < Cols && Owns(g, owner, maxR, c');
            assert Owns(g, owner, maxR, c') && maxR >= r;
          }
        }
      }
      drops := EmptyCells(startR, endR);
    }

    // ----- playing --------------------------------------------------------------

    /** `switchTurn`: the other side moves next. */
    method SwitchTurn()
      modifies this
      ensures Snapshot() == GameRules.SwitchTurn(old(Snapshot()))
      ensures turn == old(turn).Other()
      ensures board == old(board) && hands == old(hands) && phase == old(phase) && draft == old(draft)
      ensures winner == old(winner) && Config() == old(Config())
    {
      turn := if turn == Self then Opponent else Self;
    }

    /**
     * The consecutive capture of `tryMovePiece`: pieces come off the top of
     * (tr, tc) until one belonging to `side`, or the floor, is reached;
     * reports whether a Marshal was among them.
     */
    method CaptureStack(tr: int, tc: int, side: Side) returns (marshalTaken: bool)
      requires board.Valid() && IsValidPos(tr, tc)
      modifies board, board.grid
      ensures board.Valid()
      ensures var st := old(board.Cells)[tr][tc];
        board.Cells == SetStack(old(board.Cells), tr, tc, st[..KeepLen(st, side)])
      ensures marshalTaken == CapturesMarshal(old(board.Cells)[tr][tc], side)
    {
      ghost var g := board.Cells;
      ghost var st := g[tr][tc];
      ghost var k := |st|;
      assert st[..k] == st;
      SetStackSame(g, tr, tc);
      marshalTaken := false;
      while true
        invariant board.Valid()
        invariant KeepLen(st, side) <= k <= |st|
        invariant board.Cells == SetStack(g, tr, tc, st[..k])
        invariant marshalTaken == HasName(st[k..], Marshal)
        decreases k
      {
        var topStackPiece := board.GetPiece(tr, tc);
        assert board.Cells[tr][tc] == st[..k];
        if topStackPiece.None? || topStackPiece.value.owner == side {
          KeepLenReached(st, side, k);
          break;
        }
        KeepLenBelow(st, side, k);
        PopPrefix(g, tr, tc, st, k);
        var captured := board.PopPiece(tr, tc);
        CapturedSuffix(st, k);
        k := k - 1;
        if captured.value.name == Marshal {
          marshalTaken := true;
        }
      }
    }

    /**
     * The exchange of a betrayal: the top of (tr, tc) is taken off, then
     * `x` and the moving piece `p` are put on in that order.
     */
    method ExchangeTop(tr: int, tc: int, x: Piece, p: Piece)
      requires board.Valid() && IsValidPos(tr, tc) && board.Cells[tr][tc] != []
      modifies board, board.grid
      ensures board.Valid()
      ensures var st := old(board.Cells)[tr][tc];
        board.Cells == SetStack(old(board.Cells), tr, tc, st[..|st| - 1] + [x, p])
    {
      ghost var g := board.Cells;
      ghost var st := g[tr][tc];
      PopAt(g, tr, tc);
      var _ := board.PopPiece(tr, tc);
      PushAt(board.Cells, tr, tc, x);
      board.PushPiece(tr, tc, x);
      PushAt(board.Cells, tr, tc, p);
      board.PushPiece(tr, tc, p);
      SetStackTwice(g, tr, tc, st[..|st| - 1], st[..|st| - 1] + [x]);
      SetStackTwice(g, tr, tc, st[..|st| - 1] + [x], st[..|st| - 1] + [x] + [p]);
      assert st[..|st| - 1] + [x] + [p] == st[..|st| - 1] + [x, p];
    }

    /**
     * The landing step of `tryMovePiece`: the moving piece `p`, already
     * lifted off its cell, is put onto (tr, tc) as `kind` prescribes.
     */
    method LandPiece(tr: int, tc: int, p: Piece, kind: ActionKind)
      requires Valid() && IsValidPos(tr, tc)
      requires kind == Betrayal ==> board.Cells[tr][tc] != []
      modifies this, board, board.grid
      ensures Valid() && board == old(board)
      ensures Snapshot() == Land(old(Snapshot()), tr, tc, p, kind)
    {
      match kind {
        case Attack => AttackLanding(tr, tc, p);
        case Betrayal => BetrayalLanding(tr, tc, p);
        case _ => board.PushPiece(tr, tc, p);
      }
    }

    /**
     * An attack takes off every enemy piece above the mover's own,
     * recording a win when a Marshal is among them, then puts `p` on top.
     */
    method AttackLanding(tr: int, tc: int, p: Piece)
      requires Valid() && IsValidPos(tr, tc)
      modifies this, board, board.grid
      ensures Valid() && board == old(board)
      ensures Snapshot() == Land(old(Snapshot()), tr, tc, p, Attack)
    {
      ghost var g := board.Cells;
      ghost var st := g[tr][tc];
      var marshalTaken := CaptureStack(tr, tc, turn);
      if marshalTaken {
        winner := Some(turn);
      }
      PushAt(board.Cells, tr, tc, p);
      board.PushPiece(tr, tc, p);
      SetStackTwice(g, tr, tc, st[..KeepLen(st, turn)], st[..KeepLen(st, turn)] + [p]);
    }

    /**
     * A betrayal swaps the enemy top for the piece of the same type from
     * the mover's hand; without one in hand the mover is simply stacked.
     */
    method BetrayalLanding(tr: int, tc: int, p: Piece)
      requires Valid() && IsValidPos(tr, tc) && board.Cells[tr][tc] != []
      modifies this, board, board.grid
      ensures Valid() && board == old(board)
      ensures Snapshot() == Land(old(Snapshot()), tr, tc, p, Betrayal)
    {
      var targetPiece := board.GetPiece(tr, tc);
      var hand := hands.Of(turn);
      var handIndex := FindName(hand, targetPiece.value.name);
      if handIndex.Some? {
        var exchangePiece := hand[handIndex.value];
        hands := hands.With(turn, RemoveAt(hand, handIndex.value));
        ExchangeTop(tr, tc, exchangePiece, p);
      } else {
        board.PushPiece(tr, tc, p);
      }
    }

    /**
     * `tryMovePiece`: moves the piece at (fr, fc) to (tr, tc) if that is
     * one of its moves, performing the kind the choice settles.
     */
    method TryMovePiece(fr: int, fc: int, tr: int, tc: int, choice: Choice)
      requires Valid() && ChoiceFits(Snapshot(), fr, fc, tr, tc, choice)
      modifies this, board, board.grid
      ensures Valid() && board == old(board)
      ensures Snapshot() == ApplyMove(old(Snapshot()), fr, fc, tr, tc, choice)
    {
      ghost var s := Snapshot();
      var validMoves := GetValidMoves(fr, fc);
      var targetMoves := AtCell(validMoves, tr, tc);
      if |targetMoves| == 0 {
        MoveSkipped(s, fr, fc, tr, tc, choice);
        return;
      }
      var actionType := ResolveKind(targetMoves, choice);
      if actionType.None? {
        MoveSkipped(s, fr, fc, tr, tc, choice);
        return;
      }
      MoveSteps(s, fr, fc, tr, tc, choice);
      MakeMove(fr, fc, tr, tc, actionType.value);
    }

    /**
     * The move itself, once the destination and kind are settled: the top
     * piece leaves (fr, fc), lands on (tr, tc) as `kind` prescribes, and
     * the turn passes.
     */
    method MakeMove(fr: int, fc: int, tr: int, tc: int, kind: ActionKind)
      requires Valid() && IsValidPos(fr, fc) && IsValidPos(tr, tc) && (fr, fc) != (tr, tc)
      requires board.Cells[fr][fc] != [] && (kind == Betrayal ==> board.Cells[tr][tc] != [])
      modifies this, board, board.grid
      ensures Valid() && board == old(board)
      ensures var st := old(board.Cells)[fr][fc];
        Snapshot() ==
          Land(old(Snapshot()).(cells := Pop(old(board.Cells), fr, fc).1), tr, tc, st[|st| - 1], kind)
            .(turn := old(turn).Other())
    {
      var movingPiece := board.PopPiece(fr, fc);
      LandPiece(tr, tc, movingPiece.value, kind);
      SwitchTurn();
    }

    /** `tryDropPiece`: drops the `handIndex`-th hand piece on (r, c) if the frontline rule allows. */
    method TryDropPiece(handIndex: nat, r: int, c: int)
      requires Valid() && handIndex < |hands.Of(turn)|
      modifies this, board, board.grid
      ensures Valid() && board == old(board)
      ensures Snapshot() == ApplyDrop(old(Snapshot()), handIndex, r, c)
    {
      var validDrops := GetValidDrops(turn);
      if |AtCell(validDrops, r, c)| == 0 {
        assert Action(r, c, Drop) !in validDrops;
        return;
      }
      assert AtCell(validDrops, r, c)[0] in validDrops;
      var piece := hands.Of(turn)[handIndex];
      hands := hands.With(turn, RemoveAt(hands.Of(turn), handIndex));
      board.PushPiece(r, c, piece);
      SwitchTurn();
    }

    // ----- the draft ------------------------------------------------------------

    /** `startGame`: play begins with `Self` to move. */
    method StartGame()
      modifies this
      ensures Snapshot() == GameRules.StartGame(old(Snapshot()))
      ensures phase == Playing && turn == Self
      ensures board == old(board) && hands == old(hands) && draft == old(draft)
      ensures winner == old(winner) && Config() == old(Config())
    {
      phase := Playing;
      turn := Self;
    }

    /** `tryDraftDrop`: places the `index`-th hand piece during the draft. */
    method TryDraftDrop(index: nat, r: int, c: int)
      requires Valid() && index < |hands.Of(turn)|
      modifies this, board, board.grid
      ensures Valid() && board == old(board)
      ensures Snapshot() == ApplyDraftDrop(old(Snapshot()), index, r, c)
    {
      var isSelf := turn == Self;
      var validRow := if isSelf then 6 <= r <= 8 else 0 <= r <= 2;
      if !validRow {
        return;
      }
      var stack := board.GetStack(r, c);
      if |stack| > 0 {
        return;
      }
      var piece := hands.Of(turn)[index];
      var marshalPlaced := if isSelf then draft.selfMarshalPlaced else draft.opponentMarshalPlaced;
      if !marshalPlaced && piece.name != Marshal {
        return;
      }
      PlaceDraftPiece(index, r, c);
    }

    /** The accepted branch of `tryDraftDrop`: the piece goes down and the draft record is updated. */
    method PlaceDraftPiece(index: nat, r: int, c: int)
      requires Valid() && index < |hands.Of(turn)| && !DraftDropRefused(Snapshot(), index, r, c)
      modifies this, board, board.grid
      ensures Valid() && board == old(board)
      ensures Snapshot() == ApplyDraftDrop(old(Snapshot()), index, r, c)
    {
      var isSelf := turn == Self;
      var hand := hands.Of(turn);
      var piece := hand[index];
      board.PushPiece(r, c, piece);
      hands := hands.With(turn, RemoveAt(hand, index));
      if piece.name == Marshal {
        if isSelf {
          draft := draft.(selfMarshalPlaced := true);
        } else {
          draft := draft.(opponentMarshalPlaced := true);
        }
      }
      if !isSelf && draft.selfDone {
        StartGame();
        return;
      }
      draft := draft.(turnMoved := true);
    }

    /** `switchDraftTurn`: passes the draft turn. */
    method SwitchDraftTurn()
      requires Valid()
      modifies this
      ensures Valid() && board == old(board)
      ensures Snapshot() == GameRules.SwitchDraftTurn(old(Snapshot()))
    {
      if turn == Opponent && draft.selfDone {
        StartGame();
        return;
      }
      draft := draft.(turnMoved := false);
      var nextTurn := if turn == Self then Opponent else Self;
      var nextDone := if nextTurn == Self then draft.selfDone else draft.opponentDone;
      if !nextDone {
        turn := nextTurn;
      }
    }

    /** `declareSetupDone`: the side to move finishes its draft. */
    method DeclareSetupDone()
      requires Valid()
      modifies this
      ensures Valid() && board == old(board)
      ensures Snapshot() == GameRules.DeclareSetupDone(old(Snapshot()))
    {
      if phase != Draft {
        return;
      }
      var isSelf := turn == Self;
      if isSelf && !draft.selfMarshalPlaced {
        return;
      }
      if !isSelf && !draft.opponentMarshalPlaced {
        return;
      }
      if isSelf {
        draft := draft.(selfDone := true);
        turn := Opponent;
        draft := draft.(turnMoved := false);
      } else {
        draft := draft.(opponentDone := true);
        StartGame();
      }
    }

    // ----- setup ----------------------------------------------------------------

    /** `setupDraftBoard`: both sides receive the draft set; the draft record is reset. */
    method SetupDraftBoard()
      requires Valid()
      modifies this
      ensures Valid() && board == old(board)
      ensures Snapshot() == SetupDraft(old(Snapshot()))
    {
      hands := Hands(OwnedBy(DraftNames, Self), OwnedBy(DraftNames, Opponent));
      draft := NoDraft;
    }

    /** The `place` calls of `setupFixedBoard`, one per entry of `ps`, in order. */
    method PlaceLayout(ps: seq<Placement>)
      requires Valid()
      modifies board, board.grid
      ensures Valid()
      ensures board.Cells == PlaceAll(old(board.Cells), ps)
    {
      ghost var g0 := board.Cells;
      for i := 0 to |ps|
        invariant Valid()
        invariant board.Cells == PlaceAll(g0, ps[..i])
      {
        assert ps[..i + 1][..i] == ps[..i];
        board.PushPiece(ps[i].r, ps[i].c, ps[i].piece);
      }
      assert ps[..|ps|] == ps;
    }

    /** The sweep of `setupFixedBoard`: clears every cell whose bottom piece is of a removed type. */
    method RemoveTypes(removeTypes: set<PieceType>)
      requires Valid()
      modifies board, board.grid
      ensures Valid()
      ensures board.Cells == Sweep(old(board.Cells), removeTypes)
    {
      ghost var placed := board.Cells;
      ghost var swept := Sweep(placed, removeTypes);
      for r := 0 to 9
        invariant Valid()
        invariant forall r', c' :: IsValidPos(r', c') ==>
          board.Cells[r'][c'] == if r' < r then swept[r'][c'] else placed[r'][c']
      {
        for c := 0 to 9
          invariant Valid()
          invariant forall r', c' :: IsValidPos(r', c') ==>
            board.Cells[r'][c'] == if r' < r || (r' == r && c' < c) then swept[r'][c'] else placed[r'][c']
        {
          var stack := board.GetStack(r, c);
          if |stack| > 0 {
            var p := stack[0];
            if p.name in removeTypes {
              ghost var before := board.Cells;
              var _ := board.ClearCell(r, c);
              forall r', c' | IsValidPos(r', c') && (r', c') != (r, c) ensures board.Cells[r'][c'] == before[r'][c'] {
                assert StackAt(board.Cells, r', c') == StackAt(before, r', c');
              }
            }
          }
        }
      }
      GridExt(board.Cells, swept);
    }

    /** The hand-dealing loop of `setupFixedBoard` for one side: every named piece not removed is added. */
    method DealHand(owner: Side, names: seq<PieceType>, removeTypes: set<PieceType>)
      modifies this
      ensures hands.Of(owner) == old(hands.Of(owner)) + HandFrom(names, owner, removeTypes)
      ensures hands.Of(owner.Other()) == old(hands.Of(owner.Other()))
      ensures board == old(board) && turn == old(turn) && phase == old(phase) && draft == old(draft)
      ensures winner == old(winner) && Config() == old(Config())
    {
      var hand := hands.Of(owner);
      assert names[0..] == names;
      for i := 0 to |names|
        invariant hand + HandFrom(names[i..], owner, removeTypes) == old(hands.Of(owner)) + HandFrom(names, owner, removeTypes)
      {
        assert names[i..][1..] == names[i + 1..];
        if names[i] !in removeTypes {
          hand := hand + [Piece(names[i], owner)];
        }
      }
      assert names[|names|..] == [];
      hands := hands.With(owner, hand);
    }

    /**
     * `setupFixedBoard`: puts the fixed opening down, clears every cell
     * whose bottom piece is of a removed type, and deals the initial hands.
     */
    method SetupFixedBoard(sp: Special)
      requires Valid()
      modifies this, board, board.grid
      ensures Valid() && board == old(board)
      ensures Snapshot() == SetupFixed(old(Snapshot()), sp)
    {
      hands := Hands([], []);
      PlaceLayout(FixedLayout);
      var removeTypes := RemovedTypes(sp);
      RemoveTypes(removeTypes);
      DealHand(Self, InitialHandNames, removeTypes);
      DealHand(Opponent, InitialHandNames, removeTypes);
    }

    /** `startLevel`: a fresh board, then the configuration and opening of the level. */
    method StartLevel(lv: Level)
      requires Valid()
      modifies this
      ensures Valid() && fresh(board) && fresh(board.grid)
      ensures Snapshot() == GameRules.StartLevel(old(Snapshot()), lv)
    {
      ghost var s := Snapshot();
      level := Some(lv);
      board := new Board();
      turn := Self;
      winner := None;
      ghost var s0 := Snapshot();
      assert s0 == s.(cells := EmptyGrid(), turn := Self, winner := None, rules := s.rules.(level := Some(lv)));
      ConfigureLevel(lv);
    }

    /** The level switch of `startLevel`: the configuration and opening of the level. */
    method ConfigureLevel(lv: Level)
      requires Valid()
      modifies this, board, board.grid
      ensures Valid() && board == old(board)
      ensures Snapshot() == GameRules.ConfigureLevel(old(Snapshot()), lv)
    {
      match lv {
        case Beginner =>
          maxStackHeight := 2;
          canMarshalStack := false;
          phase := Playing;
          SetupFixedBoard(Basic);
        case Novice =>
          maxStackHeight := 2;
          canMarshalStack := false;
          phase := Playing;
          SetupFixedBoard(ArcherOnly);
        case Intermediate =>
          maxStackHeight := 2;
          canMarshalStack := true;
          phase := Draft;
          SetupDraftBoard();
        case Other(_) =>
          SetupFixedBoard(Basic);
      }
    }
  }
}
