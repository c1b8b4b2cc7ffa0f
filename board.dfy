/**
 * The 9x9 board whose cells hold ordered stacks of pieces (bottom first).
 * The pure part gives the board as a value, a `Grid`, with the stack
 * operations as functions; the class `Board` keeps the cells in a
 * two-dimensional array that its methods update in place, and its ghost
 * field `Cells` is the value those functions describe.
 */
module StackBoard {
  import opened Wrappers
  import opened Pieces

  const Rows := 9
  const Cols := 9

  type PieceStack = seq<Piece>
  type Grid = seq<seq<PieceStack>>

  /** Coordinates on the board. */
  predicate IsValidPos(r: int, c: int) {
    0 <= r < Rows && 0 <= c < Cols
  }

  predicate IsGrid(g: Grid) {
    |g| == Rows && forall r :: 0 <= r < Rows ==> |g[r]| == Cols
  }

  /** The topmost piece of a stack, if any. */
  function Top(s: PieceStack): Option<Piece> {
    if s == [] then None else Some(s[|s| - 1])
  }

  /** The stack at a position; off the board, the empty stack. */
  function StackAt(g: Grid, r: int, c: int): PieceStack
    requires IsGrid(g)
  {
    if IsValidPos(r, c) then g[r][c] else []
  }

  function EmptyGrid(): (g: Grid)
    ensures IsGrid(g)
    ensures forall r, c :: IsValidPos(r, c) ==> g[r][c] == []
  {
    seq(Rows, _ => seq(Cols, _ => []))
  }

  /** Puts a piece on top of a stack; off the board nothing changes. */
  function Push(g: Grid, r: int, c: int, p: Piece): (g': Grid)
    requires IsGrid(g)
    ensures IsGrid(g')
    ensures IsValidPos(r, c) ==> StackAt(g', r, c) == StackAt(g, r, c) + [p]
    ensures forall r', c' :: (r', c') != (r, c) ==> StackAt(g', r', c') == StackAt(g, r', c')
    ensures !IsValidPos(r, c) ==> g' == g
  {
    if IsValidPos(r, c) then g[r := g[r][c := g[r][c] + [p]]] else g
  }

  /**
   * Takes the top piece off a stack: the piece and the grid without it, or
   * nothing and the same grid when the cell is empty or off the board.
   */
  function Pop(g: Grid, r: int, c: int): (res: (Option<Piece>, Grid))
    requires IsGrid(g)
    ensures IsGrid(res.1)
    ensures res.0 == Top(StackAt(g, r, c))
    ensures StackAt(g, r, c) != [] ==>
      StackAt(res.1, r, c) == StackAt(g, r, c)[..|StackAt(g, r, c)| - 1]
    ensures StackAt(g, r, c) == [] ==> res.1 == g
    ensures forall r', c' :: (r', c') != (r, c) ==> StackAt(res.1, r', c') == StackAt(g, r', c')
  {
    if IsValidPos(r, c) && g[r][c] != [] then
      var s := g[r][c];
      (Some(s[|s| - 1]), g[r := g[r][c := s[..|s| - 1]]])
    else
      (None, g)
  }

  /** Empties a cell, handing back everything that was on it, bottom first. */
  function Clear(g: Grid, r: int, c: int): (res: (PieceStack, Grid))
    requires IsGrid(g)
    ensures IsGrid(res.1)
    ensures res.0 == StackAt(g, r, c)
    ensures StackAt(res.1, r, c) == []
    ensures !IsValidPos(r, c) ==> res.1 == g
    ensures forall r', c' :: (r', c') != (r, c) ==> StackAt(res.1, r', c') == StackAt(g, r', c')
  {
    if IsValidPos(r, c) then (g[r][c], g[r := g[r][c := []]]) else ([], g)
  }

  lemma GridExt(g: Grid, h: Grid)
    requires IsGrid(g) && IsGrid(h)
    requires forall r, c :: IsValidPos(r, c) ==> g[r][c] == h[r][c]
    ensures g == h
  {
    forall r | 0 <= r < Rows ensures g[r] == h[r] {
      assert forall c :: 0 <= c < Cols ==> g[r][c] == h[r][c] by {
        forall c | 0 <= c < Cols ensures g[r][c] == h[r][c] {
          assert IsValidPos(r, c);
        }
      }
    }
  }

  /** Pushing a piece and popping it again gives back the piece and the board. */
  lemma PushThenPop(g: Grid, r: int, c: int, p: Piece)
    requires IsGrid(g) && IsValidPos(r, c)
    ensures Pop(Push(g, r, c, p), r, c) == (Some(p), g)
  {
    var res := Pop(Push(g, r, c, p), r, c);
    assert StackAt(res.1, r, c) == (StackAt(g, r, c) + [p])[..|StackAt(g, r, c)|];
    forall r', c' | IsValidPos(r', c') ensures res.1[r'][c'] == g[r'][c'] {
      if (r', c') != (r, c) {
        assert StackAt(res.1, r', c') == StackAt(g, r', c');
      } else {
        assert StackAt(res.1, r', c') == StackAt(g, r', c');
      }
    }
    GridExt(res.1, g);
  }

  /** Popping the top piece and pushing it back restores the board. */
  lemma PopThenPush(g: Grid, r: int, c: int)
    requires IsGrid(g) && StackAt(g, r, c) != []
    ensures Pop(g, r, c).0.Some?
    ensures Push(Pop(g, r, c).1, r, c, Pop(g, r, c).0.value) == g
  {
    var (p, g1) := Pop(g, r, c);
    var g2 := Push(g1, r, c, p.value);
    forall r', c' | IsValidPos(r', c') ensures g2[r'][c'] == g[r'][c'] {
      if (r', c') != (r, c) {
        assert StackAt(g2, r', c') == StackAt(g, r', c');
      } else {
        assert StackAt(g2, r', c') == StackAt(g, r', c');
      }
    }
    GridExt(g2, g);
  }

  class Board {
    const grid: array2<PieceStack>
    ghost var Cells: Grid

    /** The array is 9x9 and holds exactly the stacks `Cells` describes. */
    ghost predicate Valid()
      reads this, grid
    {
      && grid.Length0 == Rows && grid.Length1 == Cols
      && IsGrid(Cells)
      && forall r, c :: IsValidPos(r, c) ==> grid[r, c] == Cells[r][c]
    }

    constructor ()
      ensures Valid() && fresh(grid)
      ensures Cells == EmptyGrid()
    {
      grid := new PieceStack[Rows, Cols];
      new;
      InitBoard();
    }

    /** Gives every one of the 81 cells an empty stack. */
    method InitBoard()
      requires grid.Length0 == Rows && grid.Length1 == Cols
      modifies this, grid
      ensures Valid()
      ensures Cells == EmptyGrid()
    {
      for r := 0 to Rows
        invariant forall r', c' :: 0 <= r' < r && 0 <= c' < Cols ==> grid[r', c'] == []
      {
        for c := 0 to Cols
          invariant forall r', c' :: 0 <= r' < r && 0 <= c' < Cols ==> grid[r', c'] == []
          invariant forall c' :: 0 <= c' < c ==> grid[r, c'] == []
        {
          grid[r, c] := [];
        }
      }
      Cells := EmptyGrid();
    }

    /** The top piece at a position, or nothing for an empty or off-board cell. */
    method GetPiece(row: int, col: int) returns (p: Option<Piece>)
      requires Valid()
      ensures p.Some? <==> IsValidPos(row, col) && Cells[row][col] != []
      ensures p.Some? ==> p.value == Cells[row][col][|Cells[row][col]| - 1]
      ensures p == Top(StackAt(Cells, row, col))
    {
      p := None;
      if IsValidPos(row, col) {
        var stack := grid[row, col];
        if |stack| > 0 {
          p := Some(stack[|stack| - 1]);
        }
      }
    }

    /** The whole stack at a position, or the empty stack off the board. */
    method GetStack(row: int, col: int) returns (s: PieceStack)
      requires Valid()
      ensures IsValidPos(row, col) ==> s == Cells[row][col]
      ensures !IsValidPos(row, col) ==> s == []
    {
      s := [];
      if IsValidPos(row, col) {
        s := grid[row, col];
      }
    }

    method PushPiece(row: int, col: int, piece: Piece)
      requires Valid()
      modifies this, grid
      ensures Valid()
      ensures Cells == Push(old(Cells), row, col, piece)
    {
      if IsValidPos(row, col) {
        grid[row, col] := grid[row, col] + [piece];
        Cells := Push(Cells, row, col, piece);
      }
    }

    /** Kept by the source for older callers; it pushes, it does not overwrite. */
    method PlacePiece(row: int, col: int, piece: Piece)
      requires Valid()
      modifies this, grid
      ensures Valid()
      ensures Cells == Push(old(Cells), row, col, piece)
    {
      PushPiece(row, col, piece);
    }

    method PopPiece(row: int, col: int) returns (p: Option<Piece>)
      requires Valid()
      modifies this, grid
      ensures Valid()
      ensures (p, Cells) == Pop(old(Cells), row, col)
    {
      p := None;
      if IsValidPos(row, col) {
        var stack := grid[row, col];
        if |stack| > 0 {
          p := Some(stack[|stack| - 1]);
          grid[row, col] := stack[..|stack| - 1];
          Cells := Pop(Cells, row, col).1;
        }
      }
    }

    method ClearCell(row: int, col: int) returns (captured: PieceStack)
      requires Valid()
      modifies this, grid
      ensures Valid()
      ensures (captured, Cells) == Clear(old(Cells), row, col)
    {
      captured := [];
      if IsValidPos(row, col) {
        captured := grid[row, col];
        grid[row, col] := [];
        Cells := Clear(Cells, row, col).1;
      }
    }
  }
}
