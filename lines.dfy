// The straight lines of the board that the win detector and the evaluator
// both scan, in the order and orientation in which they build them: every
// row and column, then the diagonals that start on the left edge ("from
// top"), then those that start on the right edge ("from bottom").

module Lines {
  import opened Board

  predicate AllInBounds(cs: seq<Cell>) {
    forall k :: 0 <= k < |cs| ==> InBounds(cs[k])
  }

  /** Row i, left to right. */
  function RowCells(i: int): (cs: seq<Cell>)
    requires 0 <= i < N
    ensures |cs| == N && AllInBounds(cs)
  {
    seq(N, j => (i, j))
  }

  /** Column i, top to bottom. */
  function ColCells(i: int): (cs: seq<Cell>)
    requires 0 <= i < N
    ensures |cs| == N && AllInBounds(cs)
  {
    seq(N, j => (j, i))
  }

  /** From (i, 0) up and to the right: the cells with row + column == i. */
  function TopUpCells(i: int): (cs: seq<Cell>)
    requires 0 <= i < N
    ensures |cs| == i + 1 && AllInBounds(cs)
  {
    seq(i + 1, j => (i - j, j))
  }

  /** From (i, 0) down and to the right: the cells with row - column == i. */
  function TopDownCells(i: int): (cs: seq<Cell>)
    requires 0 <= i < N
    ensures |cs| == N - i && AllInBounds(cs)
  {
    seq(N - i, j => (i + j, j))
  }

  /** From (i, 14) up and to the left: the cells with row - column == i - 14. */
  function BottomUpCells(i: int): (cs: seq<Cell>)
    requires 0 <= i < N
    ensures |cs| == i + 1 && AllInBounds(cs)
  {
    seq(i + 1, j => (i - j, N - 1 - j))
  }

  /** From (i, 14) down and to the left: the cells with row + column == i + 14. */
  function BottomDownCells(i: int): (cs: seq<Cell>)
    requires 0 <= i < N
    ensures |cs| == N - i && AllInBounds(cs)
  {
    seq(N - i, j => (i + j, N - 1 - j))
  }

  /** The tiles found at a sequence of cells. */
  function Read(g: Grid, cs: seq<Cell>): (t: seq<Tile>)
    requires AllInBounds(cs)
    ensures |t| == |cs|
    ensures forall k :: 0 <= k < |cs| ==> t[k] == g[cs[k].0][cs[k].1]
  {
    seq(|cs|, k requires 0 <= k < |cs| && AllInBounds(cs) => g[cs[k].0][cs[k].1])
  }

  /**
   * Which lines a cell lies on: each line family is exactly one row, column
   * or diagonal, so a cell lies on one row, one column and, for each diagonal
   * direction, on at most one of the lines scanned in that direction.
   */
  lemma LineMembership(r: int, c: int, i: int)
    requires InBounds((r, c)) && 0 <= i < N
    ensures (r, c) in RowCells(i) <==> r == i
    ensures (r, c) in ColCells(i) <==> c == i
    ensures (r, c) in TopUpCells(i) <==> r + c == i
    ensures (r, c) in TopDownCells(i) <==> r - c == i
    ensures (r, c) in BottomUpCells(i) <==> r - c == i - (N - 1)
    ensures (r, c) in BottomDownCells(i) <==> r + c == i + (N - 1)
  {
    if r == i { assert RowCells(i)[c] == (r, c); }
    if c == i { assert ColCells(i)[r] == (r, c); }
    if r + c == i { assert TopUpCells(i)[c] == (r, c); }
    if r - c == i { assert TopDownCells(i)[c] == (r, c); }
    if r - c == i - (N - 1) { assert BottomUpCells(i)[N - 1 - c] == (r, c); }
    if r + c == i + (N - 1) { assert BottomDownCells(i)[N - 1 - c] == (r, c); }
  }

  /**
   * The scan covers every diagonal except two single cells: the rising
   * diagonals miss only the corner (14, 14) and the falling ones only (0, 14).
   */
  lemma DiagonalCoverage(r: int, c: int)
    requires InBounds((r, c))
    ensures (r, c) != (N - 1, N - 1) <==>
      (exists i :: 0 <= i < N && (r, c) in TopUpCells(i)) ||
      (exists i :: 1 <= i < N - 1 && (r, c) in BottomDownCells(i))
    ensures (r, c) != (0, N - 1) <==>
      (exists i :: 0 <= i < N && (r, c) in TopDownCells(i)) ||
      (exists i :: 1 <= i < N - 1 && (r, c) in BottomUpCells(i))
  {
    forall i | 0 <= i < N
      ensures (r, c) in TopUpCells(i) <==> r + c == i
      ensures (r, c) in TopDownCells(i) <==> r - c == i
      ensures (r, c) in BottomUpCells(i) <==> r - c == i - (N - 1)
      ensures (r, c) in BottomDownCells(i) <==> r + c == i + (N - 1)
    {
      LineMembership(r, c, i);
    }
    if r + c < N {
      assert (r, c) in TopUpCells(r + c);
    } else if r + c < 2 * N - 2 {
      assert (r, c) in BottomDownCells(r + c - (N - 1));
    }
    if r - c >= 0 {
      assert (r, c) in TopDownCells(r - c);
    } else if r - c > -(N - 1) {
      assert (r, c) in BottomUpCells(r - c + N - 1);
    }
  }

  /** Source lines 29-40 of the scanners: row i and column i, built cell by cell. */
  method RowAndColumn(s: GameState, ghost g: Grid, i: int) returns (line1: seq<Tile>, line2: seq<Tile>)
    requires s.Shows(g) && 0 <= i < N
    ensures line1 == Read(g, RowCells(i))
    ensures line2 == Read(g, ColCells(i))
  {
    line1, line2 := [], [];
    for j := 0 to N
      invariant |line1| == j && |line2| == j
      invariant forall k :: 0 <= k < j ==> line1[k] == s.board[i, k] && line2[k] == s.board[k, i]
    {
      line1 := line1 + [s.board[i, j]];
      line2 := line2 + [s.board[j, i]];
    }
  }

  /** The two diagonals that start at (i, 0), built cell by cell. */
  method DiagonalsFromTop(s: GameState, ghost g: Grid, i: int) returns (line1: seq<Tile>, line2: seq<Tile>)
    requires s.Shows(g) && 0 <= i < N
    ensures line1 == Read(g, TopUpCells(i))
    ensures line2 == Read(g, TopDownCells(i))
  {
    line1, line2 := [], [];
    for j := 0 to N
      invariant |line1| == if j <= i then j else i + 1
      invariant |line2| == if j <= N - i then j else N - i
      invariant forall k :: 0 <= k < |line1| ==> line1[k] == s.board[i - k, k]
      invariant forall k :: 0 <= k < |line2| ==> line2[k] == s.board[i + k, k]
    {
      if i - j >= 0 {
        line1 := line1 + [s.board[i - j, j]];
      }
      if i + j < N {
        line2 := line2 + [s.board[i + j, j]];
      }
    }
  }

  /** The two diagonals that start at (i, 14), built cell by cell. */
  method DiagonalsFromBottom(s: GameState, ghost g: Grid, i: int) returns (line1: seq<Tile>, line2: seq<Tile>)
    requires s.Shows(g) && 0 <= i < N
    ensures line1 == Read(g, BottomUpCells(i))
    ensures line2 == Read(g, BottomDownCells(i))
  {
    line1, line2 := [], [];
    for j := 0 to N
      invariant |line1| == if j <= i then j else i + 1
      invariant |line2| == if j <= N - i then j else N - i
      invariant forall k :: 0 <= k < |line1| ==> line1[k] == s.board[i - k, N - 1 - k]
      invariant forall k :: 0 <= k < |line2| ==> line2[k] == s.board[i + k, N - 1 - k]
    {
      if i - j >= 0 {
        line1 := line1 + [s.board[i - j, N - 1 - j]];
      }
      if i + j < N {
        line2 := line2 + [s.board[i + j, N - 1 - j]];
      }
    }
  }
}
