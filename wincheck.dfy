// The win detector: does some row, column or diagonal hold five or more
// equal stones in a row?

module WinCheck {
  import opened Board
  import opened Lines

  /** Five equal stones start at index s of the line. */
  predicate FiveAt(t: seq<Tile>, s: int) {
    0 <= s && s + 5 <= |t| && IsStone(t[s]) &&
    forall j :: s <= j < s + 5 ==> t[j] == t[s]
  }

  /** The line holds at least five consecutive equal stones. */
  predicate HasFive(t: seq<Tile>) {
    exists s :: 0 <= s < |t| && FiveAt(t, s)
  }

  /** Length of the run of equal tiles that ends at index e. */
  function RunEndingAt(t: seq<Tile>, e: int): nat
    requires 0 <= e < |t|
  {
    if e > 0 && t[e - 1] == t[e] then RunEndingAt(t, e - 1) + 1 else 1
  }

  /** The run ending at e is at least m long exactly when the m tiles up to e are equal. */
  lemma {:induction false} RunEndingAtLeast(t: seq<Tile>, e: int, m: int)
    requires 0 <= e < |t| && 1 <= m
    ensures RunEndingAt(t, e) >= m <==> m <= e + 1 && forall j :: e - m < j <= e ==> t[j] == t[e]
  {
    if m > 1 && e > 0 && t[e - 1] == t[e] {
      RunEndingAtLeast(t, e - 1, m - 1);
    } else if m > 1 && e > 0 {
      assert t[e - 1] != t[e];
    }
  }

  /**
   * `eval_line` of the win detector: the scan with a sentinel appended. It
   * answers whether the line holds five equal stones in a row; runs of
   * `Empty` never count, and a run that reaches the last cell is still seen.
   */
  method LineHasFive(line: seq<Tile>) returns (win: bool)
    ensures win == HasFive(line)
    ensures |line| < 5 ==> !win
  {
    if |line| < 5 {
      return false;
    }
    var tmp := line + [None];
    assert forall j :: 0 <= j < |line| ==> tmp[j] == line[j];
    var len := 0;
    var prev := None;
    var i := 0;
    while i < |tmp|
      invariant 0 <= i <= |tmp|
      invariant i == 0 ==> prev == None && len == 0
      invariant i > 0 ==> prev == tmp[i - 1] && len == RunEndingAt(tmp, i - 1)
      invariant forall s :: 0 <= s && s + 5 < i ==> !FiveAt(tmp, s)
    {
      var tile := tmp[i];
      if i >= 5 {
        RunEndingAtLeast(tmp, i - 1, 5);
      }
      if len >= 5 && (prev == X || prev == O) {
        RunEndingAtLeast(tmp, i - 1, 5);
        assert FiveAt(line, i - 5);
        return true;
      }
      if tile == prev {
        len := len + 1;
      } else {
        len := 1;
        prev := tile;
      }
      i := i + 1;
    }
    forall s | 0 <= s < |line| && FiveAt(line, s)
      ensures FiveAt(tmp, s)
    {
    }
    return false;
  }

  /** Some scanned line of the board holds five in a row. */
  predicate AnyLineHasFive(g: Grid) {
    RowOrColumnHasFive(g, N) || TopDiagonalHasFive(g, N) || BottomDiagonalHasFive(g, N - 1)
  }

  /** One of rows 0..n-1 or columns 0..n-1 holds five in a row. */
  predicate RowOrColumnHasFive(g: Grid, n: int) {
    exists i :: 0 <= i < n && i < N && (HasFive(Read(g, RowCells(i))) || HasFive(Read(g, ColCells(i))))
  }

  /** One of the diagonals starting at (i, 0), i < n, holds five in a row. */
  predicate TopDiagonalHasFive(g: Grid, n: int) {
    exists i :: 0 <= i < n && i < N && (HasFive(Read(g, TopUpCells(i))) || HasFive(Read(g, TopDownCells(i))))
  }

  /** One of the diagonals starting at (i, 14), 1 <= i < n, holds five in a row. */
  predicate BottomDiagonalHasFive(g: Grid, n: int) {
    exists i :: 1 <= i < n && i < N && (HasFive(Read(g, BottomUpCells(i))) || HasFive(Read(g, BottomDownCells(i))))
  }

  /** The cell k steps from (r, c) along a row (d = 0), a column (1), down-right (2) or down-left (3). */
  function Step(r: int, c: int, d: int, k: int): Cell {
    if d == 0 then (r, c + k)
    else if d == 1 then (r + k, c)
    else if d == 2 then (r + k, c + k)
    else (r + k, c - k)
  }

  /** Five equal stones on the board, starting at (r, c) and going in direction d. */
  predicate FiveFrom(g: Grid, r: int, c: int, d: int) {
    0 <= d < 4 && InBounds((r, c)) && IsStone(g[r][c]) &&
    forall k :: 0 <= k < 5 ==> InBounds(Step(r, c, d, k)) && At(g, Step(r, c, d, k)) == g[r][c]
  }

  /** The board shows five in a row in one of the four directions. */
  predicate HasFiveInARow(g: Grid) {
    exists r, c, d :: 0 <= r < N && 0 <= c < N && 0 <= d < 4 && FiveFrom(g, r, c, d)
  }

  /** A five at position s of a scanned line, whose cell s + k is k steps from (r, c) in direction d. */
  lemma LineFiveForward(g: Grid, cs: seq<Cell>, s: int, r: int, c: int, d: int)
    requires AllInBounds(cs) && FiveAt(Read(g, cs), s) && 0 <= d < 4
    requires forall j :: s <= j < s + 5 ==> cs[j] == Step(r, c, d, j - s)
    ensures HasFiveInARow(g)
  {
    var t := Read(g, cs);
    assert cs[s] == Step(r, c, d, 0);
    forall k | 0 <= k < 5
      ensures InBounds(Step(r, c, d, k)) && At(g, Step(r, c, d, k)) == g[r][c]
    {
      assert cs[s + k] == Step(r, c, d, k);
      assert t[s + k] == t[s];
    }
    assert FiveFrom(g, r, c, d);
  }

  /** A five at position s of a scanned line, whose cell s + 4 - k is k steps from (r, c) in direction d. */
  lemma LineFiveBackward(g: Grid, cs: seq<Cell>, s: int, r: int, c: int, d: int)
    requires AllInBounds(cs) && FiveAt(Read(g, cs), s) && 0 <= d < 4
    requires forall j :: s <= j < s + 5 ==> cs[j] == Step(r, c, d, s + 4 - j)
    ensures HasFiveInARow(g)
  {
    var t := Read(g, cs);
    assert cs[s + 4] == Step(r, c, d, 0);
    assert t[s + 4] == t[s];
    forall k | 0 <= k < 5
      ensures InBounds(Step(r, c, d, k)) && At(g, Step(r, c, d, k)) == g[r][c]
    {
      assert cs[s + 4 - k] == Step(r, c, d, k);
      assert t[s + 4 - k] == t[s];
    }
    assert FiveFrom(g, r, c, d);
  }

  lemma RowFiveOnBoard(g: Grid, i: int)
    requires 0 <= i < N && HasFive(Read(g, RowCells(i)))
    ensures HasFiveInARow(g)
  {
    var s :| 0 <= s < N && FiveAt(Read(g, RowCells(i)), s);
    LineFiveForward(g, RowCells(i), s, i, s, 0);
  }

  lemma ColumnFiveOnBoard(g: Grid, i: int)
    requires 0 <= i < N && HasFive(Read(g, ColCells(i)))
    ensures HasFiveInARow(g)
  {
    var s :| 0 <= s < N && FiveAt(Read(g, ColCells(i)), s);
    LineFiveForward(g, ColCells(i), s, s, i, 1);
  }

  lemma TopUpFiveOnBoard(g: Grid, i: int)
    requires 0 <= i < N && HasFive(Read(g, TopUpCells(i)))
    ensures HasFiveInARow(g)
  {
    var s :| 0 <= s <= i && FiveAt(Read(g, TopUpCells(i)), s);
    LineFiveBackward(g, TopUpCells(i), s, i - s - 4, s + 4, 3);
  }

  lemma TopDownFiveOnBoard(g: Grid, i: int)
    requires 0 <= i < N && HasFive(Read(g, TopDownCells(i)))
    ensures HasFiveInARow(g)
  {
    var s :| 0 <= s < N - i && FiveAt(Read(g, TopDownCells(i)), s);
    LineFiveForward(g, TopDownCells(i), s, i + s, s, 2);
  }

  lemma BottomUpFiveOnBoard(g: Grid, i: int)
    requires 0 <= i < N && HasFive(Read(g, BottomUpCells(i)))
    ensures HasFiveInARow(g)
  {
    var s :| 0 <= s <= i && FiveAt(Read(g, BottomUpCells(i)), s);
    LineFiveBackward(g, BottomUpCells(i), s, i - s - 4, N - 1 - s - 4, 2);
  }

  lemma BottomDownFiveOnBoard(g: Grid, i: int)
    requires 0 <= i < N && HasFive(Read(g, BottomDownCells(i)))
    ensures HasFiveInARow(g)
  {
    var s :| 0 <= s < N - i && FiveAt(Read(g, BottomDownCells(i)), s);
    LineFiveForward(g, BottomDownCells(i), s, i + s, N - 1 - s, 3);
  }

  lemma LineFiveOnBoard(g: Grid)
    requires AnyLineHasFive(g)
    ensures HasFiveInARow(g)
  {
    if i :| 0 <= i < N && HasFive(Read(g, RowCells(i))) {
      RowFiveOnBoard(g, i);
    } else if i :| 0 <= i < N && HasFive(Read(g, ColCells(i))) {
      ColumnFiveOnBoard(g, i);
    } else if i :| 0 <= i < N && HasFive(Read(g, TopUpCells(i))) {
      TopUpFiveOnBoard(g, i);
    } else if i :| 0 <= i < N && HasFive(Read(g, TopDownCells(i))) {
      TopDownFiveOnBoard(g, i);
    } else if i :| 1 <= i < N - 1 && HasFive(Read(g, BottomUpCells(i))) {
      BottomUpFiveOnBoard(g, i);
    } else {
      var i :| 1 <= i < N - 1 && HasFive(Read(g, BottomDownCells(i)));
      BottomDownFiveOnBoard(g, i);
    }
  }

  /** The five cells at positions s..s+4 of a scanned line carry the stone t. */
  lemma WindowInLine(g: Grid, cs: seq<Cell>, s: int, t: Tile)
    requires AllInBounds(cs) && 0 <= s && s + 5 <= |cs| && IsStone(t)
    requires forall j :: s <= j < s + 5 ==> At(g, cs[j]) == t
    ensures HasFive(Read(g, cs))
  {
    assert FiveAt(Read(g, cs), s);
  }

  lemma BoardFiveInLine(g: Grid, r: int, c: int, d: int)
    requires FiveFrom(g, r, c, d)
    ensures AnyLineHasFive(g)
  {
    var t := g[r][c];
    assert InBounds(Step(r, c, d, 4));
    if d == 0 {
      var cs := RowCells(r);
      forall j | c <= j < c + 5
        ensures At(g, cs[j]) == t
      {
        assert cs[j] == Step(r, c, d, j - c);
      }
      WindowInLine(g, cs, c, t);
    } else if d == 1 {
      var cs := ColCells(c);
      forall j | r <= j < r + 5
        ensures At(g, cs[j]) == t
      {
        assert cs[j] == Step(r, c, d, j - r);
      }
      WindowInLine(g, cs, r, t);
    } else if d == 2 && r >= c {
      var cs := TopDownCells(r - c);
      forall j | c <= j < c + 5
        ensures At(g, cs[j]) == t
      {
        assert cs[j] == Step(r, c, d, j - c);
      }
      WindowInLine(g, cs, c, t);
    } else if d == 2 {
      var cs := BottomUpCells(r - c + N - 1);
      forall j | 10 - c <= j < 15 - c
        ensures At(g, cs[j]) == t
      {
        assert cs[j] == Step(r, c, d, 14 - c - j);
      }
      WindowInLine(g, cs, 10 - c, t);
    } else if r + c < N {
      var cs := TopUpCells(r + c);
      forall j | c - 4 <= j < c + 1
        ensures At(g, cs[j]) == t
      {
        assert cs[j] == Step(r, c, d, c - j);
      }
      WindowInLine(g, cs, c - 4, t);
    } else {
      var cs := BottomDownCells(r + c - (N - 1));
      forall j | N - 1 - c <= j < N + 4 - c
        ensures At(g, cs[j]) == t
      {
        assert cs[j] == Step(r, c, d, j - (N - 1 - c));
      }
      WindowInLine(g, cs, N - 1 - c, t);
    }
  }

  /**
   * Scanning the 86 lines finds a five exactly when the board has five equal
   * stones in a row along a row, a column or either diagonal.
   */
  lemma ScannedLinesFindEveryFive(g: Grid)
    ensures AnyLineHasFive(g) <==> HasFiveInARow(g)
  {
    if AnyLineHasFive(g) {
      LineFiveOnBoard(g);
    }
    if HasFiveInARow(g) {
      var r, c, d :| 0 <= r < N && 0 <= c < N && 0 <= d < 4 && FiveFrom(g, r, c, d);
      BoardFiveInLine(g, r, c, d);
    }
  }

  /** The first scan of `check_win`: rows and columns, stopping at the first five. */
  method RowsAndColumnsWin(s: GameState, ghost g: Grid) returns (win: bool)
    requires s.Shows(g)
    ensures win == RowOrColumnHasFive(g, N)
  {
    for i := 0 to N
      invariant !RowOrColumnHasFive(g, i)
    {
      var line1, line2 := RowAndColumn(s, g, i);
      win := LineHasFive(line1);
      if win {
        return;
      }
      win := LineHasFive(line2);
      if win {
        return;
      }
    }
    return false;
  }

  /** The second scan of `check_win`: the diagonals that start on the left edge. */
  method TopDiagonalsWin(s: GameState, ghost g: Grid) returns (win: bool)
    requires s.Shows(g)
    ensures win == TopDiagonalHasFive(g, N)
  {
    for i := 0 to N
      invariant !TopDiagonalHasFive(g, i)
    {
      var line1, line2 := DiagonalsFromTop(s, g, i);
      win := LineHasFive(line1);
      if win {
        return;
      }
      win := LineHasFive(line2);
      if win {
        return;
      }
    }
    return false;
  }

  /** The third scan of `check_win`: the diagonals that start on the right edge, rows 1 to 13. */
  method BottomDiagonalsWin(s: GameState, ghost g: Grid) returns (win: bool)
    requires s.Shows(g)
    ensures win == BottomDiagonalHasFive(g, N - 1)
  {
    for i := 1 to N - 1
      invariant !BottomDiagonalHasFive(g, i)
    {
      var line1, line2 := DiagonalsFromBottom(s, g, i);
      win := LineHasFive(line1);
      if win {
        return;
      }
      win := LineHasFive(line2);
      if win {
        return;
      }
    }
    return false;
  }

  /**
   * `check_win`: rows and columns, then both diagonal families, stopping at
   * the first five; it reports exactly whether the board shows five equal
   * stones in a row in some direction.
   */
  method CheckWin(s: GameState) returns (win: bool)
    requires s.Valid()
    ensures win == AnyLineHasFive(s.Snapshot())
    ensures win == HasFiveInARow(s.Snapshot())
  {
    ghost var g := s.Snapshot();
    ScannedLinesFindEveryFive(g);
    win := RowsAndColumnsWin(s, g);
    if !win {
      win := TopDiagonalsWin(s, g);
    }
    if !win {
      win := BottomDiagonalsWin(s, g);
    }
  }

  /** A fresh game has no winner. */
  lemma NoWinOnEmptyBoard()
    ensures !AnyLineHasFive(EmptyGrid())
  {
    var g := EmptyGrid();
    ScannedLinesFindEveryFive(g);
    assert !HasFiveInARow(g);
  }
}
