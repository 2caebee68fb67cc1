// The board model of the Gomoku engine: tiles, the 15x15 grid, the mutable
// game state and the text serialiser of the board.

module Board {

  /** Side length of the square board. */
  const N: int := 15

  /** A board cell. `None` is a scanning sentinel and never sits on a real board. */
  datatype Tile = Empty | X | O | None

  /** A coordinate pair (row, column). */
  type Cell = (int, int)

  /** The board as a value: 15 rows of 15 tiles. */
  type Grid = g: seq<seq<Tile>> | |g| == N && forall r :: 0 <= r < N ==> |g[r]| == N
    witness seq(15, _ => seq(15, _ => Empty))

  predicate InBounds(c: Cell) {
    0 <= c.0 < N && 0 <= c.1 < N
  }

  /** True of X and O, the tiles a player places. */
  predicate IsStone(t: Tile) {
    t == X || t == O
  }

  /** The board of a fresh game. */
  function EmptyGrid(): (g: Grid)
    ensures forall r, c :: 0 <= r < N && 0 <= c < N ==> g[r][c] == Empty
  {
    seq(N, _ => seq(N, _ => Empty))
  }

  /** No cell of the board holds the sentinel. */
  predicate NoSentinel(g: Grid) {
    forall r, c :: 0 <= r < N && 0 <= c < N ==> g[r][c] != None
  }

  function At(g: Grid, c: Cell): Tile
    requires InBounds(c)
  {
    g[c.0][c.1]
  }

  /** The board with tile `t` written at cell `c` and every other cell kept. */
  function Place(g: Grid, c: Cell, t: Tile): (h: Grid)
    requires InBounds(c)
    ensures h[c.0][c.1] == t
    ensures forall r, k :: 0 <= r < N && 0 <= k < N && (r, k) != c ==> h[r][k] == g[r][k]
  {
    g[c.0 := g[c.0][c.1 := t]]
  }

  /** Number of `Empty` tiles in a sequence of tiles. */
  function CountEmpty(row: seq<Tile>): nat
  {
    if row == [] then 0
    else CountEmpty(row[..|row| - 1]) + (if row[|row| - 1] == Empty then 1 else 0)
  }

  /** Number of `Empty` tiles in the first `n` rows. */
  function EmptyRows(g: Grid, n: nat): nat
    requires n <= N
  {
    if n == 0 then 0 else EmptyRows(g, n - 1) + CountEmpty(g[n - 1])
  }

  /** Number of empty cells on the board. */
  function EmptyCount(g: Grid): nat {
    EmptyRows(g, N)
  }

  lemma {:induction false} CountEmptyPositive(row: seq<Tile>, j: int)
    requires 0 <= j < |row| && row[j] == Empty
    ensures CountEmpty(row) > 0
  {
    if j < |row| - 1 {
      CountEmptyPositive(row[..|row| - 1], j);
    }
  }

  lemma {:induction false} CountEmptyZero(row: seq<Tile>, j: int)
    requires CountEmpty(row) == 0 && 0 <= j < |row|
    ensures row[j] != Empty
  {
    if j < |row| - 1 {
      CountEmptyZero(row[..|row| - 1], j);
    }
  }

  lemma {:induction false} CountEmptyUpdate(row: seq<Tile>, j: int, t: Tile)
    requires 0 <= j < |row| && row[j] == Empty && t != Empty
    ensures CountEmpty(row[j := t]) + 1 == CountEmpty(row)
  {
    var n := |row|;
    if j < n - 1 {
      assert row[j := t][..n - 1] == row[..n - 1][j := t];
      CountEmptyUpdate(row[..n - 1], j, t);
    } else {
      assert row[j := t][..n - 1] == row[..n - 1];
    }
  }

  lemma {:induction false} EmptyRowsUpdate(g: Grid, c: Cell, t: Tile, n: nat)
    requires InBounds(c) && g[c.0][c.1] == Empty && t != Empty && n <= N
    ensures EmptyRows(Place(g, c, t), n) + (if c.0 < n then 1 else 0) == EmptyRows(g, n)
  {
    if n > 0 {
      EmptyRowsUpdate(g, c, t, n - 1);
      if c.0 == n - 1 {
        CountEmptyUpdate(g[c.0], c.1, t);
      }
    }
  }

  /** Putting a stone on an empty cell removes exactly one empty cell. */
  lemma PlaceStoneCount(g: Grid, c: Cell, t: Tile)
    requires InBounds(c) && g[c.0][c.1] == Empty && t != Empty
    ensures EmptyCount(Place(g, c, t)) + 1 == EmptyCount(g)
  {
    EmptyRowsUpdate(g, c, t, N);
  }

  lemma {:induction false} EmptyRowsZero(g: Grid, n: nat, r: int, c: int)
    requires n <= N && EmptyRows(g, n) == 0 && 0 <= r < n && 0 <= c < N
    ensures g[r][c] != Empty
  {
    if r < n - 1 {
      EmptyRowsZero(g, n - 1, r, c);
    } else {
      CountEmptyZero(g[r], c);
    }
  }

  lemma {:induction false} EmptyRowsPositive(g: Grid, n: nat, r: int, c: int)
    requires n <= N && 0 <= r < n && 0 <= c < N && g[r][c] == Empty
    ensures EmptyRows(g, n) > 0
  {
    if r < n - 1 {
      EmptyRowsPositive(g, n - 1, r, c);
    } else {
      CountEmptyPositive(g[r], c);
    }
  }

  /** The board has an empty cell exactly when the empty count is positive. */
  lemma EmptyCountPositive(g: Grid)
    ensures EmptyCount(g) > 0 <==> exists r, c :: 0 <= r < N && 0 <= c < N && g[r][c] == Empty
  {
    if EmptyCount(g) == 0 {
      forall r, c | 0 <= r < N && 0 <= c < N
        ensures g[r][c] != Empty
      {
        EmptyRowsZero(g, N, r, c);
      }
    } else {
      if forall r, c :: 0 <= r < N && 0 <= c < N ==> g[r][c] != Empty {
        EmptyRowsNone(g, N);
      }
    }
  }

  lemma {:induction false} CountEmptyNone(row: seq<Tile>)
    requires forall j :: 0 <= j < |row| ==> row[j] != Empty
    ensures CountEmpty(row) == 0
  {
    if row != [] {
      CountEmptyNone(row[..|row| - 1]);
    }
  }

  lemma {:induction false} EmptyRowsNone(g: Grid, n: nat)
    requires n <= N
    requires forall r, c :: 0 <= r < N && 0 <= c < N ==> g[r][c] != Empty
    ensures EmptyRows(g, n) == 0
  {
    if n > 0 {
      EmptyRowsNone(g, n - 1);
      CountEmptyNone(g[n - 1]);
    }
  }

  /** The character `fmt` prints for a tile; the sentinel has none. */
  function Glyph(t: Tile): char
    requires t != None
  {
    match t
    case Empty => ' '
    case X => 'X'
    case O => 'O'
  }

  /** One cell as printed: "| t ". */
  function CellText(t: Tile): string
    requires t != None
  {
    "| " + [Glyph(t)] + " "
  }

  /** The cells of a row, printed one after the other. */
  function CellsText(row: seq<Tile>): string
    requires forall j :: 0 <= j < |row| ==> row[j] != None
  {
    if row == [] then ""
    else CellsText(row[..|row| - 1]) + CellText(row[|row| - 1])
  }

  /** One printed line of the board. */
  function RowText(row: seq<Tile>): string
    requires forall j :: 0 <= j < |row| ==> row[j] != None
  {
    CellsText(row) + "|\n"
  }

  /** The printed text of a sequence of rows. */
  function RowsText(rows: seq<seq<Tile>>): string
    requires forall r, j :: 0 <= r < |rows| && 0 <= j < |rows[r]| ==> rows[r][j] != None
  {
    if rows == [] then ""
    else RowsText(rows[..|rows| - 1]) + RowText(rows[|rows| - 1])
  }

  /** The text `fmt` produces for a board. */
  function Render(g: Grid): string
    requires NoSentinel(g)
  {
    RowsText(g)
  }

  lemma {:induction false} CellsTextAt(row: seq<Tile>, j: int, k: int)
    requires forall i :: 0 <= i < |row| ==> row[i] != None
    requires 0 <= j < |row| && 0 <= k < 4
    ensures |CellsText(row)| == 4 * |row|
    ensures CellsText(row)[4 * j + k] == CellText(row[j])[k]
  {
    var n := |row|;
    CellsTextLength(row[..n - 1]);
    if j < n - 1 {
      CellsTextAt(row[..n - 1], j, k);
    }
  }

  lemma {:induction false} CellsTextLength(row: seq<Tile>)
    requires forall i :: 0 <= i < |row| ==> row[i] != None
    ensures |CellsText(row)| == 4 * |row|
  {
    if row != [] {
      CellsTextLength(row[..|row| - 1]);
    }
  }

  lemma {:induction false} RowsTextAt(rows: seq<seq<Tile>>, r: int, m: int)
    requires forall i :: 0 <= i < |rows| ==> |rows[i]| == N
    requires forall i, j :: 0 <= i < |rows| && 0 <= j < |rows[i]| ==> rows[i][j] != None
    requires 0 <= r < |rows| && 0 <= m < 62
    ensures |RowsText(rows)| == 62 * |rows| && |RowText(rows[r])| == 62
    ensures RowsText(rows)[62 * r + m] == RowText(rows[r])[m]
  {
    var n := |rows|;
    RowsTextLength(rows[..n - 1]);
    CellsTextLength(rows[n - 1]);
    CellsTextLength(rows[r]);
    if r < n - 1 {
      RowsTextAt(rows[..n - 1], r, m);
    }
  }

  lemma {:induction false} RowsTextLength(rows: seq<seq<Tile>>)
    requires forall i :: 0 <= i < |rows| ==> |rows[i]| == N
    requires forall i, j :: 0 <= i < |rows| && 0 <= j < |rows[i]| ==> rows[i][j] != None
    ensures |RowsText(rows)| == 62 * |rows|
  {
    if rows != [] {
      RowsTextLength(rows[..|rows| - 1]);
      CellsTextLength(rows[|rows| - 1]);
    }
  }

  /**
   * The layout of the serialised board: 15 lines of 62 characters, 930 in
   * all; each cell prints as "| t " with its glyph at offset 2, and each line
   * ends with "|\n".
   */
  lemma RenderLayout(g: Grid, r: int, c: int)
    requires NoSentinel(g) && 0 <= r < N && 0 <= c < N
    ensures |Render(g)| == 930
    ensures Render(g)[62 * r + 4 * c] == '|' && Render(g)[62 * r + 4 * c + 1] == ' '
    ensures Render(g)[62 * r + 4 * c + 2] == Glyph(g[r][c]) && Render(g)[62 * r + 4 * c + 3] == ' '
    ensures Render(g)[62 * r + 60] == '|' && Render(g)[62 * r + 61] == '\n'
  {
    RowsTextLength(g);
    CellsTextLength(g[r]);
    var t := g[r][c];
    assert CellText(t) == ['|', ' ', Glyph(t), ' '];
    RowsTextAt(g, r, 4 * c);
    CellsTextAt(g[r], c, 0);
    RowsTextAt(g, r, 4 * c + 1);
    CellsTextAt(g[r], c, 1);
    RowsTextAt(g, r, 4 * c + 2);
    CellsTextAt(g[r], c, 2);
    RowsTextAt(g, r, 4 * c + 3);
    CellsTextAt(g[r], c, 3);
    RowsTextAt(g, r, 60);
    RowsTextAt(g, r, 61);
    assert RowText(g[r])[60] == '|' && RowText(g[r])[61] == '\n';
  }

  /** The serialiser loses nothing: equal texts come from equal boards. */
  lemma RenderInjective(g: Grid, h: Grid)
    requires NoSentinel(g) && NoSentinel(h)
    requires Render(g) == Render(h)
    ensures g == h
  {
    forall r, c | 0 <= r < N && 0 <= c < N
      ensures g[r][c] == h[r][c]
    {
      RenderLayout(g, r, c);
      RenderLayout(h, r, c);
    }
    forall r | 0 <= r < N
      ensures g[r] == h[r]
    {
    }
  }

  /**
   * The game state: whose turn it is and the board, which the search edits
   * in place.
   */
  class GameState {
    var xTurn: bool
    var board: array2<Tile>

    ghost predicate Valid()
      reads this, board
    {
      board.Length0 == N && board.Length1 == N &&
      forall r, c :: 0 <= r < N && 0 <= c < N ==> board[r, c] != None
    }

    /** The board is well formed and `g` holds, cell by cell, what it holds. */
    ghost predicate Shows(g: Grid)
      reads this, board
    {
      Valid() && NoSentinel(g) &&
      forall r, c {:trigger board[r, c]} :: 0 <= r < N && 0 <= c < N ==> g[r][c] == board[r, c]
    }

    /** The board as a value. */
    ghost function Snapshot(): (g: Grid)
      reads this, board
      requires Valid()
      ensures Shows(g)
    {
      seq(N, r requires 0 <= r < N && Valid() reads this, board =>
        seq(N, c requires 0 <= c < N && Valid() reads this, board => board[r, c]))
    }

    /** A new game: an all-empty board and the given side to move. */
    constructor (playerStart: bool)
      ensures Valid() && fresh(board)
      ensures xTurn == playerStart
      ensures Snapshot() == EmptyGrid()
    {
      xTurn := playerStart;
      board := new Tile[N, N]((r, c) => Empty);
      new;
      assert forall r | 0 <= r < N :: Snapshot()[r] == EmptyGrid()[r];
    }

    /** The board as `fmt` prints it, built cell by cell. */
    method Format() returns (s: string)
      requires Valid()
      ensures s == Render(Snapshot())
      ensures |s| == 930
    {
      ghost var g := Snapshot();
      s := "";
      for r := 0 to N
        invariant s == RowsText(g[..r])
      {
        for c := 0 to N
          invariant s == RowsText(g[..r]) + CellsText(g[r][..c])
        {
          s := s + "| " + [Glyph(board[r, c])] + " ";
          assert g[r][..c + 1][..c] == g[r][..c];
        }
        s := s + "|\n";
        assert g[..r + 1][..r] == g[..r];
        assert g[r][..N] == g[r];
      }
      assert g[..N] == g;
      RowsTextLength(g);
    }
  }
}
