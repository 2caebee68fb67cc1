// The position evaluator: each scanned line is cut into runs of equal tiles
// and every stone run is scored from a fixed table. Scores are the source's
// f32 values scaled by ten, so every table entry is an integer.

module Evaluation {
  import opened Board
  import opened Lines

  /** The source's `INF` (10^8) scaled by ten. */
  const Inf: int := 1_000_000_000

  /** The value of a four whose owner is to move: `INF / 10`. */
  const FourOnTurn: int := 100_000_000

  /** A run of `len` equal tiles, as the pairs `(Tile, usize)` of the source. */
  datatype Run = Run(tile: Tile, len: nat)

  predicate NoSentinelLine(t: seq<Tile>) {
    forall k :: 0 <= k < |t| ==> t[k] != None
  }

  /** The maximal runs of equal tiles among the first `n` tiles of a line, from left to right. */
  function Rle(t: seq<Tile>, n: nat): seq<Run>
    requires n <= |t|
  {
    if n == 0 then []
    else
      var rs := Rle(t, n - 1);
      var last := t[n - 1];
      if |rs| > 0 && rs[|rs| - 1].tile == last then rs[..|rs| - 1] + [Run(last, rs[|rs| - 1].len + 1)]
      else rs + [Run(last, 1)]
  }

  /** The tiles a sequence of runs stands for. */
  function Expand(rs: seq<Run>): seq<Tile>
  {
    if |rs| == 0 then []
    else Expand(rs[..|rs| - 1]) + seq(rs[|rs| - 1].len, _ => rs[|rs| - 1].tile)
  }

  /** Sum of the run lengths. */
  function TotalLength(rs: seq<Run>): nat
  {
    if |rs| == 0 then 0 else TotalLength(rs[..|rs| - 1]) + rs[|rs| - 1].len
  }

  /** Runs that are a proper run-length encoding: non-empty, and neighbours differ. */
  predicate WellFormedRuns(rs: seq<Run>) {
    (forall k :: 0 <= k < |rs| ==> rs[k].len > 0) &&
    (forall k :: 0 <= k < |rs| - 1 ==> rs[k].tile != rs[k + 1].tile)
  }

  lemma {:induction false} ExpandLength(rs: seq<Run>)
    ensures |Expand(rs)| == TotalLength(rs)
  {
    if |rs| > 0 {
      ExpandLength(rs[..|rs| - 1]);
    }
  }

  /** The last run holds the last tile read. */
  lemma RleLast(t: seq<Tile>, n: nat)
    requires 0 < n <= |t|
    ensures |Rle(t, n)| > 0 && Rle(t, n)[|Rle(t, n)| - 1].tile == t[n - 1]
  {
  }

  /** Appending a non-empty run whose tile differs from the last one keeps an encoding proper. */
  lemma WellFormedSnoc(rs: seq<Run>, r: Run)
    requires WellFormedRuns(rs) && r.len > 0
    requires |rs| > 0 ==> rs[|rs| - 1].tile != r.tile
    ensures WellFormedRuns(rs + [r])
  {
    var R := rs + [r];
    forall k | 0 <= k < |R| - 1
      ensures R[k].tile != R[k + 1].tile
    {
      assert R[k] == rs[k];
    }
  }

  /** Dropping the last run keeps an encoding proper. */
  lemma WellFormedPrefix(rs: seq<Run>)
    requires WellFormedRuns(rs) && |rs| > 0
    ensures WellFormedRuns(rs[..|rs| - 1])
  {
  }

  /** The runs are non-empty, neighbouring runs differ, and there are no more runs than tiles. */
  lemma {:induction false} RleWellFormed(t: seq<Tile>, n: nat)
    requires n <= |t|
    ensures WellFormedRuns(Rle(t, n)) && |Rle(t, n)| <= n
  {
    if n > 0 {
      RleWellFormed(t, n - 1);
      var rs := Rle(t, n - 1);
      var m := |rs|;
      var x := t[n - 1];
      if m > 0 && rs[m - 1].tile == x {
        WellFormedPrefix(rs);
        WellFormedSnoc(rs[..m - 1], Run(x, rs[m - 1].len + 1));
      } else {
        WellFormedSnoc(rs, Run(x, 1));
      }
    }
  }

  /** Expanding one more run appends its tiles. */
  lemma ExpandSnoc(rs: seq<Run>, r: Run)
    ensures Expand(rs + [r]) == Expand(rs) + seq(r.len, _ => r.tile)
  {
    assert (rs + [r])[..|rs|] == rs;
  }

  /** Lengthening the last run by one appends one tile. */
  lemma ExpandExtend(prefix: seq<Run>, x: Tile, len: nat, u: seq<Tile>)
    requires Expand(prefix + [Run(x, len)]) == u
    ensures Expand(prefix + [Run(x, len + 1)]) == u + [x]
  {
    ExpandSnoc(prefix, Run(x, len));
    ExpandSnoc(prefix, Run(x, len + 1));
    assert seq(len + 1, _ => x) == seq(len, _ => x) + [x];
  }

  /** A new run of one tile appends that tile. */
  lemma ExpandAppend(rs: seq<Run>, x: Tile, u: seq<Tile>)
    requires Expand(rs) == u
    ensures Expand(rs + [Run(x, 1)]) == u + [x]
  {
    ExpandSnoc(rs, Run(x, 1));
    assert seq(1, _ => x) == [x];
  }

  /** Expanding the runs gives the tiles read back. */
  lemma {:induction false} RleExpand(t: seq<Tile>, n: nat)
    requires n <= |t|
    ensures Expand(Rle(t, n)) == t[..n]
  {
    if n > 0 {
      var x := t[n - 1];
      RleExpand(t, n - 1);
      var rs := Rle(t, n - 1);
      var m := |rs|;
      assert t[..n - 1] + [x] == t[..n];
      if m > 0 && rs[m - 1].tile == x {
        var prefix := rs[..m - 1];
        assert rs == prefix + [Run(x, rs[m - 1].len)];
        ExpandExtend(prefix, x, rs[m - 1].len, t[..n - 1]);
        assert Rle(t, n) == prefix + [Run(x, rs[m - 1].len + 1)];
      } else {
        ExpandAppend(rs, x, t[..n - 1]);
        assert Rle(t, n) == rs + [Run(x, 1)];
      }
    }
  }

  /** Every run holds a tile that occurs in the line. */
  lemma {:induction false} RleTiles(t: seq<Tile>, n: nat)
    requires n <= |t|
    ensures forall k :: 0 <= k < |Rle(t, n)| ==> Rle(t, n)[k].tile in t
  {
    if n > 0 {
      RleTiles(t, n - 1);
      var rs := Rle(t, n - 1);
      forall k | 0 <= k < |Rle(t, n)|
        ensures Rle(t, n)[k].tile in t
      {
        if k < |rs| && Rle(t, n)[k].tile == rs[k].tile {
          assert rs[k].tile in t;
        } else {
          assert Rle(t, n)[k].tile == t[n - 1];
        }
      }
    }
  }

  /**
   * The run-length encoding of a whole line has the shape the evaluator
   * relies on: its runs are non-empty, neighbouring runs hold different
   * tiles, there are no more runs than tiles, and expanding the runs gives
   * the line back, so their lengths add up to the line length.
   */
  lemma RleShape(t: seq<Tile>)
    ensures WellFormedRuns(Rle(t, |t|))
    ensures Expand(Rle(t, |t|)) == t
    ensures TotalLength(Rle(t, |t|)) == |t|
    ensures |Rle(t, |t|)| <= |t|
  {
    RleWellFormed(t, |t|);
    RleExpand(t, |t|);
    assert t[..|t|] == t;
    ExpandLength(Rle(t, |t|));
  }

  /** The encoding the source builds: the runs between `(None, 0)` and `(None, 1)`. */
  function Padded(t: seq<Tile>): (p: seq<Run>)
    ensures |p| == |Rle(t, |t|)| + 2
  {
    [Run(None, 0)] + Rle(t, |t|) + [Run(None, 1)]
  }

  /** The score-table entry of a stone run, before its sign. */
  function TableValue(len: nat, bothOpen: bool, space: nat, onTurn: bool): int
  {
    if len == 1 then (if !bothOpen then 1 else 3)
    else if len == 2 then (if !bothOpen then 4 else 7)
    else if len == 3 then (if !bothOpen then 10 else if space >= 3 then 70 else 30)
    else if len == 4 then (if onTurn then FourOnTurn else if !bothOpen then 100 else 1000)
    else if len >= 5 then Inf
    else 0
  }

  /** The length of a neighbouring run if it is empty, else 0. */
  function EmptyLength(r: Run): nat {
    if r.tile == Empty then r.len else 0
  }

  /** The owner of the run is the side to move. */
  predicate OwnersTurn(t: Tile, xTurn: bool) {
    (t == O && !xTurn) || (t == X && xTurn)
  }

  /** The value the evaluator adds for run `cur` between runs `prev` and `next`. */
  function RunValue(prev: Run, cur: Run, next: Run, xTurn: bool): int
  {
    var before := EmptyLength(prev);
    var after := EmptyLength(next);
    if cur.tile == Empty || cur.len + before + after < 5 then 0
    else
      var magnitude := TableValue(cur.len, before > 0 && after > 0, before + after, OwnersTurn(cur.tile, xTurn));
      if cur.tile == O then magnitude else -magnitude
  }

  /** The sum of the values of runs 1 .. i-1 of an encoding. */
  function RunsScore(p: seq<Run>, i: int, xTurn: bool): int
    requires 1 <= i <= |p| - 1
  {
    if i == 1 then 0
    else RunsScore(p, i - 1, xTurn) + RunValue(p[i - 2], p[i - 1], p[i], xTurn)
  }

  /** The score of one line; lines shorter than five score nothing. */
  function LineScore(t: seq<Tile>, xTurn: bool): int
  {
    if |t| < 5 then 0 else RunsScore(Padded(t), |Padded(t)| - 1, xTurn)
  }

  /**
   * What one run contributes: nothing for an empty run or a run with no room
   * to become five; otherwise the table value with the owner's sign, which
   * for a four whose owner is to move is a tenth of `INF` whatever its
   * openness, and for five or more is `INF`.
   */
  lemma RunValueCases(prev: Run, cur: Run, next: Run, xTurn: bool)
    requires cur.tile != None
    ensures cur.tile == Empty ==> RunValue(prev, cur, next, xTurn) == 0
    ensures cur.len + EmptyLength(prev) + EmptyLength(next) < 5 ==> RunValue(prev, cur, next, xTurn) == 0
    ensures cur.tile == O ==> 0 <= RunValue(prev, cur, next, xTurn) <= Inf
    ensures cur.tile == X ==> -Inf <= RunValue(prev, cur, next, xTurn) <= 0
    ensures IsStone(cur.tile) && cur.len == 4 && OwnersTurn(cur.tile, xTurn) && 4 + EmptyLength(prev) + EmptyLength(next) >= 5 ==>
      RunValue(prev, cur, next, xTurn) == (if cur.tile == O then FourOnTurn else -(FourOnTurn))
    ensures IsStone(cur.tile) && cur.len >= 5 ==>
      RunValue(prev, cur, next, xTurn) == (if cur.tile == O then Inf else -Inf)
  {
  }

  /** A line of at most 15 cells scores at most 15 `INF` either way. */
  lemma LineScoreBound(t: seq<Tile>, xTurn: bool)
    requires NoSentinelLine(t) && |t| <= N
    ensures -N * Inf <= LineScore(t, xTurn) <= N * Inf
  {
    if |t| >= 5 {
      RleTiles(t, |t|);
      RleWellFormed(t, |t|);
      var p := Padded(t);
      var rs := Rle(t, |t|);
      forall k | 1 <= k < |p| - 1
        ensures p[k].tile != None
      {
        assert p[k] == rs[k - 1];
      }
      RunsScoreInner(p, |p| - 1, xTurn);
    }
  }

  /** The bound for an encoding whose inner runs hold no sentinel. */
  lemma {:induction false} RunsScoreInner(p: seq<Run>, i: int, xTurn: bool)
    requires 1 <= i <= |p| - 1
    requires forall k :: 1 <= k < |p| - 1 ==> p[k].tile != None
    ensures -(i - 1) * Inf <= RunsScore(p, i, xTurn) <= (i - 1) * Inf
  {
    if i > 1 {
      RunsScoreInner(p, i - 1, xTurn);
      RunValueCases(p[i - 2], p[i - 1], p[i], xTurn);
    }
  }

  /** One step of the encoding loop: the next tile extends the current run or starts a new one. */
  lemma EncodeStep(line: seq<Tile>, i: int, runs: seq<Run>, prev: Tile, len: nat, runs': seq<Run>, prev': Tile, len': nat)
    requires 0 <= i < |line| && line[i] != None
    requires runs + [Run(prev, len)] == [Run(None, 0)] + Rle(line, i)
    requires i == 0 ==> runs == [] && prev == None
    requires line[i] == prev ==> runs' == runs && prev' == prev && len' == len + 1
    requires line[i] != prev ==> runs' == runs + [Run(prev, len)] && prev' == line[i] && len' == 1
    ensures runs' + [Run(prev', len')] == [Run(None, 0)] + Rle(line, i + 1)
  {
    var R := Rle(line, i);
    var x := line[i];
    if i == 0 {
      assert Rle(line, 1) == [Run(x, 1)];
    } else {
      RleLast(line, i);
      var m := |R|;
      assert Run(prev, len) == R[m - 1] by {
        assert (runs + [Run(prev, len)])[|runs|] == Run(prev, len);
        assert ([Run(None, 0)] + R)[m] == R[m - 1];
      }
      assert runs == [Run(None, 0)] + R[..m - 1] by {
        assert runs == (runs + [Run(prev, len)])[..|runs|];
        assert runs == ([Run(None, 0)] + R)[..m];
      }
      if x == prev {
        assert Rle(line, i + 1) == R[..m - 1] + [Run(x, len + 1)];
      } else {
        assert Rle(line, i + 1) == R + [Run(x, 1)];
        assert R == R[..m - 1] + [Run(prev, len)];
      }
    }
  }

  /** When the sentinel arrives, the run in progress holds the last tile, which is a stone or `Empty`. */
  lemma RleClose(line: seq<Tile>, runs: seq<Run>, prev: Tile, len: nat)
    requires NoSentinelLine(line) && |line| > 0
    requires runs + [Run(prev, len)] == [Run(None, 0)] + Rle(line, |line|)
    ensures prev == line[|line| - 1] && prev != None
  {
    var R := Rle(line, |line|);
    RleLast(line, |line|);
    assert (runs + [Run(prev, len)])[|runs|] == Run(prev, len);
    assert ([Run(None, 0)] + R)[|R|] == R[|R| - 1];
  }

  /**
   * The first half of `eval_line`: the line with a `None` sentinel appended
   * is cut into runs, starting from the pair `(None, 0)`, and `(None, 1)` is
   * pushed at the end.
   */
  method EncodeRuns(line: seq<Tile>) returns (runs: seq<Run>)
    requires NoSentinelLine(line) && |line| > 0
    ensures runs == Padded(line)
  {
    var tmp := line + [None];
    runs := [];
    var len := 0;
    var prev := None;
    var i := 0;
    while i < |tmp|
      invariant 0 <= i <= |tmp|
      invariant i <= |line| ==> runs + [Run(prev, len)] == [Run(None, 0)] + Rle(line, i)
      invariant i == |tmp| ==> runs == [Run(None, 0)] + Rle(line, |line|)
      invariant i == 0 ==> runs == [] && prev == None && len == 0
    {
      var tile := tmp[i];
      ghost var runs0, prev0, len0 := runs, prev, len;
      if tile == prev {
        len := len + 1;
      } else {
        runs := runs + [Run(prev, len)];
        len := 1;
        prev := tile;
      }
      if i < |line| {
        EncodeStep(line, i, runs0, prev0, len0, runs, prev, len);
      } else {
        RleClose(line, runs0, prev0, len0);
      }
      i := i + 1;
    }
    runs := runs + [Run(None, 1)];
  }

  /**
   * The second half of `eval_line`: every run strictly between the two
   * sentinels is valued from the table by its length, its owner, and the
   * empty runs on either side.
   */
  method ScoreRuns(runs: seq<Run>, xTurn: bool) returns (value: int)
    requires |runs| >= 2
    ensures value == RunsScore(runs, |runs| - 1, xTurn)
  {
    value := 0;
    for k := 1 to |runs| - 1
      invariant value == RunsScore(runs, k, xTurn)
    {
      var run := runs[k];
      if run.tile != Empty {
        var emptyBefore := if runs[k - 1].tile == Empty then runs[k - 1].len else 0;
        var emptyAfter := if runs[k + 1].tile == Empty then runs[k + 1].len else 0;
        if run.len + emptyBefore + emptyAfter >= 5 {
          var bothSidesEmpty := emptyBefore > 0 && emptyAfter > 0;
          var playerTurn := (run.tile == O && !xTurn) || (run.tile == X && xTurn);
          var playerSign := if run.tile == O then 1 else -1;
          if run.len == 1 {
            value := value + playerSign * (if !bothSidesEmpty then 1 else 3);
          } else if run.len == 2 {
            value := value + playerSign * (if !bothSidesEmpty then 4 else 7);
          } else if run.len == 3 {
            value := value + playerSign *
              (if !bothSidesEmpty then 10 else if emptyBefore + emptyAfter >= 3 then 70 else 30);
          } else if run.len == 4 {
            value := value + playerSign *
              (if playerTurn then FourOnTurn else if !bothSidesEmpty then 100 else 1000);
          } else if run.len >= 5 {
            value := value + playerSign * Inf;
          }
        }
      }
    }
  }

  /** `eval_line`: lines shorter than five score nothing; others are encoded, then scored. */
  method EvalLine(line: seq<Tile>, xTurn: bool) returns (value: int)
    requires NoSentinelLine(line)
    ensures value == LineScore(line, xTurn)
    ensures |line| < 5 ==> value == 0
  {
    if |line| < 5 {
      return 0;
    }
    var runs := EncodeRuns(line);
    value := ScoreRuns(runs, xTurn);
  }

  /** The scores of two scanned lines, as each step of a scan adds them. */
  function PairScore(g: Grid, a: seq<Cell>, b: seq<Cell>, xTurn: bool): int
    requires AllInBounds(a) && AllInBounds(b)
  {
    LineScore(Read(g, a), xTurn) + LineScore(Read(g, b), xTurn)
  }

  /** The scores of rows and columns 0 .. n-1. */
  function RowColumnScore(g: Grid, n: int, xTurn: bool): int
    requires 0 <= n <= N
  {
    if n == 0 then 0
    else
      var previous := RowColumnScore(g, n - 1, xTurn);
      previous + PairScore(g, RowCells(n - 1), ColCells(n - 1), xTurn)
  }

  /** The scores of the diagonals starting at (i, 0), i < n. */
  function TopDiagonalScore(g: Grid, n: int, xTurn: bool): int
    requires 0 <= n <= N
  {
    if n == 0 then 0
    else
      var previous := TopDiagonalScore(g, n - 1, xTurn);
      previous + PairScore(g, TopUpCells(n - 1), TopDownCells(n - 1), xTurn)
  }

  /** The scores of the diagonals starting at (i, 14), 1 <= i <= n. */
  function BottomDiagonalScore(g: Grid, n: int, xTurn: bool): int
    requires 0 <= n <= N - 2
  {
    if n == 0 then 0
    else
      var previous := BottomDiagonalScore(g, n - 1, xTurn);
      previous + PairScore(g, BottomUpCells(n), BottomDownCells(n), xTurn)
  }

  lemma RowColumnStep(g: Grid, i: int, xTurn: bool)
    requires 0 <= i < N
    ensures RowColumnScore(g, i + 1, xTurn) ==
      RowColumnScore(g, i, xTurn) + LineScore(Read(g, RowCells(i)), xTurn) + LineScore(Read(g, ColCells(i)), xTurn)
  {
  }

  lemma TopDiagonalStep(g: Grid, i: int, xTurn: bool)
    requires 0 <= i < N
    ensures TopDiagonalScore(g, i + 1, xTurn) ==
      TopDiagonalScore(g, i, xTurn) + LineScore(Read(g, TopUpCells(i)), xTurn) + LineScore(Read(g, TopDownCells(i)), xTurn)
  {
  }

  lemma BottomDiagonalStep(g: Grid, i: int, xTurn: bool)
    requires 1 <= i < N - 1
    ensures BottomDiagonalScore(g, i, xTurn) ==
      BottomDiagonalScore(g, i - 1, xTurn) + LineScore(Read(g, BottomUpCells(i)), xTurn) + LineScore(Read(g, BottomDownCells(i)), xTurn)
  {
  }

  /** The evaluation of a position: the sum of the scores of the 86 scanned lines. */
  function Eval(g: Grid, xTurn: bool): int
  {
    RowColumnScore(g, N, xTurn) + TopDiagonalScore(g, N, xTurn) + BottomDiagonalScore(g, N - 2, xTurn)
  }

  lemma ReadNoSentinel(g: Grid, cs: seq<Cell>)
    requires NoSentinel(g) && AllInBounds(cs)
    ensures NoSentinelLine(Read(g, cs))
  {
  }

  /** One step of a scan: row i and column i, scored. */
  method ScoreRowAndColumn(s: GameState, ghost g: Grid, i: int, xTurn: bool) returns (v1: int, v2: int)
    requires s.Shows(g) && 0 <= i < N
    ensures RowColumnScore(g, i + 1, xTurn) == RowColumnScore(g, i, xTurn) + v1 + v2
  {
    var line1, line2 := RowAndColumn(s, g, i);
    ReadNoSentinel(g, RowCells(i));
    ReadNoSentinel(g, ColCells(i));
    v1 := EvalLine(line1, xTurn);
    v2 := EvalLine(line2, xTurn);
    RowColumnStep(g, i, xTurn);
  }

  /** The first scan of `eval`: every row and every column. */
  method ScoreRowsAndColumns(s: GameState, ghost g: Grid, xTurn: bool) returns (value: int)
    requires s.Shows(g)
    ensures value == RowColumnScore(g, N, xTurn)
  {
    hide PairScore;
    value := 0;
    for i := 0 to N
      invariant value == RowColumnScore(g, i, xTurn)
    {
      var v1, v2 := ScoreRowAndColumn(s, g, i, xTurn);
      value := value + v1 + v2;
    }
  }

  /** One step of a scan: the two diagonals that start at (i, 0), scored. */
  method ScoreTopPair(s: GameState, ghost g: Grid, i: int, xTurn: bool) returns (v1: int, v2: int)
    requires s.Shows(g) && 0 <= i < N
    ensures TopDiagonalScore(g, i + 1, xTurn) == TopDiagonalScore(g, i, xTurn) + v1 + v2
  {
    var line1, line2 := DiagonalsFromTop(s, g, i);
    ReadNoSentinel(g, TopUpCells(i));
    ReadNoSentinel(g, TopDownCells(i));
    v1 := EvalLine(line1, xTurn);
    v2 := EvalLine(line2, xTurn);
    TopDiagonalStep(g, i, xTurn);
  }

  /** The second scan of `eval`: the diagonals that start on the left edge. */
  method ScoreTopDiagonals(s: GameState, ghost g: Grid, xTurn: bool) returns (value: int)
    requires s.Shows(g)
    ensures value == TopDiagonalScore(g, N, xTurn)
  {
    hide PairScore;
    value := 0;
    for i := 0 to N
      invariant value == TopDiagonalScore(g, i, xTurn)
    {
      var v1, v2 := ScoreTopPair(s, g, i, xTurn);
      value := value + v1 + v2;
    }
  }

  /** One step of a scan: the two diagonals that start at (i, 14), scored. */
  method ScoreBottomPair(s: GameState, ghost g: Grid, i: int, xTurn: bool) returns (v1: int, v2: int)
    requires s.Shows(g) && 1 <= i < N - 1
    ensures BottomDiagonalScore(g, i, xTurn) == BottomDiagonalScore(g, i - 1, xTurn) + v1 + v2
  {
    var line1, line2 := DiagonalsFromBottom(s, g, i);
    ReadNoSentinel(g, BottomUpCells(i));
    ReadNoSentinel(g, BottomDownCells(i));
    v1 := EvalLine(line1, xTurn);
    v2 := EvalLine(line2, xTurn);
    BottomDiagonalStep(g, i, xTurn);
  }

  /** The third scan of `eval`: the diagonals that start on the right edge, rows 1 to 13. */
  method ScoreBottomDiagonals(s: GameState, ghost g: Grid, xTurn: bool) returns (value: int)
    requires s.Shows(g)
    ensures value == BottomDiagonalScore(g, N - 2, xTurn)
  {
    hide PairScore;
    value := 0;
    for i := 0 to N - 2
      invariant value == BottomDiagonalScore(g, i, xTurn)
    {
      var v1, v2 := ScoreBottomPair(s, g, i + 1, xTurn);
      value := value + v1 + v2;
    }
  }

  /** `eval`: reads the side to move from the state and sums the scores of the three scans. */
  method Evaluate(s: GameState) returns (value: int)
    requires s.Valid()
    ensures value == Eval(s.Snapshot(), s.xTurn)
  {
    hide RowColumnScore, TopDiagonalScore, BottomDiagonalScore;
    ghost var g := s.Snapshot();
    var xTurn := s.xTurn;
    var rows := ScoreRowsAndColumns(s, g, xTurn);
    var top := ScoreTopDiagonals(s, g, xTurn);
    var bottom := ScoreBottomDiagonals(s, g, xTurn);
    value := rows + top + bottom;
  }

  // ---------------------------------------------------------------------
  // Properties of the whole evaluation
  // ---------------------------------------------------------------------

  /** No position scores more than this either way: 86 lines of at most 15 runs worth `INF` each. */
  const MaxEval: int := 86 * N * Inf

  /** An encoding whose inner runs are all `Empty` scores nothing. */
  lemma {:induction false} RunsScoreEmpty(p: seq<Run>, i: int, xTurn: bool)
    requires 1 <= i <= |p| - 1
    requires forall k :: 1 <= k < |p| - 1 ==> p[k].tile == Empty
    ensures RunsScore(p, i, xTurn) == 0
  {
    if i > 1 {
      RunsScoreEmpty(p, i - 1, xTurn);
    }
  }

  /** A line of empty cells scores 0, however long it is. */
  lemma LineScoreEmpty(t: seq<Tile>, xTurn: bool)
    requires forall k :: 0 <= k < |t| ==> t[k] == Empty
    ensures LineScore(t, xTurn) == 0
  {
    if |t| >= 5 {
      RleTiles(t, |t|);
      var p := Padded(t);
      var rs := Rle(t, |t|);
      forall k | 1 <= k < |p| - 1
        ensures p[k].tile == Empty
      {
        assert p[k] == rs[k - 1];
      }
      RunsScoreEmpty(p, |p| - 1, xTurn);
    }
  }

  lemma PairScoreEmpty(a: seq<Cell>, b: seq<Cell>, xTurn: bool)
    requires AllInBounds(a) && AllInBounds(b)
    ensures PairScore(EmptyGrid(), a, b, xTurn) == 0
  {
    LineScoreEmpty(Read(EmptyGrid(), a), xTurn);
    LineScoreEmpty(Read(EmptyGrid(), b), xTurn);
  }

  lemma {:induction false} RowColumnScoreEmpty(n: int, xTurn: bool)
    requires 0 <= n <= N
    ensures RowColumnScore(EmptyGrid(), n, xTurn) == 0
  {
    hide PairScore;
    if n > 0 {
      RowColumnScoreEmpty(n - 1, xTurn);
      PairScoreEmpty(RowCells(n - 1), ColCells(n - 1), xTurn);
    }
  }

  lemma {:induction false} TopDiagonalScoreEmpty(n: int, xTurn: bool)
    requires 0 <= n <= N
    ensures TopDiagonalScore(EmptyGrid(), n, xTurn) == 0
  {
    hide PairScore;
    if n > 0 {
      TopDiagonalScoreEmpty(n - 1, xTurn);
      PairScoreEmpty(TopUpCells(n - 1), TopDownCells(n - 1), xTurn);
    }
  }

  lemma {:induction false} BottomDiagonalScoreEmpty(n: int, xTurn: bool)
    requires 0 <= n <= N - 2
    ensures BottomDiagonalScore(EmptyGrid(), n, xTurn) == 0
  {
    hide PairScore;
    if n > 0 {
      BottomDiagonalScoreEmpty(n - 1, xTurn);
      PairScoreEmpty(BottomUpCells(n), BottomDownCells(n), xTurn);
    }
  }

  /** The empty board evaluates to 0 whichever side is to move. */
  lemma EvalEmptyBoard(xTurn: bool)
    ensures Eval(EmptyGrid(), xTurn) == 0
  {
    RowColumnScoreEmpty(N, xTurn);
    TopDiagonalScoreEmpty(N, xTurn);
    BottomDiagonalScoreEmpty(N - 2, xTurn);
  }

  /** The other player's stone; `Empty` and the sentinel stay as they are. */
  function Swap(t: Tile): (u: Tile)
    ensures IsStone(t) ==> IsStone(u) && u != t
    ensures (u == Empty) == (t == Empty) && (u == None) == (t == None)
  {
    match t
    case X => O
    case O => X
    case _ => t
  }

  function SwapLine(t: seq<Tile>): (u: seq<Tile>)
    ensures |u| == |t| && forall k :: 0 <= k < |t| ==> u[k] == Swap(t[k])
  {
    seq(|t|, k requires 0 <= k < |t| => Swap(t[k]))
  }

  function SwapRuns(rs: seq<Run>): (us: seq<Run>)
    ensures |us| == |rs| && forall k :: 0 <= k < |rs| ==> us[k] == Run(Swap(rs[k].tile), rs[k].len)
  {
    seq(|rs|, k requires 0 <= k < |rs| => Run(Swap(rs[k].tile), rs[k].len))
  }

  /** The board with every X and O exchanged. */
  function SwapGrid(g: Grid): (h: Grid)
    ensures forall r, c :: 0 <= r < N && 0 <= c < N ==> h[r][c] == Swap(g[r][c])
  {
    seq(N, r requires 0 <= r < N => SwapLine(g[r]))
  }

  /** Exchanging the colours exchanges them run by run: lengths and boundaries stay. */
  lemma {:induction false} RleSwap(t: seq<Tile>, n: nat)
    requires n <= |t|
    ensures Rle(SwapLine(t), n) == SwapRuns(Rle(t, n))
  {
    if n > 0 {
      RleSwap(t, n - 1);
      var rs := Rle(t, n - 1);
      var m := |rs|;
      if m > 0 && rs[m - 1].tile == t[n - 1] {
        RleSwapExtend(t, n);
      } else {
        RleSwapNew(t, n);
      }
    }
  }

  /** The step of RleSwap where the next tile lengthens the last run. */
  lemma RleSwapExtend(t: seq<Tile>, n: nat)
    requires 0 < n <= |t|
    requires Rle(SwapLine(t), n - 1) == SwapRuns(Rle(t, n - 1))
    requires |Rle(t, n - 1)| > 0 && Rle(t, n - 1)[|Rle(t, n - 1)| - 1].tile == t[n - 1]
    ensures Rle(SwapLine(t), n) == SwapRuns(Rle(t, n))
  {
    hide Rle;
    var u := SwapLine(t);
    var rs := Rle(t, n - 1);
    var m := |rs|;
    var last := Run(t[n - 1], rs[m - 1].len + 1);
    assert u[n - 1] == Swap(t[n - 1]);
    RleLengthen(t, n);
    RleLengthen(u, n);
    SwapRunsReplaceLast(rs, last);
  }

  /** A tile equal to the last run's lengthens that run by one. */
  lemma RleLengthen(t: seq<Tile>, n: nat)
    requires 0 < n <= |t|
    requires |Rle(t, n - 1)| > 0 && Rle(t, n - 1)[|Rle(t, n - 1)| - 1].tile == t[n - 1]
    ensures Rle(t, n) == Rle(t, n - 1)[..|Rle(t, n - 1)| - 1] + [Run(t[n - 1], Rle(t, n - 1)[|Rle(t, n - 1)| - 1].len + 1)]
  {
  }

  lemma SwapRunsReplaceLast(rs: seq<Run>, r: Run)
    requires |rs| > 0
    ensures SwapRuns(rs[..|rs| - 1] + [r]) == SwapRuns(rs)[..|rs| - 1] + [Run(Swap(r.tile), r.len)]
  {
    SwapRunsSnoc(rs[..|rs| - 1], r);
    SwapRunsPrefix(rs, |rs| - 1);
  }

  lemma SwapRunsPrefix(rs: seq<Run>, k: nat)
    requires k <= |rs|
    ensures SwapRuns(rs[..k]) == SwapRuns(rs)[..k]
  {
  }

  /** The step of RleSwap where the next tile starts a new run. */
  lemma RleSwapNew(t: seq<Tile>, n: nat)
    requires 0 < n <= |t|
    requires Rle(SwapLine(t), n - 1) == SwapRuns(Rle(t, n - 1))
    requires |Rle(t, n - 1)| > 0 ==> Rle(t, n - 1)[|Rle(t, n - 1)| - 1].tile != t[n - 1]
    ensures Rle(SwapLine(t), n) == SwapRuns(Rle(t, n))
  {
    var u := SwapLine(t);
    var rs := Rle(t, n - 1);
    var us := Rle(u, n - 1);
    var m := |rs|;
    var x := t[n - 1];
    assert u[n - 1] == Swap(x);
    assert m > 0 ==> us[m - 1].tile != Swap(x);
    assert Rle(u, n) == us + [Run(Swap(x), 1)];
    assert Rle(t, n) == rs + [Run(x, 1)];
    SwapRunsSnoc(rs, Run(x, 1));
  }

  lemma SwapRunsSnoc(rs: seq<Run>, r: Run)
    ensures SwapRuns(rs + [r]) == SwapRuns(rs) + [Run(Swap(r.tile), r.len)]
  {
  }

  /** With the colours and the side to move exchanged, a run is worth the opposite. */
  lemma RunValueSwap(prev: Run, cur: Run, next: Run, xTurn: bool)
    requires cur.tile != None
    ensures RunValue(Run(Swap(prev.tile), prev.len), Run(Swap(cur.tile), cur.len), Run(Swap(next.tile), next.len), !xTurn)
      == -RunValue(prev, cur, next, xTurn)
  {
  }

  lemma {:induction false} RunsScoreSwap(p: seq<Run>, i: int, xTurn: bool)
    requires 1 <= i <= |p| - 1
    requires forall k :: 1 <= k < |p| - 1 ==> p[k].tile != None
    ensures RunsScore(SwapRuns(p), i, !xTurn) == -RunsScore(p, i, xTurn)
  {
    if i > 1 {
      RunsScoreSwap(p, i - 1, xTurn);
      RunValueSwap(p[i - 2], p[i - 1], p[i], xTurn);
    }
  }

  /** Exchanging the colours of a line and the side to move negates its score. */
  lemma LineScoreSwap(t: seq<Tile>, xTurn: bool)
    requires NoSentinelLine(t)
    ensures LineScore(SwapLine(t), !xTurn) == -LineScore(t, xTurn)
  {
    if |t| >= 5 {
      var p := Padded(t);
      PaddedSwap(t);
      PaddedInner(t);
      RunsScoreSwap(p, |p| - 1, xTurn);
    }
  }

  lemma PaddedSwap(t: seq<Tile>)
    ensures Padded(SwapLine(t)) == SwapRuns(Padded(t))
  {
    RleSwap(t, |t|);
    var rs := Rle(t, |t|);
    assert SwapRuns([Run(None, 0)] + rs + [Run(None, 1)]) == [Run(None, 0)] + SwapRuns(rs) + [Run(None, 1)];
  }

  /** Between its two sentinel runs, the encoding of a real line holds no sentinel. */
  lemma PaddedInner(t: seq<Tile>)
    requires NoSentinelLine(t)
    ensures forall k :: 1 <= k < |Padded(t)| - 1 ==> Padded(t)[k].tile != None
  {
    RleTiles(t, |t|);
    var p := Padded(t);
    var rs := Rle(t, |t|);
    forall k | 1 <= k < |p| - 1
      ensures p[k].tile != None
    {
      assert p[k] == rs[k - 1];
    }
  }

  lemma ReadSwap(g: Grid, cs: seq<Cell>)
    requires NoSentinel(g) && AllInBounds(cs)
    ensures Read(SwapGrid(g), cs) == SwapLine(Read(g, cs))
    ensures NoSentinelLine(Read(g, cs))
  {
  }

  /** Exchanging the colours of the board negates the score of each step of a scan. */
  lemma PairScoreSwap(g: Grid, a: seq<Cell>, b: seq<Cell>, xTurn: bool)
    requires NoSentinel(g) && AllInBounds(a) && AllInBounds(b)
    ensures PairScore(SwapGrid(g), a, b, !xTurn) == -PairScore(g, a, b, xTurn)
  {
    ReadSwap(g, a);
    LineScoreSwap(Read(g, a), xTurn);
    ReadSwap(g, b);
    LineScoreSwap(Read(g, b), xTurn);
  }

  /** Two scanned lines of a real board score at most 30 `INF` either way. */
  lemma PairScoreBound(g: Grid, a: seq<Cell>, b: seq<Cell>, xTurn: bool)
    requires NoSentinel(g) && AllInBounds(a) && AllInBounds(b) && |a| <= N && |b| <= N
    ensures -2 * N * Inf <= PairScore(g, a, b, xTurn) <= 2 * N * Inf
  {
    ReadSwap(g, a);
    LineScoreBound(Read(g, a), xTurn);
    ReadSwap(g, b);
    LineScoreBound(Read(g, b), xTurn);
  }

  lemma {:induction false} RowColumnScoreSwap(g: Grid, n: int, xTurn: bool)
    requires NoSentinel(g) && 0 <= n <= N
    ensures RowColumnScore(SwapGrid(g), n, !xTurn) == -RowColumnScore(g, n, xTurn)
  {
    hide PairScore;
    if n > 0 {
      RowColumnScoreSwap(g, n - 1, xTurn);
      PairScoreSwap(g, RowCells(n - 1), ColCells(n - 1), xTurn);
    }
  }

  lemma {:induction false} TopDiagonalScoreSwap(g: Grid, n: int, xTurn: bool)
    requires NoSentinel(g) && 0 <= n <= N
    ensures TopDiagonalScore(SwapGrid(g), n, !xTurn) == -TopDiagonalScore(g, n, xTurn)
  {
    hide PairScore;
    if n > 0 {
      TopDiagonalScoreSwap(g, n - 1, xTurn);
      PairScoreSwap(g, TopUpCells(n - 1), TopDownCells(n - 1), xTurn);
    }
  }

  lemma {:induction false} BottomDiagonalScoreSwap(g: Grid, n: int, xTurn: bool)
    requires NoSentinel(g) && 0 <= n <= N - 2
    ensures BottomDiagonalScore(SwapGrid(g), n, !xTurn) == -BottomDiagonalScore(g, n, xTurn)
  {
    hide PairScore;
    if n > 0 {
      BottomDiagonalScoreSwap(g, n - 1, xTurn);
      PairScoreSwap(g, BottomUpCells(n), BottomDownCells(n), xTurn);
    }
  }

  /**
   * The evaluator is antisymmetric: exchanging every X and O and the side to
   * move negates the score.
   */
  lemma EvalSwap(g: Grid, xTurn: bool)
    requires NoSentinel(g)
    ensures Eval(SwapGrid(g), !xTurn) == -Eval(g, xTurn)
  {
    RowColumnScoreSwap(g, N, xTurn);
    TopDiagonalScoreSwap(g, N, xTurn);
    BottomDiagonalScoreSwap(g, N - 2, xTurn);
  }

  lemma {:induction false} RowColumnScoreBound(g: Grid, n: int, xTurn: bool)
    requires NoSentinel(g) && 0 <= n <= N
    ensures -2 * n * N * Inf <= RowColumnScore(g, n, xTurn) <= 2 * n * N * Inf
  {
    hide PairScore;
    if n > 0 {
      RowColumnScoreBound(g, n - 1, xTurn);
      PairScoreBound(g, RowCells(n - 1), ColCells(n - 1), xTurn);
    }
  }

  lemma {:induction false} TopDiagonalScoreBound(g: Grid, n: int, xTurn: bool)
    requires NoSentinel(g) && 0 <= n <= N
    ensures -2 * n * N * Inf <= TopDiagonalScore(g, n, xTurn) <= 2 * n * N * Inf
  {
    hide PairScore;
    if n > 0 {
      TopDiagonalScoreBound(g, n - 1, xTurn);
      PairScoreBound(g, TopUpCells(n - 1), TopDownCells(n - 1), xTurn);
    }
  }

  lemma {:induction false} BottomDiagonalScoreBound(g: Grid, n: int, xTurn: bool)
    requires NoSentinel(g) && 0 <= n <= N - 2
    ensures -2 * n * N * Inf <= BottomDiagonalScore(g, n, xTurn) <= 2 * n * N * Inf
  {
    hide PairScore;
    if n > 0 {
      BottomDiagonalScoreBound(g, n - 1, xTurn);
      PairScoreBound(g, BottomUpCells(n), BottomDownCells(n), xTurn);
    }
  }

  /** Every position of a real board scores within `MaxEval` either way. */
  lemma EvalBound(g: Grid, xTurn: bool)
    requires NoSentinel(g)
    ensures -MaxEval <= Eval(g, xTurn) <= MaxEval
  {
    RowColumnScoreBound(g, N, xTurn);
    TopDiagonalScoreBound(g, N, xTurn);
    BottomDiagonalScoreBound(g, N - 2, xTurn);
  }
}
