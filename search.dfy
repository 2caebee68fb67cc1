// The search of the bot: depth-limited alpha-beta over the candidate moves,
// playing each move on the shared board and taking it back, and the choice
// of the first move at the root.  O maximises, X minimises; a position whose
// evaluation exceeds the cutoff is not searched further.

module Search {
  import opened Board
  import opened Evaluation
  import opened MoveGeneration

  /** Stands for the floating-point infinities of the source: beyond every evaluation. */
  const Infinity: int := 10_000_000_000_000

  /** An evaluation beyond this (1000, scaled by ten) ends the search: the position is decided. */
  const Cutoff: int := 10_000

  /** Plies searched below each root move. */
  const Depth: nat := 2

  function Max(a: int, b: int): int {
    if a >= b then a else b
  }

  function Min(a: int, b: int): int {
    if a <= b then a else b
  }

  /** The stone the side to move plays. */
  function Mover(xTurn: bool): Tile {
    if xTurn then X else O
  }

  // ---------------------------------------------------------------------
  // Plain minimax, the specification of the search
  // ---------------------------------------------------------------------

  /**
   * The depth-limited minimax value of a position: the evaluation at depth 0
   * or past the cutoff, otherwise the best reply value over the candidates,
   * highest when O is to move and lowest when X is.
   */
  function Minimax(g: Grid, xTurn: bool, depth: nat): int
    decreases depth, 2
  {
    var e := Eval(g, xTurn);
    if depth == 0 || Abs(e) > Cutoff then e
    else
      CandidatesDistinct(g);
      Best(g, xTurn, depth, Candidates(g))
  }

  /** The fold over the moves: from minus infinity by `max` for O, from infinity by `min` for X. */
  function Best(g: Grid, xTurn: bool, depth: nat, ms: seq<Cell>): int
    requires depth > 0 && forall i :: 0 <= i < |ms| ==> InBounds(ms[i])
    decreases depth, 1, |ms|
  {
    if ms == [] then (if xTurn then Infinity else -Infinity)
    else
      var prev := Best(g, xTurn, depth, ms[..|ms| - 1]);
      var reply := Reply(g, xTurn, depth, ms[|ms| - 1]);
      if xTurn then Min(prev, reply) else Max(prev, reply)
  }

  /** The value of the position after the side to move plays at m. */
  function Reply(g: Grid, xTurn: bool, depth: nat, m: Cell): int
    requires depth > 0 && InBounds(m)
    decreases depth, 0
  {
    Minimax(Place(g, m, Mover(xTurn)), !xTurn, depth - 1)
  }

  /** Every minimax value lies within the evaluation bound, so strictly inside the infinities. */
  lemma {:induction false} MinimaxBound(g: Grid, xTurn: bool, depth: nat)
    requires NoSentinel(g)
    ensures -MaxEval <= Minimax(g, xTurn, depth) <= MaxEval
    decreases depth, 2
  {
    hide Candidates, Eval;
    EvalBound(g, xTurn);
    var e := Eval(g, xTurn);
    if !(depth == 0 || Abs(e) > Cutoff) {
      CandidatesDistinct(g);
      CandidatesFallback(g);
      BestBound(g, xTurn, depth, Candidates(g));
    }
  }

  lemma {:induction false} BestBound(g: Grid, xTurn: bool, depth: nat, ms: seq<Cell>)
    requires NoSentinel(g) && depth > 0 && |ms| > 0 && forall i :: 0 <= i < |ms| ==> InBounds(ms[i])
    ensures -MaxEval <= Best(g, xTurn, depth, ms) <= MaxEval
    decreases depth, 1, |ms|
  {
    hide Candidates, Eval;
    var m := ms[|ms| - 1];
    MinimaxBound(Place(g, m, Mover(xTurn)), !xTurn, depth - 1);
    if |ms| > 1 {
      BestBound(g, xTurn, depth, ms[..|ms| - 1]);
    }
  }

  /** The fold is the best reply over the moves: no reply beats it, and it is the start value or one of them. */
  lemma {:induction false} BestIsExtreme(g: Grid, xTurn: bool, depth: nat, ms: seq<Cell>)
    requires depth > 0 && forall i :: 0 <= i < |ms| ==> InBounds(ms[i])
    ensures var b := Best(g, xTurn, depth, ms);
      (if xTurn then b <= Infinity else -Infinity <= b) &&
      (forall i :: 0 <= i < |ms| ==> if xTurn then b <= Reply(g, xTurn, depth, ms[i]) else Reply(g, xTurn, depth, ms[i]) <= b) &&
      (b == (if xTurn then Infinity else -Infinity) || exists i :: 0 <= i < |ms| && b == Reply(g, xTurn, depth, ms[i]))
  {
    hide Candidates, Eval;
    if ms != [] {
      var p := ms[..|ms| - 1];
      BestIsExtreme(g, xTurn, depth, p);
      var b := Best(g, xTurn, depth, ms);
      var r := Reply(g, xTurn, depth, ms[|ms| - 1]);
      if b != r && b != (if xTurn then Infinity else -Infinity) {
        var i :| 0 <= i < |p| && Best(g, xTurn, depth, p) == Reply(g, xTurn, depth, p[i]);
        assert ms[i] == p[i];
      }
      forall i | 0 <= i < |ms|
        ensures if xTurn then b <= Reply(g, xTurn, depth, ms[i]) else Reply(g, xTurn, depth, ms[i]) <= b
      {
        if i < |p| {
          assert ms[i] == p[i];
        }
      }
    }
  }

  /**
   * The move order does not matter: two lists holding the same moves give
   * the same value, so the shuffled list of the source searches to the same
   * value as any other order.
   */
  lemma BestOrderFree(g: Grid, xTurn: bool, depth: nat, ms: seq<Cell>, ns: seq<Cell>)
    requires depth > 0
    requires forall i :: 0 <= i < |ms| ==> InBounds(ms[i])
    requires forall i :: 0 <= i < |ns| ==> InBounds(ns[i])
    requires forall c :: c in ms <==> c in ns
    ensures Best(g, xTurn, depth, ms) == Best(g, xTurn, depth, ns)
  {
    hide Candidates, Eval;
    BestIsExtreme(g, xTurn, depth, ms);
    BestIsExtreme(g, xTurn, depth, ns);
    var b, b' := Best(g, xTurn, depth, ms), Best(g, xTurn, depth, ns);
    if b != (if xTurn then Infinity else -Infinity) {
      var i :| 0 <= i < |ms| && b == Reply(g, xTurn, depth, ms[i]);
      assert ms[i] in ns;
      var j :| 0 <= j < |ns| && ns[j] == ms[i];
    }
    if b' != (if xTurn then Infinity else -Infinity) {
      var i :| 0 <= i < |ns| && b' == Reply(g, xTurn, depth, ns[i]);
      assert ns[i] in ms;
      var j :| 0 <= j < |ms| && ms[j] == ns[i];
    }
  }

  /** A longer list can only improve the value for the side to move. */
  lemma {:induction false} BestPrefix(g: Grid, xTurn: bool, depth: nat, ms: seq<Cell>, k: nat)
    requires depth > 0 && k <= |ms| && forall i :: 0 <= i < |ms| ==> InBounds(ms[i])
    ensures if xTurn then Best(g, xTurn, depth, ms) <= Best(g, xTurn, depth, ms[..k])
            else Best(g, xTurn, depth, ms[..k]) <= Best(g, xTurn, depth, ms)
  {
    hide Candidates, Eval;
    if k < |ms| {
      var p := ms[..|ms| - 1];
      assert p[..k] == ms[..k];
      BestPrefix(g, xTurn, depth, p, k);
    } else {
      assert ms[..k] == ms;
    }
  }

  // ---------------------------------------------------------------------
  // Alpha-beta on the shared board
  // ---------------------------------------------------------------------

  /**
   * What a search with window [alpha, beta] promises about its result
   * `value` when the exact value is `v`: exact inside the window, and on the
   * same side of the window outside it.
   */
  predicate WindowBound(value: int, v: int, alpha: int, beta: int) {
    (alpha <= v <= beta ==> value == v) &&
    (v < alpha ==> value < alpha) &&
    (v > beta ==> value > beta)
  }

  /** A board that holds `g` cell by cell has `g` as its snapshot. */
  lemma ShowsSnapshot(s: GameState, g: Grid)
    requires s.Shows(g)
    ensures s.Snapshot() == g
  {
    var h := s.Snapshot();
    forall r | 0 <= r < N
      ensures h[r] == g[r]
    {
      assert forall c :: 0 <= c < N ==> h[r][c] == g[r][c];
    }
  }

  /**
   * `alphabeta`: searches `depth` plies below the position `g` the board
   * shows, within the window, and takes back every move it plays.
   */
  method AlphaBeta(s: GameState, ghost g: Grid, depth: nat, alpha: int, beta: int) returns (value: int)
    requires s.Shows(g) && -Infinity <= alpha <= beta <= Infinity
    requires depth <= EmptyCount(g)
    modifies s.board, s`xTurn
    ensures s.Shows(g) && s.xTurn == old(s.xTurn)
    ensures WindowBound(value, Minimax(g, s.xTurn, depth), alpha, beta)
    ensures alpha == -Infinity && beta == Infinity ==> value == Minimax(g, s.xTurn, depth)
    ensures depth == 0 || Abs(Eval(g, s.xTurn)) > Cutoff ==> value == Eval(g, s.xTurn)
    decreases depth, 2
  {
    hide Candidates, Eval;
    MinimaxBound(g, s.xTurn, depth);
    ShowsSnapshot(s, g);
    var evaluation := Evaluate(s);
    if depth == 0 || Abs(evaluation) > Cutoff {
      return evaluation;
    }
    var moves := MoveGen(s);
    EmptyCountPositive(g);
    ghost var r, c :| 0 <= r < N && 0 <= c < N && g[r][c] == Empty;
    assert IsEmptyCell(g, (r, c));
    if !s.xTurn {
      value := MaxNode(s, g, depth, alpha, beta, moves);
    } else {
      value := MinNode(s, g, depth, alpha, beta, moves);
    }
  }

  /** The loop of a node where O is to move: keep the highest reply, raise alpha, stop above beta. */
  method MaxNode(s: GameState, ghost g: Grid, depth: nat, alpha: int, beta: int, moves: seq<Cell>) returns (value: int)
    requires s.Shows(g) && !s.xTurn && 0 < depth <= EmptyCount(g)
    requires -Infinity <= alpha <= beta <= Infinity
    requires forall i :: 0 <= i < |moves| ==> InBounds(moves[i]) && IsEmptyCell(g, moves[i])
    modifies s.board, s`xTurn
    ensures s.Shows(g) && !s.xTurn
    ensures WindowBound(value, Best(g, false, depth, moves), alpha, beta)
    decreases depth, 1
  {
    hide Candidates, Eval, Minimax, Reply, EmptyCount;
    value := -Infinity;
    var a := alpha;
    var i := 0;
    while i < |moves|
      invariant 0 <= i <= |moves|
      invariant s.Shows(g) && !s.xTurn
      invariant a == Max(alpha, value) && value <= beta
      invariant Best(g, false, depth, moves[..i]) >= alpha ==> value == Best(g, false, depth, moves[..i])
      invariant Best(g, false, depth, moves[..i]) < alpha ==> value < alpha
    {
      var r := Probe(s, g, depth, moves[i], a, beta);
      assert moves[..i + 1][..i] == moves[..i];
      value := Max(value, r);
      if value > beta {
        BestPrefix(g, false, depth, moves, i + 1);
        return;
      }
      a := Max(a, value);
      i := i + 1;
    }
    assert moves[..i] == moves;
  }

  /** The loop of a node where X is to move: keep the lowest reply, lower beta, stop below alpha. */
  method MinNode(s: GameState, ghost g: Grid, depth: nat, alpha: int, beta: int, moves: seq<Cell>) returns (value: int)
    requires s.Shows(g) && s.xTurn && 0 < depth <= EmptyCount(g)
    requires -Infinity <= alpha <= beta <= Infinity
    requires forall i :: 0 <= i < |moves| ==> InBounds(moves[i]) && IsEmptyCell(g, moves[i])
    modifies s.board, s`xTurn
    ensures s.Shows(g) && s.xTurn
    ensures WindowBound(value, Best(g, true, depth, moves), alpha, beta)
    decreases depth, 1
  {
    hide Candidates, Eval, Minimax, Reply, EmptyCount;
    value := Infinity;
    var b := beta;
    var i := 0;
    while i < |moves|
      invariant 0 <= i <= |moves|
      invariant s.Shows(g) && s.xTurn
      invariant b == Min(beta, value) && alpha <= value
      invariant Best(g, true, depth, moves[..i]) <= beta ==> value == Best(g, true, depth, moves[..i])
      invariant Best(g, true, depth, moves[..i]) > beta ==> value > beta
    {
      var r := Probe(s, g, depth, moves[i], alpha, b);
      assert moves[..i + 1][..i] == moves[..i];
      value := Min(value, r);
      if value < alpha {
        BestPrefix(g, true, depth, moves, i + 1);
        return;
      }
      b := Min(b, value);
      i := i + 1;
    }
    assert moves[..i] == moves;
  }

  /** Play the side to move at m, search the position below, and take the move back. */
  method Probe(s: GameState, ghost g: Grid, depth: nat, m: Cell, alpha: int, beta: int) returns (r: int)
    requires s.Shows(g) && 0 < depth <= EmptyCount(g) && IsEmptyCell(g, m)
    requires -Infinity <= alpha <= beta <= Infinity
    modifies s.board, s`xTurn
    ensures s.Shows(g) && s.xTurn == old(s.xTurn)
    ensures WindowBound(r, Reply(g, s.xTurn, depth, m), alpha, beta)
    ensures alpha == -Infinity && beta == Infinity ==> r == Reply(g, s.xTurn, depth, m)
    decreases depth, 0
  {
    hide Candidates, Eval;
    ghost var t := Mover(s.xTurn);
    ghost var h := Place(g, m, t);
    s.board[m.0, m.1] := Mover(s.xTurn);
    s.xTurn := !s.xTurn;
    assert s.Shows(h);
    PlaceStoneCount(g, m, t);
    r := AlphaBeta(s, h, depth - 1, alpha, beta);
    s.xTurn := !s.xTurn;
    s.board[m.0, m.1] := Empty;
  }

  // ---------------------------------------------------------------------
  // The root
  // ---------------------------------------------------------------------

  /** The value the root gives move m: a full-window search of `Depth` plies after it. */
  function RootValue(g: Grid, xTurn: bool, m: Cell): int
    requires InBounds(m)
  {
    Reply(g, xTurn, Depth + 1, m)
  }

  /** `a` is strictly better than `b` for the side to move: lower for X, higher for O. */
  function Prefers(xTurn: bool, a: int, b: int): bool {
    if xTurn then a < b else a > b
  }

  /** `moves[k]` is the first of the moves with the best root value for the side to move. */
  ghost predicate FirstBest(g: Grid, xTurn: bool, moves: seq<Cell>, k: int) {
    (forall i :: 0 <= i < |moves| ==> InBounds(moves[i])) &&
    0 <= k < |moves| &&
    (forall j :: 0 <= j < |moves| ==> !Prefers(xTurn, RootValue(g, xTurn, moves[j]), RootValue(g, xTurn, moves[k]))) &&
    (forall j :: 0 <= j < k ==> Prefers(xTurn, RootValue(g, xTurn, moves[k]), RootValue(g, xTurn, moves[j])))
  }

  /** `bot_move`: the first candidate with the best root value, the board left as it was. */
  /** What the root loop knows after the first i moves: `best`, at index k, is the first best of them. */
  ghost predicate RootProgress(g: Grid, xTurn: bool, moves: seq<Cell>, i: int, k: int, best: Cell, value: int) {
    0 <= i <= |moves| &&
    (forall j :: 0 <= j < |moves| ==> InBounds(moves[j])) &&
    (i == 0 ==> value == (if xTurn then Infinity else -Infinity)) &&
    (i > 0 ==>
      0 <= k < i && best == moves[k] && value == RootValue(g, xTurn, best) &&
      (forall j :: 0 <= j < i ==> !Prefers(xTurn, RootValue(g, xTurn, moves[j]), value)) &&
      (forall j :: 0 <= j < k ==> Prefers(xTurn, value, RootValue(g, xTurn, moves[j]))))
  }

  /** `bot_move`: the first candidate with the best root value, the board left as it was. */
  method BotMove(s: GameState) returns (best: Cell)
    requires s.Valid() && Depth + 1 <= EmptyCount(s.Snapshot())
    modifies s.board, s`xTurn
    ensures s.Shows(old(s.Snapshot())) && s.xTurn == old(s.xTurn)
    ensures IsEmptyCell(old(s.Snapshot()), best)
    ensures exists k :: FirstBest(old(s.Snapshot()), s.xTurn, Candidates(old(s.Snapshot())), k) && Candidates(old(s.Snapshot()))[k] == best
  {
    hide Candidates, Eval;
    ghost var g := s.Snapshot();
    var moves := MoveGen(s);
    EmptyCountPositive(g);
    ghost var r, c :| 0 <= r < N && 0 <= c < N && g[r][c] == Empty;
    assert IsEmptyCell(g, (r, c));
    CandidatesFallback(g);
    best := (0, 0);
    ghost var k := 0;
    var value := if s.xTurn then Infinity else -Infinity;
    for i := 0 to |moves|
      invariant s.Shows(g) && s.xTurn == old(s.xTurn)
      invariant RootProgress(g, s.xTurn, moves, i, k, best, value)
    {
      best, value, k := Consider(s, g, moves, i, best, value, k);
    }
  }

  /** One pass of the root loop: search below `moves[i]` and keep it if it beats the best so far. */
  method Consider(s: GameState, ghost g: Grid, moves: seq<Cell>, i: int, best0: Cell, value0: int, ghost k0: int)
      returns (best: Cell, value: int, ghost k: int)
    requires s.Shows(g) && Depth + 1 <= EmptyCount(g) && 0 <= i < |moves|
    requires forall j :: 0 <= j < |moves| ==> IsEmptyCell(g, moves[j])
    requires RootProgress(g, s.xTurn, moves, i, k0, best0, value0)
    modifies s.board, s`xTurn
    ensures s.Shows(g) && s.xTurn == old(s.xTurn)
    ensures RootProgress(g, s.xTurn, moves, i + 1, k, best, value)
  {
    hide Candidates, Eval;
    best, value, k := best0, value0, k0;
    var newValue := Probe(s, g, Depth + 1, moves[i], -Infinity, Infinity);
    MinimaxBound(Place(g, moves[i], Mover(s.xTurn)), !s.xTurn, Depth);
    if Prefers(s.xTurn, newValue, value) {
      value := newValue;
      best := moves[i];
      k := i;
    }
  }
}
