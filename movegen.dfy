// The candidate-move generator of the search: starting from every occupied
// cell, a stack-driven expansion over the eight neighbour directions marks
// cells visited and collects the empty ones, up to distance 2 from the
// stone it started from; a board where nothing is found yields all 225
// cells instead.

module MoveGeneration {
  import opened Board

  /** The neighbour offsets, in the order the expansion tries them. */
  const Dirs: seq<(int, int)> := [(-1, -1), (0, -1), (1, -1), (1, 0), (1, 1), (0, 1), (-1, 1), (-1, 0)]

  /** How far from a stone the expansion reaches. */
  const MaxDist: int := 2

  /** An entry of the expansion stack: a cell and how many steps it lies from the stone it came from. */
  datatype Entry = Entry(dist: nat, x: int, y: int)

  /** The state of the expansion: the visited cells, the stack, and the moves collected so far. */
  datatype Frontier = Frontier(visited: set<Cell>, active: seq<Entry>, result: seq<Cell>)

  function Pos(e: Entry): Cell {
    (e.x, e.y)
  }

  /** The cell one step from c in direction d. */
  function Neighbour(c: Cell, d: int): Cell
    requires 0 <= d < 8
  {
    (c.0 + Dirs[d].0, c.1 + Dirs[d].1)
  }

  /** The cell holds a stone (anything but `Empty`). */
  predicate Occupied(g: Grid, c: Cell) {
    InBounds(c) && g[c.0][c.1] != Empty
  }

  predicate IsEmptyCell(g: Grid, c: Cell) {
    InBounds(c) && g[c.0][c.1] == Empty
  }

  ghost predicate HasStone(g: Grid) {
    exists c :: Occupied(g, c)
  }

  ghost predicate HasEmpty(g: Grid) {
    exists c :: IsEmptyCell(g, c)
  }

  function Abs(n: int): nat {
    if n < 0 then -n else n
  }

  /** Chebyshev (king-move) distance between two cells. */
  function Cheb(a: Cell, b: Cell): nat {
    if Abs(a.0 - b.0) >= Abs(a.1 - b.1) then Abs(a.0 - b.0) else Abs(a.1 - b.1)
  }

  /** Some stone lies within distance d of c. */
  ghost predicate NearStone(g: Grid, c: Cell, d: int) {
    exists t :: Occupied(g, t) && Cheb(t, c) <= d
  }

  predicate NoDup(cs: seq<Cell>) {
    forall i, j :: 0 <= i < j < |cs| ==> cs[i] != cs[j]
  }

  /** Every cell of the board, row by row: the fallback list. */
  function AllCells(): (cs: seq<Cell>)
    ensures |cs| == N * N
    ensures forall k :: 0 <= k < N * N ==> cs[k] == (k / N, k % N)
  {
    seq(N * N, k => (k / N, k % N))
  }

  // ---------------------------------------------------------------------
  // The expansion, step by step
  // ---------------------------------------------------------------------

  /** What popping an entry may still cost: 9 for a stone, which pushes up to 8 cells, and 1 for a cell. */
  function Cost(e: Entry): nat {
    if e.dist < MaxDist - 1 then 9 else 1
  }

  function Weight(es: seq<Entry>): nat {
    if es == [] then 0 else Weight(es[..|es| - 1]) + Cost(es[|es| - 1])
  }

  lemma WeightSnoc(es: seq<Entry>, e: Entry)
    ensures Weight(es + [e]) == Weight(es) + Cost(e)
  {
    assert (es + [e])[..|es|] == es;
  }

  /**
   * One direction of the inner loop: an in-bounds neighbour not yet visited
   * is marked, collected if empty, and pushed one step further if the entry
   * is a stone.
   */
  function Visit(g: Grid, e: Entry, d: int, st: Frontier): (r: Frontier)
    requires 0 <= d < 8
    ensures Weight(r.active) <= Weight(st.active) + (if e.dist < MaxDist - 1 then 1 else 0)
  {
    var n := Neighbour(Pos(e), d);
    if !InBounds(n) || n in st.visited then st
    else
      WeightSnoc(st.active, Entry(e.dist + 1, n.0, n.1));
      Frontier(st.visited + {n},
               if e.dist < MaxDist - 1 then st.active + [Entry(e.dist + 1, n.0, n.1)] else st.active,
               if g[n.0][n.1] == Empty then st.result + [n] else st.result)
  }

  /** The inner loop from direction d on. */
  function VisitFrom(g: Grid, e: Entry, d: int, st: Frontier): (r: Frontier)
    requires 0 <= d <= 8
    ensures Weight(r.active) <= Weight(st.active) + (if e.dist < MaxDist - 1 then 8 - d else 0)
    decreases 8 - d
  {
    if d == 8 then st else VisitFrom(g, e, d + 1, Visit(g, e, d, st))
  }

  /** The `while` loop: pop the top entry and visit its neighbours, until the stack is empty. */
  function Explore(g: Grid, st: Frontier): seq<Cell>
    decreases Weight(st.active)
  {
    if st.active == [] then st.result
    else
      var e := st.active[|st.active| - 1];
      Explore(g, VisitFrom(g, e, 0, Frontier(st.visited, st.active[..|st.active| - 1], st.result)))
  }

  /** The seeding loops from row x, column y on: each occupied cell is pushed at distance 0 and marked. */
  function SeedFrom(g: Grid, x: int, y: int, st: Frontier): Frontier
    requires 0 <= x <= N && 0 <= y <= N
    decreases N - x, N - y
  {
    if x == N then st
    else if y == N then SeedFrom(g, x + 1, 0, st)
    else SeedFrom(g, x, y + 1, if g[x][y] != Empty then Frontier(st.visited + {(x, y)}, st.active + [Entry(0, x, y)], st.result) else st)
  }

  /** The state after the seeding loops. */
  function Seeded(g: Grid): Frontier {
    SeedFrom(g, 0, 0, Frontier({}, [], []))
  }

  /** `move_gen` before its shuffle: what the expansion collects, or every cell if it collects nothing. */
  function Candidates(g: Grid): (moves: seq<Cell>)
  {
    var found := Explore(g, Seeded(g));
    if found == [] then AllCells() else found
  }

  // ---------------------------------------------------------------------
  // Invariants of the expansion
  // ---------------------------------------------------------------------

  /** A stack entry lies on the board, within its distance of some stone. */
  ghost predicate EntryOk(g: Grid, e: Entry) {
    InBounds(Pos(e)) && e.dist < MaxDist && NearStone(g, Pos(e), e.dist)
  }

  /** The neighbours of c in the directions below d are visited or off the board. */
  predicate Around(vis: set<Cell>, c: Cell, d: int)
    requires 0 <= d <= 8
  {
    forall k :: 0 <= k < d && InBounds(Neighbour(c, k)) ==> Neighbour(c, k) in vis
  }

  /**
   * What holds throughout: visited cells are on the board and include every
   * stone; every visited empty cell has been collected, exactly once; each
   * collected cell is empty and within distance 2 of a stone; stack entries
   * are sound.
   */
  ghost predicate Core(g: Grid, st: Frontier) {
    (forall c :: c in st.visited ==> InBounds(c)) &&
    (forall c :: Occupied(g, c) ==> c in st.visited) &&
    (forall c :: c in st.visited ==> Occupied(g, c) || c in st.result) &&
    NoDup(st.result) &&
    (forall i :: 0 <= i < |st.result| ==>
      st.result[i] in st.visited && IsEmptyCell(g, st.result[i]) && NearStone(g, st.result[i], MaxDist)) &&
    (forall i :: 0 <= i < |st.active| ==> EntryOk(g, st.active[i]))
  }

  /** Between two pops: a stone is still on the stack, or all its neighbours are visited. */
  ghost predicate Inv(g: Grid, st: Frontier) {
    Core(g, st) &&
    forall c :: Occupied(g, c) ==> Entry(0, c.0, c.1) in st.active || Around(st.visited, c, 8)
  }

  /** While the neighbours of the popped entry e are visited, up to direction d. */
  ghost predicate Covered(g: Grid, st: Frontier, e: Entry, d: int)
    requires 0 <= d <= 8
  {
    forall c :: Occupied(g, c) ==>
      Entry(0, c.0, c.1) in st.active || Around(st.visited, c, 8) || (e == Entry(0, c.0, c.1) && Around(st.visited, c, d))
  }

  /** A neighbour of a cell within distance k of a stone is within k + 1 of it. */
  lemma NearStoneStep(g: Grid, c: Cell, d: int, k: int)
    requires 0 <= d < 8 && NearStone(g, c, k)
    ensures NearStone(g, Neighbour(c, d), k + 1)
  {
    var t :| Occupied(g, t) && Cheb(t, c) <= k;
    assert Cheb(t, Neighbour(c, d)) <= k + 1;
  }

  lemma VisitKeeps(g: Grid, e: Entry, d: int, st: Frontier)
    requires 0 <= d < 8 && Core(g, st) && Covered(g, st, e, d) && EntryOk(g, e)
    ensures Core(g, Visit(g, e, d, st)) && Covered(g, Visit(g, e, d, st), e, d + 1)
  {
    var n := Neighbour(Pos(e), d);
    if InBounds(n) && n !in st.visited {
      VisitNewCell(g, e, d, st);
    }
    VisitCovered(g, e, d, st);
  }

  /** Visiting a new cell keeps the invariant: it is empty, it is near a stone, and it was not collected before. */
  lemma VisitNewCell(g: Grid, e: Entry, d: int, st: Frontier)
    requires 0 <= d < 8 && Core(g, st) && EntryOk(g, e)
    requires InBounds(Neighbour(Pos(e), d)) && Neighbour(Pos(e), d) !in st.visited
    ensures Core(g, Visit(g, e, d, st))
  {
    var n := Neighbour(Pos(e), d);
    NearStoneStep(g, Pos(e), d, e.dist);
    var active := if e.dist < MaxDist - 1 then st.active + [Entry(e.dist + 1, n.0, n.1)] else st.active;
    MarkKeeps(g, st, n, e.dist + 1, active);
  }

  /** Marking and collecting an empty cell near a stone keeps the invariant. */
  lemma MarkKeeps(g: Grid, st: Frontier, n: Cell, k: int, active: seq<Entry>)
    requires Core(g, st) && InBounds(n) && n !in st.visited && NearStone(g, n, k) && k <= MaxDist
    requires active == st.active || (k < MaxDist && active == st.active + [Entry(k, n.0, n.1)])
    ensures Core(g, Frontier(st.visited + {n}, active, st.result + [n]))
  {
    assert IsEmptyCell(g, n);
    MarkResult(g, st, n, k);
    forall i | 0 <= i < |active|
      ensures EntryOk(g, active[i])
    {
      if i >= |st.active| {
        assert active[i] == Entry(k, n.0, n.1);
      }
    }
  }

  lemma MarkResult(g: Grid, st: Frontier, n: Cell, k: int)
    requires Core(g, st) && IsEmptyCell(g, n) && n !in st.visited && NearStone(g, n, k) && k <= MaxDist
    ensures NoDup(st.result + [n])
    ensures forall i :: 0 <= i < |st.result + [n]| ==>
      (st.result + [n])[i] in st.visited + {n} && IsEmptyCell(g, (st.result + [n])[i]) && NearStone(g, (st.result + [n])[i], MaxDist)
  {
    var t :| Occupied(g, t) && Cheb(t, n) <= k;
    assert NearStone(g, n, MaxDist);
  }

  /** After visiting direction d, the popped stone's neighbours up to d are visited. */
  lemma VisitCovered(g: Grid, e: Entry, d: int, st: Frontier)
    requires 0 <= d < 8 && Covered(g, st, e, d)
    ensures Covered(g, Visit(g, e, d, st), e, d + 1)
  {
    var r := Visit(g, e, d, st);
    assert st.visited <= r.visited;
    forall c | Occupied(g, c)
      ensures Entry(0, c.0, c.1) in r.active || Around(r.visited, c, 8) || (e == Entry(0, c.0, c.1) && Around(r.visited, c, d + 1))
    {
      if Entry(0, c.0, c.1) in st.active {
        assert Entry(0, c.0, c.1) in r.active;
      }
    }
  }

  lemma {:induction false} VisitFromKeeps(g: Grid, e: Entry, d: int, st: Frontier)
    requires 0 <= d <= 8 && Core(g, st) && Covered(g, st, e, d) && EntryOk(g, e)
    ensures Inv(g, VisitFrom(g, e, d, st))
    decreases 8 - d
  {
    if d < 8 {
      VisitKeeps(g, e, d, st);
      VisitFromKeeps(g, e, d + 1, Visit(g, e, d, st));
    }
  }

  /** Popping the top entry of a state that keeps the invariant. */
  lemma PopKeeps(g: Grid, st: Frontier)
    requires Inv(g, st) && st.active != []
    ensures Core(g, Frontier(st.visited, st.active[..|st.active| - 1], st.result))
    ensures Covered(g, Frontier(st.visited, st.active[..|st.active| - 1], st.result), st.active[|st.active| - 1], 0)
    ensures EntryOk(g, st.active[|st.active| - 1])
  {
    PopCore(g, st);
    PopCovered(g, st);
  }

  lemma PopCore(g: Grid, st: Frontier)
    requires Core(g, st) && st.active != []
    ensures Core(g, Frontier(st.visited, st.active[..|st.active| - 1], st.result))
  {
    var rest := st.active[..|st.active| - 1];
    forall i | 0 <= i < |rest|
      ensures EntryOk(g, rest[i])
    {
      assert rest[i] == st.active[i];
    }
  }

  lemma PopCovered(g: Grid, st: Frontier)
    requires Inv(g, st) && st.active != []
    ensures Covered(g, Frontier(st.visited, st.active[..|st.active| - 1], st.result), st.active[|st.active| - 1], 0)
  {
    var rest := st.active[..|st.active| - 1];
    var e := st.active[|st.active| - 1];
    forall c | Occupied(g, c)
      ensures Entry(0, c.0, c.1) in rest || Around(st.visited, c, 8) || (e == Entry(0, c.0, c.1) && Around(st.visited, c, 0))
    {
      if Entry(0, c.0, c.1) in st.active && Entry(0, c.0, c.1) != e {
        var k :| 0 <= k < |st.active| && st.active[k] == Entry(0, c.0, c.1);
        assert rest[k] == st.active[k];
      }
    }
  }

  /** What the expansion collects, given a start that keeps the invariant. */
  ghost predicate Collected(g: Grid, found: seq<Cell>) {
    NoDup(found) &&
    (forall i :: 0 <= i < |found| ==> IsEmptyCell(g, found[i]) && NearStone(g, found[i], MaxDist)) &&
    (forall c, d :: Occupied(g, c) && 0 <= d < 8 && IsEmptyCell(g, Neighbour(c, d)) ==> Neighbour(c, d) in found)
  }

  lemma {:induction false} ExploreCollects(g: Grid, st: Frontier)
    requires Inv(g, st)
    ensures Collected(g, Explore(g, st))
    decreases Weight(st.active)
  {
    if st.active == [] {
      forall c, d | Occupied(g, c) && 0 <= d < 8 && IsEmptyCell(g, Neighbour(c, d))
        ensures Neighbour(c, d) in st.result
      {
        assert Around(st.visited, c, 8);
      }
    } else {
      var e := st.active[|st.active| - 1];
      var popped := Frontier(st.visited, st.active[..|st.active| - 1], st.result);
      PopKeeps(g, st);
      VisitFromKeeps(g, e, 0, popped);
      ExploreCollects(g, VisitFrom(g, e, 0, popped));
    }
  }

  /** The cell comes before (x, y) in row-major order. */
  predicate Before(c: Cell, x: int, y: int) {
    c.0 < x || (c.0 == x && c.1 < y)
  }

  /** The seeding loops have handled the cells before (x, y). */
  ghost predicate SeedInv(g: Grid, st: Frontier, x: int, y: int) {
    (forall c :: c in st.visited <==> Occupied(g, c) && Before(c, x, y)) &&
    (forall i :: 0 <= i < |st.active| ==> st.active[i].dist == 0 && Occupied(g, Pos(st.active[i]))) &&
    (forall c :: Occupied(g, c) && Before(c, x, y) ==> Entry(0, c.0, c.1) in st.active) &&
    st.result == []
  }

  lemma {:induction false} SeedFromKeeps(g: Grid, x: int, y: int, st: Frontier)
    requires 0 <= x <= N && 0 <= y <= N && SeedInv(g, st, x, y)
    ensures SeedInv(g, SeedFrom(g, x, y, st), N, 0)
    decreases N - x, N - y
  {
    if x < N && y == N {
      forall c ensures Before(c, x, N) && InBounds(c) <==> Before(c, x + 1, 0) && InBounds(c) {
      }
      SeedFromKeeps(g, x + 1, 0, st);
    } else if x < N {
      var c := (x, y);
      var next := if g[x][y] != Empty then Frontier(st.visited + {c}, st.active + [Entry(0, x, y)], st.result) else st;
      forall c' | Occupied(g, c') && Before(c', x, y + 1)
        ensures Entry(0, c'.0, c'.1) in next.active
      {
        if !Before(c', x, y) {
          assert c' == c;
        }
      }
      forall c' ensures c' in next.visited <==> Occupied(g, c') && Before(c', x, y + 1) {
        if Occupied(g, c') && Before(c', x, y + 1) && !Before(c', x, y) {
          assert c' == c;
        }
      }
      SeedFromKeeps(g, x, y + 1, next);
    }
  }

  /** After seeding, every stone is visited and on the stack, and nothing is collected. */
  lemma SeededInv(g: Grid)
    ensures Inv(g, Seeded(g))
    ensures Seeded(g).result == []
  {
    SeedFromKeeps(g, 0, 0, Frontier({}, [], []));
    var st := Seeded(g);
    forall c | Occupied(g, c)
      ensures c in st.visited && Entry(0, c.0, c.1) in st.active
    {
      assert Before(c, N, 0);
    }
    forall i | 0 <= i < |st.active|
      ensures EntryOk(g, st.active[i])
    {
      assert Cheb(Pos(st.active[i]), Pos(st.active[i])) == 0;
    }
  }

  // ---------------------------------------------------------------------
  // Properties of the candidate list
  // ---------------------------------------------------------------------

  lemma AllCellsFacts()
    ensures NoDup(AllCells())
    ensures forall c :: InBounds(c) ==> c in AllCells()
    ensures forall i :: 0 <= i < N * N ==> InBounds(AllCells()[i])
  {
    var cs := AllCells();
    forall i, j | 0 <= i < j < |cs|
      ensures cs[i] != cs[j]
    {
      CellIndex(i / N, i % N);
      CellIndex(j / N, j % N);
    }
    forall c | InBounds(c)
      ensures c in cs
    {
      CellIndex(c.0, c.1);
      assert cs[c.0 * N + c.1] == c;
    }
  }

  /** Row-major positions and cells correspond one to one. */
  lemma CellIndex(x: int, y: int)
    requires 0 <= x < N && 0 <= y < N
    ensures 0 <= x * N + y < N * N
    ensures (x * N + y) / N == x && (x * N + y) % N == y
  {
  }

  /**
   * A board holding both a stone and an empty cell has an empty cell next to
   * a stone: walk from the stone towards the empty cell.
   */
  lemma {:induction false} StoneBesideEmpty(g: Grid, s: Cell, e: Cell)
    requires Occupied(g, s) && IsEmptyCell(g, e)
    ensures exists t, d :: Occupied(g, t) && 0 <= d < 8 && IsEmptyCell(g, Neighbour(t, d))
    decreases Abs(s.0 - e.0) + Abs(s.1 - e.1)
  {
    var d := if s.0 < e.0 then 3 else if s.0 > e.0 then 7 else if s.1 < e.1 then 5 else 1;
    var n := Neighbour(s, d);
    if IsEmptyCell(g, n) {
    } else {
      StoneBesideEmpty(g, n, e);
    }
  }

  /** The expansion collects something exactly when the board has both a stone and an empty cell. */
  lemma FoundNonEmpty(g: Grid)
    ensures Collected(g, Explore(g, Seeded(g)))
    ensures (Explore(g, Seeded(g)) != []) == (HasStone(g) && HasEmpty(g))
  {
    SeededInv(g);
    ExploreCollects(g, Seeded(g));
    var found := Explore(g, Seeded(g));
    if HasStone(g) && HasEmpty(g) {
      var s :| Occupied(g, s);
      var e :| IsEmptyCell(g, e);
      StoneBesideEmpty(g, s, e);
      var t, d :| Occupied(g, t) && 0 <= d < 8 && IsEmptyCell(g, Neighbour(t, d));
      assert Neighbour(t, d) in found;
    }
    if found != [] {
      assert IsEmptyCell(g, found[0]);
      var t :| Occupied(g, t) && Cheb(t, found[0]) <= MaxDist;
    }
  }

  /** Every candidate is on the board, and none is listed twice. */
  lemma CandidatesDistinct(g: Grid)
    ensures NoDup(Candidates(g))
    ensures forall i :: 0 <= i < |Candidates(g)| ==> InBounds(Candidates(g)[i])
  {
    FoundNonEmpty(g);
    AllCellsFacts();
  }

  /** On a board with an empty cell, every candidate is an empty cell. */
  lemma CandidatesEmpty(g: Grid)
    requires HasEmpty(g)
    ensures forall i :: 0 <= i < |Candidates(g)| ==> IsEmptyCell(g, Candidates(g)[i])
  {
    FoundNonEmpty(g);
    if !HasStone(g) {
      AllCellsFacts();
      forall i | 0 <= i < |Candidates(g)|
        ensures IsEmptyCell(g, Candidates(g)[i])
      {
        assert !Occupied(g, Candidates(g)[i]);
      }
    }
  }

  /** With no stone on the board, and on a full board, the candidates are all 225 cells. */
  lemma CandidatesFallback(g: Grid)
    ensures !HasStone(g) ==> Candidates(g) == AllCells()
    ensures !HasEmpty(g) ==> Candidates(g) == AllCells()
    ensures |Candidates(g)| > 0
  {
    FoundNonEmpty(g);
  }

  /**
   * Around the stones: every empty cell next to a stone is a candidate, and
   * on a board that has a stone and is not full every candidate lies within
   * distance 2 of a stone.
   */
  lemma CandidatesNearStones(g: Grid)
    ensures forall s, c :: Occupied(g, s) && IsEmptyCell(g, c) && Cheb(s, c) == 1 ==> c in Candidates(g)
    ensures HasStone(g) && HasEmpty(g) ==>
      forall i :: 0 <= i < |Candidates(g)| ==> NearStone(g, Candidates(g)[i], MaxDist)
  {
    FoundNonEmpty(g);
    var found := Explore(g, Seeded(g));
    forall s, c | Occupied(g, s) && IsEmptyCell(g, c) && Cheb(s, c) == 1
      ensures c in Candidates(g)
    {
      var d := NeighbourDirection(s, c);
      if found == [] {
        AllCellsFacts();
      }
    }
  }

  /** A cell at distance 1 is the neighbour of the other in one of the eight directions. */
  lemma NeighbourDirection(s: Cell, c: Cell) returns (d: int)
    requires Cheb(s, c) == 1
    ensures 0 <= d < 8 && Neighbour(s, d) == c
  {
    var dr, dc := c.0 - s.0, c.1 - s.1;
    d := if dr == -1 && dc == -1 then 0
      else if dr == 0 && dc == -1 then 1
      else if dr == 1 && dc == -1 then 2
      else if dr == 1 && dc == 0 then 3
      else if dr == 1 && dc == 1 then 4
      else if dr == 0 && dc == 1 then 5
      else if dr == -1 && dc == 1 then 6
      else 7;
  }

  // ---------------------------------------------------------------------
  // The generator as the source runs it
  // ---------------------------------------------------------------------

  /** The seeding loops: push every occupied cell at distance 0 and mark it visited. */
  method Seed(s: GameState, ghost g: Grid, visited: array2<bool>) returns (active: seq<Entry>, ghost vis: set<Cell>)
    requires s.Shows(g) && visited.Length0 == N && visited.Length1 == N
    requires forall r, c :: 0 <= r < N && 0 <= c < N ==> !visited[r, c]
    modifies visited
    ensures Frontier(vis, active, []) == Seeded(g)
    ensures forall r, c :: 0 <= r < N && 0 <= c < N ==> (visited[r, c] <==> (r, c) in vis)
  {
    active, vis := [], {};
    for x := 0 to N
      invariant SeedFrom(g, x, 0, Frontier(vis, active, [])) == Seeded(g)
      invariant forall r, c :: 0 <= r < N && 0 <= c < N ==> (visited[r, c] <==> (r, c) in vis)
    {
      active, vis := SeedRow(s, g, visited, x, active, vis, 0);
    }
  }

  /** One row of the seeding loops, from column `y0` on. */
  method SeedRow(s: GameState, ghost g: Grid, visited: array2<bool>, x: int, active0: seq<Entry>, ghost vis0: set<Cell>, ghost y0: int)
      returns (active: seq<Entry>, ghost vis: set<Cell>)
    requires s.Shows(g) && visited.Length0 == N && visited.Length1 == N && 0 <= x < N && y0 == 0
    requires forall r, c :: 0 <= r < N && 0 <= c < N ==> (visited[r, c] <==> (r, c) in vis0)
    modifies visited
    ensures SeedFrom(g, x + 1, 0, Frontier(vis, active, [])) == SeedFrom(g, x, y0, Frontier(vis0, active0, []))
    ensures forall r, c :: 0 <= r < N && 0 <= c < N ==> (visited[r, c] <==> (r, c) in vis)
  {
    active, vis := active0, vis0;
    for y := 0 to N
      invariant SeedFrom(g, x, y, Frontier(vis, active, [])) == SeedFrom(g, x, y0, Frontier(vis0, active0, []))
      invariant forall r, c :: 0 <= r < N && 0 <= c < N ==> (visited[r, c] <==> (r, c) in vis)
    {
      if s.board[x, y] != Empty {
        active := active + [Entry(0, x, y)];
        visited[x, y] := true;
        vis := vis + {(x, y)};
      }
    }
  }

  method VisitOne(s: GameState, ghost g: Grid, visited: array2<bool>, e: Entry, d: int,
                  active0: seq<Entry>, result0: seq<Cell>, ghost vis0: set<Cell>)
      returns (active: seq<Entry>, result: seq<Cell>, ghost vis: set<Cell>)
    requires s.Shows(g) && visited.Length0 == N && visited.Length1 == N && 0 <= d < 8
    requires forall r, c :: 0 <= r < N && 0 <= c < N ==> (visited[r, c] <==> (r, c) in vis0)
    modifies visited
    ensures Frontier(vis, active, result) == Visit(g, e, d, Frontier(vis0, active0, result0))
    ensures forall r, c :: 0 <= r < N && 0 <= c < N ==> (visited[r, c] <==> (r, c) in vis)
  {
    active, result, vis := active0, result0, vis0;
    var nx := e.x + Dirs[d].0;
    var ny := e.y + Dirs[d].1;
    if !(0 <= nx < N) || !(0 <= ny < N) || visited[nx, ny] {
      return;
    }
    visited[nx, ny] := true;
    vis := vis + {(nx, ny)};
    if s.board[nx, ny] == Empty {
      result := result + [(nx, ny)];
    }
    if e.dist < MaxDist - 1 {
      active := active + [Entry(e.dist + 1, nx, ny)];
    }
  }

  /** The body of the `while` loop: visit the eight neighbours of the popped entry. */
  method Expand(s: GameState, ghost g: Grid, visited: array2<bool>, e: Entry,
                active0: seq<Entry>, result0: seq<Cell>, ghost vis0: set<Cell>, ghost start: Frontier)
      returns (active: seq<Entry>, result: seq<Cell>, ghost vis: set<Cell>)
    requires s.Shows(g) && visited.Length0 == N && visited.Length1 == N
    requires forall r, c :: 0 <= r < N && 0 <= c < N ==> (visited[r, c] <==> (r, c) in vis0)
    requires start == Frontier(vis0, active0, result0)
    modifies visited
    ensures Frontier(vis, active, result) == VisitFrom(g, e, 0, start)
    ensures forall r, c :: 0 <= r < N && 0 <= c < N ==> (visited[r, c] <==> (r, c) in vis)
  {
    active, result, vis := active0, result0, vis0;
    for d := 0 to 8
      invariant VisitFrom(g, e, d, Frontier(vis, active, result)) == VisitFrom(g, e, 0, start)
      invariant forall r, c :: 0 <= r < N && 0 <= c < N ==> (visited[r, c] <==> (r, c) in vis)
    {
      ghost var before := Frontier(vis, active, result);
      active, result, vis := VisitOne(s, g, visited, e, d, active, result, vis);
      assert VisitFrom(g, e, d, before) == VisitFrom(g, e, d + 1, Frontier(vis, active, result));
    }
  }

  /** The `while` loop of `move_gen`: pop an entry and expand it until the stack is empty. */
  method ExpandAll(s: GameState, ghost g: Grid, visited: array2<bool>, active0: seq<Entry>, ghost vis0: set<Cell>)
      returns (result: seq<Cell>)
    requires s.Shows(g) && visited.Length0 == N && visited.Length1 == N
    requires forall r, c :: 0 <= r < N && 0 <= c < N ==> (visited[r, c] <==> (r, c) in vis0)
    modifies visited
    ensures result == Explore(g, Frontier(vis0, active0, []))
  {
    var active := active0;
    ghost var vis := vis0;
    result := [];
    while active != []
      invariant Explore(g, Frontier(vis, active, result)) == Explore(g, Frontier(vis0, active0, []))
      invariant forall r, c :: 0 <= r < N && 0 <= c < N ==> (visited[r, c] <==> (r, c) in vis)
      decreases Weight(active)
    {
      var e := active[|active| - 1];
      ghost var popped := Frontier(vis, active[..|active| - 1], result);
      assert Weight(active) == Weight(popped.active) + Cost(e);
      active, result, vis := Expand(s, g, visited, e, active[..|active| - 1], result, vis, popped);
    }
  }

  /** The fallback loops: every cell, row by row. */
  method ListAllCells() returns (cells: seq<Cell>)
    ensures cells == AllCells()
  {
    cells := [];
    for x := 0 to N
      invariant cells == AllCells()[..x * N]
    {
      for y := 0 to N
        invariant cells == AllCells()[..x * N + y]
      {
        CellIndex(x, y);
        assert AllCells()[..x * N + y + 1] == AllCells()[..x * N + y] + [(x, y)];
        cells := cells + [(x, y)];
      }
    }
    assert AllCells()[..N * N] == AllCells();
  }

  /** The generator's loops, one after the other. */
  method Generate(s: GameState, ghost g: Grid) returns (moves: seq<Cell>)
    requires s.Shows(g)
    ensures moves == Candidates(g)
  {
    var visited := new bool[N, N]((_, _) => false);
    var active;
    ghost var vis;
    active, vis := Seed(s, g, visited);
    var found := ExpandAll(s, g, visited, active, vis);
    if found == [] {
      moves := ListAllCells();
    } else {
      moves := found;
    }
  }

  /**
   * `move_gen` without its final shuffle: the list it builds is the
   * candidate list, so it holds no cell twice, only cells of the board, and
   * only empty cells unless the board is full.
   */
  method MoveGen(s: GameState) returns (moves: seq<Cell>)
    requires s.Valid()
    ensures moves == Candidates(s.Snapshot())
    ensures NoDup(moves) && forall i :: 0 <= i < |moves| ==> InBounds(moves[i])
    ensures HasEmpty(s.Snapshot()) ==> forall i :: 0 <= i < |moves| ==> IsEmptyCell(s.Snapshot(), moves[i])
  {
    ghost var g := s.Snapshot();
    moves := Generate(s, g);
    CandidatesDistinct(g);
    if HasEmpty(g) {
      CandidatesEmpty(g);
    }
  }
}
