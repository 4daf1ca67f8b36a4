// compute_clearance_map: a multi-source breadth-first search from the mines
// over king moves, proved to compute the exact distance to the nearest mine.
module Clearance {
  import opened Arithmetic
  import opened Minefield
  import opened Outcomes

  datatype ClearanceError =
    | MinesOutsideGrid(cells: set<Cell>)
    | IncompleteCoverage

  // What the map promises: one entry per cell, holding the distance to the
  // nearest mine; on an empty field, a number larger than either dimension.
  ghost predicate IsClearanceMap(f: Field, mines: set<Cell>, clearance: map<Cell, int>) {
    && clearance.Keys == AllCells(f)
    && forall c | c in clearance ::
         clearance[c] == if mines == {} then Max(f.cols, f.rows) + 1 else Nearest(mines, c)
  }

  // ---- The search invariant ----
  // It is stated against the table `dist` of true distances, of which the search
  // only uses that neighbouring entries differ by at most one and that every
  // positive entry has a neighbour one smaller.

  ghost predicate IsDistanceTable(dist: map<Cell, nat>) {
    && (forall a, b {:trigger Touching(a, b)} | a in dist && b in dist && Touching(a, b) :: dist[b] <= dist[a] + 1)
    && forall c | c in dist && dist[c] > 0 :: exists p :: p in dist && Touching(p, c) && dist[p] + 1 == dist[c]
  }

  // Every distance written so far is already the final one.
  ghost predicate Exact(dist: map<Cell, nat>, clearance: map<Cell, int>) {
    forall c | c in clearance :: c in dist && clearance[c] == dist[c]
  }

  // The queue is sorted by distance and spans at most two consecutive layers.
  ghost predicate Layered(dist: map<Cell, nat>, queue: seq<Cell>) {
    && (forall i | 0 <= i < |queue| :: queue[i] in dist)
    && (forall i, j | 0 <= i < j < |queue| :: dist[queue[i]] <= dist[queue[j]])
    && forall i | 0 <= i < |queue| :: dist[queue[i]] <= dist[queue[0]] + 1
  }

  // Every cell that left the queue has handed its distance to its neighbours.
  ghost predicate Expanded(dist: map<Cell, nat>, clearance: map<Cell, int>, queue: seq<Cell>) {
    && (forall c | c in queue :: c in clearance)
    && forall c, n {:trigger Touching(c, n)} | c in clearance && c !in queue && n in dist && Touching(c, n) ::
         n in clearance
  }

  // All cells within distance d have been reached.
  ghost predicate Covers(dist: map<Cell, nat>, clearance: map<Cell, int>, d: int) {
    forall c | c in dist && dist[c] <= d :: c in clearance
  }

  ghost predicate SearchInvariant(dist: map<Cell, nat>, clearance: map<Cell, int>, queue: seq<Cell>) {
    && Exact(dist, clearance) && Layered(dist, queue) && Expanded(dist, clearance, queue)
    && (queue != [] ==> Covers(dist, clearance, dist[queue[0]]))
    && Covers(dist, clearance, 0)
  }

  // When no queued cell lies within distance d, that layer is completely
  // expanded, so the next layer is completely discovered.
  lemma CoverageAdvances(dist: map<Cell, nat>, clearance: map<Cell, int>, queue: seq<Cell>, d: nat)
    requires IsDistanceTable(dist)
    requires Exact(dist, clearance) && Expanded(dist, clearance, queue)
    requires Covers(dist, clearance, d)
    requires forall c | c in queue :: c in dist && dist[c] > d
    ensures Covers(dist, clearance, d + 1)
  {
    forall c | c in dist && dist[c] == d + 1
      ensures c in clearance
    {
      var p :| p in dist && Touching(p, c) && dist[p] + 1 == dist[c];
    }
  }

  // An empty queue means every layer has been expanded.
  lemma {:induction false} CoverageCompletes(dist: map<Cell, nat>, clearance: map<Cell, int>, d: nat)
    requires IsDistanceTable(dist)
    requires SearchInvariant(dist, clearance, [])
    ensures Covers(dist, clearance, d)
  {
    if d > 0 {
      CoverageCompletes(dist, clearance, d - 1);
      CoverageAdvances(dist, clearance, [], d - 1);
    }
  }

  // The neighbours of `current` the loops have visited before offset (dx, dy).
  ghost predicate NeighboursReached(dist: map<Cell, nat>, clearance: map<Cell, int>, current: Cell, dx: int, dy: int) {
    forall n {:trigger Touching(current, n)} | n in dist && Touching(current, n)
                 && (n.x - current.x < dx || (n.x - current.x == dx && n.y - current.y < dy)) :: n in clearance
  }

  // Popping keeps the invariant once the popped cell has been expanded.
  lemma FrontAdvances(dist: map<Cell, nat>, clearance: map<Cell, int>, queue: seq<Cell>, popped: Cell)
    requires IsDistanceTable(dist)
    requires SearchInvariant(dist, clearance, [popped] + queue)
    requires NeighboursReached(dist, clearance, popped, 2, -1)
    ensures SearchInvariant(dist, clearance, queue)
  {
    assert forall c | c in [popped] + queue :: c == popped || c in queue;
    assert Expanded(dist, clearance, queue);
    var whole := [popped] + queue;
    assert whole[0] == popped;
    assert forall i | 0 <= i < |queue| :: queue[i] == whole[i + 1];
    if queue != [] && dist[queue[0]] != dist[popped] {
      assert whole[1] == queue[0];
      CoverageAdvances(dist, clearance, queue, dist[popped]);
    }
  }

  // Reaching a new neighbour n of the popped cell keeps the invariant, with
  // the distance the loop writes.
  lemma DiscoveryKeepsInvariant(dist: map<Cell, nat>, clearance: map<Cell, int>, queue: seq<Cell>,
                                current: Cell, n: Cell, nextDistance: int)
    requires IsDistanceTable(dist)
    requires SearchInvariant(dist, clearance, [current] + queue)
    requires current in dist && nextDistance == dist[current] + 1
    requires n in dist && n !in clearance && Touching(current, n)
    ensures SearchInvariant(dist, clearance[n := nextDistance], [current] + (queue + [n]))
  {
    var before := [current] + queue;
    assert before[0] == current;
    assert [current] + (queue + [n]) == before + [n];
    assert dist[n] == dist[current] + 1;
    forall c | c in before + [n]
      ensures c in before || c == n
    {
    }
  }

  lemma VisitAdvances(dist: map<Cell, nat>, before: map<Cell, int>, after: map<Cell, int>,
                      current: Cell, dx: int, dy: int)
    requires NeighboursReached(dist, before, current, dx, dy)
    requires before.Keys <= after.Keys
    requires var n := Cell(current.x + dx, current.y + dy); n in dist && n != current ==> n in after
    ensures NeighboursReached(dist, after, current, dx, dy + 1)
  {
    forall n | n in dist && Touching(current, n) && n.x - current.x == dx && n.y - current.y == dy
      ensures n in after
    {
      assert n == Cell(current.x + dx, current.y + dy);
    }
  }

  // The body of the inner loops for one offset.
  method VisitNeighbour(f: Field, ghost dist: map<Cell, nat>, reached: map<Cell, int>, waiting: seq<Cell>,
                        current: Cell, nextDistance: int, dx: int, dy: int)
    returns (clearance: map<Cell, int>, queue: seq<Cell>)
    requires -1 <= dx <= 1 && -1 <= dy <= 1
    requires current in dist && nextDistance == dist[current] + 1
    requires IsDistanceTable(dist) && dist.Keys == AllCells(f)
    requires SearchInvariant(dist, reached, [current] + waiting)
    requires NeighboursReached(dist, reached, current, dx, dy)
    ensures SearchInvariant(dist, clearance, [current] + queue)
    ensures NeighboursReached(dist, clearance, current, dx, dy + 1)
    ensures |queue| - |clearance| == |waiting| - |reached|
  {
    clearance, queue := reached, waiting;
    var neighbour := Cell(current.x + dx, current.y + dy);
    if !(dx == 0 && dy == 0) && InField(f, neighbour) && neighbour !in clearance {
      DiscoveryKeepsInvariant(dist, clearance, queue, current, neighbour, nextDistance);
      clearance := clearance[neighbour := nextDistance];
      queue := queue + [neighbour];
    }
    VisitAdvances(dist, reached, clearance, current, dx, dy);
  }

  // One turn of the outer loop: pop the front cell, give every unreached
  // neighbour its distance and append it to the queue.
  method ExpandFront(f: Field, ghost dist: map<Cell, nat>, reached: map<Cell, int>, waiting: seq<Cell>)
    returns (clearance: map<Cell, int>, queue: seq<Cell>)
    requires IsDistanceTable(dist) && dist.Keys == AllCells(f)
    requires waiting != [] && SearchInvariant(dist, reached, waiting)
    ensures SearchInvariant(dist, clearance, queue)
    ensures |queue| - |clearance| == |waiting| - 1 - |reached|
  {
    var current := waiting[0];
    clearance, queue := reached, waiting[1..];
    HeadAndTail(waiting);
    var nextDistance := clearance[current] + 1;
    for dx := -1 to 2
      invariant SearchInvariant(dist, clearance, [current] + queue)
      invariant |queue| - |clearance| == |waiting| - 1 - |reached|
      invariant NeighboursReached(dist, clearance, current, dx, -1)
    {
      for dy := -1 to 2
        invariant SearchInvariant(dist, clearance, [current] + queue)
        invariant |queue| - |clearance| == |waiting| - 1 - |reached|
        invariant NeighboursReached(dist, clearance, current, dx, dy)
      {
        clearance, queue := VisitNeighbour(f, dist, clearance, queue, current, nextDistance, dx, dy);
      }
    }
    FrontAdvances(dist, clearance, queue, current);
  }

  ghost function NearestTable(cells: set<Cell>, mines: set<Cell>): map<Cell, nat>
    requires mines != {}
  {
    map c | c in cells :: Nearest(mines, c)
  }

  lemma TableIsSmooth(cells: set<Cell>, mines: set<Cell>, a: Cell, b: Cell)
    requires mines != {} && a in cells && b in cells && Touching(a, b)
    ensures NearestTable(cells, mines)[b] <= NearestTable(cells, mines)[a] + 1
  {
    NearestIsLipschitz(mines, a, b);
  }

  lemma TableDescends(f: Field, cells: set<Cell>, mines: set<Cell>, c: Cell) returns (p: Cell)
    requires mines != {} && cells == AllCells(f) && mines <= cells && c in cells && Nearest(mines, c) > 0
    ensures p in cells && Touching(p, c) && Nearest(mines, p) + 1 == Nearest(mines, c)
  {
    p := NearerNeighbour(f, mines, c);
  }

  lemma NearestIsDistanceTable(f: Field, mines: set<Cell>) returns (dist: map<Cell, nat>)
    requires mines != {} && mines <= AllCells(f)
    ensures dist.Keys == AllCells(f) && IsDistanceTable(dist)
    ensures forall c | c in dist :: dist[c] == Nearest(mines, c)
    ensures forall c | c in dist :: dist[c] == 0 <==> c in mines
  {
    var cells := AllCells(f);
    dist := NearestTable(cells, mines);
    forall c | c in dist
      ensures dist[c] == 0 <==> c in mines
    {
      NearestIsZeroAtMines(mines, c);
    }
    forall a, b | a in dist && b in dist && Touching(a, b)
      ensures dist[b] <= dist[a] + 1
    {
      TableIsSmooth(cells, mines, a, b);
    }
    forall c | c in dist && dist[c] > 0
      ensures exists p :: p in dist && Touching(p, c) && dist[p] + 1 == dist[c]
    {
      var p := TableDescends(f, cells, mines, c);
      assert p in dist && dist[p] + 1 == dist[c];
    }
  }

  // The mines, in whatever order iterating over the set yields them.
  method Enumerate(mines: set<Cell>) returns (queue: seq<Cell>)
    ensures forall c :: c in queue <==> c in mines
    ensures |queue| == |mines|
  {
    queue := [];
    var pending := mines;
    while pending != {}
      invariant pending <= mines
      invariant forall c :: c in queue <==> c in mines - pending
      invariant |queue| + |pending| == |mines|
      decreases pending
    {
      var m :| m in pending;
      queue := queue + [m];
      pending := pending - {m};
    }
  }

  lemma SearchStarts(dist: map<Cell, nat>, mines: set<Cell>, clearance: map<Cell, int>, queue: seq<Cell>)
    requires forall c | c in dist :: dist[c] == 0 <==> c in mines
    requires mines <= dist.Keys && clearance == map m | m in mines :: 0
    requires forall c :: c in queue <==> c in mines
    ensures SearchInvariant(dist, clearance, queue)
  {
    forall i | 0 <= i < |queue|
      ensures queue[i] in dist && dist[queue[i]] == 0
    {
      assert queue[i] in queue;
    }
  }

  lemma SearchEnds(dist: map<Cell, nat>, clearance: map<Cell, int>)
    requires IsDistanceTable(dist) && SearchInvariant(dist, clearance, [])
    ensures clearance.Keys == dist.Keys && forall c | c in dist :: clearance[c] == dist[c]
  {
    forall c | c in dist
      ensures c in clearance
    {
      CoverageCompletes(dist, clearance, dist[c]);
    }
  }

  // The outer loop: start from the mines and expand until the queue is empty.
  method SearchFromMines(f: Field, mines: set<Cell>) returns (clearance: map<Cell, int>)
    requires mines != {} && mines <= AllCells(f)
    ensures clearance.Keys == AllCells(f)
    ensures forall c | c in clearance :: clearance[c] == Nearest(mines, c)
  {
    clearance := map m | m in mines :: 0;
    var queue := Enumerate(mines);
    ghost var dist := NearestIsDistanceTable(f, mines);
    SearchStarts(dist, mines, clearance, queue);
    while queue != []
      invariant SearchInvariant(dist, clearance, queue)
      decreases |dist.Keys| + |queue| - |clearance.Keys|
    {
      SubsetSize(clearance.Keys, dist.Keys);
      clearance, queue := ExpandFront(f, dist, clearance, queue);
    }
    SearchEnds(dist, clearance);
  }

  method ComputeClearanceMap(f: Field, mines: set<Cell>)
    returns (r: Result<map<Cell, int>, ClearanceError>)
    ensures r.Success? <==> forall m :: m in mines ==> InField(f, m)
    ensures r.Success? ==> IsClearanceMap(f, mines, r.value)
    ensures r.Failure? ==> r.error == MinesOutsideGrid(mines - AllCells(f))
  {
    var outOfBounds := mines - AllCells(f);
    if outOfBounds != {} {
      return Failure(MinesOutsideGrid(outOfBounds));
    }
    assert forall m | m in mines :: m !in outOfBounds;
    if mines == {} {
      return Success(map c | c in AllCells(f) :: Max(f.cols, f.rows) + 1);
    }
    var clearance := SearchFromMines(f, mines);
    FieldSize(f);
    assert |clearance| == |clearance.Keys|;
    if |clearance| != f.cols * f.rows {
      return Failure(IncompleteCoverage);
    }
    return Success(clearance);
  }
}
