// shortest_safe_path: a breadth-first search over rook steps from every open
// entrance cell, proved sound, complete, shortest and the first of the shortest.
module Corridor {
  import opened Minefield
  import opened Outcomes
  import opened TieBreaks

  // Cells a corridor of half-width G may run through.
  predicate Open(f: Field, clearance: map<Cell, int>, G: nat, c: Cell) {
    && G <= c.x <= f.cols - G - 1 && 0 <= c.y < f.rows
    && c in clearance && clearance[c] > G
  }

  predicate Connected(path: seq<Cell>) {
    forall i | 0 <= i < |path| - 1 :: Adjacent(path[i], path[i + 1])
  }

  // A bottom-to-top walk through open cells.
  predicate IsCorridor(f: Field, clearance: map<Cell, int>, G: nat, path: seq<Cell>) {
    && path != [] && path[0].y == 0 && path[|path| - 1].y == f.rows - 1
    && (forall i | 0 <= i < |path| :: Open(f, clearance, G, path[i]))
    && Connected(path)
  }

  ghost predicate IsShortestCorridor(f: Field, clearance: map<Cell, int>, G: nat, path: seq<Cell>) {
    && IsCorridor(f, clearance, G, path)
    && forall q: seq<Cell> | IsCorridor(f, clearance, G, q) :: |path| <= |q|
  }

  // The first of them: from the leftmost column, then by the turns up, left, right, down.
  ghost predicate IsFirstShortest(f: Field, clearance: map<Cell, int>, G: nat, path: seq<Cell>) {
    && IsShortestCorridor(f, clearance, G, path)
    && forall q: seq<Cell> | IsCorridor(f, clearance, G, q) && |q| == |path| :: path == q || ComesFirst(path, q)
  }

  lemma FirstIsUnique(f: Field, clearance: map<Cell, int>, G: nat, p: seq<Cell>, q: seq<Cell>)
    requires IsFirstShortest(f, clearance, G, p) && IsFirstShortest(f, clearance, G, q)
    ensures p == q
  {
    OneComesFirst(p, q);
  }

  predicate Distinct<T(==)>(s: seq<T>) {
    forall i, j | 0 <= i < j < |s| :: s[i] != s[j]
  }

  // ---- The search invariant ----
  // `depth` is the number of steps at which each cell was discovered.

  // An entrance has no parent and depth 0; any other cell is one step beyond
  // its parent.
  ghost predicate HasParent(cameFrom: map<Cell, Option<Cell>>, depth: map<Cell, nat>, c: Cell)
    requires c in cameFrom && c in depth
  {
    match cameFrom[c]
    case None => depth[c] == 0 && c.y == 0
    case Some(p) => p in depth && Adjacent(p, c) && depth[c] == depth[p] + 1
  }

  ghost predicate IsTree(open: set<Cell>, cameFrom: map<Cell, Option<Cell>>, depth: map<Cell, nat>) {
    && cameFrom.Keys == depth.Keys && depth.Keys <= open
    && forall c {:trigger HasParent(cameFrom, depth, c)} | c in cameFrom :: HasParent(cameFrom, depth, c)
  }

  // The queue is sorted by depth and spans at most two consecutive layers, and
  // nothing deeper than that has been discovered.
  ghost predicate Layered(depth: map<Cell, nat>, queue: seq<Cell>) {
    && (forall i | 0 <= i < |queue| :: queue[i] in depth)
    && (forall i, j | 0 <= i < j < |queue| :: depth[queue[i]] <= depth[queue[j]])
    && (queue != [] ==> forall c | c in depth :: depth[c] <= depth[queue[0]] + 1)
  }

  // Cells that left the queue are not exits, and all their open neighbours have
  // been discovered no later than one step after them.
  ghost predicate Expanded(f: Field, open: set<Cell>, depth: map<Cell, nat>, queue: seq<Cell>) {
    && (forall c | c in depth && c !in queue :: c.y != f.rows - 1)
    && forall c, n {:trigger Adjacent(c, n)} | c in depth && c !in queue && n in open && Adjacent(c, n) ::
         n in depth && depth[n] <= depth[c] + 1
  }

  ghost predicate EntrancesFound(open: set<Cell>, depth: map<Cell, nat>) {
    forall c | c in open && c.y == 0 :: c in depth && depth[c] == 0
  }

  ghost predicate SearchInvariant(f: Field, open: set<Cell>, cameFrom: map<Cell, Option<Cell>>,
                                  depth: map<Cell, nat>, queue: seq<Cell>) {
    && IsTree(open, cameFrom, depth) && EntrancesFound(open, depth)
    && Layered(depth, queue) && Expanded(f, open, depth, queue)
  }

  ghost predicate IsWalk(open: set<Cell>, q: seq<Cell>) {
    && q != [] && q[0].y == 0 && Connected(q)
    && forall i | 0 <= i < |q| :: q[i] in open
  }

  // No walk outruns the search: until depth `bound`, the least depth still
  // queued, the search has reached every cell at least as early as the walk.
  lemma {:induction false} WalkIsNotFaster(f: Field, open: set<Cell>, cameFrom: map<Cell, Option<Cell>>,
                                           depth: map<Cell, nat>, queue: seq<Cell>,
                                           bound: nat, q: seq<Cell>, i: nat)
    requires SearchInvariant(f, open, cameFrom, depth, queue)
    requires forall c | c in queue :: c in depth && depth[c] >= bound
    requires IsWalk(open, q) && i < |q| && i <= bound
    ensures q[i] in depth && depth[q[i]] <= i
  {
    if i > 0 {
      WalkIsNotFaster(f, open, cameFrom, depth, queue, bound, q, i - 1);
      assert q[i - 1] !in queue;
      assert Adjacent(q[i - 1], q[i]);
    }
  }

  // Hence every walk to an exit takes at least `bound` steps.
  lemma ExitIsNotCloser(f: Field, open: set<Cell>, cameFrom: map<Cell, Option<Cell>>,
                        depth: map<Cell, nat>, queue: seq<Cell>, bound: nat, q: seq<Cell>)
    requires SearchInvariant(f, open, cameFrom, depth, queue)
    requires forall c | c in queue :: c in depth && depth[c] >= bound
    requires IsWalk(open, q) && q[|q| - 1].y == f.rows - 1
    ensures |q| - 1 >= bound
  {
    if |q| - 1 < bound {
      WalkIsNotFaster(f, open, cameFrom, depth, queue, bound, q, |q| - 1);
    }
  }

  // The four steps, in the order the search tries them.
  function Step(c: Cell, k: int): Cell
    requires 0 <= k < 4
  {
    if k == 0 then Cell(c.x, c.y + 1)
    else if k == 1 then Cell(c.x - 1, c.y)
    else if k == 2 then Cell(c.x + 1, c.y)
    else Cell(c.x, c.y - 1)
  }

  lemma StepsAreAdjacent(c: Cell, n: Cell)
    ensures Adjacent(c, n) <==> n == Step(c, 0) || n == Step(c, 1) || n == Step(c, 2) || n == Step(c, 3)
  {
  }

  // The open neighbours among the first k steps have been discovered.
  ghost predicate StepsTaken(open: set<Cell>, depth: map<Cell, nat>, c: Cell, k: nat)
    requires k <= 4 && c in depth
  {
    forall j | 0 <= j < k :: StepTaken(open, depth, c, Step(c, j))
  }

  ghost predicate StepTaken(open: set<Cell>, depth: map<Cell, nat>, c: Cell, n: Cell)
    requires c in depth
  {
    n in open ==> n in depth && depth[n] <= depth[c] + 1
  }

  lemma TreeGrows(open: set<Cell>, cameFrom: map<Cell, Option<Cell>>, depth: map<Cell, nat>, current: Cell, n: Cell)
    requires IsTree(open, cameFrom, depth)
    requires current in depth && n in open && n !in depth && Adjacent(current, n)
    ensures IsTree(open, cameFrom[n := Some(current)], depth[n := depth[current] + 1])
  {
    var depth', cameFrom' := depth[n := depth[current] + 1], cameFrom[n := Some(current)];
    forall c | c in cameFrom'
      ensures HasParent(cameFrom', depth', c)
    {
      assert c != n ==> HasParent(cameFrom, depth, c);
    }
  }

  lemma LayersGrow(depth: map<Cell, nat>, queue: seq<Cell>, current: Cell, n: Cell)
    requires Layered(depth, [current] + queue) && current in depth && n !in depth
    ensures Layered(depth[n := depth[current] + 1], [current] + (queue + [n]))
  {
    var before := [current] + queue;
    assert before[0] == current;
    assert [current] + (queue + [n]) == before + [n];
  }

  lemma ExpandedGrows(f: Field, open: set<Cell>, depth: map<Cell, nat>, queue: seq<Cell>, n: Cell, d: nat)
    requires Expanded(f, open, depth, queue) && n !in depth
    requires forall c | c in depth :: depth[c] <= d
    ensures Expanded(f, open, depth[n := d], queue + [n])
  {
    assert forall c | c !in queue + [n] :: c !in queue && c != n;
  }

  lemma DiscoveryKeepsInvariant(f: Field, open: set<Cell>, cameFrom: map<Cell, Option<Cell>>,
                                depth: map<Cell, nat>, queue: seq<Cell>, current: Cell, n: Cell)
    requires SearchInvariant(f, open, cameFrom, depth, [current] + queue)
    requires current in depth && n in open && n !in depth && Adjacent(current, n)
    ensures SearchInvariant(f, open, cameFrom[n := Some(current)], depth[n := depth[current] + 1],
                            [current] + (queue + [n]))
  {
    assert [current] + (queue + [n]) == ([current] + queue) + [n];
    TreeGrows(open, cameFrom, depth, current, n);
    LayersGrow(depth, queue, current, n);
    ExpandedGrows(f, open, depth, [current] + queue, n, depth[current] + 1);
  }

  lemma LayersShrink(depth: map<Cell, nat>, queue: seq<Cell>, popped: Cell)
    requires Layered(depth, [popped] + queue)
    ensures Layered(depth, queue)
  {
    var whole := [popped] + queue;
    assert whole[0] == popped;
    assert forall i | 0 <= i < |queue| :: queue[i] == whole[i + 1];
  }

  lemma ExpandedShrinks(f: Field, open: set<Cell>, depth: map<Cell, nat>, queue: seq<Cell>, popped: Cell)
    requires Expanded(f, open, depth, [popped] + queue)
    requires popped in depth && popped.y != f.rows - 1 && StepsTaken(open, depth, popped, 4)
    ensures Expanded(f, open, depth, queue)
  {
    assert forall c | c in [popped] + queue :: c == popped || c in queue;
    forall n | n in open && Adjacent(popped, n)
      ensures n in depth && depth[n] <= depth[popped] + 1
    {
      StepsAreAdjacent(popped, n);
      assert StepTaken(open, depth, popped, n);
    }
  }

  lemma FrontAdvances(f: Field, open: set<Cell>, cameFrom: map<Cell, Option<Cell>>,
                      depth: map<Cell, nat>, queue: seq<Cell>, popped: Cell)
    requires SearchInvariant(f, open, cameFrom, depth, [popped] + queue)
    requires popped in depth && popped.y != f.rows - 1 && StepsTaken(open, depth, popped, 4)
    ensures SearchInvariant(f, open, cameFrom, depth, queue)
  {
    LayersShrink(depth, queue, popped);
    ExpandedShrinks(f, open, depth, queue, popped);
  }

  lemma StepAdvances(open: set<Cell>, before: map<Cell, nat>, after: map<Cell, nat>, c: Cell, k: nat)
    requires k < 4 && c in before && StepsTaken(open, before, c, k)
    requires before.Keys <= after.Keys && forall x | x in before :: after[x] == before[x]
    requires StepTaken(open, after, c, Step(c, k))
    ensures StepsTaken(open, after, c, k + 1)
  {
    forall j | 0 <= j < k + 1
      ensures StepTaken(open, after, c, Step(c, j))
    {
      assert j < k ==> StepTaken(open, before, c, Step(c, j));
    }
  }

  lemma DiscoveredIsShallow(depth: map<Cell, nat>, queue: seq<Cell>, current: Cell, c: Cell)
    requires Layered(depth, [current] + queue) && c in depth
    ensures current in depth && depth[c] <= depth[current] + 1
  {
    assert ([current] + queue)[0] == current;
  }

  // Only queued cells can still have an undiscovered neighbour.
  lemma NeighboursAreQueued(f: Field, open: set<Cell>, cameFrom: map<Cell, Option<Cell>>,
                            depth: map<Cell, nat>, queue: seq<Cell>, n: Cell)
    requires SearchInvariant(f, open, cameFrom, depth, queue) && n in open && n !in cameFrom
    ensures forall u | u in cameFrom && Adjacent(u, n) :: u in queue
  {
  }

  // What the inner loop knows of the order after k steps from the current cell.
  ghost predicate OrderedSoFar(cameFrom: map<Cell, Option<Cell>>, rank: map<Cell, nat>, waiting: seq<Cell>,
                               current: Cell, k: nat) {
    && IsRanked(cameFrom, rank, [current] + waiting)
    && ParentsLeft(cameFrom, waiting) && TurnsTaken(cameFrom, current, k)
  }

  lemma StepKeepsOrder(f: Field, open: set<Cell>, cameFrom: map<Cell, Option<Cell>>, depth: map<Cell, nat>,
                       rank: map<Cell, nat>, waiting: seq<Cell>, current: Cell, k: nat)
    requires SearchInvariant(f, open, cameFrom, depth, [current] + waiting) && k < 4
    requires OrderedSoFar(cameFrom, rank, waiting, current, k)
    requires Step(current, k) in open && Step(current, k) !in cameFrom
    ensures var n := Step(current, k);
            OrderedSoFar(cameFrom[n := Some(current)], rank[n := |rank|], waiting + [n], current, k + 1)
  {
    NeighboursAreQueued(f, open, cameFrom, depth, [current] + waiting, Step(current, k));
    DiscoveryIsRanked(cameFrom, rank, current, waiting, Step(current, k), k);
  }

  lemma SkipKeepsAll(f: Field, open: set<Cell>, cameFrom: map<Cell, Option<Cell>>, depth: map<Cell, nat>,
                     rank: map<Cell, nat>, waiting: seq<Cell>, current: Cell, k: nat)
    requires SearchInvariant(f, open, cameFrom, depth, [current] + waiting) && k < 4
    requires current in depth && StepsTaken(open, depth, current, k)
    requires OrderedSoFar(cameFrom, rank, waiting, current, k)
    requires Step(current, k) in cameFrom || Step(current, k) !in open
    ensures StepsTaken(open, depth, current, k + 1) && OrderedSoFar(cameFrom, rank, waiting, current, k + 1)
  {
    if Step(current, k) in cameFrom {
      DiscoveredIsShallow(depth, waiting, current, Step(current, k));
    }
    StepAdvances(open, depth, depth, current, k);
  }

  lemma DiscoveryKeepsAll(f: Field, open: set<Cell>, cameFrom: map<Cell, Option<Cell>>, depth: map<Cell, nat>,
                          rank: map<Cell, nat>, waiting: seq<Cell>, current: Cell, k: nat)
    requires SearchInvariant(f, open, cameFrom, depth, [current] + waiting) && k < 4
    requires current in depth && StepsTaken(open, depth, current, k)
    requires OrderedSoFar(cameFrom, rank, waiting, current, k)
    requires Step(current, k) in open && Step(current, k) !in cameFrom
    ensures var n := Step(current, k);
            var depth' := depth[n := depth[current] + 1];
            && SearchInvariant(f, open, cameFrom[n := Some(current)], depth', [current] + (waiting + [n]))
            && current in depth' && StepsTaken(open, depth', current, k + 1)
            && OrderedSoFar(cameFrom[n := Some(current)], rank[n := |rank|], waiting + [n], current, k + 1)
  {
    var n := Step(current, k);
    StepsAreAdjacent(current, n);
    DiscoveryKeepsInvariant(f, open, cameFrom, depth, waiting, current, n);
    StepKeepsOrder(f, open, cameFrom, depth, rank, waiting, current, k);
    StepAdvances(open, depth, depth[n := depth[current] + 1], current, k);
  }

  // The body of the inner loop for one step.
  method TakeStep(f: Field, clearance: map<Cell, int>, G: nat, ghost open: set<Cell>,
                  found: map<Cell, Option<Cell>>, ghost foundDepth: map<Cell, nat>, ghost foundRank: map<Cell, nat>,
                  waiting: seq<Cell>, current: Cell, k: nat)
    returns (cameFrom: map<Cell, Option<Cell>>, ghost depth: map<Cell, nat>, ghost rank: map<Cell, nat>,
             queue: seq<Cell>)
    requires clearance.Keys == AllCells(f)
    requires forall c :: c in open <==> Open(f, clearance, G, c)
    requires SearchInvariant(f, open, found, foundDepth, [current] + waiting)
    requires k < 4 && current in foundDepth && StepsTaken(open, foundDepth, current, k)
    requires OrderedSoFar(found, foundRank, waiting, current, k)
    ensures SearchInvariant(f, open, cameFrom, depth, [current] + queue)
    ensures OrderedSoFar(cameFrom, rank, queue, current, k + 1)
    ensures current in depth && StepsTaken(open, depth, current, k + 1)
    ensures |queue| - |cameFrom| == |waiting| - |found|
  {
    cameFrom, depth, rank, queue := found, foundDepth, foundRank, waiting;
    var neighbour := Step(current, k);
    if !(G <= neighbour.x <= f.cols - G - 1 && 0 <= neighbour.y < f.rows)
       || neighbour in cameFrom || clearance[neighbour] <= G {
      SkipKeepsAll(f, open, cameFrom, depth, rank, queue, current, k);
    } else {
      DiscoveryKeepsAll(f, open, cameFrom, depth, rank, queue, current, k);
      cameFrom := cameFrom[neighbour := Some(current)];
      depth := depth[neighbour := depth[current] + 1];
      rank := rank[neighbour := |rank|];
      queue := queue + [neighbour];
    }
  }

  lemma NoneTaken(cameFrom: map<Cell, Option<Cell>>, waiting: seq<Cell>, current: Cell)
    requires ParentsLeft(cameFrom, [current] + waiting)
    ensures ParentsLeft(cameFrom, waiting) && TurnsTaken(cameFrom, current, 0)
  {
    assert forall c | c in waiting || c == current :: c in [current] + waiting;
  }

  // The inner loop: queue every open neighbour not discovered before.
  method ExpandCell(f: Field, clearance: map<Cell, int>, G: nat, ghost open: set<Cell>,
                    found: map<Cell, Option<Cell>>, ghost foundDepth: map<Cell, nat>, ghost foundRank: map<Cell, nat>,
                    waiting: seq<Cell>, current: Cell)
    returns (cameFrom: map<Cell, Option<Cell>>, ghost depth: map<Cell, nat>, ghost rank: map<Cell, nat>,
             queue: seq<Cell>)
    requires clearance.Keys == AllCells(f)
    requires forall c :: c in open <==> Open(f, clearance, G, c)
    requires SearchInvariant(f, open, found, foundDepth, [current] + waiting)
    requires current in foundDepth && current.y != f.rows - 1
    requires IsRanked(found, foundRank, [current] + waiting) && ParentsLeft(found, [current] + waiting)
    ensures SearchInvariant(f, open, cameFrom, depth, queue)
    ensures IsRanked(cameFrom, rank, queue) && ParentsLeft(cameFrom, queue)
    ensures |queue| - |cameFrom| == |waiting| - |found|
  {
    cameFrom, depth, rank, queue := found, foundDepth, foundRank, waiting;
    NoneTaken(cameFrom, waiting, current);
    for k := 0 to 4
      invariant SearchInvariant(f, open, cameFrom, depth, [current] + queue)
      invariant current in depth && StepsTaken(open, depth, current, k)
      invariant OrderedSoFar(cameFrom, rank, queue, current, k)
      invariant |queue| - |cameFrom| == |waiting| - |found|
    {
      cameFrom, depth, rank, queue := TakeStep(f, clearance, G, open, cameFrom, depth, rank, queue, current, k);
    }
    FrontAdvances(f, open, cameFrom, depth, queue, current);
    PopIsRanked(cameFrom, rank, current, queue);
  }

  // ---- Reading the path back ----

  function Reversed<T>(s: seq<T>): (r: seq<T>)
    ensures |r| == |s| && forall i | 0 <= i < |s| :: r[i] == s[|s| - 1 - i]
  {
    seq(|s|, i requires 0 <= i < |s| => s[|s| - 1 - i])
  }

  // Each step of the trail goes from a cell to its parent, one level up.
  ghost predicate IsTrail(open: set<Cell>, depth: map<Cell, nat>, trail: seq<Cell>, exit: Cell) {
    && exit in depth && |trail| <= depth[exit] + 1
    && (forall i | 0 <= i < |trail| :: trail[i] in open && trail[i] in depth && depth[trail[i]] == depth[exit] - i)
    && (forall i | 0 <= i < |trail| - 1 :: Adjacent(trail[i + 1], trail[i]))
    && (trail != [] ==> trail[0] == exit)
  }

  // Each cell of the trail has the next one as its parent.
  ghost predicate IsParentTrail(cameFrom: map<Cell, Option<Cell>>, trail: seq<Cell>, next: Option<Cell>) {
    && (forall i | 0 <= i < |trail| :: trail[i] in cameFrom)
    && (forall i | 0 <= i < |trail| - 1 :: cameFrom[trail[i]] == Some(trail[i + 1]))
    && (trail != [] ==> cameFrom[trail[|trail| - 1]] == next)
  }

  lemma ReversedFollowsTree(cameFrom: map<Cell, Option<Cell>>, trail: seq<Cell>)
    requires trail != [] && IsParentTrail(cameFrom, trail, None)
    ensures FollowsTree(cameFrom, Reversed(trail))
  {
    var path := Reversed(trail);
    forall i | 0 <= i < |path| - 1
      ensures cameFrom[path[i + 1]] == Some(path[i])
    {
      assert cameFrom[trail[|trail| - 2 - i]] == Some(trail[|trail| - 2 - i + 1]);
    }
  }

  method TracePath(ghost open: set<Cell>, cameFrom: map<Cell, Option<Cell>>, ghost depth: map<Cell, nat>, exit: Cell)
    returns (path: seq<Cell>)
    requires IsTree(open, cameFrom, depth) && exit in depth
    ensures |path| == depth[exit] + 1 && path[|path| - 1] == exit
    ensures IsWalk(open, path) && Distinct(path) && FollowsTree(cameFrom, path)
  {
    path := [];
    var current := Some(exit);
    while current != None
      invariant IsTrail(open, depth, path, exit) && IsParentTrail(cameFrom, path, current)
      invariant match current
                case Some(c) => c in depth && |path| + depth[c] == depth[exit]
                                && (path == [] ==> c == exit)
                                && (path != [] ==> Adjacent(c, path[|path| - 1]))
                case None => |path| == depth[exit] + 1 && path[|path| - 1].y == 0
      decreases depth[exit] + 1 - |path|
    {
      assert HasParent(cameFrom, depth, current.value);
      path := path + [current.value];
      current := cameFrom[current.value];
    }
    ReversedFollowsTree(cameFrom, path);
    path := Reversed(path);
  }

  // The entrance cells, left to right.
  method Entrances(f: Field, clearance: map<Cell, int>, G: nat) returns (starts: seq<Cell>)
    requires clearance.Keys == AllCells(f) && G <= f.cols - G - 1
    ensures forall c :: c in starts <==> Open(f, clearance, G, c) && c.y == 0
    ensures Distinct(starts) && LeftToRight(starts)
  {
    starts := [];
    for x := G to f.cols - G
      invariant forall c :: c in starts <==> Open(f, clearance, G, c) && c.y == 0 && c.x < x
      invariant Distinct(starts) && LeftToRight(starts)
      invariant forall i | 0 <= i < |starts| :: starts[i].x < x
    {
      if clearance[Cell(x, 0)] > G {
        starts := starts + [Cell(x, 0)];
      }
    }
  }

  lemma SearchStarts(f: Field, open: set<Cell>, starts: seq<Cell>,
                     cameFrom: map<Cell, Option<Cell>>, depth: map<Cell, nat>)
    requires forall c :: c in starts <==> c in open && c.y == 0
    requires cameFrom == map c | c in starts :: None
    requires depth == map c | c in starts :: 0
    ensures SearchInvariant(f, open, cameFrom, depth, starts)
  {
    forall c | c in cameFrom
      ensures HasParent(cameFrom, depth, c)
    {
    }
    forall i | 0 <= i < |starts|
      ensures starts[i] in depth && depth[starts[i]] == 0
    {
      assert starts[i] in starts;
    }
  }

  lemma CorridorIsWalk(f: Field, clearance: map<Cell, int>, G: nat, open: set<Cell>, q: seq<Cell>)
    requires forall c :: c in open <==> Open(f, clearance, G, c)
    ensures IsCorridor(f, clearance, G, q) <==> IsWalk(open, q) && q[|q| - 1].y == f.rows - 1
  {
  }

  // Once the front of the queue is an exit, no corridor is shorter than its depth.
  lemma FrontExitIsShortest(f: Field, clearance: map<Cell, int>, G: nat, open: set<Cell>,
                            cameFrom: map<Cell, Option<Cell>>, depth: map<Cell, nat>, queue: seq<Cell>)
    requires forall c :: c in open <==> Open(f, clearance, G, c)
    requires SearchInvariant(f, open, cameFrom, depth, queue) && queue != []
    ensures queue[0] in depth
    ensures forall q: seq<Cell> | IsCorridor(f, clearance, G, q) :: depth[queue[0]] + 1 <= |q|
  {
    assert forall c | c in queue :: c in depth && depth[c] >= depth[queue[0]];
    forall q: seq<Cell> | IsCorridor(f, clearance, G, q)
      ensures depth[queue[0]] + 1 <= |q|
    {
      CorridorIsWalk(f, clearance, G, open, q);
      ExitIsNotCloser(f, open, cameFrom, depth, queue, depth[queue[0]], q);
    }
  }

  // A shortest corridor keeps pace with the search at every cell.
  lemma {:induction false} WalkIsNotSlower(f: Field, open: set<Cell>, cameFrom: map<Cell, Option<Cell>>,
                                           depth: map<Cell, nat>, queue: seq<Cell>, q: seq<Cell>, i: nat)
    requires SearchInvariant(f, open, cameFrom, depth, queue) && queue != [] && queue[0] in depth
    requires IsWalk(open, q) && q[|q| - 1].y == f.rows - 1 && |q| == depth[queue[0]] + 1 && i < |q|
    ensures q[i] in depth && depth[q[i]] == i && (i == |q| - 1 ==> q[i] in queue)
    decreases |q| - i
  {
    var bound := depth[queue[0]];
    assert forall c | c in queue :: c in depth && depth[c] >= bound;
    WalkIsNotFaster(f, open, cameFrom, depth, queue, bound, q, i);
    if i < bound {
      WalkIsNotSlower(f, open, cameFrom, depth, queue, q, i + 1);
      assert q[i] !in queue && Adjacent(q[i], q[i + 1]);
    }
  }

  lemma ShortestRunsThrough(f: Field, open: set<Cell>, cameFrom: map<Cell, Option<Cell>>,
                            depth: map<Cell, nat>, queue: seq<Cell>, q: seq<Cell>)
    requires SearchInvariant(f, open, cameFrom, depth, queue) && queue != [] && queue[0] in depth
    requires IsWalk(open, q) && q[|q| - 1].y == f.rows - 1 && |q| == depth[queue[0]] + 1
    ensures RunsThrough(cameFrom, q) && q[|q| - 1] in queue
  {
    forall i | 0 <= i < |q|
      ensures q[i] in cameFrom && (cameFrom[q[i]] == None <==> i == 0)
    {
      WalkIsNotSlower(f, open, cameFrom, depth, queue, q, i);
      assert HasParent(cameFrom, depth, q[i]);
    }
    WalkIsNotSlower(f, open, cameFrom, depth, queue, q, |q| - 1);
  }

  // The path to the first exit reached comes before every other shortest corridor.
  lemma FrontPathIsFirst(f: Field, clearance: map<Cell, int>, G: nat, open: set<Cell>,
                         cameFrom: map<Cell, Option<Cell>>, depth: map<Cell, nat>, rank: map<Cell, nat>,
                         queue: seq<Cell>, path: seq<Cell>)
    requires forall c :: c in open <==> Open(f, clearance, G, c)
    requires SearchInvariant(f, open, cameFrom, depth, queue) && queue != [] && queue[0] in depth
    requires IsRanked(cameFrom, rank, queue) && FollowsTree(cameFrom, path)
    requires path[|path| - 1] == queue[0] && |path| == depth[queue[0]] + 1
    ensures forall q: seq<Cell> | IsCorridor(f, clearance, G, q) && |q| == |path| :: path == q || ComesFirst(path, q)
  {
    forall q: seq<Cell> | IsCorridor(f, clearance, G, q) && |q| == |path|
      ensures path == q || ComesFirst(path, q)
    {
      CorridorIsWalk(f, clearance, G, open, q);
      ShortestRunsThrough(f, open, cameFrom, depth, queue, q);
      FrontIsFirst(rank, queue, q[|q| - 1]);
      TreeComesFirst(cameFrom, rank, path, q);
    }
  }

  lemma ExitIsAnswer(f: Field, clearance: map<Cell, int>, G: nat, open: set<Cell>,
                     cameFrom: map<Cell, Option<Cell>>, depth: map<Cell, nat>, rank: map<Cell, nat>,
                     queue: seq<Cell>, path: seq<Cell>)
    requires forall c :: c in open <==> Open(f, clearance, G, c)
    requires SearchInvariant(f, open, cameFrom, depth, queue) && queue != [] && queue[0] in depth
    requires IsRanked(cameFrom, rank, queue) && FollowsTree(cameFrom, path) && IsWalk(open, path)
    requires path[|path| - 1] == queue[0] && |path| == depth[queue[0]] + 1 && queue[0].y == f.rows - 1
    ensures IsFirstShortest(f, clearance, G, path)
  {
    CorridorIsWalk(f, clearance, G, open, path);
    FrontExitIsShortest(f, clearance, G, open, cameFrom, depth, queue);
    FrontPathIsFirst(f, clearance, G, open, cameFrom, depth, rank, queue, path);
  }

  lemma FrontIsFirst(rank: map<Cell, nat>, queue: seq<Cell>, c: Cell)
    requires QueuedInOrder(rank, queue) && c in queue
    ensures queue[0] in rank && c in rank && rank[queue[0]] <= rank[c]
  {
    var j :| 0 <= j < |queue| && queue[j] == c;
  }

  // An empty queue without an exit rules out every corridor.
  lemma ExhaustedMeansNone(f: Field, clearance: map<Cell, int>, G: nat, open: set<Cell>,
                           cameFrom: map<Cell, Option<Cell>>, depth: map<Cell, nat>)
    requires forall c :: c in open <==> Open(f, clearance, G, c)
    requires SearchInvariant(f, open, cameFrom, depth, [])
    ensures !exists q :: IsCorridor(f, clearance, G, q)
  {
    forall q: seq<Cell> | IsCorridor(f, clearance, G, q)
      ensures false
    {
      CorridorIsWalk(f, clearance, G, open, q);
      ExitIsNotCloser(f, open, cameFrom, depth, [], |q|, q);
    }
  }

  lemma FrontOfQueue(f: Field, open: set<Cell>, cameFrom: map<Cell, Option<Cell>>, depth: map<Cell, nat>,
                     rank: map<Cell, nat>, queue: seq<Cell>)
    requires SearchInvariant(f, open, cameFrom, depth, queue) && queue != []
    requires IsRanked(cameFrom, rank, queue) && ParentsLeft(cameFrom, queue)
    ensures queue[0] in depth && |cameFrom| <= |open|
    ensures SearchInvariant(f, open, cameFrom, depth, [queue[0]] + queue[1..])
    ensures IsRanked(cameFrom, rank, [queue[0]] + queue[1..]) && ParentsLeft(cameFrom, [queue[0]] + queue[1..])
  {
    HeadAndTail(queue);
    SubsetSize(cameFrom.Keys, open);
  }

  // The main loop, from a non-empty list of entrances.
  method SearchFromEntrances(f: Field, clearance: map<Cell, int>, G: nat, starts: seq<Cell>)
    returns (r: Option<seq<Cell>>)
    requires clearance.Keys == AllCells(f)
    requires forall c :: c in starts <==> Open(f, clearance, G, c) && c.y == 0
    requires LeftToRight(starts)
    ensures r.None? ==> !exists q :: IsCorridor(f, clearance, G, q)
    ensures r.Some? ==> IsFirstShortest(f, clearance, G, r.value) && Distinct(r.value)
  {
    ghost var open := set c | c in AllCells(f) && Open(f, clearance, G, c);
    var queue := starts;
    var cameFrom: map<Cell, Option<Cell>> := map c | c in starts :: None;
    ghost var depth: map<Cell, nat> := map c | c in starts :: 0;
    ghost var rank: map<Cell, nat> := map c | c in starts :: PlaceIn(starts, c);
    SearchStarts(f, open, starts, cameFrom, depth);
    StartsAreRanked(starts, cameFrom, rank);
    while queue != []
      invariant SearchInvariant(f, open, cameFrom, depth, queue)
      invariant IsRanked(cameFrom, rank, queue) && ParentsLeft(cameFrom, queue)
      decreases |open| + |queue| - |cameFrom|
    {
      var current := queue[0];
      FrontOfQueue(f, open, cameFrom, depth, rank, queue);
      if current.y == f.rows - 1 {
        var path := TracePath(open, cameFrom, depth, current);
        ExitIsAnswer(f, clearance, G, open, cameFrom, depth, rank, queue, path);
        return Some(path);
      }
      cameFrom, depth, rank, queue := ExpandCell(f, clearance, G, open, cameFrom, depth, rank, queue[1..], current);
    }
    ExhaustedMeansNone(f, clearance, G, open, cameFrom, depth);
    return None;
  }

  lemma CorridorsStartOpen(f: Field, clearance: map<Cell, int>, G: nat)
    ensures forall q | IsCorridor(f, clearance, G, q) :: exists c :: Open(f, clearance, G, c) && c.y == 0
  {
    forall q: seq<Cell> | IsCorridor(f, clearance, G, q)
      ensures exists c :: Open(f, clearance, G, c) && c.y == 0
    {
      assert Open(f, clearance, G, q[0]) && q[0].y == 0;
    }
  }

  method ShortestSafePath(f: Field, clearance: map<Cell, int>, G: nat) returns (r: Option<seq<Cell>>)
    requires clearance.Keys == AllCells(f)
    ensures r.None? <==> !exists q :: IsCorridor(f, clearance, G, q)
    ensures r.Some? ==> IsFirstShortest(f, clearance, G, r.value) && Distinct(r.value)
  {
    CorridorsStartOpen(f, clearance, G);
    if G > f.cols - G - 1 {
      return None;
    }
    var starts := Entrances(f, clearance, G);
    if starts == [] {
      return None;
    }
    r := SearchFromEntrances(f, clearance, G, starts);
  }
}
