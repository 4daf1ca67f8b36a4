// Ties between shortest corridors: the search numbers the cells as it discovers
// them, and a tree grown in that order holds the first of the shortest walks.
module TieBreaks {
  import opened Minefield
  import opened Outcomes

  // Up before left before right before down.
  function Turn(a: Cell, b: Cell): nat {
    if b.y > a.y then 0 else if b.x < a.x then 1 else if b.x > a.x then 2 else 3
  }

  // The walks agree before their i-th cell, and p takes the earlier turn there.
  ghost predicate TurnsEarlierAt(p: seq<Cell>, q: seq<Cell>, i: nat) {
    0 < i < |p| && i < |q| && p[..i] == q[..i] && Turn(p[i - 1], p[i]) < Turn(q[i - 1], q[i])
  }

  // From a column further left, or by an earlier turn at the first difference.
  ghost predicate ComesFirst(p: seq<Cell>, q: seq<Cell>) {
    p != [] && q != [] && (p[0].x < q[0].x || exists i: nat :: TurnsEarlierAt(p, q, i))
  }

  lemma OneComesFirst(p: seq<Cell>, q: seq<Cell>)
    ensures !(ComesFirst(p, q) && ComesFirst(q, p))
  {
    forall i: nat, j: nat
      ensures !(TurnsEarlierAt(p, q, i) && TurnsEarlierAt(q, p, j))
    {
      if i <= j {
        TurnsOnce(p, q, i, j);
      } else {
        TurnsOnce(q, p, j, i);
      }
    }
    forall i: nat
      ensures p != [] && q != [] && TurnsEarlierAt(p, q, i) ==> p[0] == q[0]
      ensures p != [] && q != [] && TurnsEarlierAt(q, p, i) ==> p[0] == q[0]
    {
      assert TurnsEarlierAt(p, q, i) ==> p[..i][0] == q[..i][0];
      assert TurnsEarlierAt(q, p, i) ==> p[..i][0] == q[..i][0];
    }
  }

  lemma TurnsOnce(p: seq<Cell>, q: seq<Cell>, i: nat, j: nat)
    requires i <= j
    ensures !(TurnsEarlierAt(p, q, i) && TurnsEarlierAt(q, p, j))
  {
    if 0 < i < |p| && i < |q| && p[..i] == q[..i] && i <= j < |p| && j < |q| && q[..j] == p[..j] {
      assert p[i - 1] == p[..i][i - 1] == q[..i][i - 1] == q[i - 1];
      assert i < j ==> p[..j][i] == q[..j][i];
    }
  }

  lemma LongerComesFirst(p: seq<Cell>, q: seq<Cell>, c: Cell, d: Cell)
    requires ComesFirst(p, q)
    ensures ComesFirst(p + [c], q + [d])
  {
    if p[0].x >= q[0].x {
      var i: nat :| TurnsEarlierAt(p, q, i);
      assert (p + [c])[..i] == p[..i] && (q + [d])[..i] == q[..i];
      assert TurnsEarlierAt(p + [c], q + [d], i);
    }
  }

  lemma LastTurnComesFirst(p: seq<Cell>, c: Cell, d: Cell)
    requires p != [] && Turn(p[|p| - 1], c) < Turn(p[|p| - 1], d)
    ensures ComesFirst(p + [c], p + [d])
  {
    assert (p + [c])[..|p|] == p && (p + [d])[..|p|] == p;
    assert TurnsEarlierAt(p + [c], p + [d], |p|);
  }

  // ---- The order of discovery ----
  // `rank` numbers the cells as they are discovered.

  ghost predicate IsNumbering(cameFrom: map<Cell, Option<Cell>>, rank: map<Cell, nat>) {
    && rank.Keys == cameFrom.Keys && (forall c | c in rank :: rank[c] < |rank|)
    && (forall c | c in cameFrom && cameFrom[c].Some? :: cameFrom[c].value in cameFrom)
    && forall a, b | a in rank && b in rank && rank[a] == rank[b] :: a == b
  }

  // Entrances from the left; then by parent, and by turn under the same parent.
  ghost predicate IsAhead(cameFrom: map<Cell, Option<Cell>>, rank: map<Cell, nat>, a: Cell, b: Cell)
    requires IsNumbering(cameFrom, rank) && a in cameFrom && b in cameFrom
  {
    match (cameFrom[a], cameFrom[b])
    case (None, None) => a.x < b.x
    case (None, Some(q)) => true
    case (Some(p), None) => false
    case (Some(p), Some(q)) => rank[p] < rank[q] || (p == q && Turn(p, a) < Turn(q, b))
  }

  ghost predicate InOrder(cameFrom: map<Cell, Option<Cell>>, rank: map<Cell, nat>)
    requires IsNumbering(cameFrom, rank)
  {
    forall a, b | a in rank && b in rank && rank[a] < rank[b] :: IsAhead(cameFrom, rank, a, b)
  }

  // No discovered neighbour of a cell comes before its parent.
  ghost predicate IsFirstParent(cameFrom: map<Cell, Option<Cell>>, rank: map<Cell, nat>, c: Cell)
    requires IsNumbering(cameFrom, rank) && c in cameFrom && cameFrom[c].Some?
  {
    forall u | u in rank && Adjacent(u, c) :: rank[cameFrom[c].value] <= rank[u]
  }

  ghost predicate FromFirstParents(cameFrom: map<Cell, Option<Cell>>, rank: map<Cell, nat>)
    requires IsNumbering(cameFrom, rank)
  {
    forall c | c in cameFrom && cameFrom[c].Some? :: IsFirstParent(cameFrom, rank, c)
  }

  // The queue is in order, and everything that left it came before.
  ghost predicate QueuedInOrder(rank: map<Cell, nat>, queue: seq<Cell>) {
    && (forall i | 0 <= i < |queue| :: queue[i] in rank)
    && (forall i, j | 0 <= i < j < |queue| :: rank[queue[i]] < rank[queue[j]])
    && forall c, i | c in rank && c !in queue && 0 <= i < |queue| :: rank[c] < rank[queue[i]]
  }

  ghost predicate IsRanked(cameFrom: map<Cell, Option<Cell>>, rank: map<Cell, nat>, queue: seq<Cell>) {
    && IsNumbering(cameFrom, rank) && InOrder(cameFrom, rank) && FromFirstParents(cameFrom, rank)
    && QueuedInOrder(rank, queue)
  }

  // Parents have left the queue; those of the current cell's children taken so far
  // used the first k turns.
  ghost predicate ParentsLeft(cameFrom: map<Cell, Option<Cell>>, waiting: seq<Cell>) {
    forall c | c in cameFrom && cameFrom[c].Some? :: cameFrom[c].value !in waiting
  }

  ghost predicate TurnsTaken(cameFrom: map<Cell, Option<Cell>>, current: Cell, k: nat) {
    forall c | c in cameFrom && cameFrom[c] == Some(current) :: Turn(current, c) < k
  }

  ghost function PlaceIn(s: seq<Cell>, c: Cell): (i: nat)
    requires c in s
    ensures i < |s| && s[i] == c
  {
    var i :| 0 <= i < |s| && s[i] == c;
    i
  }

  // Left to right.
  ghost predicate LeftToRight(starts: seq<Cell>) {
    forall i, j | 0 <= i < j < |starts| :: starts[i].x < starts[j].x
  }

  lemma {:induction false} StartsSize(starts: seq<Cell>)
    requires LeftToRight(starts)
    ensures |set c | c in starts| == |starts|
  {
    if starts != [] {
      StartsSize(starts[1..]);
      assert starts == [starts[0]] + starts[1..];
      assert (set c | c in starts) == (set c | c in starts[1..]) + {starts[0]};
    }
  }

  lemma StartsAreRanked(starts: seq<Cell>, cameFrom: map<Cell, Option<Cell>>, rank: map<Cell, nat>)
    requires LeftToRight(starts)
    requires cameFrom == map c | c in starts :: None
    requires rank == map c | c in starts :: PlaceIn(starts, c)
    ensures IsRanked(cameFrom, rank, starts) && ParentsLeft(cameFrom, starts)
  {
    StartsSize(starts);
    assert rank.Keys == set c | c in starts;
    forall i | 0 <= i < |starts|
      ensures starts[i] in rank && rank[starts[i]] == i
    {
      assert starts[i] in starts;
    }
  }

  lemma DiscoveryNumbers(cameFrom: map<Cell, Option<Cell>>, rank: map<Cell, nat>, current: Cell, n: Cell)
    requires IsNumbering(cameFrom, rank) && current in cameFrom && n !in cameFrom
    ensures IsNumbering(cameFrom[n := Some(current)], rank[n := |rank|])
  {
    assert rank[n := |rank|].Keys == rank.Keys + {n};
  }

  lemma DiscoveryInOrder(cameFrom: map<Cell, Option<Cell>>, rank: map<Cell, nat>, current: Cell, waiting: seq<Cell>,
                         n: Cell, k: nat)
    requires IsRanked(cameFrom, rank, [current] + waiting) && n !in cameFrom && Turn(current, n) == k
    requires ParentsLeft(cameFrom, waiting) && TurnsTaken(cameFrom, current, k)
    requires IsNumbering(cameFrom[n := Some(current)], rank[n := |rank|])
    ensures InOrder(cameFrom[n := Some(current)], rank[n := |rank|])
  {
    var cameFrom', rank' := cameFrom[n := Some(current)], rank[n := |rank|];
    var queue := [current] + waiting;
    assert queue[0] == current;
    forall a, b | a in rank' && b in rank' && rank'[a] < rank'[b]
      ensures IsAhead(cameFrom', rank', a, b)
    {
      if b != n {
        assert a != n && IsAhead(cameFrom, rank, a, b);
      } else if cameFrom[a].Some? && cameFrom[a].value != current {
        assert cameFrom[a].value !in queue;
      }
    }
  }

  lemma DiscoveryFromFirst(cameFrom: map<Cell, Option<Cell>>, rank: map<Cell, nat>, current: Cell, waiting: seq<Cell>,
                           n: Cell)
    requires IsRanked(cameFrom, rank, [current] + waiting) && n !in cameFrom
    requires forall u | u in cameFrom && Adjacent(u, n) :: u in [current] + waiting
    requires IsNumbering(cameFrom[n := Some(current)], rank[n := |rank|])
    ensures FromFirstParents(cameFrom[n := Some(current)], rank[n := |rank|])
  {
    var cameFrom', rank' := cameFrom[n := Some(current)], rank[n := |rank|];
    var queue := [current] + waiting;
    forall c, u | c in cameFrom' && cameFrom'[c].Some? && u in rank' && Adjacent(u, c)
      ensures rank'[cameFrom'[c].value] <= rank'[u]
    {
      if u != n {
        if c == n {
          var i :| 0 <= i < |queue| && queue[i] == u;
          assert queue[0] == current;
        } else {
          assert IsFirstParent(cameFrom, rank, c);
        }
      }
    }
  }

  lemma DiscoveryQueues(cameFrom: map<Cell, Option<Cell>>, rank: map<Cell, nat>, queue: seq<Cell>, n: Cell)
    requires IsNumbering(cameFrom, rank) && QueuedInOrder(rank, queue) && n !in rank
    ensures QueuedInOrder(rank[n := |rank|], queue + [n])
  {
  }

  lemma DiscoveryIsRanked(cameFrom: map<Cell, Option<Cell>>, rank: map<Cell, nat>, current: Cell, waiting: seq<Cell>,
                          n: Cell, k: nat)
    requires IsRanked(cameFrom, rank, [current] + waiting) && n !in cameFrom && Turn(current, n) == k
    requires ParentsLeft(cameFrom, waiting) && TurnsTaken(cameFrom, current, k)
    requires forall u | u in cameFrom && Adjacent(u, n) :: u in [current] + waiting
    ensures IsRanked(cameFrom[n := Some(current)], rank[n := |rank|], [current] + (waiting + [n]))
    ensures ParentsLeft(cameFrom[n := Some(current)], waiting + [n])
    ensures TurnsTaken(cameFrom[n := Some(current)], current, k + 1)
  {
    var queue := [current] + waiting;
    assert queue[0] == current;
    DiscoveryNumbers(cameFrom, rank, current, n);
    DiscoveryInOrder(cameFrom, rank, current, waiting, n, k);
    DiscoveryFromFirst(cameFrom, rank, current, waiting, n);
    DiscoveryQueues(cameFrom, rank, queue, n);
    assert [current] + (waiting + [n]) == queue + [n];
    assert forall i | 0 <= i < |waiting| :: waiting[i] == queue[i + 1];
  }

  lemma PopQueues(rank: map<Cell, nat>, current: Cell, waiting: seq<Cell>)
    requires QueuedInOrder(rank, [current] + waiting)
    ensures QueuedInOrder(rank, waiting)
  {
    var queue := [current] + waiting;
    assert queue[0] == current && forall i | 0 <= i < |waiting| :: waiting[i] == queue[i + 1];
    forall c, i | c in rank && c !in waiting && 0 <= i < |waiting|
      ensures rank[c] < rank[waiting[i]]
    {
      if c == current {
        assert rank[queue[0]] < rank[queue[i + 1]];
      } else {
        assert c !in queue;
      }
    }
  }

  lemma PopIsRanked(cameFrom: map<Cell, Option<Cell>>, rank: map<Cell, nat>, current: Cell, waiting: seq<Cell>)
    requires IsRanked(cameFrom, rank, [current] + waiting)
    ensures IsRanked(cameFrom, rank, waiting)
  {
    PopQueues(rank, current, waiting);
  }

  // ---- The tree against every walk ----

  // A walk down the tree from an entrance.
  ghost predicate FollowsTree(cameFrom: map<Cell, Option<Cell>>, path: seq<Cell>) {
    && path != [] && (forall i | 0 <= i < |path| :: path[i] in cameFrom) && cameFrom[path[0]] == None
    && forall i | 0 <= i < |path| - 1 :: cameFrom[path[i + 1]] == Some(path[i])
  }

  // A walk over discovered cells that leaves the entrances at once.
  ghost predicate RunsThrough(cameFrom: map<Cell, Option<Cell>>, w: seq<Cell>) {
    && w != [] && (forall i | 0 <= i < |w| :: w[i] in cameFrom && (cameFrom[w[i]] == None <==> i == 0))
    && forall i | 0 <= i < |w| - 1 :: Adjacent(w[i], w[i + 1])
  }

  // A parent is no later than any neighbour of a later cell; where it is that
  // neighbour, the turns decide.
  lemma ParentsCompare(cameFrom: map<Cell, Option<Cell>>, rank: map<Cell, nat>, p: Cell, c: Cell, u: Cell, d: Cell)
    requires IsNumbering(cameFrom, rank) && InOrder(cameFrom, rank) && FromFirstParents(cameFrom, rank)
    requires c in cameFrom && cameFrom[c] == Some(p) && d in cameFrom && cameFrom[d].Some?
    requires u in cameFrom && Adjacent(u, d) && rank[c] <= rank[d]
    ensures rank[p] <= rank[u] && (p == u && c != d ==> Turn(p, c) < Turn(p, d))
  {
    assert IsFirstParent(cameFrom, rank, d);
    if c != d {
      assert IsAhead(cameFrom, rank, c, d);
    }
  }

  // Down the tree to a cell no later than the walk's comes the walk itself or one
  // before it.
  lemma {:induction false} TreeComesFirst(cameFrom: map<Cell, Option<Cell>>, rank: map<Cell, nat>,
                                          path: seq<Cell>, w: seq<Cell>)
    requires IsNumbering(cameFrom, rank) && InOrder(cameFrom, rank) && FromFirstParents(cameFrom, rank)
    requires FollowsTree(cameFrom, path) && RunsThrough(cameFrom, w) && |path| == |w|
    requires rank[path[|path| - 1]] <= rank[w[|w| - 1]]
    ensures path == w || ComesFirst(path, w)
  {
    var n := |path| - 1;
    if n == 0 {
      EntrancesCompare(cameFrom, rank, path, w);
    } else {
      TreeSplits(cameFrom, path, n);
      WalkSplits(cameFrom, w, n);
      ParentsCompare(cameFrom, rank, path[n - 1], path[n], w[n - 1], w[n]);
      TreeComesFirst(cameFrom, rank, path[..n], w[..n]);
      StepsCompare(path[..n], w[..n], path[n], w[n]);
    }
  }

  lemma EntrancesCompare(cameFrom: map<Cell, Option<Cell>>, rank: map<Cell, nat>, path: seq<Cell>, w: seq<Cell>)
    requires IsNumbering(cameFrom, rank) && InOrder(cameFrom, rank) && |path| == |w| == 1
    requires FollowsTree(cameFrom, path) && RunsThrough(cameFrom, w) && rank[path[0]] <= rank[w[0]]
    ensures path == w || ComesFirst(path, w)
  {
    if path[0] != w[0] {
      assert IsAhead(cameFrom, rank, path[0], w[0]);
    }
  }

  lemma TreeSplits(cameFrom: map<Cell, Option<Cell>>, path: seq<Cell>, n: nat)
    requires FollowsTree(cameFrom, path) && n > 0 && |path| == n + 1
    ensures FollowsTree(cameFrom, path[..n]) && path == path[..n] + [path[n]]
    ensures path[..n][n - 1] == path[n - 1] && path[n] in cameFrom && cameFrom[path[n]] == Some(path[n - 1])
  {
    assert cameFrom[path[n - 1 + 1]] == Some(path[n - 1]);
  }

  lemma WalkSplits(cameFrom: map<Cell, Option<Cell>>, w: seq<Cell>, n: nat)
    requires RunsThrough(cameFrom, w) && n > 0 && |w| == n + 1
    ensures RunsThrough(cameFrom, w[..n]) && w == w[..n] + [w[n]]
    ensures w[..n][n - 1] == w[n - 1] && w[n - 1] in cameFrom && Adjacent(w[n - 1], w[n])
    ensures w[n] in cameFrom && cameFrom[w[n]].Some?
  {
    assert Adjacent(w[n - 1], w[n - 1 + 1]);
  }

  lemma StepsCompare(p: seq<Cell>, q: seq<Cell>, c: Cell, d: Cell)
    requires p != [] && |p| == |q| && (p == q || ComesFirst(p, q))
    requires p[|p| - 1] == q[|q| - 1] && c != d ==> Turn(p[|p| - 1], c) < Turn(p[|p| - 1], d)
    ensures p + [c] == q + [d] || ComesFirst(p + [c], q + [d])
  {
    if p != q {
      LongerComesFirst(p, q, c, d);
    } else if c != d {
      LastTurnComesFirst(p, c, d);
    }
  }
}
