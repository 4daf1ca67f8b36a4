// find_best_path: the joint optimum of corridor width and length.
module BestPath {
  import opened Arithmetic
  import opened Minefield
  import opened Outcomes
  import opened Clearance
  import opened Corridor
  import opened TieBreaks
  import opened Scoring
  import opened Commands

  datatype Best = Best(path: Option<seq<Cell>>, G: nat, clearance: int)

  // The score a zero-miss corridor of this half-width and length receives.
  function CandidateScore(G: nat, cells: nat, scanTime: real): real {
    OfficialScore(WidthFt(G), LengthFt(cells), 0, scanTime, 0.0)
  }

  // On a clearance map the search's notion of a corridor is the safe corridor,
  // which speaks of the mines themselves.
  lemma CorridorIsSafe(f: Field, mines: set<Cell>, clearance: map<Cell, int>, G: nat, path: seq<Cell>)
    requires IsClearanceMap(f, mines, clearance)
    ensures IsCorridor(f, clearance, G, path) <==> IsSafeCorridor(f, mines, G, path)
  {
    forall c | InField(f, c) && G <= c.x <= f.cols - G - 1
      ensures clearance[c] > G <==> ClearOf(mines, G, c)
    {
      if mines != {} {
        assert IsNearest(mines, c, clearance[c]);
        if ClearOf(mines, G, c) {
          var m :| m in mines && Chebyshev(m, c) == clearance[c];
        }
      }
    }
  }

  // Narrowing a corridor keeps it safe: widths only compete on length.
  lemma NarrowerStaysSafe(f: Field, mines: set<Cell>, narrow: nat, wide: nat, path: seq<Cell>)
    requires narrow <= wide && IsSafeCorridor(f, mines, wide, path)
    ensures IsSafeCorridor(f, mines, narrow, path)
  {
    forall i | 0 <= i < |path|
      ensures ClearOf(mines, narrow, path[i])
    {
      assert ClearOf(mines, wide, path[i]);
    }
  }

  // Hence the shortest safe corridor never gets shorter as it gets wider.
  lemma WiderIsNotShorter(f: Field, mines: set<Cell>, clearance: map<Cell, int>,
                          narrow: nat, wide: nat, p: seq<Cell>, q: seq<Cell>)
    requires IsClearanceMap(f, mines, clearance) && narrow <= wide
    requires IsShortestCorridor(f, clearance, narrow, p) && IsShortestCorridor(f, clearance, wide, q)
    ensures |p| <= |q|
  {
    CorridorIsSafe(f, mines, clearance, wide, q);
    NarrowerStaysSafe(f, mines, narrow, wide, q);
    CorridorIsSafe(f, mines, clearance, narrow, q);
  }

  lemma QuotientShrinks(a: real, b: real, c: real)
    requires a > 0.0 && 0.0 < b <= c
    ensures 0.0 < a / c <= a / b
  {
    var x, y := a / c, a / b;
    assert x * c == a && y * b == a;
    if x > y {
      assert x * c > y * c;
      assert y * c >= y * b;
    }
  }

  lemma ProductsKeepOrder(b: real, c: real, k: real)
    requires 0.0 < b <= c
    ensures k > 0.0 ==> 0.0 < b * k <= c * k
    ensures k <= 0.0 ==> b * k <= 0.0 && c * k <= 0.0
  {
  }

  // At a fixed width a shorter path scores at least as much.
  lemma ShorterScoresMore(G: nat, short: nat, long: nat, scanTime: real)
    requires 1 <= short <= long
    ensures CandidateScore(G, long, scanTime) <= CandidateScore(G, short, scanTime)
    ensures CandidateScore(G, short, scanTime) > 0.0 <==> 1.0 + 7.0 * scanTime > 0.0
  {
    var k := 1.0 + 7.0 * scanTime;
    var a := 150000.0 * WidthFt(G) as real;
    var b, c := LengthFt(short) as real, LengthFt(long) as real;
    assert 1.0 as real * b * (k + 100.0 * 0.0) == b * k;
    assert 1.0 as real * c * (k + 100.0 * 0.0) == c * k;
    assert a > 0.0 && 0.0 < b <= c;
    ProductsKeepOrder(b, c, k);
    if k > 0.0 {
      QuotientShrinks(a, b * k, c * k);
    }
  }

  lemma FactorsCancel(x: real, y: real, factor: real)
    requires factor > 0.0
    ensures x * factor <= y * factor <==> x <= y
  {
    if x <= y {
      assert (y - x) * factor >= 0.0;
    } else {
      assert (x - y) * factor > 0.0;
    }
  }

  // Two rates a / b compare as their cross products do.
  lemma RatesCompare(x: real, a: real, b: real, y: real, c: real, d: real)
    requires b > 0.0 && d > 0.0 && x * b == a && y * d == c
    ensures x <= y <==> a * d <= c * b
  {
    assert a * d == x * (b * d) && c * b == y * (b * d);
    FactorsCancel(x, y, b * d);
  }

  lemma CandidateIsRate(G: nat, cells: nat, scanTime: real, score: real)
    requires cells >= 1 && 1.0 + 7.0 * scanTime > 0.0 && score == CandidateScore(G, cells, scanTime)
    ensures score * ((1.0 + 7.0 * scanTime) * cells as real) == 150000.0 * (1 + 2 * G) as real
  {
    var k, length := 1.0 + 7.0 * scanTime, LengthFt(cells) as real;
    ScoreIsRate(WidthFt(G), LengthFt(cells), 0, scanTime, 0.0, score);
    assert 1.0 * length * (k + 100.0 * 0.0) == 2.0 * (k * cells as real);
    assert length * k > 0.0;
    assert score * (2.0 * (k * cells as real)) == 2.0 * (score * (k * cells as real));
  }

  lemma CrossProducts(k: real, w: nat, n: nat, w': nat, n': nat)
    requires k > 0.0
    ensures (150000.0 * w as real) * (k * n' as real) <= (150000.0 * w' as real) * (k * n as real) <==> w * n' <= w' * n
  {
    var x, y, factor := (w * n') as real, (w' * n) as real, 150000.0 * k;
    FactorsCancel(x, y, factor);
    assert w as real * n' as real == x && w' as real * n as real == y;
    assert (150000.0 * w as real) * (k * n' as real) == (w as real * n' as real) * factor;
    assert (150000.0 * w' as real) * (k * n as real) == (w' as real * n as real) * factor;
  }

  // Scores compare as widths do, each times the other's length.
  lemma ScoresCompare(G: nat, cells: nat, G': nat, cells': nat, scanTime: real)
    requires cells >= 1 && cells' >= 1 && 1.0 + 7.0 * scanTime > 0.0
    ensures CandidateScore(G, cells, scanTime) <= CandidateScore(G', cells', scanTime)
            <==> (1 + 2 * G) * cells' <= (1 + 2 * G') * cells
  {
    var k, x, y := 1.0 + 7.0 * scanTime, CandidateScore(G, cells, scanTime), CandidateScore(G', cells', scanTime);
    CandidateIsRate(G, cells, scanTime, x);
    CandidateIsRate(G', cells', scanTime, y);
    PositiveProducts(k, cells, cells');
    RatesCompare(x, 150000.0 * (1 + 2 * G) as real, k * cells as real,
                 y, 150000.0 * (1 + 2 * G') as real, k * cells' as real);
    CrossProducts(k, 1 + 2 * G, cells, 1 + 2 * G', cells');
  }

  lemma PositiveProducts(k: real, n: nat, n': nat)
    requires k > 0.0 && n >= 1 && n' >= 1
    ensures k * n as real > 0.0 && k * n' as real > 0.0
  {
  }

  // On widths and lengths alone: no safe corridor of any half-width is wider for
  // its length, and no narrower one is as wide for its length.
  ghost predicate IsWidestForLength(f: Field, mines: set<Cell>, G: nat, cells: nat) {
    forall G': nat, q: seq<Cell> | IsSafeCorridor(f, mines, G', q) ::
      && (1 + 2 * G') * cells <= (1 + 2 * G) * |q|
      && (G' < G ==> (1 + 2 * G') * cells < (1 + 2 * G) * |q|)
  }

  lemma OptimumIsWidest(f: Field, mines: set<Cell>, scanTime: real, G: nat, cells: nat)
    requires cells >= 1 && 1.0 + 7.0 * scanTime > 0.0
    requires IsJointOptimum(f, mines, scanTime, G, CandidateScore(G, cells, scanTime))
    ensures IsWidestForLength(f, mines, G, cells)
  {
    forall G': nat, q: seq<Cell> | IsSafeCorridor(f, mines, G', q)
      ensures (1 + 2 * G') * cells <= (1 + 2 * G) * |q|
      ensures G' < G ==> (1 + 2 * G') * cells < (1 + 2 * G) * |q|
    {
      ScoresCompare(G', |q|, G, cells, scanTime);
      ScoresCompare(G, cells, G', |q|, scanTime);
    }
  }

  function MinClearance(clearance: map<Cell, int>, path: seq<Cell>): (m: int)
    requires path != [] && forall c | c in path :: c in clearance
    ensures exists c :: c in path && clearance[c] == m
    ensures forall c | c in path :: m <= clearance[c]
  {
    if |path| == 1 then clearance[path[0]]
    else
      assert path == [path[0]] + path[1..];
      Min(clearance[path[0]], MinClearance(clearance, path[1..]))
  }

  // `best` scores at least as much as every safe corridor of half-width below
  // `limit`, and more than every narrower one.
  ghost predicate BestBelow(f: Field, clearance: map<Cell, int>, scanTime: real, limit: int,
                            best: Best, bestScore: real) {
    && (best.path.None? ==> bestScore == 0.0 && best.G == 0 && best.clearance == 0)
    && (best.path.Some? ==>
          && IsFirstShortest(f, clearance, best.G, best.path.value) && Distinct(best.path.value)
          && best.G < limit
          && bestScore == CandidateScore(best.G, |best.path.value|, scanTime) && bestScore > 0.0
          && (forall c | c in best.path.value :: c in clearance && best.clearance <= clearance[c])
          && exists c :: c in best.path.value && clearance[c] == best.clearance)
    && forall G: nat, q | G < limit && IsCorridor(f, clearance, G, q) ::
         && CandidateScore(G, |q|, scanTime) <= bestScore
         && (best.path.Some? && G < best.G ==> CandidateScore(G, |q|, scanTime) < bestScore)
  }

  // The comparison the loop makes with the shortest corridor of one more width.
  function Better(clearance: map<Cell, int>, best: Best, score: real, G: nat, path: seq<Cell>, candidate: real): Best
    requires path != [] && forall c | c in path :: c in clearance
  {
    if candidate > score then Best(Some(path), G, MinClearance(clearance, path)) else best
  }

  lemma WidthConsidered(f: Field, clearance: map<Cell, int>, scanTime: real, G: nat,
                        best: Best, score: real, path: seq<Cell>, candidate: real)
    requires BestBelow(f, clearance, scanTime, G, best, score)
    requires IsFirstShortest(f, clearance, G, path) && Distinct(path)
    requires candidate == CandidateScore(G, |path|, scanTime)
    requires forall c | c in path :: c in clearance
    ensures BestBelow(f, clearance, scanTime, G + 1, Better(clearance, best, score, G, path, candidate),
                      if candidate > score then candidate else score)
  {
    forall q | IsCorridor(f, clearance, G, q)
      ensures CandidateScore(G, |q|, scanTime) <= candidate
    {
      ShorterScoresMore(G, |path|, |q|, scanTime);
    }
  }

  // The loop over every half-width the grid admits.
  method SweepWidths(f: Field, clearance: map<Cell, int>, scanTime: real) returns (best: Best, ghost bestScore: real)
    requires clearance.Keys == AllCells(f)
    ensures BestBelow(f, clearance, scanTime, (f.cols - 1) / 2 + 1, best, bestScore)
  {
    best := Best(None, 0, 0);
    var score := 0.0;
    for G := 0 to (f.cols - 1) / 2 + 1
      invariant BestBelow(f, clearance, scanTime, G, best, score)
    {
      var found := ShortestSafePath(f, clearance, G);
      if found.None? {
        continue;
      }
      var path := found.value;
      var candidateScore := OfficialScore((1 + 2 * G) * CELL_FT, |path| * CELL_FT, 0, scanTime, 0.0);
      assert forall c | c in path :: Open(f, clearance, G, c);
      WidthConsidered(f, clearance, scanTime, G, best, score, path, candidateScore);
      if candidateScore > score {
        score := candidateScore;
        best := Best(Some(path), G, MinClearance(clearance, path));
      }
    }
    bestScore := score;
  }

  // No half-width of any size, and no safe corridor of that half-width, scores
  // above `score`; the strictly narrower ones all score below it.
  ghost predicate IsJointOptimum(f: Field, mines: set<Cell>, scanTime: real, G: nat, score: real) {
    forall G': nat, q: seq<Cell> | IsSafeCorridor(f, mines, G', q) ::
      && CandidateScore(G', |q|, scanTime) <= score
      && (G' < G ==> CandidateScore(G', |q|, scanTime) < score)
  }

  lemma SweepIsExhaustive(f: Field, mines: set<Cell>, clearance: map<Cell, int>, scanTime: real,
                          best: Best, bestScore: real)
    requires IsClearanceMap(f, mines, clearance)
    requires BestBelow(f, clearance, scanTime, (f.cols - 1) / 2 + 1, best, bestScore)
    ensures forall G: nat, q: seq<Cell> | IsSafeCorridor(f, mines, G, q) ::
              CandidateScore(G, |q|, scanTime) <= bestScore
    ensures best.path.Some? ==> IsJointOptimum(f, mines, scanTime, best.G, bestScore)
  {
    forall G: nat, q: seq<Cell> | IsSafeCorridor(f, mines, G, q)
      ensures CandidateScore(G, |q|, scanTime) <= bestScore
      ensures best.path.Some? && G < best.G ==> CandidateScore(G, |q|, scanTime) < bestScore
    {
      CorridorIsSafe(f, mines, clearance, G, q);
      assert G <= q[0].x <= f.cols - G - 1;
    }
  }

  // No path comes back exactly when even a corridor of half-width 0 is
  // impossible, or when the scan time makes every score non-positive.
  lemma NoneMeansImpossible(f: Field, mines: set<Cell>, clearance: map<Cell, int>, scanTime: real,
                            best: Best, bestScore: real)
    requires IsClearanceMap(f, mines, clearance)
    requires BestBelow(f, clearance, scanTime, (f.cols - 1) / 2 + 1, best, bestScore)
    ensures best.path.None? <==> (1.0 + 7.0 * scanTime <= 0.0 || !exists q :: IsSafeCorridor(f, mines, 0, q))
  {
    SweepIsExhaustive(f, mines, clearance, scanTime, best, bestScore);
    if best.path.Some? {
      var q := best.path.value;
      CorridorIsSafe(f, mines, clearance, best.G, q);
      NarrowerStaysSafe(f, mines, 0, best.G, q);
      ShorterScoresMore(best.G, |q|, |q|, scanTime);
    } else if q :| IsSafeCorridor(f, mines, 0, q) {
      ShorterScoresMore(0, |q|, |q|, scanTime);
    }
  }

  // A scan time of -1 on an empty field of one column and two rows: the column is a
  // safe corridor,
  lemma NegativeScanTimeHasCorridor()
    ensures IsSafeCorridor(Dims(1, 2), {}, 0, [Cell(0, 0), Cell(0, 1)])
  {
    assert Adjacent(Cell(0, 0), Cell(0, 1));
  }

  // every score is zero, and no path is returned.
  lemma NegativeScanTimeFindsNothing(f: Field, clearance: map<Cell, int>, best: Best, bestScore: real,
                                     G: nat, cells: nat)
    requires f == Dims(1, 2) && IsClearanceMap(f, {}, clearance) && cells > 0
    requires BestBelow(f, clearance, -1.0, (f.cols - 1) / 2 + 1, best, bestScore)
    ensures best.path.None? && CandidateScore(G, cells, -1.0) == 0.0
  {
    NoneMeansImpossible(f, {}, clearance, -1.0, best, bestScore);
    ShorterScoresMore(G, cells, cells, -1.0);
  }

  // No safe corridor of the half-width is shorter, and of those as short it is the
  // first by start column and then by turns.
  ghost predicate IsShortestSafe(f: Field, mines: set<Cell>, G: nat, path: seq<Cell>) {
    && IsSafeCorridor(f, mines, G, path) && Distinct(path)
    && forall q | IsSafeCorridor(f, mines, G, q) ::
         |path| <= |q| && (|path| == |q| ==> path == q || ComesFirst(path, q))
  }

  // The reported clearance is the least distance from the path to a mine.
  ghost predicate IsPathClearance(mines: set<Cell>, path: seq<Cell>, clearance: int)
    requires mines != {}
  {
    && (forall c | c in path :: clearance <= Nearest(mines, c))
    && exists c :: c in path && Nearest(mines, c) == clearance
  }

  lemma ShortestIsSafe(f: Field, mines: set<Cell>, clearance: map<Cell, int>, G: nat, path: seq<Cell>)
    requires IsClearanceMap(f, mines, clearance)
    requires IsFirstShortest(f, clearance, G, path) && Distinct(path)
    ensures IsShortestSafe(f, mines, G, path)
  {
    CorridorIsSafe(f, mines, clearance, G, path);
    forall q | IsSafeCorridor(f, mines, G, q)
      ensures |path| <= |q| && (|path| == |q| ==> path == q || ComesFirst(path, q))
    {
      CorridorIsSafe(f, mines, clearance, G, q);
    }
  }

  lemma LeastClearance(f: Field, mines: set<Cell>, clearance: map<Cell, int>, G: nat, path: seq<Cell>, least: int)
    requires IsClearanceMap(f, mines, clearance) && mines != {} && IsCorridor(f, clearance, G, path)
    requires forall c | c in path :: c in clearance && least <= clearance[c]
    requires exists c :: c in path && clearance[c] == least
    ensures IsPathClearance(mines, path, least) && least > G
  {
    var c :| c in path && clearance[c] == least;
    assert Open(f, clearance, G, c);
    assert Nearest(mines, c) == least;
  }

  // What the returned triple promises about the field and the mines.
  ghost predicate IsAnswer(f: Field, mines: set<Cell>, scanTime: real, best: Best) {
    match best.path
    case None => best.G == 0 && best.clearance == 0
    case Some(path) =>
      && IsShortestSafe(f, mines, best.G, path)
      && IsWidestForLength(f, mines, best.G, |path|)
      && IsJointOptimum(f, mines, scanTime, best.G, CandidateScore(best.G, |path|, scanTime))
      && (f.rows >= 2 ==> UpwardAtEnds(path))
      && (mines == {} ==> best.clearance == Max(f.cols, f.rows) + 1)
      && (mines != {} ==> IsPathClearance(mines, path, best.clearance) && best.clearance > best.G)
  }

  // The field, the mines and the scan time leave no choice between two answers.
  lemma AnswerIsUnique(f: Field, mines: set<Cell>, scanTime: real, a: Best, b: Best)
    requires IsAnswer(f, mines, scanTime, a) && IsAnswer(f, mines, scanTime, b) && a.path.None? == b.path.None?
    ensures a == b
  {
    if a.path.Some? {
      var p, q := a.path.value, b.path.value;
      WidestIsUnique(f, mines, a.G, p, b.G, q);
      OneComesFirst(p, q);
      if mines != {} {
        LeastIsUnique(mines, p, a.clearance, b.clearance);
      }
    }
  }

  lemma WidestIsUnique(f: Field, mines: set<Cell>, G: nat, p: seq<Cell>, G': nat, q: seq<Cell>)
    requires IsSafeCorridor(f, mines, G, p) && IsWidestForLength(f, mines, G, |p|)
    requires IsSafeCorridor(f, mines, G', q) && IsWidestForLength(f, mines, G', |q|)
    ensures G == G'
  {
    assert (1 + 2 * G') * |p| <= (1 + 2 * G) * |q| && (1 + 2 * G) * |q| <= (1 + 2 * G') * |p|;
  }

  lemma LeastIsUnique(mines: set<Cell>, path: seq<Cell>, a: int, b: int)
    requires mines != {} && IsPathClearance(mines, path, a) && IsPathClearance(mines, path, b)
    ensures a == b
  {
  }

  lemma SweepFindsAnswer(f: Field, mines: set<Cell>, clearance: map<Cell, int>, scanTime: real,
                         best: Best, bestScore: real)
    requires IsClearanceMap(f, mines, clearance)
    requires BestBelow(f, clearance, scanTime, (f.cols - 1) / 2 + 1, best, bestScore)
    ensures IsAnswer(f, mines, scanTime, best)
  {
    if best.path.Some? {
      var path := best.path.value;
      SweepIsExhaustive(f, mines, clearance, scanTime, best, bestScore);
      ShorterScoresMore(best.G, |path|, |path|, scanTime);
      OptimumIsWidest(f, mines, scanTime, best.G, |path|);
      ShortestIsSafe(f, mines, clearance, best.G, path);
      if f.rows >= 2 {
        ShortestStartsAndEndsUpward(f, clearance, best.G, path);
      }
      if mines != {} {
        LeastClearance(f, mines, clearance, best.G, path, best.clearance);
      }
    }
  }

  method FindBestPath(f: Field, mines: set<Cell>, scanTime: real) returns (r: Result<Best, ClearanceError>)
    ensures r.Success? <==> forall m :: m in mines ==> InField(f, m)
    ensures r.Success? ==>
              (r.value.path.None? <==>
               (1.0 + 7.0 * scanTime <= 0.0 || !exists q :: IsSafeCorridor(f, mines, 0, q)))
    ensures r.Success? ==> IsAnswer(f, mines, scanTime, r.value)
  {
    var clearanceMap := ComputeClearanceMap(f, mines);
    if clearanceMap.Failure? {
      return Failure(clearanceMap.error);
    }
    ghost var bestScore;
    var best: Best;
    best, bestScore := SweepWidths(f, clearanceMap.value, scanTime);
    NoneMeansImpossible(f, mines, clearanceMap.value, scanTime, best, bestScore);
    SweepFindsAnswer(f, mines, clearanceMap.value, scanTime, best, bestScore);
    return Success(best);
  }
}
