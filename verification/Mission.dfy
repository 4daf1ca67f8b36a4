// run_iarc_pathfinder, single run: find the best path, score it, encode it.
module Mission {
  import opened Minefield
  import opened Outcomes
  import opened Clearance
  import opened Scoring
  import opened BestPath
  import opened Commands

  datatype Plan =
    | NoPath
    | Plan(path: seq<Cell>, G: nat, report: ScoreReport, program: Result<Program, CommandError>)

  lemma AliveAndClean(f: Field, mines: set<Cell>, G: nat, path: seq<Cell>)
    requires IsSafeCorridor(f, mines, G, path) && mines <= AllCells(f)
    ensures forall m | m in mines :: m !in path && m !in GreenZone(f, path, G)
    ensures (set m | m in mines && m in path) == {} && mines * GreenZone(f, path, G) == {}
  {
    assert forall c | c in path :: ClearOf(mines, G, c);
    ClearanceMeansUntouched(f, mines, path, G);
  }

  // The optimizer and the scorer agree about the answer: it is reported alive
  // with no missed mine, at exactly the score no safe corridor of any width exceeds,
  // on the first of the shortest corridors of its width.
  ghost predicate ScoredAsOptimized(f: Field, mines: set<Cell>, scanTime: real, p: Plan)
    requires p.Plan?
  {
    && IsShortestSafe(f, mines, p.G, p.path)
    && !p.report.dead && p.report.minesOnPath == 0 && p.report.minesInGreen == 0
    && IsJointOptimum(f, mines, scanTime, p.G, p.report.score) && IsWidestForLength(f, mines, p.G, |p.path|)
    && IsPaid(p.report, 0.0) && p.report.score > 0.0
    && p.report.scanTime == scanTime && p.report.widthFt == 2 + 4 * p.G && p.report.lengthFt == 2 * |p.path|
  }

  // Executing the emitted commands walks exactly the chosen path.
  ghost predicate ProgramWalksPath(p: Plan)
    requires p.Plan?
  {
    && p.program.Success? && p.program.value.Program? && p.program.value.G == p.G
    && Canonical(p.program.value.runs) && Execute(p.program.value) == p.path
  }

  lemma ReportOfAnswer(f: Field, mines: set<Cell>, scanTime: real, path: seq<Cell>, G: nat, r: ScoreReport)
    requires mines <= AllCells(f) && IsSafeCorridor(f, mines, G, path)
    requires IsReport(f, path, G, mines, scanTime, 0.0, r)
    ensures !r.dead && r.minesOnPath == 0 && r.minesInGreen == 0
    ensures r.score == OfficialScore(r.widthFt, r.lengthFt, 0, scanTime, 0.0)
    ensures r.widthFt == WidthFt(G) && r.lengthFt == LengthFt(|path|)
  {
    AliveAndClean(f, mines, G, path);
  }

  lemma AnswerIsScored(f: Field, mines: set<Cell>, scanTime: real, best: Best, p: Plan)
    requires mines <= AllCells(f) && IsAnswer(f, mines, scanTime, best) && p.Plan? && 1.0 + 7.0 * scanTime > 0.0
    requires best.path == Some(p.path) && best.G == p.G && IsReport(f, p.path, p.G, mines, scanTime, 0.0, p.report)
    ensures ScoredAsOptimized(f, mines, scanTime, p)
  {
    ReportOfAnswer(f, mines, scanTime, p.path, p.G, p.report);
    ReportIsPaid(f, p.path, p.G, mines, scanTime, 0.0, p.report);
    ShorterScoresMore(p.G, |p.path|, |p.path|, scanTime);
  }

  method PlanMission(f: Field, mines: set<Cell>, scanTime: real) returns (r: Result<Plan, ClearanceError>)
    ensures r.Success? <==> forall m :: m in mines ==> InField(f, m)
    ensures r.Success? ==>
              (r.value.NoPath? <==>
               (1.0 + 7.0 * scanTime <= 0.0 || !exists q :: IsSafeCorridor(f, mines, 0, q)))
    ensures r.Success? && r.value.Plan? ==> ScoredAsOptimized(f, mines, scanTime, r.value)
    ensures r.Success? && r.value.Plan? && f.rows >= 2 ==> ProgramWalksPath(r.value)
  {
    var found := FindBestPath(f, mines, scanTime);
    if found.Failure? {
      return Failure(found.error);
    }
    if found.value.path.None? {
      return Success(NoPath);
    }
    var path, G := found.value.path.value, found.value.G;
    var report := ScorePath(f, path, G, mines, scanTime, 0.0);
    var program := GridPathToCommands(path, G);
    var plan := Plan(path, G, report, program);
    AnswerIsScored(f, mines, scanTime, found.value, plan);
    return Success(plan);
  }
}
