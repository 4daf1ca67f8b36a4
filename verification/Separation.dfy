// SeparationMonitor: the formation verdict as a state machine over interleaved
// report and decision callbacks.
module Separation {
  import opened FormationLine
  import opened Outcomes

  const DWELL_NS := 2_000_000_000
  const DWELL_AND_HOLD_NS := 12_000_000_000
  const HARD_FLOOR := 1.0

  // One callback. A report carries the clock, the closest pair's separation and
  // whether the line tolerances hold; with fewer than two vehicles it is skipped.
  datatype Event =
    | Report(vehicles: nat, nowNs: nat, closest: real, inFormation: bool)
    | Decision(active: bool)

  // Zero stands for "not set", as in the source.
  datatype Monitor = Monitor(
    hardBreaches: nat, formationBreaches: nat,
    candidateNs: nat, formationNs: nat, completeNs: nat,
    avoidanceSamples: nat, decisionSamples: nat,
    formationAvoidanceSamples: nat, formationDecisionSamples: nat,
    worst: Option<real>)

  const START := Monitor(0, 0, 0, 0, 0, 0, 0, 0, 0, None)

  // ---- The specification of one callback ----

  function Hold(m: Monitor, nowNs: nat): Monitor {
    var candidate := if m.candidateNs == 0 then nowNs else m.candidateNs;
    var dwell := nowNs - candidate;
    var held :=
      if m.formationNs == 0 && dwell >= DWELL_NS
      then m.(candidateNs := candidate, formationNs := nowNs, formationBreaches := 0,
              formationAvoidanceSamples := 0, formationDecisionSamples := 0)
      else m.(candidateNs := candidate);
    if held.formationNs != 0 && dwell >= DWELL_AND_HOLD_NS then held.(completeNs := nowNs) else held
  }

  function Lose(m: Monitor): Monitor {
    m.(candidateNs := 0, formationNs := 0, formationBreaches := 0,
       formationAvoidanceSamples := 0, formationDecisionSamples := 0)
  }

  function CountBreach(m: Monitor, closest: real, floor: real): Monitor {
    if m.completeNs != 0 then m
    else if closest < HARD_FLOOR then m.(hardBreaches := m.hardBreaches + 1)
    else if m.formationNs != 0 && closest < floor then m.(formationBreaches := m.formationBreaches + 1)
    else m
  }

  function Note(m: Monitor, closest: real): Monitor {
    if m.worst.None? || closest < m.worst.value then m.(worst := Some(closest)) else m
  }

  function Step(m: Monitor, e: Event, floor: real): Monitor {
    match e
    case Decision(active) =>
      if m.completeNs != 0 then m
      else
        var one := if active then 1 else 0;
        var counted := m.(decisionSamples := m.decisionSamples + 1, avoidanceSamples := m.avoidanceSamples + one);
        if m.formationNs == 0 then counted
        else counted.(formationDecisionSamples := m.formationDecisionSamples + 1,
                      formationAvoidanceSamples := m.formationAvoidanceSamples + one)
    case Report(vehicles, nowNs, closest, inFormation) =>
      if vehicles < 2 then m
      else
        var placed := if m.completeNs != 0 then m else if inFormation then Hold(m, nowNs) else Lose(m);
        Note(CountBreach(placed, closest, floor), closest)
  }

  function Run(h: seq<Event>, floor: real): Monitor {
    if h == [] then START else Step(Run(h[..|h| - 1], floor), h[|h| - 1], floor)
  }

  // The PASS condition of the summary: at most 5 % of the decisions inside the
  // formation interval were ORCA corrections.
  predicate Passed(m: Monitor) {
    && m.hardBreaches == 0 && m.formationBreaches == 0 && m.formationNs != 0 && m.completeNs != 0
    && 20 * m.formationAvoidanceSamples <= (if m.formationDecisionSamples < 1 then 1 else m.formationDecisionSamples)
  }

  // ---- Reports come from positions ----

  // A report that is evaluated: at least two vehicles.
  predicate Counted(e: Event) {
    e.Report? && e.vehicles >= 2
  }

  ghost predicate IsLeast(h: seq<Event>, worst: Option<real>) {
    match worst
    case None => forall k | 0 <= k < |h| :: !Counted(h[k])
    case Some(d) =>
      && (exists k :: 0 <= k < |h| && Counted(h[k]) && h[k].closest == d)
      && forall k | 0 <= k < |h| && Counted(h[k]) :: d <= h[k].closest
  }

  // The worst separation is the least one any report had, also after completion.
  lemma {:induction false} WorstIsLeast(h: seq<Event>, floor: real)
    ensures IsLeast(h, Run(h, floor).worst)
  {
    if h != [] {
      var n := |h| - 1;
      var before := Run(h[..n], floor).worst;
      WorstIsLeast(h[..n], floor);
      LeastStep(h, before);
    }
  }

  lemma LeastStep(h: seq<Event>, before: Option<real>)
    requires h != [] && IsLeast(h[..|h| - 1], before)
    ensures var e := h[|h| - 1];
            IsLeast(h, if !Counted(e) then before
                       else if before.None? || e.closest < before.value then Some(e.closest) else before)
  {
    var n := |h| - 1;
    assert forall k | 0 <= k < n :: h[..n][k] == h[k];
    if before.Some? {
      var k :| 0 <= k < n && Counted(h[..n][k]) && h[..n][k].closest == before.value;
      assert Counted(h[k]);
    }
  }

  // The report of a fleet at given positions.
  ghost predicate IsReport(hypot: (real, real) -> real, e: Event, world: seq<Point>, nowNs: nat) {
    && e.Report? && e.vehicles == |world| && e.nowNs == nowNs
    && (|world| >= 2 ==> IsClosest(hypot, Pairs(world), e.closest) && e.inFormation == InLine(world))
  }

  ghost predicate Measured(hypot: (real, real) -> real, e: Event) {
    e.Report? ==> exists world :: IsReport(hypot, e, world, e.nowNs)
  }

  ghost predicate AllMeasured(hypot: (real, real) -> real, h: seq<Event>) {
    h == [] || (AllMeasured(hypot, h[..|h| - 1]) && Measured(hypot, h[|h| - 1]))
  }

  method Measure(hypot: (real, real) -> real, world: seq<Point>, nowNs: nat)
    returns (closest: real, inFormation: bool)
    ensures IsReport(hypot, Report(|world|, nowNs, closest, inFormation), world, nowNs)
  {
    closest, inFormation := 0.0, false;
    if |world| >= 2 {
      closest := ClosestPair(hypot, world);
      inFormation := InLine(world);
    }
  }

  // ---- The object ----

  class SeparationMonitor {
    const floor: real
    const hypot: (real, real) -> real
    var hardBreaches: nat
    var formationBreaches: nat
    var candidateNs: nat
    var formationNs: nat
    var completeNs: nat
    var avoidanceSamples: nat
    var decisionSamples: nat
    var formationAvoidanceSamples: nat
    var formationDecisionSamples: nat
    var worst: Option<real>
    ghost var history: seq<Event>

    ghost function State(): Monitor
      reads this
    {
      Monitor(hardBreaches, formationBreaches, candidateNs, formationNs, completeNs, avoidanceSamples,
              decisionSamples, formationAvoidanceSamples, formationDecisionSamples, worst)
    }

    ghost predicate Valid()
      reads this
    {
      State() == Run(history, floor) && AllMeasured(hypot, history)
    }

    constructor (floor: real, hypot: (real, real) -> real)
      ensures Valid() && history == [] && this.floor == floor && this.hypot == hypot
    {
      this.floor, this.hypot := floor, hypot;
      hardBreaches, formationBreaches, candidateNs, formationNs, completeNs := 0, 0, 0, 0, 0;
      avoidanceSamples, decisionSamples, formationAvoidanceSamples, formationDecisionSamples := 0, 0, 0, 0;
      worst := None;
      history := [];
    }

    // Count a decision, and inside the formation count it there too.
    method CountDecision(active: bool)
      modifies this
      ensures State() == Step(old(State()), Decision(active), floor)
      ensures history == old(history)
    {
      if completeNs != 0 {
        return;
      }
      decisionSamples := decisionSamples + 1;
      if active {
        avoidanceSamples := avoidanceSamples + 1;
      }
      if formationNs != 0 {
        formationDecisionSamples := formationDecisionSamples + 1;
        if active {
          formationAvoidanceSamples := formationAvoidanceSamples + 1;
        }
      }
    }

    method OnDecision(active: bool)
      requires Valid()
      modifies this
      ensures Valid() && history == old(history) + [Decision(active)]
      ensures State() == Step(old(State()), Decision(active), floor)
    {
      ghost var before := history;
      CountDecision(active);
      history := history + [Decision(active)];
      assert history[..|history| - 1] == before;
    }

    // Place a report in or out of the formation run.
    method UpdateFormation(nowNs: nat, inFormation: bool)
      requires completeNs == 0
      modifies this
      ensures State() == (if inFormation then Hold(old(State()), nowNs) else Lose(old(State())))
      ensures history == old(history)
    {
      if inFormation {
        if candidateNs == 0 {
          candidateNs := nowNs;
        }
        var dwell := nowNs - candidateNs;
        if formationNs == 0 && dwell >= DWELL_NS {
          formationNs := nowNs;
          formationBreaches, formationAvoidanceSamples, formationDecisionSamples := 0, 0, 0;
        }
        if formationNs != 0 && dwell >= DWELL_AND_HOLD_NS {
          completeNs := nowNs;
        }
      } else {
        candidateNs, formationNs := 0, 0;
        formationBreaches, formationAvoidanceSamples, formationDecisionSamples := 0, 0, 0;
      }
    }

    // Count a breach of whichever floor applies, and keep the worst separation.
    method RecordSeparation(closest: real)
      modifies this
      ensures State() == Note(CountBreach(old(State()), closest, floor), closest)
      ensures history == old(history)
    {
      if completeNs == 0 {
        if closest < HARD_FLOOR {
          hardBreaches := hardBreaches + 1;
        } else if formationNs != 0 && closest < floor {
          formationBreaches := formationBreaches + 1;
        }
      }
      if worst.None? || closest < worst.value {
        worst := Some(closest);
      }
    }

    // A report on a fleet at the given positions, in the order of the vehicles' names.
    method OnReport(world: seq<Point>, nowNs: nat) returns (ghost e: Event)
      requires Valid()
      modifies this
      ensures Valid() && IsReport(hypot, e, world, nowNs) && history == old(history) + [e]
      ensures State() == Step(old(State()), e, floor)
    {
      ghost var before := history;
      var closest, inFormation := Measure(hypot, world, nowNs);
      e := Report(|world|, nowNs, closest, inFormation);
      if |world| >= 2 {
        if completeNs == 0 {
          UpdateFormation(nowNs, inFormation);
        }
        RecordSeparation(closest);
      }
      history := history + [e];
      assert history[..|history| - 1] == before;
    }

    // The verdict: none before any odometry, otherwise PASS or FAIL. A PASS comes
    // with the evidence in the history.
    method Summary() returns (verdict: Option<bool>)
      requires Valid()
      ensures verdict.None? <==> forall k | 0 <= k < |history| :: !Counted(history[k])
      ensures verdict.Some? ==> (verdict.value <==> Passed(Run(history, floor)))
      ensures verdict == Some(true) ==> exists s, e, j :: HeldFormation(history, floor, s, e, j)
    {
      WorstIsLeast(history, floor);
      if worst.None? {
        return None;
      }
      var decisions := if formationDecisionSamples < 1 then 1 else formationDecisionSamples;
      var passed := hardBreaches == 0 && formationBreaches == 0 && formationNs != 0 && completeNs != 0
                    && 20 * formationAvoidanceSamples <= decisions;
      if passed {
        PassMeansHeldFormation(history, floor);
      }
      return Some(passed);
    }
  }

  // ---- What a PASS means ----

  ghost predicate InFormationThrough(h: seq<Event>, first: int, last: int) {
    0 <= first && last <= |h| && forall k | first <= k < last :: Counted(h[k]) ==> h[k].inFormation
  }

  function Tally(p: Event -> bool, h: seq<Event>): nat {
    if h == [] then 0 else Tally(p, h[..|h| - 1]) + if p(h[|h| - 1]) then 1 else 0
  }

  function HardBreach(): Event -> bool {
    (e: Event) => Counted(e) && e.closest < HARD_FLOOR
  }

  function FormationBreach(floor: real): Event -> bool {
    (e: Event) => Counted(e) && e.closest >= HARD_FLOOR && e.closest < floor
  }

  function AnyDecision(): Event -> bool {
    (e: Event) => e.Decision?
  }

  function ActiveDecision(): Event -> bool {
    (e: Event) => e.Decision? && e.active
  }

  // A run of in-formation reports from s to j spanning at least twelve seconds,
  // established at e after two; no hard breach in any report before j, no report
  // from e to before j under the floor, and at most 5 % ORCA corrections among the
  // decisions between e and j.
  ghost predicate HeldFormation(h: seq<Event>, floor: real, s: int, e: int, j: int) {
    && 0 <= s <= e <= j < |h| && Counted(h[s]) && Counted(h[e]) && Counted(h[j])
    && InFormationThrough(h, s, j + 1)
    && h[e].nowNs - h[s].nowNs >= DWELL_NS && h[j].nowNs - h[s].nowNs >= DWELL_AND_HOLD_NS
    && (forall k | 0 <= k < j :: Counted(h[k]) ==> h[k].closest >= HARD_FLOOR)
    && (forall k | e <= k < j :: Counted(h[k]) ==> h[k].closest >= floor)
    && var decisions := Tally(AnyDecision(), h[e..j]);
       20 * Tally(ActiveDecision(), h[e..j]) <= if decisions < 1 then 1 else decisions
  }

  // Where the current candidate run started, where it was established and where
  // the evaluation completed; -1 when not yet.
  datatype Marks = Marks(start: int, established: int, completed: int)

  ghost function MarksOf(h: seq<Event>, floor: real): Marks {
    if h == [] then Marks(-1, -1, -1)
    else
      var n := |h| - 1;
      var k, m, after := MarksOf(h[..n], floor), Run(h[..n], floor), Run(h, floor);
      Marks(if m.candidateNs == 0 && after.candidateNs != 0 then n else k.start,
            if m.formationNs == 0 && after.formationNs != 0 then n else k.established,
            if m.completeNs == 0 && after.completeNs != 0 then n else k.completed)
  }

  // The formation counters count exactly what happened from e up to `upTo`.
  ghost predicate CountersFrom(h: seq<Event>, floor: real, m: Monitor, e: int, upTo: int)
    requires 0 <= e <= upTo <= |h|
  {
    && m.formationBreaches == Tally(FormationBreach(floor), h[e..upTo])
    && m.formationDecisionSamples == Tally(AnyDecision(), h[e..upTo])
    && m.formationAvoidanceSamples == Tally(ActiveDecision(), h[e..upTo])
  }

  ghost predicate Candidate(h: seq<Event>, m: Monitor, s: int) {
    && 0 <= s < |h| && Counted(h[s]) && h[s].nowNs == m.candidateNs && InFormationThrough(h, s, |h|)
  }

  ghost predicate Established(h: seq<Event>, m: Monitor, s: int, e: int) {
    && 0 <= s <= e < |h| && Counted(h[e]) && h[e].nowNs - m.candidateNs >= DWELL_NS
  }

  ghost predicate Open(h: seq<Event>, floor: real, m: Monitor, k: Marks) {
    && m.hardBreaches == Tally(HardBreach(), h)
    && (m.candidateNs != 0 ==> Candidate(h, m, k.start))
    && (m.formationNs != 0 ==>
          && m.candidateNs != 0 && Established(h, m, k.start, k.established)
          && CountersFrom(h, floor, m, k.established, |h|))
  }

  ghost predicate Closed(h: seq<Event>, floor: real, m: Monitor, k: Marks) {
    && 0 <= k.start <= k.established <= k.completed < |h|
    && Counted(h[k.start]) && Counted(h[k.established]) && Counted(h[k.completed])
    && InFormationThrough(h, k.start, k.completed + 1)
    && h[k.established].nowNs - h[k.start].nowNs >= DWELL_NS
    && h[k.completed].nowNs - h[k.start].nowNs >= DWELL_AND_HOLD_NS
    && m.formationNs != 0
    && m.hardBreaches == Tally(HardBreach(), h[..k.completed])
    && CountersFrom(h, floor, m, k.established, k.completed)
  }

  ghost predicate Explained(h: seq<Event>, floor: real, m: Monitor, k: Marks) {
    if m.completeNs == 0 then Open(h, floor, m, k) else Closed(h, floor, m, k)
  }

  lemma TallyGrows(p: Event -> bool, h: seq<Event>, a: int)
    requires h != [] && 0 <= a <= |h| - 1
    ensures Tally(p, h[a..]) == Tally(p, h[a..|h| - 1]) + if p(h[|h| - 1]) then 1 else 0
  {
    var n := |h| - 1;
    assert h[a..][..|h[a..]| - 1] == h[a..n];
  }

  // The two intervals counted in h, seen from its prefix.
  lemma PrefixSlices(h: seq<Event>, a: int, b: int)
    requires h != [] && 0 <= a <= b <= |h| - 1
    ensures h[..|h| - 1][a..b] == h[a..b] && h[..|h| - 1][..b] == h[..b] && h[..|h| - 1][a..] == h[a..|h| - 1]
  {
  }

  lemma CountersGrow(h: seq<Event>, floor: real, m: Monitor, after: Monitor, e: int)
    requires h != [] && 0 <= e <= |h| - 1 && CountersFrom(h[..|h| - 1], floor, m, e, |h| - 1)
    requires var last := h[|h| - 1];
             && after.formationBreaches == m.formationBreaches + (if FormationBreach(floor)(last) then 1 else 0)
             && after.formationDecisionSamples == m.formationDecisionSamples + (if AnyDecision()(last) then 1 else 0)
             && after.formationAvoidanceSamples
                == m.formationAvoidanceSamples + (if ActiveDecision()(last) then 1 else 0)
    ensures CountersFrom(h, floor, after, e, |h|)
  {
    var n := |h| - 1;
    PrefixSlices(h, e, n);
    assert h[e..n + 1] == h[e..];
    TallyGrows(FormationBreach(floor), h, e);
    TallyGrows(AnyDecision(), h, e);
    TallyGrows(ActiveDecision(), h, e);
  }

  // At the establishing report the counters restart, and only that report's own
  // breach is counted.
  lemma CountersStart(h: seq<Event>, floor: real, m: Monitor)
    requires h != [] && h[|h| - 1].Report?
    requires m.formationBreaches == (if FormationBreach(floor)(h[|h| - 1]) then 1 else 0)
    requires m.formationDecisionSamples == 0 && m.formationAvoidanceSamples == 0
    ensures CountersFrom(h, floor, m, |h| - 1, |h|)
  {
    var n := |h| - 1;
    assert h[n..n + 1] == h[n..] && h[n..n] == [];
    TallyGrows(FormationBreach(floor), h, n);
    TallyGrows(AnyDecision(), h, n);
    TallyGrows(ActiveDecision(), h, n);
  }

  lemma FormationExtends(h: seq<Event>, first: int)
    requires h != [] && InFormationThrough(h[..|h| - 1], first, |h| - 1)
    requires Counted(h[|h| - 1]) ==> h[|h| - 1].inFormation
    ensures InFormationThrough(h, first, |h|)
  {
    var g := h[..|h| - 1];
    forall k | first <= k < |h| && Counted(h[k])
      ensures h[k].inFormation
    {
      assert k < |g| ==> g[k] == h[k];
    }
  }

  // Once complete, nothing that enters the verdict changes.
  lemma ClosedStays(h: seq<Event>, floor: real, m: Monitor, after: Monitor, k: Marks)
    requires h != [] && Closed(h[..|h| - 1], floor, m, k)
    requires after.formationNs == m.formationNs && after.hardBreaches == m.hardBreaches
    requires after.formationBreaches == m.formationBreaches
    requires after.formationDecisionSamples == m.formationDecisionSamples
    requires after.formationAvoidanceSamples == m.formationAvoidanceSamples
    ensures Closed(h, floor, after, k)
  {
    var g := h[..|h| - 1];
    assert forall i | 0 <= i < |g| :: g[i] == h[i];
    PrefixSlices(h, k.established, k.completed);
  }

  lemma DecisionExplained(h: seq<Event>, floor: real, m: Monitor, k: Marks)
    requires h != [] && h[|h| - 1].Decision? && m.completeNs == 0 && Open(h[..|h| - 1], floor, m, k)
    ensures Open(h, floor, Step(m, h[|h| - 1], floor), k)
  {
    var after, g := Step(m, h[|h| - 1], floor), h[..|h| - 1];
    assert forall i | 0 <= i < |g| :: g[i] == h[i];
    if m.candidateNs != 0 {
      FormationExtends(h, k.start);
    }
    if m.formationNs != 0 {
      CountersGrow(h, floor, m, after, k.established);
    }
  }

  lemma SkippedExplained(h: seq<Event>, floor: real, m: Monitor, k: Marks)
    requires h != [] && h[|h| - 1].Report? && !Counted(h[|h| - 1]) && Open(h[..|h| - 1], floor, m, k)
    ensures Open(h, floor, m, k)
  {
    var g := h[..|h| - 1];
    assert forall i | 0 <= i < |g| :: g[i] == h[i];
    if m.candidateNs != 0 {
      FormationExtends(h, k.start);
    }
    if m.formationNs != 0 {
      CountersGrow(h, floor, m, m, k.established);
    }
  }

  lemma LostExplained(h: seq<Event>, floor: real, m: Monitor, k: Marks, k': Marks)
    requires h != [] && Counted(h[|h| - 1]) && !h[|h| - 1].inFormation
    requires m.completeNs == 0 && Open(h[..|h| - 1], floor, m, k)
    ensures Open(h, floor, Step(m, h[|h| - 1], floor), k')
  {
  }

  // The candidate run after an in-formation report: the old one extended, or one
  // that starts here.
  lemma CandidateAfterHold(h: seq<Event>, floor: real, m: Monitor, k: Marks, s: int)
    requires h != [] && Counted(h[|h| - 1]) && h[|h| - 1].inFormation
    requires m.completeNs == 0 && Open(h[..|h| - 1], floor, m, k)
    requires s == if m.candidateNs == 0 then |h| - 1 else k.start
    ensures var held := Hold(m, h[|h| - 1].nowNs); held.candidateNs != 0 ==> Candidate(h, held, s)
  {
    var g := h[..|h| - 1];
    assert forall i | 0 <= i < |g| :: g[i] == h[i];
    if m.candidateNs != 0 {
      FormationExtends(h, k.start);
    }
  }

  lemma HoldStaysOpen(h: seq<Event>, floor: real, m: Monitor, k: Marks, k': Marks)
    requires h != [] && Counted(h[|h| - 1]) && h[|h| - 1].inFormation
    requires m.completeNs == 0 && Open(h[..|h| - 1], floor, m, k)
    requires var held := Hold(m, h[|h| - 1].nowNs);
             && held.completeNs == 0
             && (held.candidateNs != 0 ==> k'.start == if m.candidateNs == 0 then |h| - 1 else k.start)
             && (held.formationNs != 0 ==> k'.established == if m.formationNs == 0 then |h| - 1 else k.established)
    ensures Open(h, floor, Step(m, h[|h| - 1], floor), k')
  {
    var last, g := h[|h| - 1], h[..|h| - 1];
    var held, after := Hold(m, last.nowNs), Step(m, last, floor);
    assert forall i | 0 <= i < |g| :: g[i] == h[i];
    CandidateAfterHold(h, floor, m, k, if m.candidateNs == 0 then |h| - 1 else k.start);
    if held.formationNs != 0 {
      if m.formationNs == 0 {
        CountersStart(h, floor, after);
      } else {
        CountersGrow(h, floor, m, after, k.established);
      }
    }
  }

  lemma HoldCloses(h: seq<Event>, floor: real, m: Monitor, k: Marks, k': Marks)
    requires h != [] && Counted(h[|h| - 1]) && h[|h| - 1].inFormation
    requires m.completeNs == 0 && Open(h[..|h| - 1], floor, m, k)
    requires var held := Hold(m, h[|h| - 1].nowNs);
             && held.completeNs != 0 && k'.completed == |h| - 1
             && k'.start == (if m.candidateNs == 0 then |h| - 1 else k.start)
             && k'.established == (if m.formationNs == 0 then |h| - 1 else k.established)
    ensures Closed(h, floor, Step(m, h[|h| - 1], floor), k')
  {
    var last, g, n := h[|h| - 1], h[..|h| - 1], |h| - 1;
    var held := Hold(m, last.nowNs);
    assert forall i | 0 <= i < |g| :: g[i] == h[i];
    assert h[..n] == g;
    CandidateAfterHold(h, floor, m, k, k'.start);
    if m.formationNs != 0 {
      PrefixSlices(h, k.established, n);
    } else {
      assert h[n..n] == [];
    }
  }

  // The state after any interleaving of callbacks is explained by the marks.
  lemma {:induction false} EveryRunIsExplained(h: seq<Event>, floor: real)
    ensures Explained(h, floor, Run(h, floor), MarksOf(h, floor))
  {
    if h != [] {
      var g, last := h[..|h| - 1], h[|h| - 1];
      var m, k, k' := Run(g, floor), MarksOf(g, floor), MarksOf(h, floor);
      EveryRunIsExplained(g, floor);
      if m.completeNs != 0 {
        ClosedStays(h, floor, m, Run(h, floor), k);
      } else if last.Decision? {
        DecisionExplained(h, floor, m, k);
      } else if !Counted(last) {
        SkippedExplained(h, floor, m, k);
      } else if !last.inFormation {
        LostExplained(h, floor, m, k, k');
      } else if Hold(m, last.nowNs).completeNs == 0 {
        HoldStaysOpen(h, floor, m, k, k');
      } else {
        HoldCloses(h, floor, m, k, k');
      }
    }
  }

  lemma {:induction false} ZeroTally(p: Event -> bool, h: seq<Event>, k: int)
    requires Tally(p, h) == 0 && 0 <= k < |h|
    ensures !p(h[k])
  {
    if k < |h| - 1 {
      ZeroTally(p, h[..|h| - 1], k);
    }
  }

  lemma MarksAreHeld(h: seq<Event>, floor: real)
    requires Passed(Run(h, floor))
    ensures var k := MarksOf(h, floor); HeldFormation(h, floor, k.start, k.established, k.completed)
  {
    var k := MarksOf(h, floor);
    EveryRunIsExplained(h, floor);
    forall i | 0 <= i < k.completed && Counted(h[i])
      ensures h[i].closest >= HARD_FLOOR && (i >= k.established ==> h[i].closest >= floor)
    {
      ZeroTally(HardBreach(), h[..k.completed], i);
      if i >= k.established {
        ZeroTally(FormationBreach(floor), h[k.established..k.completed], i - k.established);
      }
    }
  }

  lemma PassMeansHeldFormation(h: seq<Event>, floor: real)
    requires Passed(Run(h, floor))
    ensures exists s, e, j :: HeldFormation(h, floor, s, e, j)
  {
    MarksAreHeld(h, floor);
  }

  lemma {:induction false} NoneTallied(p: Event -> bool, h: seq<Event>)
    requires forall k | 0 <= k < |h| :: !p(h[k])
    ensures Tally(p, h) == 0
  {
    if h != [] {
      NoneTallied(p, h[..|h| - 1]);
    }
  }

  // The verdict is PASS exactly when the evaluation completed and the marked run
  // really was held.
  lemma PassExactly(h: seq<Event>, floor: real)
    ensures var k := MarksOf(h, floor);
            Passed(Run(h, floor)) <==>
            Run(h, floor).completeNs != 0 && HeldFormation(h, floor, k.start, k.established, k.completed)
  {
    var m, k := Run(h, floor), MarksOf(h, floor);
    EveryRunIsExplained(h, floor);
    if Passed(m) {
      MarksAreHeld(h, floor);
    } else if m.completeNs != 0 && HeldFormation(h, floor, k.start, k.established, k.completed) {
      NoneTallied(HardBreach(), h[..k.completed]);
      NoneTallied(FormationBreach(floor), h[k.established..k.completed]);
    }
  }

  // Every counted report through j keeps the hard floor, and from e the floor asked for.
  ghost predicate KeptThrough(h: seq<Event>, floor: real, e: int, j: int) {
    && (forall k | 0 <= k <= j && k < |h| :: Counted(h[k]) ==> h[k].closest >= HARD_FLOOR)
    && (forall k | 0 <= e <= k <= j && k < |h| :: Counted(h[k]) ==> h[k].closest >= floor)
  }

  lemma HeldCoversLast(h: seq<Event>, floor: real, s: int, e: int, j: int)
    requires HeldFormation(h, floor, s, e, j)
    ensures KeptThrough(h, floor, e, j) <==> h[j].closest >= HARD_FLOOR && h[j].closest >= floor
  {
    if h[j].closest >= HARD_FLOOR && h[j].closest >= floor {
      forall k | 0 <= k <= j && Counted(h[k])
        ensures h[k].closest >= HARD_FLOOR && (e <= k ==> h[k].closest >= floor)
      {
      }
    }
  }

  // A PASS covers the completing report too exactly when that report itself keeps
  // both floors.
  lemma PassCoversCompletingReport(h: seq<Event>, floor: real)
    requires Passed(Run(h, floor))
    ensures var k := MarksOf(h, floor);
            && 0 <= k.established <= k.completed < |h| && Counted(h[k.completed])
            && (KeptThrough(h, floor, k.established, k.completed)
                <==> h[k.completed].closest >= HARD_FLOOR && h[k.completed].closest >= floor)
  {
    var k := MarksOf(h, floor);
    MarksAreHeld(h, floor);
    HeldCoversLast(h, floor, k.start, k.established, k.completed);
  }

  // A completed evaluation is final: no later callback changes the verdict.
  lemma {:induction false} CompletionIsFinal(h: seq<Event>, later: seq<Event>, floor: real)
    requires Run(h, floor).completeNs != 0
    ensures Run(h + later, floor).completeNs == Run(h, floor).completeNs
    ensures Passed(Run(h + later, floor)) <==> Passed(Run(h, floor))
    ensures Run(h + later, floor).(worst := None) == Run(h, floor).(worst := None)
  {
    if later == [] {
      assert h + later == h;
    } else {
      var n := |later| - 1;
      CompletionIsFinal(h, later[..n], floor);
      assert (h + later)[..|h + later| - 1] == h + later[..n];
    }
  }
}
