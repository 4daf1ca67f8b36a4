// What the floor can do when reports arrive at the pace of the monitor's timer.
module FormationPace {
  import opened FormationFloor
  import opened FormationHistory
  import opened FormationLine
  import opened Separation

  // Two reports a second.
  const TIMER_NS := 500_000_000
  const HOLD_NS := DWELL_AND_HOLD_NS - DWELL_NS

  ghost predicate NextCounted(h: seq<Event>, i: int, j: int) {
    && 0 <= i < j < |h| && Counted(h[i]) && Counted(h[j])
    && forall k | i < k < j :: !Counted(h[k])
  }

  // Counted reports follow each other within the pace.
  ghost predicate Paced(h: seq<Event>, pace: nat) {
    forall i, j | NextCounted(h, i, j) :: h[j].nowNs - h[i].nowNs <= pace
  }

  // A history the monitor can see: reports on positions, within the pace.
  ghost predicate Possible(hypot: (real, real) -> real, pace: nat, h: seq<Event>) {
    AllMeasured(hypot, h) && Paced(h, pace)
  }

  // ---- The report that establishes is not the one that completes ----

  lemma {:induction false} CountedBefore(h: seq<Event>, s: int, e: int, last: int) returns (p: int)
    requires 0 <= s <= last < e < |h| && Counted(h[s]) && Counted(h[e])
    requires forall k | last < k < e :: !Counted(h[k])
    ensures s <= p < e && NextCounted(h, p, e)
    decreases last
  {
    if Counted(h[last]) {
      p := last;
    } else {
      p := CountedBefore(h, s, e, last - 1);
    }
  }

  lemma EstablishedBeforeCompletion(h: seq<Event>, pace: nat, s: int, e: int, j: int)
    requires IsEvaluation(h, s, e, j) && Paced(h, pace) && pace <= HOLD_NS
    ensures e < j
  {
    var p := CountedBefore(h, s, e, e - 1);
    assert h[p].nowNs - h[s].nowNs < DWELL_NS && h[e].nowNs - h[p].nowNs <= pace;
  }

  // A PASS at such a pace has an establishing report that keeps the floor.
  lemma PassHasFarReport(h: seq<Event>, pace: nat, floor: real)
    requires Paced(h, pace) && pace <= HOLD_NS && Passed(Run(h, floor))
    ensures var e := MarksOf(h, floor).established;
            0 <= e < |h| && Counted(h[e]) && h[e].inFormation && h[e].closest >= floor
  {
    var k := MarksOf(h, floor);
    MarksAreHeld(h, floor);
    EvaluationIsMarked(h, floor, k.start, k.established, k.completed);
    EstablishedBeforeCompletion(h, pace, k.start, k.established, k.completed);
  }

  lemma PassStaysNear(hypot: (real, real) -> real, h: seq<Event>, pace: nat, floor: real)
    requires IsHypot(hypot) && Possible(hypot, pace, h) && pace <= HOLD_NS && Passed(Run(h, floor))
    ensures floor <= Widest(hypot)
  {
    var e := MarksOf(h, floor).established;
    PassHasFarReport(h, pace, floor);
    EachIsMeasured(hypot, h, e);
    InFormationIsNear(hypot, h[e]);
  }

  // ---- A run on the timer: twelve seconds in formation ----

  ghost function At(nowNs: nat, closest: real): Event {
    Report(2, nowNs, closest, true)
  }

  // Reports at the given separations, from the first nanosecond.
  ghost function OnTimer(near: real, last: real): (h: seq<Event>)
    ensures |h| == 25
    ensures forall k | 0 <= k < 25 :: h[k] == At(1 + TIMER_NS * k, if k < 24 then near else last)
  {
    seq(25, k requires 0 <= k < 25 => At(1 + TIMER_NS * k, if k < 24 then near else last))
  }

  lemma InFormationAll(h: seq<Event>, first: int, last: int)
    requires 0 <= first && last <= |h| && forall k | 0 <= k < |h| :: Counted(h[k]) && h[k].inFormation
    ensures InFormationThrough(h, first, last)
  {
  }

  lemma OnTimerIsEvaluated(near: real, last: real)
    ensures IsEvaluation(OnTimer(near, last), 0, 4, 24)
  {
    var h := OnTimer(near, last);
    InFormationAll(h, 0, 25);
    InFormationAll(h, 0, 5);
    assert Live(h[0]);
    forall s, j | CompletesAt(h, s, j)
      ensures 24 <= j
    {
      assert h[j].nowNs - h[s].nowNs >= DWELL_AND_HOLD_NS;
    }
  }

  lemma OnTimerIsPaced(near: real, last: real, pace: nat)
    requires pace >= TIMER_NS
    ensures Paced(OnTimer(near, last), pace)
  {
    var h := OnTimer(near, last);
    forall i, j | NextCounted(h, i, j)
      ensures h[j].nowNs - h[i].nowNs <= pace
    {
      assert Counted(h[i + 1]);
    }
  }

  // It passes exactly when the separation before the last report keeps the floor,
  lemma OnTimerVerdict(near: real, last: real, floor: real)
    requires near >= HARD_FLOOR
    ensures Passed(Run(OnTimer(near, last), floor)) <==> near >= floor
  {
    var h := OnTimer(near, last);
    OnTimerIsEvaluated(near, last);
    PassOnHistory(h, floor);
    assert h[4].closest == near;
    forall s, e, j | IsEvaluation(h, s, e, j)
      ensures s == 0 && e == 4 && j == 24
    {
      EvaluationIsUnique(h, s, e, j, 0, 4, 24);
    }
    if near >= floor {
      NoneTallied(ActiveDecision(), h[4..24]);
      assert HeldFormation(h, floor, 0, 4, 24);
    }
  }

  lemma {:induction false} PositiveTally(p: Event -> bool, h: seq<Event>, k: nat)
    requires k < |h| && p(h[k])
    ensures Tally(p, h) > 0
  {
    if k < |h| - 1 {
      PositiveTally(p, h[..|h| - 1], k);
    }
  }

  // and counts formation breaches when it does not.
  lemma OnTimerBreaches(near: real, last: real, floor: real)
    requires HARD_FLOOR <= near < floor
    ensures Run(OnTimer(near, last), floor).formationBreaches > 0
  {
    var h := OnTimer(near, last);
    OnTimerIsEvaluated(near, last);
    EvaluationIsMarked(h, floor, 0, 4, 24);
    EveryRunIsExplained(h, floor);
    assert h[4..24][0] == h[4];
    PositiveTally(FormationBreach(floor), h[4..24], 0);
  }

  // ---- The runs are those of positions ----

  lemma {:induction false} AllAreMeasured(hypot: (real, real) -> real, h: seq<Event>)
    requires forall k | 0 <= k < |h| :: Measured(hypot, h[k])
    ensures AllMeasured(hypot, h)
  {
    if h != [] {
      AllAreMeasured(hypot, h[..|h| - 1]);
    }
  }

  lemma PairOnLine(hypot: (real, real) -> real, world: seq<Point>, nowNs: nat, closest: real)
    requires |world| == 2 && InLine(world) && IsClosest(hypot, Pairs(world), closest)
    ensures Measured(hypot, At(nowNs, closest))
  {
    assert IsReport(hypot, At(nowNs, closest), world, nowNs);
  }

  // A separation two vehicles in formation can be at, at any time.
  ghost predicate Attained(hypot: (real, real) -> real, closest: real) {
    forall nowNs: nat {:trigger Measured(hypot, At(nowNs, closest))} :: Measured(hypot, At(nowNs, closest))
  }

  lemma LeastIsAttained(hypot: (real, real) -> real)
    requires IsHypot(hypot)
    ensures Attained(hypot, LEAST_GAP)
  {
    var world := NearestOnLine(hypot);
    forall nowNs: nat
      ensures Measured(hypot, At(nowNs, LEAST_GAP))
    {
      PairOnLine(hypot, world, nowNs, LEAST_GAP);
    }
  }

  lemma WidestIsAttained(hypot: (real, real) -> real)
    ensures Attained(hypot, Widest(hypot))
  {
    var world := WidestOnLine(hypot);
    forall nowNs: nat
      ensures Measured(hypot, At(nowNs, Widest(hypot)))
    {
      PairOnLine(hypot, world, nowNs, Widest(hypot));
    }
  }

  lemma OnTimerIsPossible(hypot: (real, real) -> real, near: real, last: real, pace: nat)
    requires Attained(hypot, near) && Attained(hypot, last) && pace >= TIMER_NS
    ensures Possible(hypot, pace, OnTimer(near, last))
  {
    var h := OnTimer(near, last);
    forall k | 0 <= k < |h|
      ensures Measured(hypot, h[k])
    {
      assert h[k] == At(1 + TIMER_NS * k, if k < 24 then near else last);
    }
    AllAreMeasured(hypot, h);
    OnTimerIsPaced(near, last, pace);
  }

  // ---- When the floor matters ----

  // Some possible history counts a formation breach.
  ghost predicate CanBreach(hypot: (real, real) -> real, pace: nat, floor: real) {
    exists h :: Possible(hypot, pace, h) && Run(h, floor).formationBreaches > 0
  }

  // Some possible history passes with a floor of 2.8 m and not with this one.
  ghost predicate CanDecide(hypot: (real, real) -> real, pace: nat, floor: real) {
    exists h :: Possible(hypot, pace, h) && Passed(Run(h, LEAST_GAP)) && !Passed(Run(h, floor))
  }

  ghost predicate CanPass(hypot: (real, real) -> real, pace: nat, floor: real) {
    exists h :: Possible(hypot, pace, h) && Passed(Run(h, floor))
  }

  // Whatever the positions, a PASS covers every report through the completing one.
  ghost predicate PassAlwaysCovers(hypot: (real, real) -> real, pace: nat, floor: real) {
    forall h | Possible(hypot, pace, h) && Passed(Run(h, floor)) ::
      KeptThrough(h, floor, MarksOf(h, floor).established, MarksOf(h, floor).completed)
  }

  // A formation breach can be counted exactly for floors above 2.8 m.
  lemma BreachExactly(hypot: (real, real) -> real, pace: nat, floor: real)
    requires IsHypot(hypot) && pace >= TIMER_NS
    ensures CanBreach(hypot, pace, floor) <==> floor > LEAST_GAP
  {
    if floor > LEAST_GAP {
      LeastIsAttained(hypot);
      OnTimerIsPossible(hypot, LEAST_GAP, LEAST_GAP, pace);
      OnTimerBreaches(LEAST_GAP, LEAST_GAP, floor);
    } else {
      forall h | Possible(hypot, pace, h)
        ensures Run(h, floor).formationBreaches == 0
      {
        SmallFloorNeverBreaches(hypot, h, floor);
      }
    }
  }

  // The verdict depends on the floor exactly for floors above 2.8 m.
  lemma FloorDecidesExactly(hypot: (real, real) -> real, pace: nat, floor: real)
    requires IsHypot(hypot) && pace >= TIMER_NS
    ensures CanDecide(hypot, pace, floor) <==> floor > LEAST_GAP
  {
    if floor > LEAST_GAP {
      LeastIsAttained(hypot);
      OnTimerIsPossible(hypot, LEAST_GAP, LEAST_GAP, pace);
      OnTimerVerdict(LEAST_GAP, LEAST_GAP, LEAST_GAP);
      OnTimerVerdict(LEAST_GAP, LEAST_GAP, floor);
    } else {
      forall h | Possible(hypot, pace, h)
        ensures Run(h, LEAST_GAP) == Run(h, floor)
      {
        SmallFloorsAgree(hypot, h, LEAST_GAP, floor);
      }
    }
  }

  // While reports are at most ten seconds apart, a PASS is possible exactly for
  // floors up to the widest separation in formation.
  lemma PassPossibleExactly(hypot: (real, real) -> real, pace: nat, floor: real)
    requires IsHypot(hypot) && TIMER_NS <= pace <= HOLD_NS
    ensures CanPass(hypot, pace, floor) <==> floor <= Widest(hypot)
  {
    if floor <= Widest(hypot) {
      WidestIsFar(hypot);
      WidestIsAttained(hypot);
      OnTimerIsPossible(hypot, Widest(hypot), Widest(hypot), pace);
      OnTimerVerdict(Widest(hypot), Widest(hypot), floor);
    } else {
      forall h | Possible(hypot, pace, h)
        ensures !Passed(Run(h, floor))
      {
        if Passed(Run(h, floor)) {
          PassStaysNear(hypot, h, pace, floor);
        }
      }
    }
  }

  lemma WidestIsFar(hypot: (real, real) -> real)
    requires IsHypot(hypot)
    ensures Widest(hypot) >= LEAST_GAP
  {
    HypotIsLarge(hypot, 2.0 * MAX_CROSS_TRACK, SPACING + MAX_SPACING_ERROR);
  }

  // ---- The completing report ----

  // On the timer: at the widest separation until the last report, which is at 2.8 m.
  lemma LastReportIsNotChecked(hypot: (real, real) -> real, pace: nat, floor: real)
    requires IsHypot(hypot) && pace >= TIMER_NS && LEAST_GAP < floor <= Widest(hypot)
    ensures var h := OnTimer(Widest(hypot), LEAST_GAP);
            Possible(hypot, pace, h) && Passed(Run(h, floor)) && h[24].closest < floor
    ensures !PassAlwaysCovers(hypot, pace, floor)
  {
    var h := OnTimer(Widest(hypot), LEAST_GAP);
    WidestIsFar(hypot);
    LeastIsAttained(hypot);
    WidestIsAttained(hypot);
    OnTimerIsPossible(hypot, Widest(hypot), LEAST_GAP, pace);
    OnTimerVerdict(Widest(hypot), LEAST_GAP, floor);
    OnTimerIsEvaluated(Widest(hypot), LEAST_GAP);
    EvaluationIsMarked(h, floor, 0, 4, 24);
    PassCoversCompletingReport(h, floor);
  }

  // After a stall of more than ten seconds: the report that establishes completes too,
  // and no report's separation from there on is checked.
  ghost function Stalled(closest: real): (h: seq<Event>)
    ensures |h| == 3 && h[0] == At(1, closest) && h[1] == At(DWELL_NS, closest)
    ensures h[2] == At(1 + DWELL_AND_HOLD_NS, closest)
  {
    [At(1, closest), At(DWELL_NS, closest), At(1 + DWELL_AND_HOLD_NS, closest)]
  }

  lemma StalledIsPaced(pace: nat, closest: real)
    requires pace > HOLD_NS
    ensures Paced(Stalled(closest), pace)
  {
    var h := Stalled(closest);
    forall i, j | NextCounted(h, i, j)
      ensures h[j].nowNs - h[i].nowNs <= pace
    {
      assert Counted(h[i + 1]);
    }
  }

  lemma SameSeparationIsMeasured(hypot: (real, real) -> real, h: seq<Event>, closest: real)
    requires Attained(hypot, closest)
    requires forall k | 0 <= k < |h| :: h[k].Report? && h[k] == At(h[k].nowNs, closest)
    ensures AllMeasured(hypot, h)
  {
    forall k | 0 <= k < |h|
      ensures Measured(hypot, h[k])
    {
      assert Measured(hypot, At(h[k].nowNs, closest));
    }
    AllAreMeasured(hypot, h);
  }

  lemma StalledIsPossible(hypot: (real, real) -> real, pace: nat, closest: real)
    requires Attained(hypot, closest) && pace > HOLD_NS
    ensures Possible(hypot, pace, Stalled(closest))
  {
    SameSeparationIsMeasured(hypot, Stalled(closest), closest);
    StalledIsPaced(pace, closest);
  }

  lemma StalledIsEvaluated(closest: real)
    ensures IsEvaluation(Stalled(closest), 0, 2, 2)
  {
    var h := Stalled(closest);
    InFormationAll(h, 0, 3);
    assert Live(h[0]);
    forall s, j | CompletesAt(h, s, j)
      ensures 2 <= j
    {
      assert h[j].nowNs - h[s].nowNs >= DWELL_AND_HOLD_NS;
    }
  }

  lemma StalledPasses(closest: real, floor: real)
    requires closest >= HARD_FLOOR
    ensures Passed(Run(Stalled(closest), floor))
  {
    var h := Stalled(closest);
    StalledIsEvaluated(closest);
    PassOnHistory(h, floor);
    NoneTallied(ActiveDecision(), h[2..2]);
    assert HeldFormation(h, floor, 0, 2, 2);
  }

  lemma StallIsNotChecked(hypot: (real, real) -> real, pace: nat, floor: real)
    requires IsHypot(hypot) && pace > HOLD_NS && floor > LEAST_GAP
    ensures !PassAlwaysCovers(hypot, pace, floor)
  {
    var h := Stalled(LEAST_GAP);
    LeastIsAttained(hypot);
    StalledIsPossible(hypot, pace, LEAST_GAP);
    StalledPasses(LEAST_GAP, floor);
    StalledIsEvaluated(LEAST_GAP);
    EvaluationIsMarked(h, floor, 0, 2, 2);
    PassCoversCompletingReport(h, floor);
  }

  // A PASS vouches for the floor in every report through the completing one exactly
  // for floors up to 2.8 m, and, while reports are at most ten seconds apart, for
  // floors that cannot pass at all.
  lemma PassCoversExactly(hypot: (real, real) -> real, pace: nat, floor: real)
    requires IsHypot(hypot) && pace >= TIMER_NS
    ensures PassAlwaysCovers(hypot, pace, floor)
            <==> floor <= LEAST_GAP || (pace <= HOLD_NS && floor > Widest(hypot))
  {
    if floor <= LEAST_GAP {
      forall h | Possible(hypot, pace, h) && Passed(Run(h, floor))
        ensures KeptThrough(h, floor, MarksOf(h, floor).established, MarksOf(h, floor).completed)
      {
        PassKeepsHardFloor(hypot, h, floor);
      }
    } else if pace > HOLD_NS {
      StallIsNotChecked(hypot, pace, floor);
    } else if floor <= Widest(hypot) {
      LastReportIsNotChecked(hypot, pace, floor);
    } else {
      PassPossibleExactly(hypot, pace, floor);
    }
  }
}
