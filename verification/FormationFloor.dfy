// What the line tolerances imply for the separation floor: a fleet in formation is
// never nearer than 2.8 m, so a floor up to that has no effect on the verdict.
module FormationFloor {
  import opened FormationLine
  import opened Separation

  lemma InFormationIsFar(hypot: (real, real) -> real, e: Event)
    requires IsHypot(hypot) && Measured(hypot, e) && Counted(e) && e.inFormation
    ensures e.closest >= LEAST_GAP
  {
    var world :| IsReport(hypot, e, world, e.nowNs);
    InLineKeepsApart(hypot, world, e.closest);
  }

  lemma InFormationIsNear(hypot: (real, real) -> real, e: Event)
    requires IsHypot(hypot) && Measured(hypot, e) && Counted(e) && e.inFormation
    ensures e.closest <= Widest(hypot)
  {
    var world :| IsReport(hypot, e, world, e.nowNs);
    InLineStaysNear(hypot, world, e.closest);
  }

  lemma {:induction false} EachIsMeasured(hypot: (real, real) -> real, h: seq<Event>, k: nat)
    requires AllMeasured(hypot, h) && k < |h|
    ensures Measured(hypot, h[k])
  {
    if k < |h| - 1 {
      EachIsMeasured(hypot, h[..|h| - 1], k);
    }
  }

  lemma SmallFloorsStepAlike(hypot: (real, real) -> real, m: Monitor, e: Event, f: real, g: real)
    requires IsHypot(hypot) && Measured(hypot, e) && f <= LEAST_GAP && g <= LEAST_GAP
    ensures Step(m, e, f) == Step(m, e, g)
  {
    if Counted(e) && e.inFormation {
      InFormationIsFar(hypot, e);
    }
  }

  // Over every run, two floors up to 2.8 m give the same monitor.
  lemma {:induction false} SmallFloorsAgree(hypot: (real, real) -> real, h: seq<Event>, f: real, g: real)
    requires IsHypot(hypot) && AllMeasured(hypot, h) && f <= LEAST_GAP && g <= LEAST_GAP
    ensures Run(h, f) == Run(h, g)
  {
    if h != [] {
      var before := h[..|h| - 1];
      SmallFloorsAgree(hypot, before, f, g);
      SmallFloorsStepAlike(hypot, Run(before, f), h[|h| - 1], f, g);
    }
  }

  // With such a floor no run ever counts a formation breach.
  lemma {:induction false} SmallFloorNeverBreaches(hypot: (real, real) -> real, h: seq<Event>, floor: real)
    requires IsHypot(hypot) && AllMeasured(hypot, h) && floor <= LEAST_GAP
    ensures Run(h, floor).formationBreaches == 0
  {
    if h != [] {
      var before, last := h[..|h| - 1], h[|h| - 1];
      SmallFloorNeverBreaches(hypot, before, floor);
      if Counted(last) && last.inFormation {
        InFormationIsFar(hypot, last);
      }
    }
  }

  // A PASS always vouches for the hard floor in the completing report too, and for
  // the floor asked for exactly when that report keeps it.
  lemma PassKeepsHardFloor(hypot: (real, real) -> real, h: seq<Event>, floor: real)
    requires IsHypot(hypot) && AllMeasured(hypot, h) && Passed(Run(h, floor))
    ensures var k := MarksOf(h, floor);
            && 0 <= k.established <= k.completed < |h| && Counted(h[k.completed])
            && h[k.completed].closest >= LEAST_GAP
            && (KeptThrough(h, floor, k.established, k.completed) <==> h[k.completed].closest >= floor)
  {
    var k := MarksOf(h, floor);
    MarksAreHeld(h, floor);
    assert InFormationThrough(h, k.start, k.completed + 1);
    EachIsMeasured(hypot, h, k.completed);
    InFormationIsFar(hypot, h[k.completed]);
    PassCoversCompletingReport(h, floor);
  }
}
