// When the formation evaluation completes and when it passes, stated on the
// history of callbacks alone.
module FormationHistory {
  import opened Separation

  // A report that can start a candidate run.
  predicate Live(e: Event) {
    Counted(e) && e.inFormation && e.nowNs != 0
  }

  // A candidate run starts at s: no earlier report that could start one is joined to
  // it by an unbroken formation.
  ghost predicate IsStart(h: seq<Event>, s: int) {
    0 <= s < |h| && Live(h[s]) && forall k | 0 <= k < s && Live(h[k]) :: !InFormationThrough(h, k, s)
  }

  // An unbroken formation from s to the counted report j, at least `ns` later.
  ghost predicate Spans(h: seq<Event>, s: int, j: int, ns: int) {
    && 0 <= s <= j < |h| && Counted(h[s]) && Counted(h[j]) && InFormationThrough(h, s, j + 1)
    && h[j].nowNs - h[s].nowNs >= ns
  }

  ghost predicate CompletesAt(h: seq<Event>, s: int, j: int) {
    IsStart(h, s) && Spans(h, s, j, DWELL_AND_HOLD_NS)
  }

  ghost predicate CompletesNow(h: seq<Event>, s: int) {
    CompletesAt(h, s, |h| - 1)
  }

  // The first report of the run that dwelt for two seconds.
  ghost predicate IsEstablished(h: seq<Event>, s: int, e: int) {
    Spans(h, s, e, DWELL_NS) && forall i | s <= i < e && Counted(h[i]) :: h[i].nowNs - h[s].nowNs < DWELL_NS
  }

  // The evaluation of a history: the first completion, and its establishment.
  ghost predicate IsEvaluation(h: seq<Event>, s: int, e: int, j: int) {
    && CompletesAt(h, s, j) && IsEstablished(h, s, e) && e <= j
    && forall s', j' | CompletesAt(h, s', j') :: j <= j'
  }

  // ---- One more event ----

  lemma ThroughPrefix(h: seq<Event>, i: int)
    requires h != [] && 0 <= i < |h|
    ensures InFormationThrough(h, i, |h| - 1) <==> InFormationThrough(h[..|h| - 1], i, |h| - 1)
    ensures InFormationThrough(h, i, |h|)
            <==> InFormationThrough(h[..|h| - 1], i, |h| - 1) && (Counted(h[|h| - 1]) ==> h[|h| - 1].inFormation)
  {
    var g := h[..|h| - 1];
    assert forall k | 0 <= k < |g| :: g[k] == h[k];
    if InFormationThrough(g, i, |h| - 1) && (Counted(h[|h| - 1]) ==> h[|h| - 1].inFormation) {
      FormationExtends(h, i);
    }
  }

  lemma InnerPrefix(h: seq<Event>, i: int, b: int)
    requires h != [] && b < |h|
    ensures InFormationThrough(h, i, b) <==> InFormationThrough(h[..|h| - 1], i, b)
  {
    assert forall k | 0 <= k < |h| - 1 :: h[..|h| - 1][k] == h[k];
  }

  lemma StartPrefix(h: seq<Event>, s: int)
    requires h != [] && s < |h| - 1
    ensures IsStart(h, s) <==> IsStart(h[..|h| - 1], s)
  {
    var g := h[..|h| - 1];
    assert forall k | 0 <= k < |g| :: g[k] == h[k];
    forall k | 0 <= k < s
      ensures InFormationThrough(h, k, s) <==> InFormationThrough(g, k, s)
    {
      InnerPrefix(h, k, s);
    }
  }

  lemma SpansPrefix(h: seq<Event>, s: int, j: int, ns: int)
    requires h != [] && j < |h| - 1
    ensures Spans(h, s, j, ns) <==> Spans(h[..|h| - 1], s, j, ns)
  {
    InnerPrefix(h, s, j + 1);
  }

  lemma CompletesPrefix(h: seq<Event>, s: int, j: int)
    requires h != [] && j < |h| - 1
    ensures CompletesAt(h, s, j) <==> CompletesAt(h[..|h| - 1], s, j)
  {
    if 0 <= s <= j {
      StartPrefix(h, s);
      SpansPrefix(h, s, j, DWELL_AND_HOLD_NS);
    }
  }

  lemma EstablishedPrefix(h: seq<Event>, s: int, e: int)
    requires h != [] && e < |h| - 1
    ensures IsEstablished(h, s, e) <==> IsEstablished(h[..|h| - 1], s, e)
  {
    SpansPrefix(h, s, e, DWELL_NS);
    assert forall k | 0 <= k < |h| - 1 :: h[..|h| - 1][k] == h[k];
  }

  // ---- What the monitor tracks ----

  ghost predicate NoneLive(h: seq<Event>) {
    forall i | 0 <= i < |h| && Live(h[i]) :: !InFormationThrough(h, i, |h|)
  }

  ghost predicate TracksCandidate(h: seq<Event>, m: Monitor, k: Marks) {
    if m.candidateNs == 0 then NoneLive(h)
    else IsStart(h, k.start) && InFormationThrough(h, k.start, |h|) && h[k.start].nowNs == m.candidateNs
  }

  ghost predicate ShortSoFar(h: seq<Event>, s: int) {
    forall i | 0 <= s <= i < |h| && Counted(h[i]) && Counted(h[s]) :: h[i].nowNs - h[s].nowNs < DWELL_NS
  }

  ghost predicate TracksFormation(h: seq<Event>, m: Monitor, k: Marks) {
    if m.formationNs != 0 then m.candidateNs != 0 && IsEstablished(h, k.start, k.established)
    else m.candidateNs != 0 ==> ShortSoFar(h, k.start)
  }

  ghost predicate NoneComplete(h: seq<Event>) {
    forall s, j :: !CompletesAt(h, s, j)
  }

  ghost predicate Tracked(h: seq<Event>, m: Monitor, k: Marks) {
    TracksCandidate(h, m, k) && TracksFormation(h, m, k) && NoneComplete(h)
  }

  // Two runs that are both unbroken up to now start at the same report.
  lemma StartIsUnique(h: seq<Event>, s: int, t: int)
    requires IsStart(h, s) && IsStart(h, t)
    requires InFormationThrough(h, s, |h|) && InFormationThrough(h, t, |h|)
    ensures s == t
  {
    assert s < t ==> InFormationThrough(h, s, t);
    assert t < s ==> InFormationThrough(h, t, s);
  }

  // An event that is no counted report changes nothing.
  lemma UncountedIsTracked(h: seq<Event>, m: Monitor, k: Marks)
    requires h != [] && !Counted(h[|h| - 1]) && Tracked(h[..|h| - 1], m, k)
    ensures Tracked(h, m, k)
  {
    var g := h[..|h| - 1];
    assert forall i | 0 <= i < |g| :: g[i] == h[i];
    forall i | 0 <= i < |g|
      ensures InFormationThrough(h, i, |h|) <==> InFormationThrough(g, i, |g|)
    {
      ThroughPrefix(h, i);
    }
    if m.candidateNs != 0 {
      StartPrefix(h, k.start);
    }
    if m.formationNs != 0 {
      EstablishedPrefix(h, k.start, k.established);
    }
    NoneCompletesNow(h);
  }

  // A report that is not counted or not in formation completes nothing.
  lemma NoneCompletesNow(h: seq<Event>)
    requires h != [] && NoneComplete(h[..|h| - 1])
    requires !(Counted(h[|h| - 1]) && h[|h| - 1].inFormation)
    ensures NoneComplete(h)
  {
    forall s, j
      ensures !CompletesAt(h, s, j)
    {
      if j < |h| - 1 {
        CompletesPrefix(h, s, j);
      }
    }
  }

  lemma LossIsTracked(h: seq<Event>, m: Monitor, k: Marks, k': Marks)
    requires h != [] && Counted(h[|h| - 1]) && !h[|h| - 1].inFormation && Tracked(h[..|h| - 1], m, k)
    ensures Tracked(h, Lose(m), k')
  {
    NoneCompletesNow(h);
  }

  // The candidate run after an in-formation report.
  lemma CandidateIsTracked(h: seq<Event>, m: Monitor, k: Marks, k': Marks)
    requires h != [] && Counted(h[|h| - 1]) && h[|h| - 1].inFormation && TracksCandidate(h[..|h| - 1], m, k)
    requires Hold(m, h[|h| - 1].nowNs).candidateNs != 0 ==>
               k'.start == if m.candidateNs == 0 then |h| - 1 else k.start
    ensures TracksCandidate(h, Hold(m, h[|h| - 1].nowNs), k')
  {
    var g := h[..|h| - 1];
    assert forall i | 0 <= i < |g| :: g[i] == h[i];
    forall i | 0 <= i < |h|
      ensures InFormationThrough(h, i, |h|) <==> InFormationThrough(g, i, |g|)
      ensures InFormationThrough(h, i, |g|) <==> InFormationThrough(g, i, |g|)
    {
      ThroughPrefix(h, i);
    }
    if m.candidateNs != 0 {
      StartPrefix(h, k.start);
    }
  }

  lemma FormationIsTracked(h: seq<Event>, m: Monitor, k: Marks, k': Marks)
    requires h != [] && Counted(h[|h| - 1]) && h[|h| - 1].inFormation
    requires Tracked(h[..|h| - 1], m, k) && TracksCandidate(h, Hold(m, h[|h| - 1].nowNs), k')
    requires var held := Hold(m, h[|h| - 1].nowNs);
             && (held.candidateNs != 0 ==> k'.start == if m.candidateNs == 0 then |h| - 1 else k.start)
             && (held.formationNs != 0 ==> k'.established == if m.formationNs == 0 then |h| - 1 else k.established)
    ensures TracksFormation(h, Hold(m, h[|h| - 1].nowNs), k')
  {
    var g := h[..|h| - 1];
    assert forall i | 0 <= i < |g| :: g[i] == h[i];
    if m.formationNs != 0 {
      EstablishedPrefix(h, k.start, k.established);
    }
  }

  // The dwell of the candidate run decides completion.
  lemma HoldCompletes(h: seq<Event>, m: Monitor, k': Marks)
    requires h != [] && Counted(h[|h| - 1]) && h[|h| - 1].inFormation && m.completeNs == 0
    requires var held := Hold(m, h[|h| - 1].nowNs); TracksCandidate(h, held, k') && TracksFormation(h, held, k')
    ensures Hold(m, h[|h| - 1].nowNs).completeNs != 0 <==> exists s :: CompletesNow(h, s)
    ensures Hold(m, h[|h| - 1].nowNs).completeNs != 0 ==> CompletesNow(h, k'.start)
  {
    var held := Hold(m, h[|h| - 1].nowNs);
    var last := h[|h| - 1];
    if held.completeNs != 0 {
      assert last.nowNs - held.candidateNs >= DWELL_AND_HOLD_NS && held.candidateNs != 0;
      assert CompletesNow(h, k'.start);
    }
    if s :| CompletesNow(h, s) {
      assert InFormationThrough(h, s, |h|) && Live(h[s]);
      assert held.candidateNs != 0;
      StartIsUnique(h, s, k'.start);
    }
  }

  lemma HoldIsTracked(h: seq<Event>, m: Monitor, k: Marks, k': Marks)
    requires h != [] && Counted(h[|h| - 1]) && h[|h| - 1].inFormation
    requires m.completeNs == 0 && Tracked(h[..|h| - 1], m, k)
    requires var held := Hold(m, h[|h| - 1].nowNs);
             && (held.candidateNs != 0 ==> k'.start == if m.candidateNs == 0 then |h| - 1 else k.start)
             && (held.formationNs != 0 ==> k'.established == if m.formationNs == 0 then |h| - 1 else k.established)
    ensures var held := Hold(m, h[|h| - 1].nowNs);
            if held.completeNs == 0 then Tracked(h, held, k')
            else IsEvaluation(h, k'.start, k'.established, |h| - 1)
  {
    CandidateIsTracked(h, m, k, k');
    FormationIsTracked(h, m, k, k');
    HoldCompletes(h, m, k');
    forall s, j | CompletesAt(h, s, j)
      ensures j == |h| - 1 && CompletesNow(h, s)
    {
      if j < |h| - 1 {
        CompletesPrefix(h, s, j);
      }
    }
  }

  lemma EvaluationStays(h: seq<Event>, s: int, e: int, j: int)
    requires h != [] && IsEvaluation(h[..|h| - 1], s, e, j)
    ensures IsEvaluation(h, s, e, j)
  {
    CompletesPrefix(h, s, j);
    EstablishedPrefix(h, s, e);
    forall s', j' | CompletesAt(h, s', j')
      ensures j <= j'
    {
      if j' < |h| - 1 {
        CompletesPrefix(h, s', j');
      }
    }
  }

  ghost predicate FollowsHistory(h: seq<Event>, m: Monitor, k: Marks) {
    if m.completeNs == 0 then Tracked(h, m, k) else IsEvaluation(h, k.start, k.established, k.completed)
  }

  // Over every interleaving of callbacks the monitor follows the history.
  lemma {:induction false} EveryRunFollowsHistory(h: seq<Event>, floor: real)
    ensures FollowsHistory(h, Run(h, floor), MarksOf(h, floor))
  {
    if h != [] {
      var g, last := h[..|h| - 1], h[|h| - 1];
      var m, k, k' := Run(g, floor), MarksOf(g, floor), MarksOf(h, floor);
      EveryRunFollowsHistory(g, floor);
      if m.completeNs != 0 {
        EvaluationStays(h, k.start, k.established, k.completed);
      } else if !Counted(last) {
        UncountedIsTracked(h, m, k);
      } else if !last.inFormation {
        LossIsTracked(h, m, k, k');
      } else {
        HoldIsTracked(h, m, k, k');
      }
    }
  }

  // ---- The verdict, on the history alone ----

  // The evaluation completes exactly when some candidate run spans twelve seconds.
  lemma CompletionExactly(h: seq<Event>, floor: real)
    ensures Run(h, floor).completeNs != 0 <==> exists s, j :: CompletesAt(h, s, j)
  {
    EveryRunFollowsHistory(h, floor);
  }

  lemma EvaluationIsUnique(h: seq<Event>, s: int, e: int, j: int, s': int, e': int, j': int)
    requires IsEvaluation(h, s, e, j) && IsEvaluation(h, s', e', j')
    ensures s == s' && e == e' && j == j'
  {
    assert s < s' ==> InFormationThrough(h, s, s');
    assert s' < s ==> InFormationThrough(h, s', s);
  }

  // The marks of a completed monitor are the evaluation of its history.
  lemma EvaluationIsMarked(h: seq<Event>, floor: real, s: int, e: int, j: int)
    ensures IsEvaluation(h, s, e, j) <==> Run(h, floor).completeNs != 0 && MarksOf(h, floor) == Marks(s, e, j)
  {
    var k := MarksOf(h, floor);
    EveryRunFollowsHistory(h, floor);
    if IsEvaluation(h, s, e, j) {
      CompletionExactly(h, floor);
      EvaluationIsUnique(h, s, e, j, k.start, k.established, k.completed);
    }
  }

  // PASS exactly when the history has an evaluation and it was held.
  lemma PassOnHistory(h: seq<Event>, floor: real)
    ensures Passed(Run(h, floor)) <==> exists s, e, j :: IsEvaluation(h, s, e, j) && HeldFormation(h, floor, s, e, j)
  {
    var k := MarksOf(h, floor);
    PassExactly(h, floor);
    EvaluationIsMarked(h, floor, k.start, k.established, k.completed);
    if s, e, j :| IsEvaluation(h, s, e, j) && HeldFormation(h, floor, s, e, j) {
      EvaluationIsMarked(h, floor, s, e, j);
    }
  }
}
