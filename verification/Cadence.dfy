// record_shared_cm2: which frames of the shared pool are written to the bag,
// and how the frames it never saw are accounted for.
module Cadence {
  import opened Outcomes

  // One frame the pool hands out; `torn` when copying it out of shared memory
  // lost the race with the writer.
  datatype Frame = Frame(sequence: nat, realtimeNs: int, torn: bool)

  datatype Stats = Stats(seen: nat, written: nat, sequenceDrops: int, torn: nat)

  const AUDIT_NS := 1_000_000_000

  // latest_after(s) returns nothing or a frame with a larger sequence number, so
  // the frames of a run have increasing, positive sequence numbers.
  ghost predicate PoolOrder(frames: seq<Frame>) {
    && (frames != [] ==> frames[0].sequence > 0)
    && forall i, j | 0 <= i < j < |frames| :: frames[i].sequence < frames[j].sequence
  }

  // The frames among what each poll returned.
  ghost function Arrived(polls: seq<Option<Frame>>): seq<Frame> {
    if polls == [] then []
    else
      var before, last := Arrived(polls[..|polls| - 1]), polls[|polls| - 1];
      if last.Some? then before + [last.value] else before
  }

  // ---- The reference: one frame per period cell ----

  // The period cell of a stamp, counted from the first written stamp.
  ghost function Slot(first: int, period: nat, t: int): int
    requires period > 0
  {
    (t - first) / period
  }

  // A frame is due when no limit applies, nothing is written yet, or it falls in
  // a later cell than the last written one.
  ghost predicate Due(written: seq<int>, period: nat, t: int) {
    period == 0 || written == [] || Slot(written[0], period, t) > Slot(written[0], period, written[|written| - 1])
  }

  ghost function Written(frames: seq<Frame>, period: nat): seq<int> {
    if frames == [] then []
    else
      var before, f := Written(frames[..|frames| - 1], period), frames[|frames| - 1];
      if Due(before, period, f.realtimeNs) && !f.torn then before + [f.realtimeNs] else before
  }

  ghost function Torn(frames: seq<Frame>, period: nat): nat {
    if frames == [] then 0
    else
      var before, f := frames[..|frames| - 1], frames[|frames| - 1];
      Torn(before, period) + if Due(Written(before, period), period, f.realtimeNs) && f.torn then 1 else 0
  }

  // Stamps at which the clock offset is audited: written stamps at least one
  // second past the last audited one.
  ghost function Audited(written: seq<int>): seq<int> {
    if written == [] then []
    else
      var before, t := Audited(written[..|written| - 1]), written[|written| - 1];
      if t - (if before == [] then 0 else before[|before| - 1]) >= AUDIT_NS then before + [t] else before
  }

  // Audits are written stamps at least a second apart, the first one at least a second
  // after zero, and after every written stamp less than a second has gone unaudited.
  lemma {:induction false} AuditsAreSpread(written: seq<int>)
    ensures var audits := Audited(written);
            && (forall t | t in audits :: t in written && t >= 1_000_000_000)
            && (forall i | 0 <= i < |audits| - 1 :: audits[i + 1] - audits[i] >= 1_000_000_000)
            && (written != [] ==>
                  written[|written| - 1] - (if audits == [] then 0 else audits[|audits| - 1]) < 1_000_000_000)
  {
    if written != [] {
      AuditsAreSpread(written[..|written| - 1]);
      var before, t := Audited(written[..|written| - 1]), written[|written| - 1];
      assert before != [] ==> before[|before| - 1] in before;
    }
  }

  // ---- The cadence gate ----

  // next_record_ns, from the stamps written so far: the start of the next cell.
  ghost predicate IsNextRecord(written: seq<int>, period: nat, next: Option<int>) {
    if period == 0 || written == [] then next == None
    else next == Some(written[0] + (Slot(written[0], period, written[|written| - 1]) + 1) * period)
  }

  lemma MultiplesOrder(a: int, b: int, period: nat)
    requires a <= b
    ensures a * period <= b * period
  {
  }

  lemma SlotBounds(first: int, period: nat, t: int)
    requires period > 0
    ensures var k := Slot(first, period, t); first + k * period <= t < first + (k + 1) * period
  {
    var k := (t - first) / period;
    assert t - first == k * period + (t - first) % period;
    assert (k + 1) * period == k * period + period;
  }

  lemma SlotIsUnique(first: int, period: nat, t: int, k: int)
    requires period > 0 && first + k * period <= t < first + (k + 1) * period
    ensures Slot(first, period, t) == k
  {
    var s := Slot(first, period, t);
    SlotBounds(first, period, t);
    if s < k {
      MultiplesOrder(s + 1, k, period);
    } else if s > k {
      MultiplesOrder(k + 1, s, period);
    }
  }

  // Reaching next_record_ns is the same as entering a later cell.
  lemma GateIsDue(written: seq<int>, period: nat, next: Option<int>, t: int)
    requires IsNextRecord(written, period, next)
    ensures Due(written, period, t) <==> period == 0 || next == None || t >= next.value
  {
    if period > 0 && written != [] {
      var first := written[0];
      var last, s := Slot(first, period, written[|written| - 1]), Slot(first, period, t);
      SlotBounds(first, period, t);
      if s > last {
        MultiplesOrder(last + 1, s, period);
      } else {
        MultiplesOrder(s + 1, last + 1, period);
      }
    }
  }

  // Advancing next_record_ns by whole periods past the frame lands on the start
  // of the cell after the frame's.
  lemma NextAdvances(written: seq<int>, period: nat, next: int, t: int)
    requires period > 0 && written != [] && IsNextRecord(written, period, Some(next)) && t >= next
    ensures (t - next) / period + 1 >= 1
    ensures IsNextRecord(written + [t], period, Some(next + ((t - next) / period + 1) * period))
  {
    var first := written[0];
    var last, k := Slot(first, period, written[|written| - 1]), (t - next) / period;
    SlotBounds(next, period, t);
    if k <= -1 {
      MultiplesOrder(k + 1, 0, period);
    }
    var cell := last + 1 + k;
    assert first + cell * period == next + k * period;
    assert first + (cell + 1) * period == next + (k + 1) * period;
    SlotIsUnique(first, period, t, cell);
  }

  lemma FirstNext(period: nat, t: int)
    requires period > 0
    ensures IsNextRecord([t], period, Some(t + period))
  {
    SlotIsUnique(t, period, t, 0);
  }

  // The loop's variables, and the stamps of the images and of the clock audits
  // written to the bag.
  datatype Recorder = Recorder(
    stats: Stats, lastSeen: nat, next: Option<int>, lastClockNs: int, images: seq<int>, clocks: seq<int>)

  ghost predicate CountsHold(frames: seq<Frame>, period: nat, r: Recorder) {
    && r.stats.seen == |frames| && r.stats.torn == Torn(frames, period)
    && r.stats.written == |Written(frames, period)|
    && (frames == [] ==> r.lastSeen == 0 && r.stats.sequenceDrops == 0)
    && (frames != [] ==>
          && r.lastSeen == frames[|frames| - 1].sequence && r.lastSeen > 0
          && r.stats.seen + r.stats.sequenceDrops == r.lastSeen - frames[0].sequence + 1)
  }

  // The gate and the audit clock fit the stamps written so far.
  ghost predicate InStep(r: Recorder, period: nat) {
    && IsNextRecord(r.images, period, r.next) && r.clocks == Audited(r.images)
    && r.lastClockNs == if r.clocks == [] then 0 else r.clocks[|r.clocks| - 1]
  }

  ghost predicate GateHolds(frames: seq<Frame>, period: nat, r: Recorder) {
    r.images == Written(frames, period) && InStep(r, period)
  }

  // The gate records a frame exactly when the reference does.
  lemma GateStep(frames: seq<Frame>, period: nat, next: Option<int>, f: Frame, shouldRecord: bool)
    requires IsNextRecord(Written(frames, period), period, next)
    requires shouldRecord <==> period == 0 || next == None || f.realtimeNs >= next.value
    ensures Written(frames + [f], period)
         == Written(frames, period) + if shouldRecord && !f.torn then [f.realtimeNs] else []
    ensures Torn(frames + [f], period) == Torn(frames, period) + if shouldRecord && f.torn then 1 else 0
  {
    GateIsDue(Written(frames, period), period, next, f.realtimeNs);
    assert (frames + [f])[..|frames|] == frames;
  }

  lemma AuditStep(written: seq<int>, t: int)
    ensures var before := Audited(written);
            Audited(written + [t])
              == before + if t - (if before == [] then 0 else before[|before| - 1]) >= AUDIT_NS then [t] else []
  {
    assert (written + [t])[..|written|] == written;
  }

  // next_record_ns after writing a frame stamped t.
  method AdvanceNext(period: nat, next: Option<int>, t: int, ghost written: seq<int>) returns (after: Option<int>)
    requires IsNextRecord(written, period, next)
    requires period == 0 || next == None || t >= next.value
    ensures IsNextRecord(written + [t], period, after)
  {
    after := next;
    if period != 0 {
      if next == None {
        FirstNext(period, t);
        assert written + [t] == [t];
        after := Some(t + period);
      } else {
        NextAdvances(written, period, next.value, t);
        var periods := (t - next.value) / period + 1;
        periods := if periods < 1 then 1 else periods;
        after := Some(next.value + periods * period);
      }
    }
  }

  // The sequence numbers skipped before a frame.
  function Skipped(lastSeen: nat, sequence: nat): nat {
    if lastSeen != 0 && sequence > lastSeen + 1 then sequence - lastSeen - 1 else 0
  }

  predicate PassesGate(r: Recorder, period: nat, f: Frame) {
    period == 0 || r.next == None || f.realtimeNs >= r.next.value
  }

  // What one frame makes of the counters and of the stamps in the bag.
  ghost predicate FrameTaken(r: Recorder, period: nat, f: Frame, after: Recorder) {
    && after.lastSeen == f.sequence && after.stats.seen == r.stats.seen + 1
    && after.stats.sequenceDrops == r.stats.sequenceDrops + Skipped(r.lastSeen, f.sequence)
    && after.stats.torn == r.stats.torn + (if PassesGate(r, period, f) && f.torn then 1 else 0)
    && after.stats.written == r.stats.written + (if PassesGate(r, period, f) && !f.torn then 1 else 0)
    && after.images == r.images + if PassesGate(r, period, f) && !f.torn then [f.realtimeNs] else []
  }

  // Write a whole frame, audit the clock when it is due, and move the gate on.
  method WriteFrame(r: Recorder, t: int, period: nat) returns (after: Recorder)
    requires InStep(r, period) && (period == 0 || r.next == None || t >= r.next.value)
    ensures InStep(after, period) && after.images == r.images + [t]
    ensures after.lastSeen == r.lastSeen && after.stats == r.stats.(written := r.stats.written + 1)
  {
    AuditStep(r.images, t);
    var next := AdvanceNext(period, r.next, t, r.images);
    after := r.(stats := r.stats.(written := r.stats.written + 1), next := next, images := r.images + [t]);
    if t - r.lastClockNs >= AUDIT_NS {
      after := after.(lastClockNs := t, clocks := r.clocks + [t]);
    }
  }

  // Counters do not enter the gate.
  lemma GateIgnoresCounters(r: Recorder, stats: Stats, lastSeen: nat, period: nat)
    requires InStep(r, period)
    ensures InStep(r.(stats := stats, lastSeen := lastSeen), period)
  {
  }

  // One turn of the loop with a frame in hand.
  method HandleFrame(r: Recorder, metadata: Frame, period: nat) returns (after: Recorder)
    requires InStep(r, period)
    ensures InStep(after, period) && FrameTaken(r, period, metadata, after)
  {
    var stats := r.stats.(seen := r.stats.seen + 1);
    if r.lastSeen != 0 && metadata.sequence > r.lastSeen + 1 {
      stats := stats.(sequenceDrops := stats.sequenceDrops + (metadata.sequence - r.lastSeen - 1));
    }
    var shouldRecord := period == 0 || r.next == None || metadata.realtimeNs >= r.next.value;
    after := r.(stats := stats, lastSeen := metadata.sequence);
    GateIgnoresCounters(r, stats, metadata.sequence, period);
    if shouldRecord && metadata.torn {
      GateIgnoresCounters(r, stats.(torn := stats.torn + 1), metadata.sequence, period);
      after := after.(stats := stats.(torn := stats.torn + 1));
    } else if shouldRecord {
      after := WriteFrame(after, metadata.realtimeNs, period);
    }
  }

  lemma SequencesAreCounted(frames: seq<Frame>, period: nat, f: Frame, r: Recorder)
    requires CountsHold(frames, period, r) && PoolOrder(frames + [f])
    ensures f.sequence > 0
    ensures r.stats.seen + 1 + r.stats.sequenceDrops + Skipped(r.lastSeen, f.sequence)
         == f.sequence - (frames + [f])[0].sequence + 1
  {
    var longer, n := frames + [f], |frames|;
    assert longer[n] == f;
    assert n > 0 ==>
             longer[0] == frames[0] && longer[n - 1] == frames[n - 1] && longer[n - 1].sequence < longer[n].sequence;
  }

  // One frame keeps the recorder in step with the reference.
  lemma FrameKeepsStep(frames: seq<Frame>, period: nat, f: Frame, r: Recorder, after: Recorder)
    requires CountsHold(frames, period, r) && GateHolds(frames, period, r) && PoolOrder(frames + [f])
    requires InStep(after, period) && FrameTaken(r, period, f, after)
    ensures CountsHold(frames + [f], period, after) && GateHolds(frames + [f], period, after)
  {
    SequencesAreCounted(frames, period, f, r);
    GateStep(frames, period, r.next, f, PassesGate(r, period, f));
  }

  // Over any run the images written are those of the reference, the clock audits
  // are at least a second apart, and the frames seen and the frames skipped account
  // for every sequence number.
  method RecordSharedCm2(polls: seq<Option<Frame>>, period: nat) returns (r: Recorder)
    requires PoolOrder(Arrived(polls))
    ensures CountsHold(Arrived(polls), period, r) && GateHolds(Arrived(polls), period, r)
    ensures r.images == Written(Arrived(polls), period)
  {
    r := Recorder(Stats(0, 0, 0, 0), 0, None, 0, [], []);
    for i := 0 to |polls|
      invariant CountsHold(Arrived(polls[..i]), period, r) && GateHolds(Arrived(polls[..i]), period, r)
    {
      assert polls[..i + 1][..i] == polls[..i];
      ArrivedPrefix(polls, i + 1);
      if polls[i].Some? {
        ghost var before := r;
        r := HandleFrame(r, polls[i].value, period);
        FrameKeepsStep(Arrived(polls[..i]), period, polls[i].value, before, r);
      }
    }
    assert polls[..|polls|] == polls;
  }

  lemma OrderOfPrefix(frames: seq<Frame>, f: Frame)
    requires PoolOrder(frames + [f])
    ensures PoolOrder(frames)
  {
    assert forall i | 0 <= i < |frames| :: (frames + [f])[i] == frames[i];
  }

  lemma {:induction false} ArrivedPrefix(polls: seq<Option<Frame>>, i: nat)
    requires i <= |polls| && PoolOrder(Arrived(polls))
    ensures PoolOrder(Arrived(polls[..i]))
    decreases |polls| - i
  {
    if i == |polls| {
      assert polls[..i] == polls;
    } else {
      ArrivedPrefix(polls, i + 1);
      assert polls[..i + 1][..i] == polls[..i];
      if polls[i].Some? {
        OrderOfPrefix(Arrived(polls[..i]), polls[i].value);
      }
    }
  }

  // ---- What the cadence guarantees ----

  // The next due stamp lies on the first frame's period grid, after the last
  // written stamp and at most one period later.
  lemma NextIsOnGrid(written: seq<int>, period: nat, next: int)
    requires period > 0 && written != [] && IsNextRecord(written, period, Some(next))
    ensures var last := written[|written| - 1];
            && last < next <= last + period
            && exists k :: next == written[0] + k * period
  {
    var first, last := written[0], written[|written| - 1];
    var k := Slot(first, period, last);
    SlotBounds(first, period, last);
    assert next == first + (k + 1) * period == first + k * period + period;
  }

  // Written stamps enter ever later cells, whatever the clock does.
  lemma {:induction false} CellsIncrease(frames: seq<Frame>, period: nat, i: nat, j: nat)
    requires period > 0
    requires var w := Written(frames, period); i < j < |w|
    ensures var w := Written(frames, period); Slot(w[0], period, w[i]) < Slot(w[0], period, w[j])
  {
    var n := |frames| - 1;
    var w, before := Written(frames, period), Written(frames[..n], period);
    if j < |before| {
      CellsIncrease(frames[..n], period, i, j);
    } else if i < |before| - 1 {
      CellsIncrease(frames[..n], period, i, |before| - 1);
    }
  }

  lemma PacedStampsIncrease(frames: seq<Frame>, period: nat, i: nat, j: nat)
    requires period > 0
    requires var w := Written(frames, period); i < j < |w|
    ensures var w := Written(frames, period); w[i] < w[j]
  {
    var w := Written(frames, period);
    CellsIncrease(frames, period, i, j);
    var a, b := Slot(w[0], period, w[i]), Slot(w[0], period, w[j]);
    SlotBounds(w[0], period, w[i]);
    SlotBounds(w[0], period, w[j]);
    MultiplesOrder(a + 1, b, period);
  }

  ghost predicate Increasing(stamps: seq<int>) {
    forall i, j | 0 <= i < j < |stamps| :: stamps[i] < stamps[j]
  }

  // The stamps of the frames that were copied out whole.
  function Whole(frames: seq<Frame>): seq<int> {
    if frames == [] then []
    else
      var before, f := Whole(frames[..|frames| - 1]), frames[|frames| - 1];
      if f.torn then before else before + [f.realtimeNs]
  }

  // Without a rate limit every whole frame is written.
  lemma {:induction false} UnlimitedWritesEveryFrame(frames: seq<Frame>)
    ensures Written(frames, 0) == Whole(frames)
  {
    if frames != [] {
      UnlimitedWritesEveryFrame(frames[..|frames| - 1]);
    }
  }

  // Under a rate limit the written stamps strictly increase even if the clock steps
  // back between frames; without one they do exactly when the clock does.
  lemma StampsIncrease(frames: seq<Frame>, period: nat)
    ensures Increasing(Written(frames, period)) <==> period > 0 || Increasing(Whole(frames))
  {
    if period == 0 {
      UnlimitedWritesEveryFrame(frames);
    } else {
      var w := Written(frames, period);
      forall i, j | 0 <= i < j < |w|
        ensures w[i] < w[j]
      {
        PacedStampsIncrease(frames, period, i, j);
      }
    }
  }

  // With no rate limit and a clock that steps back, so do the written stamps.
  lemma UnlimitedStampsCanFall(later: int, earlier: int)
    requires earlier <= later
    ensures !Increasing(Written([Frame(1, later, false), Frame(2, earlier, false)], 0))
  {
    var first, second := Frame(1, later, false), Frame(2, earlier, false);
    UnlimitedWritesEveryFrame([first, second]);
    assert [first, second][..1] == [first] && [first][..0] == [];
    assert Whole([first]) == [] + [later];
    assert Whole([first, second]) == [later] + [earlier];
    var w := Whole([first, second]);
    assert !(w[0] < w[1]);
  }

  // The clock never steps back.
  ghost predicate Steady(frames: seq<Frame>) {
    forall i, j | 0 <= i < j < |frames| :: frames[i].realtimeNs <= frames[j].realtimeNs
  }

  ghost predicate Visited(written: seq<int>, period: nat, t: int)
    requires period > 0
  {
    exists i :: 0 <= i < |written| && Slot(written[0], period, written[i]) == Slot(written[0], period, t)
  }

  lemma SlotsGrow(first: int, period: nat, s: int, t: int)
    requires period > 0 && s <= t
    ensures Slot(first, period, s) <= Slot(first, period, t)
  {
    var a, b := Slot(first, period, s), Slot(first, period, t);
    SlotBounds(first, period, s);
    SlotBounds(first, period, t);
    if b < a {
      MultiplesOrder(b + 1, a, period);
    }
  }

  lemma {:induction false} WrittenIsOld(frames: seq<Frame>, period: nat, last: int)
    requires forall k | 0 <= k < |frames| :: frames[k].realtimeNs <= last
    ensures forall i | 0 <= i < |Written(frames, period)| :: Written(frames, period)[i] <= last
  {
    if frames != [] {
      WrittenIsOld(frames[..|frames| - 1], period, last);
    }
  }

  lemma NewestIsVisited(frames: seq<Frame>, period: nat)
    requires period > 0 && Steady(frames) && frames != [] && !frames[|frames| - 1].torn
    ensures Visited(Written(frames, period), period, frames[|frames| - 1].realtimeNs)
  {
    var n := |frames| - 1;
    var before, w, t := Written(frames[..n], period), Written(frames, period), frames[n].realtimeNs;
    if Due(before, period, t) {
      assert w[|w| - 1] == t;
    } else {
      WrittenIsOld(frames[..n], period, t);
      SlotsGrow(w[0], period, w[|w| - 1], t);
    }
  }

  // While the clock never steps back, no period cell with a whole frame is missed.
  lemma {:induction false} NoCellMissed(frames: seq<Frame>, period: nat, k: nat)
    requires period > 0 && Steady(frames) && k < |frames| && !frames[k].torn
    ensures Visited(Written(frames, period), period, frames[k].realtimeNs)
  {
    var n := |frames| - 1;
    if k == n {
      NewestIsVisited(frames, period);
    } else {
      var before, w, t := Written(frames[..n], period), Written(frames, period), frames[k].realtimeNs;
      NoCellMissed(frames[..n], period, k);
      var i :| 0 <= i < |before| && Slot(before[0], period, before[i]) == Slot(before[0], period, t);
      assert w[i] == before[i] && w[0] == before[0];
    }
  }

  lemma {:induction false} CellAtLeastIndex(frames: seq<Frame>, period: nat, i: nat)
    requires period > 0
    requires var w := Written(frames, period); i < |w|
    ensures var w := Written(frames, period); Slot(w[0], period, w[i]) >= i
  {
    var w := Written(frames, period);
    if i == 0 {
      SlotIsUnique(w[0], period, w[0], 0);
    } else {
      CellAtLeastIndex(frames, period, i - 1);
      CellsIncrease(frames, period, i - 1, i);
    }
  }

  // No more than one frame per period over the written span.
  lemma RateIsBounded(frames: seq<Frame>, period: nat)
    requires period > 0 && Written(frames, period) != []
    ensures var w := Written(frames, period); |w| <= (w[|w| - 1] - w[0]) / period + 1
  {
    CellAtLeastIndex(frames, period, |Written(frames, period)| - 1);
  }
}
