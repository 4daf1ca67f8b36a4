// What the tracker computes, said on the tracks alone: each detection goes to the
// nearest track in reach among all tracks ever opened, or opens the next one.
module TrackLinking {
  import opened Outcomes
  import opened Sorting
  import opened Tracks

  // ---- Distances ----

  // The squared distance orders as the distance does, and its bound is 0.75 m.
  lemma SquaredDistance(a: Point, b: Point, c: Point, ab: real, ac: real)
    requires ab >= 0.0 && ab * ab == (b.north - a.north) * (b.north - a.north) + (b.east - a.east) * (b.east - a.east)
    requires ac >= 0.0 && ac * ac == (c.north - a.north) * (c.north - a.north) + (c.east - a.east) * (c.east - a.east)
    ensures Apart(a, b) <= REACH <==> ab <= 0.75
    ensures Apart(a, b) < Apart(a, c) <==> ab < ac
  {
    SquaresOrder(0.75, ab);
    SquaresOrder(ab, ac);
    assert Apart(a, b) == ab * ab && Apart(a, c) == ac * ac;
  }

  lemma SquaresOrder(x: real, y: real)
    requires x >= 0.0 && y >= 0.0
    ensures x < y <==> x * x < y * y
  {
    if x < y {
      assert x * (y - x) >= 0.0 && (y - x) * y > 0.0;
    } else {
      assert y * (x - y) >= 0.0 && (x - y) * x >= 0.0;
    }
  }

  // ---- The definition: no active list, no expiry, no used set ----

  ghost function Tip(t: Track): Observation
    requires t.observations != []
  {
    t.observations[|t.observations| - 1]
  }

  // A track can take o: its last observation is one or two frames back, within
  // 0.75 m, and no frame from there to o's is non-operational.
  ghost predicate InReach(records: seq<Record>, t: Track, o: Observation) {
    t.observations != [] && Linked(records, Tip(t), o)
  }

  // Nearer to o, or as near and opened earlier.
  ghost predicate Wins(t: Track, u: Track, o: Observation)
    requires t.observations != [] && u.observations != []
  {
    || Apart(o.point, Tip(t).point) < Apart(o.point, Tip(u).point)
    || (Apart(o.point, Tip(t).point) == Apart(o.point, Tip(u).point) && t.id < u.id)
  }

  ghost predicate Picks(records: seq<Record>, tracks: multiset<Track>, t: Track, o: Observation) {
    && t in tracks && InReach(records, t, o)
    && forall u | u in tracks && u != t && InReach(records, u, o) :: Wins(t, u, o)
  }

  ghost function Longer(t: Track, frame: int, d: Detection): Track
    requires d.ground.Some?
  {
    var point := d.ground.value;
    Track(t.id, t.startFrame, frame, point, t.observations + [Observation(frame, d.confidence, point)])
  }

  ghost function Opened(id: nat, frame: int, d: Detection): Track
    requires d.ground.Some?
  {
    Track(id, frame, frame, d.ground.value, [Observation(frame, d.confidence, d.ground.value)])
  }

  ghost function Seen(records: seq<Record>, d: Detection): Observation
    requires records != [] && d.ground.Some?
  {
    Observation(|records| - 1, d.confidence, d.ground.value)
  }

  ghost predicate SomeInReach(records: seq<Record>, tracks: multiset<Track>, o: Observation) {
    exists t :: t in tracks && InReach(records, t, o)
  }

  // What one detection of the last record does to the tracks.
  ghost predicate TakesOne(records: seq<Record>, before: multiset<Track>, after: multiset<Track>, d: Detection)
    requires records != []
  {
    var frame := |records| - 1;
    if d.ground.None? then after == before
    else if SomeInReach(records, before, Seen(records, d)) then
      exists t :: Picks(records, before, t, Seen(records, d))
                  && after == before - multiset{t} + multiset{Longer(t, frame, d)}
    else after == before + multiset{Opened(|before|, frame, d)}
  }

  ghost predicate HasDetections(records: seq<Record>) {
    records != [] && records[|records| - 1].operational && records[|records| - 1].detections != []
  }

  ghost function LastDetection(records: seq<Record>): Detection
    requires HasDetections(records)
  {
    var ds := records[|records| - 1].detections;
    ds[|ds| - 1]
  }

  // The same records without the last detection.
  ghost function WithoutLast(records: seq<Record>): (shorter: seq<Record>)
    requires HasDetections(records)
    ensures |shorter| == |records| && |shorter[|records| - 1].detections| < |records[|records| - 1].detections|
  {
    var n, ds := |records| - 1, records[|records| - 1].detections;
    records[n := records[n].(detections := ds[..|ds| - 1])]
  }

  ghost function Pending(records: seq<Record>): nat {
    if records == [] then 0 else |records[|records| - 1].detections|
  }

  ghost predicate IsLinking(records: seq<Record>, tracks: multiset<Track>)
    decreases |records|, Pending(records)
  {
    if records == [] then tracks == multiset{}
    else if HasDetections(records) then
      exists before :: IsLinking(WithoutLast(records), before)
                       && TakesOne(records, before, tracks, LastDetection(records))
    else IsLinking(records[..|records| - 1], tracks)
  }

  lemma OneWins(t: Track, u: Track, o: Observation)
    requires t.observations != [] && u.observations != []
    ensures !(Wins(t, u, o) && Wins(u, t, o))
  {
  }

  // Nothing else fits the definition.
  lemma TakesOneIsUnique(records: seq<Record>, before: multiset<Track>, a: multiset<Track>, b: multiset<Track>,
                         d: Detection)
    requires records != [] && TakesOne(records, before, a, d) && TakesOne(records, before, b, d)
    ensures a == b
  {
    if d.ground.Some? {
      var o := Seen(records, d);
      forall t, u | Picks(records, before, t, o) && Picks(records, before, u, o)
        ensures t == u
      {
        OneWins(t, u, o);
      }
    }
  }

  lemma {:induction false} LinkingIsUnique(records: seq<Record>, a: multiset<Track>, b: multiset<Track>)
    requires IsLinking(records, a) && IsLinking(records, b)
    ensures a == b
    decreases |records|, Pending(records)
  {
    if records == [] {
    } else if HasDetections(records) {
      var d := LastDetection(records);
      var x :| IsLinking(WithoutLast(records), x) && TakesOne(records, x, a, d);
      var y :| IsLinking(WithoutLast(records), y) && TakesOne(records, y, b, d);
      LinkingIsUnique(WithoutLast(records), x, y);
      TakesOneIsUnique(records, x, a, b, d);
    } else {
      LinkingIsUnique(records[..|records| - 1], a, b);
    }
  }

  // ---- The tracker's state against it ----

  // The frame at which a track is closed: two frames after its last observation,
  // at the non-operational frame before that, or at the end of the table.
  ghost function Close(records: seq<Record>, t: Track): int {
    var next := t.lastFrame + 1;
    if next >= |records| then |records|
    else if next >= 0 && !records[next].operational then next
    else if next + 1 >= |records| then |records|
    else next + 1
  }

  ghost predicate OpenedBefore(a: Track, b: Track) {
    a.id < b.id
  }

  // Ids count the tracks opened; the active list is in the order of opening.
  ghost predicate InOpeningOrder(s: State) {
    && |s.finished| + |s.active| == s.nextId
    && (forall t | t in s.active :: t.id < s.nextId)
    && Ordered(OpenedBefore, s.active)
  }

  ghost predicate AllClosed(records: seq<Record>, ts: seq<Track>) {
    forall t | t in ts :: Close(records, t) < |records|
  }

  ghost predicate Settled(records: seq<Record>, s: State) {
    Between(records, s) && InOpeningOrder(s) && AllClosed(records, s.finished)
  }

  // While the last record is processed.
  ghost predicate Working(records: seq<Record>, s: State) {
    && records != [] && records[|records| - 1].operational
    && InFrame(records, s, |records| - 1) && InOpeningOrder(s) && AllClosed(records[..|records| - 1], s.finished)
  }

  lemma FilterPartitions(p: Track -> bool, q: Track -> bool, s: seq<Track>)
    requires forall t: Track :: p(t) <==> !q(t)
    ensures multiset(Filter(p, s)) + multiset(Filter(q, s)) == multiset(s)
  {
    forall t: Track
      ensures multiset(Filter(p, s))[t] + multiset(Filter(q, s))[t] == multiset(s)[t]
    {
      FilterCounts(p, s, t);
      FilterCounts(q, s, t);
    }
  }

  lemma ExpireKeepsTracks(s: State, frame: int, age: int)
    ensures multiset(AllTracks(Expire(s, frame, age))) == multiset(AllTracks(s))
  {
    FilterPartitions(Stale(frame, age), Fresh(frame, age), s.active);
  }

  lemma ExpireKeepsOrder(s: State, frame: int, age: int)
    requires InOpeningOrder(s)
    ensures InOpeningOrder(Expire(s, frame, age))
  {
    FilterSplits(Stale(frame, age), Fresh(frame, age), s.active);
    FilterKeepsOrder(OpenedBefore, Fresh(frame, age), s.active);
  }

  lemma {:induction false} NoneStale(p: Track -> bool, s: seq<Track>)
    requires forall t | t in s :: !p(t)
    ensures Filter(p, s) == []
  {
    if s != [] {
      NoneStale(p, s[1..]);
    }
  }

  // Between contiguous records the first expiry pass finds nothing to do.
  lemma WorkBegins(records: seq<Record>, s: State)
    requires records != [] && records[|records| - 1].operational && Settled(records[..|records| - 1], s)
    ensures Working(records, Expire(s, |records| - 1, 3))
    ensures Expire(s, |records| - 1, 3).finished == s.finished
  {
    FrameBegins(records, s);
    ExpireKeepsOrder(s, |records| - 1, 3);
    NoneStale(Stale(|records| - 1, 3), s.active);
  }

  lemma DetectionKeepsOrder(s: State, frame: int, d: Detection)
    requires InOpeningOrder(s)
    ensures InOpeningOrder(AddDetection(s, frame, d))
  {
  }

  lemma DetectionKeepsWorking(records: seq<Record>, s: State, d: Detection)
    requires Working(records, s)
    ensures Working(records, AddDetection(s, |records| - 1, d))
  {
    DetectionKeepsChains(records, s, |records| - 1, d);
    DetectionKeepsOrder(s, |records| - 1, d);
  }

  lemma {:induction false} DetectionsKeepWorking(records: seq<Record>, s: State, ds: seq<Detection>)
    requires Working(records, s)
    ensures Working(records, AddDetections(s, |records| - 1, ds))
    ensures AddDetections(s, |records| - 1, ds).finished == s.finished
  {
    if ds != [] {
      var front := ds[..|ds| - 1];
      DetectionsKeepWorking(records, s, front);
      DetectionKeepsWorking(records, AddDetections(s, |records| - 1, front), ds[|ds| - 1]);
    }
  }

  lemma StaysClosed(records: seq<Record>, longer: seq<Record>, ts: seq<Track>)
    requires AllClosed(records, ts) && records <= longer
    ensures AllClosed(longer, ts)
    ensures forall t | t in ts :: Close(longer, t) == Close(records, t)
  {
  }

  lemma WorkEnds(records: seq<Record>, s: State)
    requires Working(records, s)
    ensures Settled(records, Expire(s, |records| - 1, 2))
    ensures forall t | t in s.active && Stale(|records| - 1, 2)(t) :: Close(records, t) == |records| - 1
  {
    var n := |records| - 1;
    FrameEnds(records, s);
    ExpireKeepsOrder(s, n, 2);
    StaysClosed(records[..n], records, s.finished);
    forall t | t in s.active && Stale(n, 2)(t)
      ensures Close(records, t) == n
    {
      var i :| 0 <= i < |s.active| && s.active[i] == t;
      assert OperationalThrough(records, t.lastFrame, n);
    }
  }

  lemma BreakSettles(records: seq<Record>, s: State)
    requires records != [] && !records[|records| - 1].operational && Settled(records[..|records| - 1], s)
    requires Between(records, StepRecord(s, records[|records| - 1]))
    ensures Settled(records, StepRecord(s, records[|records| - 1]))
    ensures forall t | t in s.active :: Close(records, t) == |records| - 1
  {
    var n := |records| - 1;
    StaysClosed(records[..n], records, s.finished);
    forall t | t in s.active
      ensures Close(records, t) == n
    {
      assert OperationalThrough(records[..n], t.lastFrame, n - 1);
    }
  }

  lemma {:induction false} RunSettles(records: seq<Record>)
    requires Contiguous(records)
    ensures Settled(records, Run(records))
  {
    if records != [] {
      var n := |records| - 1;
      var s, r := Run(records[..n]), records[n];
      RunSettles(records[..n]);
      if r.operational {
        WorkBegins(records, s);
        DetectionsKeepWorking(records, Expire(s, n, 3), r.detections);
        WorkEnds(records, AddDetections(Expire(s, n, 3), n, r.detections));
      } else {
        TracksAreChains(records);
        BreakSettles(records, s);
      }
    }
  }

  // ---- Each detection of the run does what the definition says ----

  lemma ClosedIsOutOfReach(records: seq<Record>, t: Track, o: Observation)
    requires records != [] && IsChain(records, t) && o.frame == |records| - 1
    requires Close(records[..|records| - 1], t) < |records| - 1
    ensures !InReach(records, t, o)
  {
  }

  // A track in reach is active and not yet taken in this frame.
  lemma InReachIsReachable(records: seq<Record>, s: State, t: Track, o: Observation) returns (i: nat)
    requires Working(records, s) && o.frame == |records| - 1 && t in AllTracks(s) && InReach(records, t, o)
    ensures i < |s.active| && s.active[i] == t && Reachable(Distances(s.active, o.point), s.used, i)
  {
    if t in s.finished {
      ClosedIsOutOfReach(records, t, o);
    }
    i :| 0 <= i < |s.active| && s.active[i] == t;
    assert IsChain(records, s.active[i]);
  }

  lemma ReachableIsInReach(records: seq<Record>, s: State, i: nat, o: Observation)
    requires Working(records, s) && o.frame == |records| - 1
    requires i < |s.active| && Reachable(Distances(s.active, o.point), s.used, i)
    ensures InReach(records, s.active[i], o) && Tip(s.active[i]).point == s.active[i].last
  {
    assert IsChain(records, s.active[i]);
  }

  lemma NearestIsPicked(records: seq<Record>, s: State, i: nat, o: Observation)
    requires Working(records, s) && o.frame == |records| - 1
    requires IsNearest(Distances(s.active, o.point), s.used, i, |s.active|)
    ensures Picks(records, multiset(AllTracks(s)), s.active[i], o)
  {
    var t := s.active[i];
    ReachableIsInReach(records, s, i, o);
    assert t in AllTracks(s);
    forall u | u in multiset(AllTracks(s)) && u != t && InReach(records, u, o)
      ensures Wins(t, u, o)
    {
      var j := InReachIsReachable(records, s, u, o);
      ReachableIsInReach(records, s, j, o);
      if i < j {
        assert OpenedBefore(s.active[i], s.active[j]);
      }
    }
  }

  lemma TracksOfChoice(records: seq<Record>, s: State, i: nat, d: Detection) returns (t: Track)
    requires Working(records, s) && d.ground.Some? && i < |s.active|
    requires Nearest(Distances(s.active, d.ground.value), s.used, |s.active|) == Some(i)
    ensures Picks(records, multiset(AllTracks(s)), t, Seen(records, d))
    ensures multiset(AllTracks(AddDetection(s, |records| - 1, d)))
         == multiset(AllTracks(s)) - multiset{t} + multiset{Longer(t, |records| - 1, d)}
  {
    t := s.active[i];
    NearestIsPicked(records, s, i, Seen(records, d));
    ActiveReplaced(s, i, Longer(t, |records| - 1, d));
  }

  lemma ActiveReplaced(s: State, i: nat, t: Track)
    requires i < |s.active|
    ensures multiset(AllTracks(s.(active := s.active[i := t])))
         == multiset(AllTracks(s)) - multiset{s.active[i]} + multiset{t}
  {
    var all, k := AllTracks(s), |s.finished| + i;
    assert all[k] == s.active[i] && s.finished + s.active[i := t] == all[k := t];
  }

  lemma TracksOfNoChoice(s: State, frame: int, d: Detection)
    requires InOpeningOrder(s) && d.ground.Some?
    requires Nearest(Distances(s.active, d.ground.value), s.used, |s.active|).None?
    ensures multiset(AllTracks(AddDetection(s, frame, d)))
         == multiset(AllTracks(s)) + multiset{Opened(|AllTracks(s)|, frame, d)}
  {
    assert AllTracks(AddDetection(s, frame, d)) == AllTracks(s) + [Opened(s.nextId, frame, d)];
  }

  lemma NoChoiceNoReach(records: seq<Record>, s: State, d: Detection, t: Track)
    requires Working(records, s) && d.ground.Some? && t in AllTracks(s)
    requires Nearest(Distances(s.active, d.ground.value), s.used, |s.active|).None?
    ensures !InReach(records, t, Seen(records, d))
  {
    var o := Seen(records, d);
    if InReach(records, t, o) {
      var j := InReachIsReachable(records, s, t, o);
      assert false;
    }
  }

  lemma DetectionTakesOne(records: seq<Record>, s: State, d: Detection, before: multiset<Track>, after: multiset<Track>)
    requires Working(records, s) && before == multiset(AllTracks(s))
    requires after == multiset(AllTracks(AddDetection(s, |records| - 1, d)))
    ensures TakesOne(records, before, after, d)
  {
    if d.ground.Some? {
      var choice := Nearest(Distances(s.active, d.ground.value), s.used, |s.active|);
      if choice.Some? {
        var t := TracksOfChoice(records, s, choice.value, d);
      } else {
        TracksOfNoChoice(s, |records| - 1, d);
        forall t | t in before
          ensures !InReach(records, t, Seen(records, d))
        {
          NoChoiceNoReach(records, s, d, t);
        }
      }
    }
  }

  // The tracker's greedy loops with expiry compute the definition over all tracks.
  lemma {:induction false} RunIsLinking(records: seq<Record>)
    requires Contiguous(records)
    ensures IsLinking(records, multiset(AllTracks(Run(records))))
    decreases |records|, Pending(records)
  {
    if records != [] {
      var n := |records| - 1;
      var s, r := Run(records[..n]), records[n];
      if HasDetections(records) {
        LastIsTaken(records);
        RunIsLinking(WithoutLast(records));
      } else {
        RunIsLinking(records[..n]);
        NoDetectionsKeepTracks(s, r);
      }
    }
  }

  lemma NoDetectionsKeepTracks(s: State, r: Record)
    requires !r.operational || r.detections == []
    ensures multiset(AllTracks(StepRecord(s, r))) == multiset(AllTracks(s))
  {
    if r.operational {
      ExpireKeepsTracks(s, r.frame, 3);
      ExpireKeepsTracks(Expire(s, r.frame, 3), r.frame, 2);
    }
  }

  lemma RunWithoutLast(records: seq<Record>) returns (start: State, front: seq<Detection>)
    requires Contiguous(records) && HasDetections(records)
    ensures Contiguous(WithoutLast(records)) && start == Expire(Run(records[..|records| - 1]), |records| - 1, 3)
    ensures Run(WithoutLast(records)) == Expire(AddDetections(start, |records| - 1, front), |records| - 1, 2)
    ensures Run(records) == Expire(AddDetection(AddDetections(start, |records| - 1, front), |records| - 1,
                                                LastDetection(records)), |records| - 1, 2)
  {
    var n, shorter := |records| - 1, WithoutLast(records);
    start, front := Expire(Run(records[..n]), n, 3), shorter[n].detections;
    assert shorter[..n] == records[..n];
  }

  lemma LastIsAdded(records: seq<Record>) returns (mid: State)
    requires Contiguous(records) && HasDetections(records)
    ensures Working(records, mid) && Contiguous(WithoutLast(records))
    ensures multiset(AllTracks(Run(WithoutLast(records)))) == multiset(AllTracks(mid))
    ensures multiset(AllTracks(Run(records)))
         == multiset(AllTracks(AddDetection(mid, |records| - 1, LastDetection(records))))
  {
    var n := |records| - 1;
    var start, front := RunWithoutLast(records);
    RunSettles(records[..n]);
    WorkBegins(records, Run(records[..n]));
    DetectionsKeepWorking(records, start, front);
    mid := AddDetections(start, n, front);
    ExpireKeepsTracks(mid, n, 2);
    ExpireKeepsTracks(AddDetection(mid, n, LastDetection(records)), n, 2);
  }

  lemma LastIsTaken(records: seq<Record>)
    requires Contiguous(records) && HasDetections(records)
    ensures Contiguous(WithoutLast(records))
    ensures TakesOne(records, multiset(AllTracks(Run(WithoutLast(records)))), multiset(AllTracks(Run(records))),
                     LastDetection(records))
  {
    var mid := LastIsAdded(records);
    DetectionTakesOne(records, mid, LastDetection(records), multiset(AllTracks(Run(WithoutLast(records)))),
                      multiset(AllTracks(Run(records))));
  }

  // ---- What that means for a whole run ----

  // Tracks have their own ids and observations in increasing frames of the table.
  ghost predicate IsTrack(frames: int, count: int, t: Track) {
    && t.id < count && t.observations != [] && t.startFrame == t.observations[0].frame
    && (forall i | 0 <= i < |t.observations| :: 0 <= t.observations[i].frame < frames)
    && forall i, j | 0 <= i < j < |t.observations| :: t.observations[i].frame < t.observations[j].frame
  }

  ghost predicate AreTracks(frames: int, tracks: multiset<Track>) {
    && (forall t | t in tracks :: IsTrack(frames, |tracks|, t) && tracks[t] == 1)
    && forall t, u | t in tracks && u in tracks && t.id == u.id :: t == u
  }

  // At o's frame, u could have been linked to o by its k-th observation, and has no
  // observation in that frame.
  ghost predicate PassedOver(records: seq<Record>, u: Track, k: nat, o: Observation) {
    && k < |u.observations| && Linked(records, u.observations[k], o)
    && (k + 1 < |u.observations| ==> o.frame < u.observations[k + 1].frame)
  }

  // o continues a track that was nearer, or as near and older, than u.
  ghost predicate HasReason(t: Track, j: nat, u: Track, k: nat)
    requires j < |t.observations| && k < |u.observations|
  {
    && j > 0
    && var o := t.observations[j];
       var own, other := Apart(o.point, t.observations[j - 1].point), Apart(o.point, u.observations[k].point);
       own < other || (own == other && t.id < u.id)
  }

  // No track is opened, and none continued, past a better one left without an
  // observation in that frame.
  ghost predicate IsFair(records: seq<Record>, tracks: multiset<Track>) {
    forall t, u, j: nat, k: nat |
      t in tracks && u in tracks && j < |t.observations| && PassedOver(records, u, k, t.observations[j]) ::
      HasReason(t, j, u, k)
  }

  // One track replaced by another, or one more track.
  lemma Replaced(before: multiset<Track>, own: Track, longer: Track, frames: int)
    requires AreTracks(frames, before) && own in before && longer.id == own.id && longer !in before
    ensures var after := before - multiset{own} + multiset{longer};
            && |after| == |before|
            && forall t | t in after :: after[t] == 1 && ((t in before && t != own) || t == longer)
  {
  }

  lemma LongerIsTrack(frame: int, count: int, t: Track, d: Detection)
    requires IsTrack(frame + 1, count, t) && d.ground.Some? && Tip(t).frame < frame
    ensures IsTrack(frame + 1, count, Longer(t, frame, d))
  {
  }

  lemma ContinuedAreTracks(frame: int, before: multiset<Track>, own: Track, d: Detection)
    requires AreTracks(frame + 1, before) && own in before && d.ground.Some? && Tip(own).frame < frame
    ensures AreTracks(frame + 1, before - multiset{own} + multiset{Longer(own, frame, d)})
  {
    var longer := Longer(own, frame, d);
    LongerIsTrack(frame, |before|, own, d);
    Replaced(before, own, longer, frame + 1);
  }

  lemma OpenedAreTracks(frame: nat, before: multiset<Track>, d: Detection)
    requires AreTracks(frame + 1, before) && d.ground.Some?
    ensures AreTracks(frame + 1, before + multiset{Opened(|before|, frame, d)})
  {
    var n := Opened(|before|, frame, d);
    assert IsTrack(frame + 1, |before| + 1, n);
    forall t | t in before
      ensures IsTrack(frame + 1, |before| + 1, t) && t.id != n.id
    {
      assert IsTrack(frame + 1, |before|, t);
    }
  }

  lemma StepKeepsTracks(records: seq<Record>, before: multiset<Track>, after: multiset<Track>, d: Detection)
    requires records != [] && TakesOne(records, before, after, d) && AreTracks(|records|, before)
    ensures AreTracks(|records|, after)
  {
    var frame := |records| - 1;
    if d.ground.Some? {
      if SomeInReach(records, before, Seen(records, d)) {
        var t :| Picks(records, before, t, Seen(records, d))
                 && after == before - multiset{t} + multiset{Longer(t, frame, d)};
        ContinuedAreTracks(frame, before, t, d);
      } else {
        OpenedAreTracks(frame, before, d);
      }
    }
  }

  // A track passed over by the last record's detection was in reach.
  lemma PassedOverIsInReach(records: seq<Record>, u: Track, k: nat, o: Observation, count: int)
    requires IsTrack(|records|, count, u) && o.frame == |records| - 1 && PassedOver(records, u, k, o)
    ensures InReach(records, u, o) && Tip(u) == u.observations[k]
  {
  }

  lemma OpeningIsFair(records: seq<Record>, before: multiset<Track>, n: Track, t: Track, u: Track, j: nat, k: nat)
    requires AreTracks(|records|, before) && IsFair(records, before) && |n.observations| == 1
    requires n.observations[0].frame == |records| - 1
    requires forall t | t in before :: !InReach(records, t, n.observations[0])
    requires (t in before || t == n) && (u in before || u == n)
    requires j < |t.observations| && PassedOver(records, u, k, t.observations[j])
    ensures HasReason(t, j, u, k)
  {
    if u == n {
      FramesEnd(records, before, n, t, j);
    } else if t == n {
      PassedOverIsInReach(records, u, k, t.observations[j], |before|);
    }
  }

  lemma FramesEnd(records: seq<Record>, before: multiset<Track>, n: Track, t: Track, j: nat)
    requires AreTracks(|records|, before) && (t in before || t == n) && j < |t.observations|
    requires |n.observations| == 1 && n.observations[0].frame == |records| - 1
    ensures t.observations[j].frame <= |records| - 1
  {
    assert t in before ==> IsTrack(|records|, |before|, t);
  }

  lemma LongerIsPassedOver(records: seq<Record>, t: Track, longer: Track, k: nat, o: Observation, count: int)
    requires IsTrack(|records|, count, t) && o.frame <= |records| - 1 && |longer.observations| == |t.observations| + 1
    requires longer.observations[..|t.observations|] == t.observations
    requires longer.observations[|t.observations|].frame == |records| - 1
    requires PassedOver(records, longer, k, o)
    ensures k < |t.observations| && longer.observations[k] == t.observations[k]
    ensures PassedOver(records, t, k, o) && o.frame < |records| - 1
  {
    assert k < |t.observations| ==> longer.observations[k] == t.observations[k];
    if k + 1 < |t.observations| {
      assert longer.observations[k + 1] == t.observations[k + 1];
    }
  }

  lemma ContinuingIsFair(records: seq<Record>, before: multiset<Track>, own: Track, longer: Track, o: Observation,
                         t: Track, u: Track, j: nat, k: nat)
    requires AreTracks(|records|, before) && IsFair(records, before) && Picks(records, before, own, o)
    requires o.frame == |records| - 1 && longer.id == own.id && longer.observations == own.observations + [o]
    requires ((t in before && t != own) || t == longer) && ((u in before && u != own) || u == longer)
    requires j < |t.observations| && PassedOver(records, u, k, t.observations[j])
    ensures HasReason(t, j, u, k)
  {
    var t0, u0 := if t == longer then own else t, if u == longer then own else u;
    assert IsTrack(|records|, |before|, t0);
    assert forall i | 0 <= i < |own.observations| :: longer.observations[i] == own.observations[i];
    if u == longer {
      LongerIsPassedOver(records, own, longer, k, t.observations[j], |before|);
      assert HasReason(t0, j, own, k);
    } else if j == |t0.observations| {
      PassedOverIsInReach(records, u, k, o, |before|);
      assert Wins(own, u, o);
    } else {
      assert HasReason(t0, j, u, k);
    }
  }

  lemma ContinuedAreFair(records: seq<Record>, before: multiset<Track>, own: Track, d: Detection)
    requires records != [] && AreTracks(|records|, before) && IsFair(records, before)
    requires d.ground.Some? && Picks(records, before, own, Seen(records, d))
    ensures IsFair(records, before - multiset{own} + multiset{Longer(own, |records| - 1, d)})
  {
    var o, longer := Seen(records, d), Longer(own, |records| - 1, d);
    var after := before - multiset{own} + multiset{longer};
    Replaced(before, own, longer, |records|);
    forall t, u, j: nat, k: nat |
      t in after && u in after && j < |t.observations| && PassedOver(records, u, k, t.observations[j])
      ensures HasReason(t, j, u, k)
    {
      ContinuingIsFair(records, before, own, longer, o, t, u, j, k);
    }
  }

  lemma OpenedAreFair(records: seq<Record>, before: multiset<Track>, d: Detection)
    requires records != [] && AreTracks(|records|, before) && IsFair(records, before)
    requires d.ground.Some? && !SomeInReach(records, before, Seen(records, d))
    ensures IsFair(records, before + multiset{Opened(|before|, |records| - 1, d)})
  {
    var n := Opened(|before|, |records| - 1, d);
    var after := before + multiset{n};
    forall t, u, j: nat, k: nat |
      t in after && u in after && j < |t.observations| && PassedOver(records, u, k, t.observations[j])
      ensures HasReason(t, j, u, k)
    {
      OpeningIsFair(records, before, n, t, u, j, k);
    }
  }

  lemma StepIsFair(records: seq<Record>, before: multiset<Track>, after: multiset<Track>, d: Detection)
    requires records != [] && TakesOne(records, before, after, d) && AreTracks(|records|, before)
    requires IsFair(records, before)
    ensures IsFair(records, after)
  {
    if d.ground.Some? {
      if SomeInReach(records, before, Seen(records, d)) {
        var own :| Picks(records, before, own, Seen(records, d))
                   && after == before - multiset{own} + multiset{Longer(own, |records| - 1, d)};
        ContinuedAreFair(records, before, own, d);
      } else {
        OpenedAreFair(records, before, d);
      }
    }
  }

  // Fewer or shorter records say the same of the frames they share.
  lemma FairStaysFair(shorter: seq<Record>, records: seq<Record>, tracks: multiset<Track>)
    requires |shorter| <= |records| && AreTracks(|shorter|, tracks) && IsFair(shorter, tracks)
    requires forall f | 0 <= f < |shorter| :: shorter[f].operational == records[f].operational
    ensures IsFair(records, tracks) && AreTracks(|records|, tracks)
  {
    forall t, u, j: nat, k: nat |
      t in tracks && u in tracks && j < |t.observations| && PassedOver(records, u, k, t.observations[j])
      ensures HasReason(t, j, u, k)
    {
      assert IsTrack(|shorter|, |tracks|, t);
      assert PassedOver(shorter, u, k, t.observations[j]);
    }
    forall t | t in tracks
      ensures IsTrack(|records|, |tracks|, t) && tracks[t] == 1
    {
      assert IsTrack(|shorter|, |tracks|, t);
    }
  }

  lemma LastKeepsFair(records: seq<Record>, before: multiset<Track>, after: multiset<Track>)
    requires HasDetections(records) && TakesOne(records, before, after, LastDetection(records))
    requires AreTracks(|records|, before) && IsFair(WithoutLast(records), before)
    ensures AreTracks(|records|, after) && IsFair(records, after)
  {
    FairStaysFair(WithoutLast(records), records, before);
    StepKeepsTracks(records, before, after, LastDetection(records));
    StepIsFair(records, before, after, LastDetection(records));
  }

  lemma {:induction false} LinkingIsFair(records: seq<Record>, tracks: multiset<Track>)
    requires IsLinking(records, tracks)
    ensures AreTracks(|records|, tracks) && IsFair(records, tracks)
    decreases |records|, Pending(records)
  {
    if records == [] {
    } else if HasDetections(records) {
      var shorter := WithoutLast(records);
      var before :| IsLinking(shorter, before) && TakesOne(records, before, tracks, LastDetection(records));
      LinkingIsFair(shorter, before);
      LastKeepsFair(records, before, tracks);
    } else {
      LinkingIsFair(records[..|records| - 1], tracks);
      FairStaysFair(records[..|records| - 1], records, tracks);
    }
  }

  // No run opens a track beside one it could have continued, and every link went
  // to the nearest track left without an observation in that frame.
  lemma RunIsFair(records: seq<Record>)
    requires Contiguous(records)
    ensures IsFair(records, multiset(AllTracks(Run(records))))
  {
    RunIsLinking(records);
    LinkingIsFair(records, multiset(AllTracks(Run(records))));
  }

  lemma OpenedBesideNone(records: seq<Record>, t: Track, u: Track, k: nat)
    requires Contiguous(records) && t in AllTracks(Run(records)) && u in AllTracks(Run(records))
    requires t.observations != []
    ensures !PassedOver(records, u, k, t.observations[0])
  {
    RunIsFair(records);
    assert PassedOver(records, u, k, t.observations[0]) ==> HasReason(t, 0, u, k);
  }

  // ---- The order of the rows ----

  // By the closing frame, then by id.
  ghost function ClosesUpTo(records: seq<Record>): (Track, Track) -> bool {
    (a: Track, b: Track) =>
      Close(records, a) < Close(records, b) || (Close(records, a) == Close(records, b) && a.id <= b.id)
  }

  ghost predicate CloseAt(records: seq<Record>, ts: seq<Track>, frame: int) {
    forall t | t in ts :: Close(records, t) == frame
  }

  lemma LaterBatch(records: seq<Record>, early: seq<Track>, batch: seq<Track>, frame: int)
    requires Ordered(ClosesUpTo(records), early) && Ordered(OpenedBefore, batch) && CloseAt(records, batch, frame)
    requires forall t | t in early :: Close(records, t) < frame
    ensures Ordered(ClosesUpTo(records), early + batch)
  {
    var le := ClosesUpTo(records);
    forall i, j | 0 <= i < j < |early + batch|
      ensures le((early + batch)[i], (early + batch)[j])
    {
      if i >= |early| {
        assert OpenedBefore(batch[i - |early|], batch[j - |early|]);
      } else if j < |early| {
        assert le(early[i], early[j]);
      }
    }
  }

  lemma OrderStays(records: seq<Record>, longer: seq<Record>, ts: seq<Track>)
    requires AllClosed(records, ts) && records <= longer && Ordered(ClosesUpTo(records), ts)
    ensures Ordered(ClosesUpTo(longer), ts)
  {
    StaysClosed(records, longer, ts);
    forall i, j | 0 <= i < j < |ts|
      ensures ClosesUpTo(longer)(ts[i], ts[j])
    {
      assert ClosesUpTo(records)(ts[i], ts[j]);
    }
  }

  // What one record closes.
  lemma StepCloses(records: seq<Record>) returns (batch: seq<Track>)
    requires Contiguous(records) && records != []
    ensures Run(records).finished == Run(records[..|records| - 1]).finished + batch
    ensures Ordered(OpenedBefore, batch) && CloseAt(records, batch, |records| - 1)
  {
    var n := |records| - 1;
    var s, r := Run(records[..n]), records[n];
    RunSettles(records[..n]);
    if r.operational {
      WorkBegins(records, s);
      DetectionsKeepWorking(records, Expire(s, n, 3), r.detections);
      var mid := AddDetections(Expire(s, n, 3), n, r.detections);
      WorkEnds(records, mid);
      batch := Filter(Stale(n, 2), mid.active);
      FilterKeepsOrder(OpenedBefore, Stale(n, 2), mid.active);
    } else {
      TracksAreChains(records);
      BreakSettles(records, s);
      batch := s.active;
    }
  }

  lemma {:induction false} FinishedInOrder(records: seq<Record>)
    requires Contiguous(records)
    ensures Ordered(ClosesUpTo(records), Run(records).finished)
  {
    if records != [] {
      var prefix := records[..|records| - 1];
      FinishedInOrder(prefix);
      RunSettles(prefix);
      OrderStays(prefix, records, Run(prefix).finished);
      StaysClosed(prefix, records, Run(prefix).finished);
      var batch := StepCloses(records);
      LaterBatch(records, Run(prefix).finished, batch, |records| - 1);
    }
  }

  lemma RunInOrder(records: seq<Record>)
    requires Contiguous(records)
    ensures Ordered(ClosesUpTo(records), AllTracks(Run(records)))
  {
    var s := Run(records);
    FinishedInOrder(records);
    RunSettles(records);
    forall t | t in s.active
      ensures Close(records, t) == |records|
    {
      assert OperationalThrough(records, t.lastFrame, |records| - 1);
    }
    LaterBatch(records, s.finished, s.active, |records|);
  }

  // The tracks in the order of their rows.
  ghost predicate IsTrackList(records: seq<Record>, tracks: seq<Track>) {
    IsLinking(records, multiset(tracks)) && Ordered(ClosesUpTo(records), tracks)
  }

  lemma TrackListIsUnique(records: seq<Record>, a: seq<Track>, b: seq<Track>)
    requires IsTrackList(records, a) && IsTrackList(records, b)
    ensures a == b
  {
    var id := (t: Track) => t.id;
    LinkingIsUnique(records, multiset(a), multiset(b));
    LinkingIsFair(records, multiset(a));
    forall i, j | 0 <= i < j < |a|
      ensures id(a[i]) != id(a[j])
    {
      if a[i].id == a[j].id {
        assert a[i] in multiset(a) && a[j] in multiset(a);
        RepeatCounts(a, i, j);
      }
    }
    OrderedIsUniqueByKey(ClosesUpTo(records), id, a, b);
  }

  // ---- The reported rows ----

  ghost predicate IsReport(records: seq<Record>, tracks: seq<Track>, rows: seq<Summary>) {
    IsTrackList(records, tracks) && |rows| == |tracks| && forall k | 0 <= k < |rows| :: IsSummary(tracks[k], rows[k])
  }

  method BuildTracks(records: seq<Record>) returns (rows: seq<Summary>)
    ensures |rows| == |AllTracks(Run(records))|
    ensures forall k | 0 <= k < |rows| :: IsSummary(AllTracks(Run(records))[k], rows[k])
    ensures Contiguous(records) ==> exists tracks :: IsReport(records, tracks, rows)
  {
    var s := BuildStates(records);
    var tracks := s.finished + s.active;
    EveryTrackIsObserved(records);
    rows := [];
    for k := 0 to |tracks|
      invariant |rows| == k
      invariant forall j | 0 <= j < k :: IsSummary(tracks[j], rows[j])
    {
      var row := Summarize(tracks[k]);
      rows := rows + [row];
    }
    if Contiguous(records) {
      RunIsLinking(records);
      RunInOrder(records);
      assert IsReport(records, tracks, rows);
    }
  }
}
