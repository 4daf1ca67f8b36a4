// build_tracks: greedy nearest-neighbour linking of ground detections into
// tracks, frame by frame, with an active and a finished list.
module Tracks {
  import opened Outcomes
  import opened Sorting

  datatype Point = Point(north: real, east: real)

  datatype Detection = Detection(confidence: real, ground: Option<Point>)

  datatype Record = Record(frame: int, operational: bool, detections: seq<Detection>)

  datatype Observation = Observation(frame: int, confidence: real, point: Point)

  datatype Track = Track(id: nat, startFrame: int, lastFrame: int, last: Point, observations: seq<Observation>)

  // `used` holds the active positions already taken in the current frame.
  datatype State = State(finished: seq<Track>, active: seq<Track>, used: set<nat>, nextId: nat)

  const START := State([], [], {}, 0)

  // Distances are compared squared; 0.75 m becomes 0.5625.
  const REACH := 0.5625

  function Apart(a: Point, b: Point): real {
    (a.north - b.north) * (a.north - b.north) + (a.east - b.east) * (a.east - b.east)
  }

  // ---- The specification: one detection, one record, all records ----

  // Squared distances from the point to each active track's last position.
  function Distances(active: seq<Track>, point: Point): (d: seq<real>)
    ensures |d| == |active| && forall i | 0 <= i < |active| :: d[i] == Apart(point, active[i].last)
  {
    seq(|active|, i requires 0 <= i < |active| => Apart(point, active[i].last))
  }

  predicate Reachable(d: seq<real>, used: set<nat>, i: nat) {
    i < |d| && i !in used && d[i] <= REACH
  }

  // The nearest reachable track, the first of equals.
  ghost predicate IsNearest(d: seq<real>, used: set<nat>, i: nat, upTo: nat)
    requires upTo <= |d|
  {
    && i < upTo && Reachable(d, used, i)
    && forall j: nat | j < upTo && Reachable(d, used, j) :: d[i] < d[j] || (d[i] == d[j] && i <= j)
  }

  ghost predicate IsChoice(d: seq<real>, used: set<nat>, upTo: nat, r: Option<nat>)
    requires upTo <= |d|
  {
    match r
    case Some(i) => IsNearest(d, used, i, upTo)
    case None => forall j: nat | j < upTo :: !Reachable(d, used, j)
  }

  function Nearest(d: seq<real>, used: set<nat>, upTo: nat): (r: Option<nat>)
    requires upTo <= |d|
    ensures IsChoice(d, used, upTo, r)
  {
    if upTo == 0 then None
    else
      var before, i: nat := Nearest(d, used, upTo - 1), upTo - 1;
      if !Reachable(d, used, i) || (before.Some? && d[before.value] <= d[i]) then before else Some(i)
  }

  function Extend(t: Track, o: Observation): Track {
    t.(lastFrame := o.frame, last := o.point, observations := t.observations + [o])
  }

  function AddDetection(s: State, frame: int, d: Detection): State {
    match d.ground
    case None => s
    case Some(point) =>
      var o := Observation(frame, d.confidence, point);
      match Nearest(Distances(s.active, point), s.used, |s.active|)
      case Some(i) =>
        s.(active := s.active[i := Extend(s.active[i], o)], used := s.used + {i})
      case None =>
        State(s.finished, s.active + [Track(s.nextId, frame, frame, point, [o])],
              s.used + {|s.active|}, s.nextId + 1)
  }

  function AddDetections(s: State, frame: int, ds: seq<Detection>): State {
    if ds == [] then s
    else AddDetection(AddDetections(s, frame, ds[..|ds| - 1]), frame, ds[|ds| - 1])
  }

  function Stale(frame: int, age: int): Track -> bool {
    (t: Track) => frame - t.lastFrame >= age
  }

  function Fresh(frame: int, age: int): Track -> bool {
    (t: Track) => frame - t.lastFrame < age
  }

  // Move the active tracks last seen at least `age` frames ago to the finished list.
  function Expire(s: State, frame: int, age: int): State {
    State(s.finished + Filter(Stale(frame, age), s.active), Filter(Fresh(frame, age), s.active), {}, s.nextId)
  }

  function StepRecord(s: State, r: Record): State {
    if !r.operational then State(s.finished + s.active, [], {}, s.nextId)
    else Expire(AddDetections(Expire(s, r.frame, 3), r.frame, r.detections), r.frame, 2)
  }

  function Run(records: seq<Record>): State {
    if records == [] then START else StepRecord(Run(records[..|records| - 1]), records[|records| - 1])
  }

  function AllTracks(s: State): seq<Track> {
    s.finished + s.active
  }

  // ---- The loops ----

  method ChooseTrack(active: seq<Track>, used: set<nat>, point: Point) returns (r: Option<nat>)
    ensures r == Nearest(Distances(active, point), used, |active|)
    ensures IsChoice(Distances(active, point), used, |active|, r)
  {
    r := None;
    var d := Distances(active, point);
    for index := 0 to |active|
      invariant r == Nearest(d, used, index)
    {
      if index !in used && d[index] <= REACH && (r.None? || d[index] < d[r.value]) {
        r := Some(index);
      }
    }
  }

  method LinkDetections(s: State, frame: int, detections: seq<Detection>) returns (r: State)
    ensures r == AddDetections(s, frame, detections)
  {
    var active, used, nextId := s.active, s.used, s.nextId;
    for k := 0 to |detections|
      invariant State(s.finished, active, used, nextId) == AddDetections(s, frame, detections[..k])
    {
      assert detections[..k + 1][..k] == detections[..k];
      if detections[k].ground.Some? {
        var point := detections[k].ground.value;
        var o := Observation(frame, detections[k].confidence, point);
        var choice := ChooseTrack(active, used, point);
        if choice.Some? {
          used := used + {choice.value};
          active := active[choice.value := Extend(active[choice.value], o)];
        } else {
          active := active + [Track(nextId, frame, frame, point, [o])];
          nextId := nextId + 1;
          var newest: nat := |active| - 1;
          used := used + {newest};
        }
      }
    }
    assert detections[..|detections|] == detections;
    r := State(s.finished, active, used, nextId);
  }

  // Leaving out the expired tracks keeps exactly the fresh ones.
  lemma {:induction false} NotExpiredIsFresh(active: seq<Track>, all: seq<Track>, frame: int, age: int)
    requires forall t | t in active :: t in all
    ensures Filter((t: Track) => t !in Filter(Stale(frame, age), all), active) == Filter(Fresh(frame, age), active)
  {
    if active != [] {
      NotExpiredIsFresh(active[1..], all, frame, age);
    }
  }

  method BuildStates(records: seq<Record>) returns (s: State)
    ensures s == Run(records)
  {
    s := START;
    for k := 0 to |records|
      invariant s == Run(records[..k])
    {
      assert records[..k + 1][..k] == records[..k];
      var frame := records[k].frame;
      if !records[k].operational {
        s := State(s.finished + s.active, [], {}, s.nextId);
        continue;
      }
      var expired := Filter(Stale(frame, 3), s.active);
      NotExpiredIsFresh(s.active, s.active, frame, 3);
      s := State(s.finished + expired, Filter((t: Track) => t !in expired, s.active), {}, s.nextId);
      s := LinkDetections(s, frame, records[k].detections);
      expired := Filter(Stale(frame, 2), s.active);
      NotExpiredIsFresh(s.active, s.active, frame, 2);
      s := State(s.finished + expired, Filter((t: Track) => t !in expired, s.active), {}, s.nextId);
    }
    assert records[..|records|] == records;
  }

  // ---- Nothing is lost: observations and ids ----

  // The union, with multiplicity, of what f reads off each track.
  ghost function Gather<T>(f: Track -> multiset<T>, ts: seq<Track>): multiset<T> {
    if ts == [] then multiset{} else f(ts[0]) + Gather(f, ts[1..])
  }

  lemma {:induction false} GatherConcat<T>(f: Track -> multiset<T>, a: seq<Track>, b: seq<Track>)
    ensures Gather(f, a + b) == Gather(f, a) + Gather(f, b)
  {
    if a == [] {
      assert a + b == b;
    } else {
      assert (a + b)[1..] == a[1..] + b;
      GatherConcat(f, a[1..], b);
    }
  }

  lemma {:induction false} GatherSplit<T>(f: Track -> multiset<T>, p: Track -> bool, q: Track -> bool, ts: seq<Track>)
    requires forall t | t in ts :: p(t) <==> !q(t)
    ensures Gather(f, Filter(p, ts)) + Gather(f, Filter(q, ts)) == Gather(f, ts)
  {
    if ts != [] {
      GatherSplit(f, p, q, ts[1..]);
    }
  }

  lemma GatherUpdate<T>(f: Track -> multiset<T>, ts: seq<Track>, i: nat, t: Track, extra: multiset<T>)
    requires i < |ts| && f(t) == f(ts[i]) + extra
    ensures Gather(f, ts[i := t]) == Gather(f, ts) + extra
  {
    var a, b := ts[..i], ts[i + 1..];
    assert ts == a + ([ts[i]] + b) && ts[i := t] == a + ([t] + b);
    GatherConcat(f, a, [ts[i]] + b);
    GatherConcat(f, a, [t] + b);
    assert ([ts[i]] + b)[1..] == b && ([t] + b)[1..] == b;
  }

  function SeenBy(): Track -> multiset<Observation> {
    (t: Track) => multiset(t.observations)
  }

  function IdOf(): Track -> multiset<int> {
    (t: Track) => multiset{t.id}
  }

  ghost function LocatedOne(frame: int, d: Detection): multiset<Observation> {
    if d.ground.Some? then multiset{Observation(frame, d.confidence, d.ground.value)} else multiset{}
  }

  // Every located detection of an operational record, once each.
  ghost function Located(frame: int, ds: seq<Detection>): multiset<Observation> {
    if ds == [] then multiset{}
    else Located(frame, ds[..|ds| - 1]) + LocatedOne(frame, ds[|ds| - 1])
  }

  ghost function Expected(records: seq<Record>): multiset<Observation> {
    if records == [] then multiset{}
    else
      var r := records[|records| - 1];
      Expected(records[..|records| - 1]) + (if r.operational then Located(r.frame, r.detections) else multiset{})
  }

  ghost function Upto(n: nat): multiset<int> {
    if n == 0 then multiset{} else Upto(n - 1) + multiset{n - 1}
  }

  ghost predicate Accounted(s: State, seen: multiset<Observation>) {
    && Gather(SeenBy(), AllTracks(s)) == seen
    && Gather(IdOf(), AllTracks(s)) == Upto(s.nextId)
  }

  // Extending one active track, or opening one more, changes what f gathers by
  // what it reads off that observation.
  lemma DetectionGathers<T>(f: Track -> multiset<T>, s: State, frame: int, d: Detection,
                            extended: multiset<T>, started: multiset<T>)
    requires d.ground.Some?
    requires var o := Observation(frame, d.confidence, d.ground.value);
             && (forall i | 0 <= i < |s.active| :: f(Extend(s.active[i], o)) == f(s.active[i]) + extended)
             && f(Track(s.nextId, frame, frame, d.ground.value, [o])) == started
    ensures var after := AddDetection(s, frame, d);
            Gather(f, AllTracks(after)) == Gather(f, AllTracks(s))
                                           + if after.nextId == s.nextId then extended else started
    ensures var after := AddDetection(s, frame, d); after.nextId == s.nextId || after.nextId == s.nextId + 1
  {
    var o := Observation(frame, d.confidence, d.ground.value);
    var all := AllTracks(s);
    match Nearest(Distances(s.active, d.ground.value), s.used, |s.active|) {
      case Some(i) =>
        var k, t := |s.finished| + i, Extend(s.active[i], o);
        assert AllTracks(AddDetection(s, frame, d)) == all[k := t];
        GatherUpdate(f, all, k, t, extended);
      case None =>
        var t := Track(s.nextId, frame, frame, d.ground.value, [o]);
        assert AllTracks(AddDetection(s, frame, d)) == all + [t];
        GatherConcat(f, all, [t]);
    }
  }

  lemma DetectionSeen(s: State, frame: int, d: Detection)
    requires d.ground.Some?
    ensures Gather(SeenBy(), AllTracks(AddDetection(s, frame, d)))
         == Gather(SeenBy(), AllTracks(s)) + LocatedOne(frame, d)
  {
    var o := Observation(frame, d.confidence, d.ground.value);
    forall t: Track
      ensures multiset(t.observations + [o]) == multiset(t.observations) + multiset{o}
    {
    }
    DetectionGathers(SeenBy(), s, frame, d, multiset{o}, multiset{o});
  }

  lemma IdsExtend(s: State, o: Observation)
    ensures forall i | 0 <= i < |s.active| :: IdOf()(Extend(s.active[i], o)) == IdOf()(s.active[i]) + multiset{}
  {
    forall i | 0 <= i < |s.active|
      ensures IdOf()(Extend(s.active[i], o)) == IdOf()(s.active[i]) + multiset{}
    {
    }
  }

  lemma DetectionNumbered(s: State, frame: int, d: Detection)
    requires d.ground.Some? && Gather(IdOf(), AllTracks(s)) == Upto(s.nextId)
    ensures var after := AddDetection(s, frame, d); Gather(IdOf(), AllTracks(after)) == Upto(after.nextId)
  {
    var o := Observation(frame, d.confidence, d.ground.value);
    var before := Gather(IdOf(), AllTracks(s));
    var after := AddDetection(s, frame, d);
    IdsExtend(s, o);
    DetectionGathers(IdOf(), s, frame, d, multiset{}, multiset{s.nextId});
    if after.nextId == s.nextId {
      assert before + multiset{} == before;
    } else {
      assert Upto(s.nextId + 1) == Upto(s.nextId) + multiset{s.nextId};
    }
  }

  lemma DetectionAccounted(s: State, frame: int, d: Detection, seen: multiset<Observation>)
    requires Accounted(s, seen)
    ensures Accounted(AddDetection(s, frame, d), seen + LocatedOne(frame, d))
  {
    if d.ground.Some? {
      DetectionSeen(s, frame, d);
      DetectionNumbered(s, frame, d);
    }
  }

  lemma {:induction false} DetectionsAccounted(s: State, frame: int, ds: seq<Detection>, seen: multiset<Observation>)
    requires Accounted(s, seen)
    ensures Accounted(AddDetections(s, frame, ds), seen + Located(frame, ds))
  {
    if ds != [] {
      var n := |ds| - 1;
      var before, got := AddDetections(s, frame, ds[..n]), seen + Located(frame, ds[..n]);
      DetectionsAccounted(s, frame, ds[..n], seen);
      DetectionAccounted(before, frame, ds[n], got);
      assert got + LocatedOne(frame, ds[n]) == seen + Located(frame, ds);
    }
  }

  lemma GatherExpire<T>(f: Track -> multiset<T>, s: State, frame: int, age: int)
    ensures Gather(f, AllTracks(Expire(s, frame, age))) == Gather(f, AllTracks(s))
  {
    var stale, live := Filter(Stale(frame, age), s.active), Filter(Fresh(frame, age), s.active);
    GatherSplit(f, Stale(frame, age), Fresh(frame, age), s.active);
    GatherConcat(f, s.finished + stale, live);
    GatherConcat(f, s.finished, stale);
    GatherConcat(f, s.finished, s.active);
  }

  // Every located operational detection is an observation of exactly one track,
  // no track is lost on expiry, and the ids are 0, 1, ... without repetition.
  lemma {:induction false} NothingIsLost(records: seq<Record>)
    ensures Accounted(Run(records), Expected(records))
  {
    if records != [] {
      var n := |records| - 1;
      var s, r := Run(records[..n]), records[n];
      NothingIsLost(records[..n]);
      if r.operational {
        GatherExpire(SeenBy(), s, r.frame, 3);
        GatherExpire(IdOf(), s, r.frame, 3);
        var fresh3 := Expire(s, r.frame, 3);
        DetectionsAccounted(fresh3, r.frame, r.detections, Expected(records[..n]));
        var linked := AddDetections(fresh3, r.frame, r.detections);
        GatherExpire(SeenBy(), linked, r.frame, 2);
        GatherExpire(IdOf(), linked, r.frame, 2);
      } else {
        assert AllTracks(Run(records)) == AllTracks(s) + [];
        assert AllTracks(s) + [] == AllTracks(s);
      }
    }
  }

  // ---- Tracks are unbroken chains ----

  // load_frames accepts only tables whose rows are numbered 0, 1, 2, ...
  ghost predicate Contiguous(records: seq<Record>) {
    forall k | 0 <= k < |records| :: records[k].frame == k
  }

  ghost predicate OperationalThrough(records: seq<Record>, first: int, last: int) {
    0 <= first && last < |records| && forall f | first <= f <= last :: records[f].operational
  }

  // Consecutive observations: one or two frames apart, within 0.75 m, with no
  // non-operational frame from one to the other.
  ghost predicate Linked(records: seq<Record>, a: Observation, b: Observation) {
    && 1 <= b.frame - a.frame <= 2 && Apart(b.point, a.point) <= REACH
    && OperationalThrough(records, a.frame, b.frame)
  }

  ghost predicate IsChain(records: seq<Record>, t: Track) {
    var o := t.observations;
    && o != [] && t.startFrame == o[0].frame && t.lastFrame == o[|o| - 1].frame && t.last == o[|o| - 1].point
    && forall k | 0 <= k < |o| - 1 :: Linked(records, o[k], o[k + 1])
  }

  // While frame `frame` is processed: active tracks were last seen at most two
  // frames ago, and exactly the used ones were seen in this frame.
  ghost predicate InFrame(records: seq<Record>, s: State, frame: int) {
    && (forall i | i in s.used :: i < |s.active|)
    && (forall t | t in s.finished :: IsChain(records, t))
    && forall i: nat | i < |s.active| ::
         && IsChain(records, s.active[i])
         && frame - 2 <= s.active[i].lastFrame <= frame
         && (i in s.used <==> s.active[i].lastFrame == frame)
         && OperationalThrough(records, s.active[i].lastFrame, frame)
  }

  // Between records: active tracks were last seen in the last two frames.
  ghost predicate Between(records: seq<Record>, s: State) {
    && (forall t | t in s.finished :: IsChain(records, t))
    && forall t | t in s.active ::
         && IsChain(records, t)
         && |records| - 2 <= t.lastFrame < |records|
         && OperationalThrough(records, t.lastFrame, |records| - 1)
  }

  lemma ChainExtends(records: seq<Record>, t: Track, o: Observation)
    requires IsChain(records, t)
    requires 1 <= o.frame - t.lastFrame <= 2 && Apart(o.point, t.last) <= REACH
    requires OperationalThrough(records, t.lastFrame, o.frame)
    ensures IsChain(records, Extend(t, o))
  {
  }

  lemma DetectionKeepsChains(records: seq<Record>, s: State, frame: int, d: Detection)
    requires 0 <= frame < |records| && records[frame].operational && InFrame(records, s, frame)
    ensures InFrame(records, AddDetection(s, frame, d), frame)
  {
    if d.ground.Some? {
      var point := d.ground.value;
      var o := Observation(frame, d.confidence, point);
      var choice := Nearest(Distances(s.active, point), s.used, |s.active|);
      if choice.Some? {
        ChainExtends(records, s.active[choice.value], o);
      } else {
        assert IsChain(records, Track(s.nextId, frame, frame, point, [o]));
        assert OperationalThrough(records, frame, frame);
      }
    }
  }

  lemma {:induction false} DetectionsKeepChains(records: seq<Record>, s: State, frame: int, ds: seq<Detection>)
    requires 0 <= frame < |records| && records[frame].operational && InFrame(records, s, frame)
    ensures InFrame(records, AddDetections(s, frame, ds), frame)
  {
    if ds != [] {
      DetectionsKeepChains(records, s, frame, ds[..|ds| - 1]);
      DetectionKeepsChains(records, AddDetections(s, frame, ds[..|ds| - 1]), frame, ds[|ds| - 1]);
    }
  }

  lemma ChainStaysChain(records: seq<Record>, longer: seq<Record>, t: Track)
    requires IsChain(records, t) && records <= longer
    ensures IsChain(longer, t)
  {
    forall k | 0 <= k < |t.observations| - 1
      ensures Linked(longer, t.observations[k], t.observations[k + 1])
    {
      assert Linked(records, t.observations[k], t.observations[k + 1]);
    }
  }

  lemma FrameBegins(records: seq<Record>, s: State)
    requires records != [] && records[|records| - 1].operational && Between(records[..|records| - 1], s)
    ensures InFrame(records, Expire(s, |records| - 1, 3), |records| - 1)
  {
    var n := |records| - 1;
    var prefix, swept := records[..n], Expire(s, n, 3);
    forall t | t in swept.finished
      ensures IsChain(records, t)
    {
      assert t in s.finished || t in s.active;
      ChainStaysChain(prefix, records, t);
    }
    forall t | t in swept.active
      ensures IsChain(records, t) && n - 2 <= t.lastFrame < n && OperationalThrough(records, t.lastFrame, n)
    {
      assert t in s.active;
      ChainStaysChain(prefix, records, t);
      assert OperationalThrough(prefix, t.lastFrame, n - 1);
    }
  }

  lemma FrameEnds(records: seq<Record>, s: State)
    requires records != [] && InFrame(records, s, |records| - 1)
    ensures Between(records, Expire(s, |records| - 1, 2))
  {
    var n := |records| - 1;
    forall t | t in s.active
      ensures IsChain(records, t) && n - 2 <= t.lastFrame <= n && OperationalThrough(records, t.lastFrame, n)
    {
      var i :| 0 <= i < |s.active| && s.active[i] == t;
    }
  }

  lemma StepKeepsChains(records: seq<Record>)
    requires records != [] && Contiguous(records)
    requires Between(records[..|records| - 1], Run(records[..|records| - 1]))
    ensures Between(records, Run(records))
  {
    var n := |records| - 1;
    var s, r := Run(records[..n]), records[n];
    if r.operational {
      FrameBegins(records, s);
      DetectionsKeepChains(records, Expire(s, n, 3), n, r.detections);
      FrameEnds(records, AddDetections(Expire(s, n, 3), n, r.detections));
    } else {
      forall t | t in AllTracks(s)
        ensures IsChain(records, t)
      {
        ChainStaysChain(records[..n], records, t);
      }
    }
  }

  // Over any contiguous table every track is a chain of linked observations, so
  // no track has two observations in one frame.
  lemma {:induction false} TracksAreChains(records: seq<Record>)
    requires Contiguous(records)
    ensures Between(records, Run(records))
  {
    if records != [] {
      TracksAreChains(records[..|records| - 1]);
      StepKeepsChains(records);
    }
  }

  // ---- The reported rows ----

  datatype Summary = Summary(
    id: nat, startFrame: int, detections: nat, endFrame: int,
    peakFrame: int, peakConfidence: real, start: Point, end: Point)

  // A row reports its track's ends, its length and its first strongest observation.
  ghost predicate IsSummary(t: Track, r: Summary) {
    var o := t.observations;
    && o != [] && r.id == t.id && r.startFrame == t.startFrame && r.detections == |o|
    && r.endFrame == o[|o| - 1].frame && r.start == o[0].point && r.end == o[|o| - 1].point
    && exists p: nat :: p < |o| && r.peakFrame == o[p].frame && r.peakConfidence == o[p].confidence
                   && (forall k | 0 <= k < |o| :: o[k].confidence <= o[p].confidence)
                   && (forall k | 0 <= k < p :: o[k].confidence < o[p].confidence)
  }

  method Summarize(t: Track) returns (r: Summary)
    requires t.observations != []
    ensures IsSummary(t, r)
  {
    var o := t.observations;
    var p: nat := 0;
    for k := 1 to |o|
      invariant p < k
      invariant forall j | 0 <= j < k :: o[j].confidence <= o[p].confidence
      invariant forall j | 0 <= j < p :: o[j].confidence < o[p].confidence
    {
      if o[k].confidence > o[p].confidence {
        p := k;
      }
    }
    r := Summary(t.id, t.startFrame, |o|, o[|o| - 1].frame, o[p].frame, o[p].confidence, o[0].point, o[|o| - 1].point);
  }

  ghost predicate AllObserved(ts: seq<Track>) {
    forall t | t in ts :: t.observations != []
  }

  lemma {:induction false} DetectionsObserved(s: State, frame: int, ds: seq<Detection>)
    requires AllObserved(AllTracks(s))
    ensures AllObserved(AllTracks(AddDetections(s, frame, ds)))
  {
    if ds != [] {
      DetectionsObserved(s, frame, ds[..|ds| - 1]);
      var before := AddDetections(s, frame, ds[..|ds| - 1]);
      forall t | t in AllTracks(AddDetections(s, frame, ds))
        ensures t.observations != []
      {
        if t !in before.finished && t !in before.active {
          assert |t.observations| > 0;
        }
      }
    }
  }

  lemma {:induction false} EveryTrackIsObserved(records: seq<Record>)
    ensures AllObserved(AllTracks(Run(records)))
  {
    if records != [] {
      var s, r := Run(records[..|records| - 1]), records[|records| - 1];
      EveryTrackIsObserved(records[..|records| - 1]);
      if r.operational {
        assert AllObserved(AllTracks(Expire(s, r.frame, 3)));
        DetectionsObserved(Expire(s, r.frame, 3), r.frame, r.detections);
      }
    }
  }
}
