// A label document over a run of freeze, update and certify: what a record holds is
// what the last accepted update of it wrote.
module LabelHistory {
  import opened Labels
  import opened Text

  ghost predicate CanFreeze(d: Document, name: string) {
    NonBlank(name) && Valid(d, false, false) && d.roleFreeze.Absent? && !d.certification.Present?
  }

  // The update is authorized, and the document it would leave is valid.
  ghost predicate CanAnnotate(d: Document, u: Update) {
    Authorized(d, u) && exists after :: StoresUpdate(d, u, after) && Valid(after, true, false)
  }

  ghost predicate CanCertify(d: Document, name: string) {
    && NonBlank(name) && Valid(d, true, false) && d.certification.Absent?
    && forall im | im in d.images :: Finished(im)
  }

  // One action: written as sent, or refused and nothing written.
  ghost predicate Acts(before: Document, a: Action, after: Document) {
    match a
    case Freeze(name, now) =>
      if CanFreeze(before, name) then StoresFreeze(before, name, now, after) else after == before
    case Annotate(u) => if CanAnnotate(before, u) then StoresUpdate(before, u, after) else after == before
    case Certify(name, now) =>
      if CanCertify(before, name) then StoresCertificate(before, name, now, after) else after == before
  }

  ghost predicate IsHistory(ds: seq<Document>, actions: seq<Action>) {
    |ds| == |actions| + 1 && forall k | 0 <= k < |actions| :: Acts(ds[k], actions[k], ds[k + 1])
  }

  lemma UpdateIsUnique(d: Document, u: Update, a: Document, b: Document)
    requires StoresUpdate(d, u, a) && StoresUpdate(d, u, b)
    ensures a == b
  {
    forall i | 0 <= i < |a.images|
      ensures a.images[i] == b.images[i]
    {
    }
    assert a.images == b.images;
  }

  // The states of the document that the three steps produce are such a history.
  lemma ActActs(d: Document, a: Action)
    ensures Acts(d, a, Act(d, a))
  {
    match a {
      case Freeze(name, now) =>
      case Certify(name, now) =>
        CertifiedStores(d, name, now);
      case Annotate(u) =>
        if Authorized(d, u) {
          UpdatedStores(d, u);
          if after :| StoresUpdate(d, u, after) && Valid(after, true, false) {
            UpdateIsUnique(d, u, after, Updated(d, u));
          }
        }
    }
  }

  ghost function States(d: Document, actions: seq<Action>): (ds: seq<Document>)
    ensures |ds| == |actions| + 1 && forall k | 0 <= k <= |actions| :: ds[k] == Live(d, actions[..k])
  {
    seq(|actions| + 1, k requires 0 <= k <= |actions| => Live(d, actions[..k]))
  }

  lemma LiveIsHistory(d: Document, actions: seq<Action>)
    ensures IsHistory(States(d, actions), actions)
    ensures States(d, actions)[0] == d && States(d, actions)[|actions|] == Live(d, actions)
  {
    forall k | 0 <= k < |actions|
      ensures Acts(States(d, actions)[k], actions[k], States(d, actions)[k + 1])
    {
      assert actions[..k + 1][..k] == actions[..k];
      ActActs(Live(d, actions[..k]), actions[k]);
    }
    assert actions[..|actions|] == actions;
  }

  // The three fields an annotator may write.
  datatype Fields = Fields(objects: seq<Annotation>, ignoreRegions: seq<Region>, reviewState: string)

  function FieldsOf(im: Image): Fields {
    Fields(im.objects, im.ignoreRegions, im.reviewState)
  }

  // What the last accepted update of record i sent, with the review state set by a
  // certification after it; what it held at first when there is none.
  ghost function LastWritten(ds: seq<Document>, actions: seq<Action>, i: nat): Fields
    requires |ds| == |actions| + 1 && i < |ds[0].images|
  {
    if actions == [] then FieldsOf(ds[0].images[i])
    else
      var n := |actions| - 1;
      var before := LastWritten(ds[..n + 1], actions[..n], i);
      match actions[n]
      case Annotate(u) =>
        if u.index == i && CanAnnotate(ds[n], u) then Fields(u.objects, u.ignoreRegions, u.reviewState) else before
      case Certify(name, now) => if CanCertify(ds[n], name) then before.(reviewState := "certified") else before
      case Freeze(name, now) => before
  }

  lemma HistoryPrefix(ds: seq<Document>, actions: seq<Action>)
    requires IsHistory(ds, actions) && actions != []
    ensures IsHistory(ds[..|actions|], actions[..|actions| - 1])
  {
  }

  lemma ActionWrites(before: Document, a: Action, after: Document, i: nat)
    requires Acts(before, a, after) && i < |before.images|
    ensures |after.images| == |before.images|
    ensures FieldsOf(after.images[i]) ==
            match a
            case Annotate(u) =>
              if u.index == i && CanAnnotate(before, u) then Fields(u.objects, u.ignoreRegions, u.reviewState)
              else FieldsOf(before.images[i])
            case Certify(name, now) =>
              if CanCertify(before, name) then FieldsOf(before.images[i]).(reviewState := "certified")
              else FieldsOf(before.images[i])
            case Freeze(name, now) => FieldsOf(before.images[i])
  {
  }

  // Over every run a record holds what was last written to it.
  lemma {:induction false} LastWriteCounts(ds: seq<Document>, actions: seq<Action>, i: nat)
    requires IsHistory(ds, actions) && i < |ds[0].images|
    ensures |ds[|actions|].images| == |ds[0].images|
    ensures FieldsOf(ds[|actions|].images[i]) == LastWritten(ds, actions, i)
  {
    if actions != [] {
      var n := |actions| - 1;
      HistoryPrefix(ds, actions);
      LastWriteCounts(ds[..n + 1], actions[..n], i);
      ActionWrites(ds[n], actions[n], ds[n + 1], i);
    }
  }
}
