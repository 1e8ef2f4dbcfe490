/** What the latest version of a frame is, among its stored ones. */
module LatestLaws {
  import opened Schema
  import opened Validate
  import opened Versions
  import opened Registry
  import opened RegistryLaws

  ghost predicate AllParse(s: Store, id: Id) {
    forall k | k in s.versions && k.frame == id :: Parse(k.version).Some?
  }

  ghost predicate LatestIsMax(s: Store, id: Id) {
    id in s.frames && AllParse(s, id) ==>
      forall k | k in s.versions && k.frame == id :: AtMost(k.version, s.frames[id].latest)
  }

  lemma {:induction false} InsertedMax(s: Store, c: Caller, n: Insert, id: Id)
    requires Sound(s) && Fits(s, c, n) && Inserted(s, n).Ok? && LatestIsMax(s, id)
    ensures LatestIsMax(Inserted(s, n).value, id)
  {
    hide Valid, Can, Parse, RepeatsEdge, Repeats, NamesOk, EdgesLive, OrgsOk, RowOk;
    var t := Inserted(s, n).value;
    if id in t.frames && AllParse(t, id) {
      forall k | k in t.versions && k.frame == id ensures AtMost(k.version, t.frames[id].latest) {
        assert Parse(k.version).Some?;
        if n.id == id {
          assert VersionKey(n.id, n.version) in t.versions;
          if k.version != n.version {
            assert k in s.versions && RowOk(s, k, s.versions[k]);
            assert id in s.frames by { RowLive(s, k); }
            StillMax(s, n, k);
          }
        } else {
          assert k in s.versions;
          assert AllParse(s, id);
        }
      }
    }
  }

  lemma {:induction false} RowLive(s: Store, k: VersionKey)
    requires k in s.versions && RowOk(s, k, s.versions[k])
    ensures k.frame in s.frames
  {}

  lemma {:induction false} StillMax(s: Store, n: Insert, k: VersionKey)
    requires k in s.versions && k.frame == n.id && n.id in s.frames
    requires VersionKey(n.id, s.frames[n.id].latest) in s.versions
    requires Parse(n.version).Some? && AllParse(s, n.id) && LatestIsMax(s, n.id)
    requires !Lower(n.version, s.frames[n.id].latest)
    ensures AtMost(k.version, n.version)
  {
    hide Parse;
    var latest := s.frames[n.id].latest;
    assert Parse(VersionKey(n.id, latest).version).Some?;
    assert AtMost(k.version, latest);
    CompareIsPreorder(k.version, latest, n.version);
    CompareIsPreorder(latest, n.version, latest);
  }

  lemma {:induction false} PublishMax(s: Store, c: Caller, req: PublishRequest, id: Id)
    requires Sound(s) && LatestIsMax(s, id)
    ensures LatestIsMax(Published(s, c, req).store, id)
  {
    hide Sound, Fits, Published, Inserted, LatestIsMax;
    var n := PublishedCases(s, c, req);
    if Published(s, c, req).result.Ok? { InsertedMax(s, c, n, id); }
  }

  lemma {:induction false} RemovedMax(s: Store, gone: Id, id: Id)
    requires LatestIsMax(s, id) && Removed(s, gone).Ok?
    ensures LatestIsMax(Removed(s, gone).value, id)
  {
    hide Parse, AtMost, Detached;
    var t := Removed(s, gone).value;
    if id in t.frames && AllParse(t, id) {
      assert AllParse(s, id) by {
        forall k | k in s.versions && k.frame == id ensures Parse(k.version).Some? { assert k in t.versions; }
      }
    }
  }

  lemma {:induction false} StepMax(s: Store, call: Call, id: Id)
    requires Sound(s) && LatestIsMax(s, id)
    ensures LatestIsMax(Step(s, call).store, id)
  {
    hide Sound, Published, Can, Children, Removed, LatestIsMax;
    match call.request {
      case DoPublish(req) => PublishMax(s, call.caller, req, id);
      case DoUpdate(p, size) =>
        var d := SourceDoc(s, call.caller, p.name);
        if d.Some? { PublishMax(s, call.caller, UpdateRequest(p, d.value, size), id); }
      case DoDelete(slug, name, force) =>
        var found := Lookup(s, slug, name);
        if found.Some? && Removed(s, found.value).Ok? { RemovedMax(s, found.value, id); }
    }
  }

  lemma {:induction false} RunMax(s: Store, calls: seq<Call>, id: Id)
    requires Sound(s) && LatestIsMax(s, id)
    ensures LatestIsMax(After(s, calls), id)
  {
    hide Sound, Step, LatestIsMax;
    if calls != [] {
      var n := |calls| - 1;
      RunMax(s, calls[..n], id);
      AlwaysSound(s, calls[..n]);
      StepMax(After(s, calls[..n]), calls[n], id);
    }
  }

  /** In every run, a living frame's latest version is numerically at least every stored one if and
      only if all of them parse. */
  lemma {:induction false} LatestAlwaysMax(s: Store, calls: seq<Call>, id: Id)
    requires Sound(s) && LatestIsMax(s, id) && id in After(s, calls).frames
    ensures var t := After(s, calls);
            AllParse(t, id) <==> forall k | k in t.versions && k.frame == id :: AtMost(k.version, t.frames[id].latest)
  {
    hide Sound, After, Parse;
    RunMax(s, calls, id);
    var t := After(s, calls);
    if forall k | k in t.versions && k.frame == id :: AtMost(k.version, t.frames[id].latest) {
      forall k | k in t.versions && k.frame == id ensures Parse(k.version).Some? {
        assert AtMost(k.version, t.frames[id].latest);
      }
    }
  }

  // ---------------------------------------------------------------- versions that do not parse

  /** No stored version is numerically above the latest one; a side that does not parse is above and
      below nothing. */
  ghost predicate NoneAbove(s: Store, id: Id, latest: string) {
    forall k | k in s.versions && k.frame == id :: !Lower(latest, k.version)
  }

  lemma {:induction false} LowerTrans(a: string, b: string, c: string)
    requires !Lower(b, a) && Parse(b).Some? && !Lower(c, b)
    ensures !Lower(c, a)
  {
    hide Parse;
    if Parse(a).Some? && Parse(c).Some? {
      CompareIsPreorder(a, b, c);
      CompareIsPreorder(a, c, b);
      CompareIsPreorder(b, c, a);
    }
  }

  lemma {:induction false} NotBelowItself(v: string)
    ensures !Lower(v, v)
  {}

  /** After an accepted publish over a frame with no stored version above its latest, that still holds
      exactly when the new version does not parse, or the previous latest parses, or no stored version
      is above the new one. */
  lemma {:induction false} PublishKeepsHighest(s: Store, c: Caller, req: PublishRequest, id: Id)
    requires Sound(s) && id in s.frames && NoneAbove(s, id, s.frames[id].latest)
    requires Published(s, c, req).result.Ok? && Published(s, c, req).result.value.frame == id
    ensures var t, v := Published(s, c, req).store, req.doc.version;
            id in t.frames && t.frames[id].latest == v &&
            (NoneAbove(t, id, v) <==> Parse(v) == None || Parse(s.frames[id].latest).Some? || NoneAbove(s, id, v))
  {
    hide Valid, Can, Parse, Compare, RepeatsEdge, Repeats, NamesOk, EdgesLive, OrgsOk, RowsOk, Published;
    var n := PublishedCases(s, c, req);
    var t, v, latest := Published(s, c, req).store, req.doc.version, s.frames[id].latest;
    assert t.frames[id].latest == v && v == n.version;
    NotBelowItself(v);
    if Parse(latest).Some? {
      forall k | k in s.versions && k.frame == id ensures !Lower(v, k.version) { LowerTrans(k.version, latest, v); }
    }
    if Parse(v) == None {
      forall k | k in t.versions && k.frame == id ensures !Lower(v, k.version) { UnparsedIsNotLower(v, k.version); }
    }
    forall k | k in t.versions && k.frame == id ensures k in s.versions || k.version == v {}
    forall k | k in s.versions ensures k in t.versions {}
  }

  lemma {:induction false} UnparsedIsNotLower(v: string, w: string)
    requires Parse(v) == None
    ensures !Lower(v, w)
  {
    hide Parse;
  }
}
