/** Reading resolved documents from the registry. */
module Reading {
  import opened Schema
  import opened Registry
  import opened RegistryLaws
  import opened Validate
  import Resolver
  import ResolverLaws

  datatype ReadError = NoFrame | InCycle(path: seq<string>)

  /** readFetcher.FetchParent: a pinned version of a frame that the caller may read. */
  function FetchParent(s: Store, c: Caller, slug: string, p: ExtendRef): Option<Doc> {
    match Readable(s, c, slug, p.ref)
    case None => None
    case Some(id) =>
      if VersionKey(id, p.version) in s.versions then Some(s.versions[VersionKey(id, p.version)].doc) else None
  }

  /** Every parent that a stored document pins. */
  function Pins(s: Store): set<ExtendRef> { set k, p | k in s.versions && p in s.versions[k].doc.extends_ :: p }

  /** All that a resolution can fetch for this caller. */
  function Fetchable(s: Store, c: Caller, slug: string): Resolver.Graph {
    map p | p in Pins(s) && FetchParent(s, c, slug, p).Some? :: FetchParent(s, c, slug, p).value
  }

  /** The document a read names, as far as the caller may read it; "" asks for the latest version. */
  function Loaded(s: Store, c: Caller, org: string, name: string, version: string): Option<Doc> {
    match Lookup(s, org, name)
    case None => None
    case Some(id) =>
      if !Can(s, c, id, Read) then None
      else
        var key := VersionKey(id, if version == "" then s.frames[id].latest else version);
        if key in s.versions then Some(s.versions[key].doc) else None
  }

  /** ResolveDoc. */
  function ResolvedDoc(s: Store, c: Caller, org: string, name: string, version: string): Result<Doc, ReadError> {
    match Loaded(s, c, org, name, version)
    case None => Err(NoFrame)
    case Some(doc) =>
      if c.org !in s.slugs then Err(NoFrame)
      else match Resolver.Resolved(Fetchable(s, c, s.slugs[c.org]), doc, doc.extends_, doc.excludes)
        case Ok(d) => Ok(d)
        case Err(f) => if f.Cycle? then Err(InCycle(f.path)) else Err(NoFrame)
  }

  // ---------------------------------------------------------------- when a read succeeds

  /** A way up from the parents, fetching each frame from the store, that meets no exclude on it. */
  predicate Way(s: Store, c: Caller, slug: string, parents: seq<ExtendRef>, excl: set<string>, chain: seq<ExtendRef>)
    decreases |chain|
  {
    chain == [] ||
    (chain[0] in parents && chain[0].ref !in excl &&
     (|chain| > 1 ==>
        match FetchParent(s, c, slug, chain[0])
        case None => false
        case Some(d) => Way(s, c, slug, d.extends_, excl + Resolver.Elements(d.excludes), chain[1..])))
  }

  /** Every frame on the way is readable and its version stored, and no ref@version occurs twice. */
  predicate WayClear(s: Store, c: Caller, slug: string, chain: seq<ExtendRef>) {
    && (forall i | 0 <= i < |chain| :: FetchParent(s, c, slug, chain[i]).Some?)
    && (forall i, j | 0 <= i < j < |chain| ::
          chain[i].ref + "@" + chain[i].version != chain[j].ref + "@" + chain[j].version)
  }

  ghost predicate AllWaysClear(s: Store, c: Caller, slug: string, parents: seq<ExtendRef>, excl: set<string>) {
    forall chain | Way(s, c, slug, parents, excl, chain) :: WayClear(s, c, slug, chain)
  }

  /** All parents are pinned by some stored document. */
  predicate Pinned(s: Store, parents: seq<ExtendRef>) { forall p | p in parents :: p in Pins(s) }

  lemma {:induction false} StoredPins(s: Store, k: VersionKey)
    requires k in s.versions
    ensures Pinned(s, s.versions[k].doc.extends_)
  {}

  /** Looking up the graph of stored pins is fetching from the store. */
  lemma {:induction false} FetchIsLookup(s: Store, c: Caller, slug: string, p: ExtendRef)
    requires p in Pins(s)
    ensures p in Fetchable(s, c, slug) <==> FetchParent(s, c, slug, p).Some?
    ensures FetchParent(s, c, slug, p).Some? ==>
              var d := FetchParent(s, c, slug, p).value; Fetchable(s, c, slug)[p] == d && Pinned(s, d.extends_)
  {
    hide Readable, Pins, Pinned;
    if FetchParent(s, c, slug, p).Some? { StoredPins(s, VersionKey(Readable(s, c, slug, p.ref).value, p.version)); }
  }

  /** Nothing is lost by keeping only the pinned references: the ways up are the same. */
  lemma {:induction false} WayIsChain(s: Store, c: Caller, slug: string, parents: seq<ExtendRef>, excl: set<string>,
                                      chain: seq<ExtendRef>)
    requires Pinned(s, parents)
    ensures Way(s, c, slug, parents, excl, chain) <==>
            ResolverLaws.Chain(Fetchable(s, c, slug), parents, excl, chain)
    ensures Way(s, c, slug, parents, excl, chain) ==>
              (WayClear(s, c, slug, chain) <==> ResolverLaws.AllPinsDiffer(Fetchable(s, c, slug), chain)) &&
              forall i | 0 <= i < |chain| :: chain[i] in Pins(s)
    decreases |chain|
  {
    hide FetchParent, Pins, Fetchable, Resolver.Key;
    if chain != [] && chain[0] in parents {
      FetchIsLookup(s, c, slug, chain[0]);
      if |chain| > 1 && FetchParent(s, c, slug, chain[0]).Some? {
        var d := FetchParent(s, c, slug, chain[0]).value;
        WayIsChain(s, c, slug, d.extends_, excl + Resolver.Elements(d.excludes), chain[1..]);
        assert forall i | 1 <= i < |chain| :: chain[i] == chain[1..][i - 1];
      }
      if forall i | 0 <= i < |chain| :: chain[i] in Pins(s) {
        forall i | 0 <= i < |chain|
          ensures chain[i] in Fetchable(s, c, slug) <==> FetchParent(s, c, slug, chain[i]).Some?
        {
          FetchIsLookup(s, c, slug, chain[i]);
        }
      }
    }
  }

  /** A read resolves exactly when the caller may read the document and every exclude-aware way up
      from it meets only readable frames with the pinned version stored, none of them twice. */
  lemma {:induction false} ReadResolvesIff(s: Store, c: Caller, org: string, name: string, version: string)
    ensures ResolvedDoc(s, c, org, name, version).Ok? <==>
            var doc := Loaded(s, c, org, name, version);
            && doc.Some? && c.org in s.slugs
            && AllWaysClear(s, c, s.slugs[c.org], doc.value.extends_, Resolver.Elements(doc.value.excludes))
  {
    hide Can, Lookup, Fetchable, Way, WayClear, Pinned, ResolverLaws.Chain, ResolverLaws.AllPinsDiffer,
      Resolver.Resolved;
    var loaded := Loaded(s, c, org, name, version);
    if loaded.Some? && c.org in s.slugs {
      var doc, slug := loaded.value, s.slugs[c.org];
      var excl := Resolver.Elements(doc.excludes);
      LoadedPins(s, c, org, name, version);
      ResolverLaws.ResolvesIff(Fetchable(s, c, slug), doc, doc.extends_, doc.excludes);
      forall chain
        ensures Way(s, c, slug, doc.extends_, excl, chain) <==>
                ResolverLaws.Chain(Fetchable(s, c, slug), doc.extends_, excl, chain)
        ensures Way(s, c, slug, doc.extends_, excl, chain) ==>
                  (WayClear(s, c, slug, chain) <==> ResolverLaws.AllPinsDiffer(Fetchable(s, c, slug), chain))
      {
        WayIsChain(s, c, slug, doc.extends_, excl, chain);
      }
    }
  }

  lemma {:induction false} LoadedPins(s: Store, c: Caller, org: string, name: string, version: string)
    requires Loaded(s, c, org, name, version).Some?
    ensures Pinned(s, Loaded(s, c, org, name, version).value.extends_)
  {
    hide Can, Lookup, Pinned;
    var id := Lookup(s, org, name).value;
    assert Can(s, c, id, Read);
    CanFrame(s, c, id, Read);
    StoredPins(s, VersionKey(id, if version == "" then s.frames[id].latest else version));
  }

  // ---------------------------------------------------------------- reads over time

  /** A living frame is under its name, open to the same readers, with its documents, in both stores. */
  ghost predicate Stays(s: Store, t: Store, id: Id) {
    && id in s.frames && id in t.frames && KeyOf(t.frames[id]) == KeyOf(s.frames[id])
    && id in s.grants && id in t.grants && t.grants[id] == s.grants[id]
    && (forall k: VersionKey | k in s.versions && k.frame == id ::
          k in t.versions && t.versions[k].doc == s.versions[k].doc)
  }

  lemma {:induction false} InsertStays(s: Store, c: Caller, n: Insert, id: Id)
    requires s.grants.Keys == s.frames.Keys && Fits(s, c, n) && Inserted(s, n).Ok? && id in s.frames
    ensures Stays(s, Inserted(s, n).value, id)
  {
    hide EdgesLive, Can, RepeatsEdge, Repeats;
  }

  lemma {:induction false} PublishStays(s: Store, c: Caller, req: PublishRequest, id: Id)
    requires Sound(s) && id in s.frames
    ensures var t := Published(s, c, req).store; Stays(s, t, id) && t.slugs == s.slugs && t.orgs == s.orgs
  {
    hide Fits, Published, RowsOk, NamesOk, OrgsOk, LatestStored;
    var n := PublishedCases(s, c, req);
    if Published(s, c, req).result.Ok? { InsertStays(s, c, n, id); }
  }

  lemma {:induction false} StaysSame(s: Store, id: Id)
    requires Sound(s) && id in s.frames
    ensures Stays(s, s, id)
  {
    hide RowsOk, NamesOk, OrgsOk, LatestStored;
  }

  lemma {:induction false} StepStays(s: Store, call: Call, id: Id)
    requires Sound(s) && id in s.frames && id in Step(s, call).store.frames
    ensures var t := Step(s, call).store; Stays(s, t, id) && t.slugs == s.slugs && t.orgs == s.orgs
  {
    hide Published, Can, Children, Sound, Stays, Removed;
    StaysSame(s, id);
    match call.request {
      case DoPublish(req) => PublishStays(s, call.caller, req, id);
      case DoUpdate(p, size) =>
        var d := SourceDoc(s, call.caller, p.name);
        if d.Some? { PublishStays(s, call.caller, UpdateRequest(p, d.value, size), id); }
      case DoDelete(slug, name, force) =>
        var found := Lookup(s, slug, name);
        if Deleted(s, call.caller, slug, name, force).result.Ok? {
          RemovesOther(s, found.value, id);
          RemoveStays(s, found.value, id);
        }
    }
  }

  lemma {:induction false} RemovesOther(s: Store, gone: Id, id: Id)
    ensures Removed(s, gone).Ok? ==>
              gone in s.frames && (id in Removed(s, gone).value.frames <==> id in s.frames && id != gone)
  {}

  lemma {:induction false} RemoveStays(s: Store, gone: Id, id: Id)
    requires Sound(s) && gone in s.frames && id in s.frames && id != gone
    ensures var t := Removed(s, gone).value; Stays(s, t, id) && t.slugs == s.slugs && t.orgs == s.orgs
  {
    hide RowsOk, NamesOk, OrgsOk, LatestStored;
  }

  /** The frame lives before every call of the run and after it. */
  ghost predicate Survives(s: Store, calls: seq<Call>, id: Id) {
    forall k | 0 <= k <= |calls| :: id in At(s, calls, k).frames
  }

  lemma {:induction false} RunStays(s: Store, calls: seq<Call>, n: nat, id: Id)
    requires Sound(s) && n <= |calls| && Survives(s, calls, id)
    ensures var t := At(s, calls, n); Stays(s, t, id) && t.slugs == s.slugs && t.orgs == s.orgs
    decreases n
  {
    hide Sound, At, Step, Stays;
    if n == 0 {
      assert At(s, calls, 0) == s by { AtStart(s, calls); }
      assert id in At(s, calls, 0).frames;
      StaysSame(s, id);
    } else {
      RunStays(s, calls, n - 1, id);
      AtNext(s, calls, n - 1);
      AlwaysAt(s, calls, n - 1);
      assert id in At(s, calls, n - 1).frames && id in At(s, calls, n).frames;
      StepStays(At(s, calls, n - 1), calls[n - 1], id);
      StaysLonger(s, At(s, calls, n - 1), At(s, calls, n), id);
    }
  }

  lemma {:induction false} AtStart(s: Store, calls: seq<Call>)
    ensures At(s, calls, 0) == s
  {}

  lemma {:induction false} AtEnd(s: Store, calls: seq<Call>)
    ensures At(s, calls, |calls|) == After(s, calls)
  {
    assert calls[..|calls|] == calls;
  }

  lemma {:induction false} StaysLonger(s: Store, t: Store, u: Store, id: Id)
    requires Stays(s, t, id) && Stays(t, u, id)
    ensures Stays(s, u, id)
  {}

  lemma {:induction false} StillFound(s: Store, t: Store, c: Caller, org: string, name: string)
    requires NamesOk(s) && NamesOk(t) && t.orgs == s.orgs && Lookup(s, org, name).Some?
    requires Stays(s, t, Lookup(s, org, name).value)
    ensures Lookup(t, org, name) == Lookup(s, org, name)
    ensures Can(t, c, Lookup(s, org, name).value, Read) <==> Can(s, c, Lookup(s, org, name).value, Read)
  {}

  lemma {:induction false} StillFetched(s: Store, t: Store, c: Caller, slug: string, p: ExtendRef)
    requires NamesOk(s) && NamesOk(t) && t.orgs == s.orgs && FetchParent(s, c, slug, p).Some?
    requires Stays(s, t, Readable(s, c, slug, p.ref).value)
    ensures FetchParent(t, c, slug, p) == FetchParent(s, c, slug, p)
  {
    hide Can, Lookup, SplitRef, NamesOk, Stays;
    var (org, name) := SplitRef(p.ref, slug);
    StillFound(s, t, c, org, name);
    StaysDocs(s, t, Readable(s, c, slug, p.ref).value);
  }

  lemma {:induction false} StaysDocs(s: Store, t: Store, id: Id)
    requires Stays(s, t, id)
    ensures forall k: VersionKey | k in s.versions && k.frame == id ::
              k in t.versions && t.versions[k].doc == s.versions[k].doc
  {}

  /** Every frame that the way up meets is still there in t. */
  ghost predicate WaysStay(s: Store, t: Store, c: Caller, slug: string, parents: seq<ExtendRef>, excl: set<string>) {
    forall chain: seq<ExtendRef> | chain != [] && Way(s, c, slug, parents, excl, chain) ::
      var last := Readable(s, c, slug, chain[|chain| - 1].ref); last.Some? ==> Stays(s, t, last.value)
  }

  /** The end of a way up is fetched from t as from s, and t still pins it. */
  lemma {:induction false} WayEnd(s: Store, t: Store, c: Caller, slug: string, parents: seq<ExtendRef>,
                                  excl: set<string>, chain: seq<ExtendRef>)
    requires NamesOk(s) && NamesOk(t) && t.orgs == s.orgs && Pinned(s, parents) && Pinned(t, parents)
    requires WaysStay(s, t, c, slug, parents, excl) && chain != [] && Way(s, c, slug, parents, excl, chain)
    requires FetchParent(s, c, slug, chain[|chain| - 1]).Some?
    ensures FetchParent(t, c, slug, chain[|chain| - 1]) == FetchParent(s, c, slug, chain[|chain| - 1])
    ensures chain[|chain| - 1] in Pins(t)
    decreases |chain|
  {
    hide NamesOk, Stays, Pins, FetchParent, WaysStay;
    if |chain| == 1 {
      assert chain == [chain[0]];
      WayStays(s, t, c, slug, parents, excl, chain);
      StillFetched(s, t, c, slug, chain[0]);
    } else {
      var d := FetchParent(s, c, slug, chain[0]).value;
      FirstStays(s, t, c, slug, parents, excl, chain[0]);
      FetchIsLookup(s, c, slug, chain[0]);
      FetchIsLookup(t, c, slug, chain[0]);
      WaysStayBelow(s, t, c, slug, parents, excl, chain[0]);
      WayEnd(s, t, c, slug, d.extends_, excl + Resolver.Elements(d.excludes), chain[1..]);
    }
  }

  lemma {:induction false} WayStays(s: Store, t: Store, c: Caller, slug: string, parents: seq<ExtendRef>,
                                    excl: set<string>, chain: seq<ExtendRef>)
    requires WaysStay(s, t, c, slug, parents, excl) && chain != [] && Way(s, c, slug, parents, excl, chain)
    requires FetchParent(s, c, slug, chain[|chain| - 1]).Some?
    ensures Stays(s, t, Readable(s, c, slug, chain[|chain| - 1].ref).value)
  {
    hide Stays, Readable, Way;
  }

  lemma {:induction false} FirstStays(s: Store, t: Store, c: Caller, slug: string, parents: seq<ExtendRef>,
                                      excl: set<string>, p: ExtendRef)
    requires NamesOk(s) && NamesOk(t) && t.orgs == s.orgs
    requires WaysStay(s, t, c, slug, parents, excl) && p in parents && p.ref !in excl
    requires FetchParent(s, c, slug, p).Some?
    ensures FetchParent(t, c, slug, p) == FetchParent(s, c, slug, p)
  {
    hide NamesOk, Stays, FetchParent, WaysStay;
    assert Way(s, c, slug, parents, excl, [p]);
    WayStays(s, t, c, slug, parents, excl, [p]);
    StillFetched(s, t, c, slug, p);
  }

  lemma {:induction false} WaysStayBelow(s: Store, t: Store, c: Caller, slug: string, parents: seq<ExtendRef>,
                                         excl: set<string>, p: ExtendRef)
    requires WaysStay(s, t, c, slug, parents, excl) && p in parents && p.ref !in excl
    requires FetchParent(s, c, slug, p).Some?
    ensures var d := FetchParent(s, c, slug, p).value;
            WaysStay(s, t, c, slug, d.extends_, excl + Resolver.Elements(d.excludes))
  {
    hide Stays, FetchParent, Readable;
    var d := FetchParent(s, c, slug, p).value;
    var below := excl + Resolver.Elements(d.excludes);
    forall chain: seq<ExtendRef> | chain != [] && Way(s, c, slug, d.extends_, below, chain)
      ensures var last := Readable(s, c, slug, chain[|chain| - 1].ref); last.Some? ==> Stays(s, t, last.value)
    {
      var longer := [p] + chain;
      assert longer[1..] == chain;
      assert Way(s, c, slug, parents, excl, longer);
      assert longer[|longer| - 1] == chain[|chain| - 1];
    }
  }

  /** A resolved read stays as it is in any later store that keeps its frame and every frame its ways
      up meet. */
  lemma {:induction false} ReadStays(s: Store, t: Store, c: Caller, org: string, name: string, version: string)
    requires NamesOk(s) && NamesOk(t) && t.orgs == s.orgs && t.slugs == s.slugs
    requires version != "" && ResolvedDoc(s, c, org, name, version).Ok?
    requires Stays(s, t, Lookup(s, org, name).value)
    requires var doc := Loaded(s, c, org, name, version).value;
             WaysStay(s, t, c, s.slugs[c.org], doc.extends_, Resolver.Elements(doc.excludes))
    ensures ResolvedDoc(t, c, org, name, version) == ResolvedDoc(s, c, org, name, version)
  {
    hide NamesOk, Can, Lookup, Fetchable, WaysStay, Stays, ResolverLaws.AgreeOnChains, Resolver.Walk, Pinned;
    var id := Lookup(s, org, name).value;
    StillFound(s, t, c, org, name);
    StaysDocs(s, t, id);
    CanFrame(s, c, id, Read);
    CanFrame(t, c, id, Read);
    var doc, slug := Loaded(s, c, org, name, version).value, s.slugs[c.org];
    assert Loaded(t, c, org, name, version) == Some(doc);
    LoadedPins(s, c, org, name, version);
    LoadedPins(t, c, org, name, version);
    ReadResolvesIff(s, c, org, name, version);
    GraphsAgree(s, t, c, slug, doc.extends_, Resolver.Elements(doc.excludes));
    ResolverLaws.WalkSame(Fetchable(s, c, slug), Fetchable(t, c, slug), doc.extends_,
                          Resolver.Place(Resolver.Elements(doc.excludes), {}, [doc.name]));
  }

  lemma {:induction false} GraphsAgree(s: Store, t: Store, c: Caller, slug: string, parents: seq<ExtendRef>,
                                       excl: set<string>)
    requires NamesOk(s) && NamesOk(t) && t.orgs == s.orgs && Pinned(s, parents) && Pinned(t, parents)
    requires WaysStay(s, t, c, slug, parents, excl)
    requires AllWaysClear(s, c, slug, parents, excl)
    ensures ResolverLaws.AgreeOnChains(Fetchable(s, c, slug), Fetchable(t, c, slug), parents, excl)
  {
    hide NamesOk, WaysStay, Pinned, Pins, FetchParent, Fetchable, Way, ResolverLaws.Chain;
    var g, h := Fetchable(s, c, slug), Fetchable(t, c, slug);
    forall chain: seq<ExtendRef> | chain != [] && ResolverLaws.Chain(g, parents, excl, chain)
      ensures var last := chain[|chain| - 1];
              (last in g <==> last in h) && (last in g && last in h ==> g[last] == h[last])
    {
      var last := chain[|chain| - 1];
      WayIsChain(s, c, slug, parents, excl, chain);
      WayEnd(s, t, c, slug, parents, excl, chain);
      FetchIsLookup(s, c, slug, last);
      FetchIsLookup(t, c, slug, last);
    }
  }

  /** The document resolves, and its frame and every frame that its ways up meet survive the run. */
  ghost predicate SourcesSurvive(s: Store, calls: seq<Call>, c: Caller, org: string, name: string, version: string) {
    && ResolvedDoc(s, c, org, name, version).Ok?
    && Survives(s, calls, Lookup(s, org, name).value)
    && var doc := Loaded(s, c, org, name, version).value;
       forall chain: seq<ExtendRef> | chain != [] &&
           Way(s, c, s.slugs[c.org], doc.extends_, Resolver.Elements(doc.excludes), chain) ::
         var last := Readable(s, c, s.slugs[c.org], chain[|chain| - 1].ref);
         last.Some? ==> Survives(s, calls, last.value)
  }

  /** Whatever is published, updated or deleted later: a version read by its number resolves to what it
      did, as long as its frame and every frame that its ways up meet survive. */
  lemma {:induction false} ReadsAreStable(s: Store, calls: seq<Call>, c: Caller, org: string, name: string,
                                          version: string)
    requires Sound(s) && version != ""
    ensures SourcesSurvive(s, calls, c, org, name, version) ==>
              ResolvedDoc(After(s, calls), c, org, name, version) == ResolvedDoc(s, c, org, name, version)
  {
    hide Way, Stays, Survives, After, Readable, RowsOk, LatestStored, OrgsOk, Can, Fetchable, Resolver.Resolved;
    if SourcesSurvive(s, calls, c, org, name, version) {
      var t := After(s, calls);
      AlwaysSound(s, calls);
      AtEnd(s, calls);
      RunStays(s, calls, |calls|, Lookup(s, org, name).value);
      var doc := Loaded(s, c, org, name, version).value;
      var slug, excl := s.slugs[c.org], Resolver.Elements(doc.excludes);
      forall chain: seq<ExtendRef> | chain != [] && Way(s, c, slug, doc.extends_, excl, chain)
        ensures var last := Readable(s, c, slug, chain[|chain| - 1].ref); last.Some? ==> Stays(s, t, last.value)
      {
        var last := Readable(s, c, slug, chain[|chain| - 1].ref);
        if last.Some? { RunStays(s, calls, |calls|, last.value); }
      }
      ReadStays(s, t, c, org, name, version);
    }
  }

  /** An update that succeeds keeps every field the client did not mention. */
  lemma {:induction false} OmittedFieldsKept(s: Store, c: Caller, p: Patch, size: nat)
    requires Sound(s) && Updated(s, c, p, size).result.Ok?
    ensures var o := Updated(s, c, p, size);
            var key := o.result.value;
            var old_ := VersionKey(key.frame, p.base);
            && old_ in s.versions && key in o.store.versions
            && var a, b := s.versions[old_].doc, o.store.versions[key].doc;
            && b.name == a.name && b.version == p.version
            && (p.description == None ==> b.description == a.description)
            && (p.visibility == None ==> b.visibility == a.visibility)
            && (p.scope == None ==> b.scope == a.scope)
            && (p.maintainer == None ==> b.maintainer == a.maintainer)
            && (p.extends_ == None ==> b.extends_ == a.extends_)
            && (p.excludes == None ==> b.excludes == a.excludes)
            && (p.terminology == None ==> b.slots.terminology == a.slots.terminology)
            && (p.rules == None ==> b.slots.rules == a.slots.rules)
            && (p.skills == None ==> b.slots.skills == a.slots.skills)
            && (p.prompts == None ==> b.slots.prompts == a.slots.prompts)
            && (p.toolSpecs == None ==> b.slots.toolSpecs == a.slots.toolSpecs)
            && (p.goals == None ==> b.slots.goals == a.slots.goals)
            && (p.style == None ==> b.slots.style == a.slots.style)
            && (p.norms == None ==> b.slots.norms == a.slots.norms)
            && (p.architecture == None ==> b.slots.architecture == a.slots.architecture)
            && (p.businessProcess == None ==> b.slots.businessProcess == a.slots.businessProcess)
  {
    hide Updated, RowsOk, NamesOk, OrgsOk, LatestStored;
    UpdateStores(s, c, p, size);
    UpdatedName(s, c, p, size);
  }

  lemma {:induction false} UpdatedName(s: Store, c: Caller, p: Patch, size: nat)
    requires Sound(s) && Updated(s, c, p, size).result.Ok?
    ensures var key := Updated(s, c, p, size).result.value;
            && VersionKey(key.frame, p.base) in s.versions
            && s.versions[VersionKey(key.frame, p.base)].doc.name == p.name
  {
    hide Updated, NamesOk, OrgsOk, LatestStored, Valid, EdgesLive;
    UpdateStores(s, c, p, size);
    var key := VersionKey(Updated(s, c, p, size).result.value.frame, p.base);
    assert RowOk(s, key, s.versions[key]);
  }
}
