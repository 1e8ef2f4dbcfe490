/** What every run of publish, update and delete requests keeps. */
module RegistryLaws {
  import opened Schema
  import opened Validate
  import opened Versions
  import opened Registry

  datatype Request =
    | DoPublish(publish: PublishRequest)
    | DoUpdate(patch: Patch, size: nat)
    | DoDelete(slug: string, name: string, force: bool)

  /** One server request by one caller; requests are atomic, so a run is a sequence of them. */
  datatype Call = Call(caller: Caller, request: Request)

  function Step(s: Store, call: Call): Outcome {
    match call.request
    case DoPublish(req) => Published(s, call.caller, req)
    case DoUpdate(p, size) => Updated(s, call.caller, p, size)
    case DoDelete(slug, name, force) => Deleted(s, call.caller, slug, name, force)
  }

  function After(s: Store, calls: seq<Call>): Store {
    if calls == [] then s else Step(After(s, calls[..|calls| - 1]), calls[|calls| - 1]).store
  }

  // ---------------------------------------------------------------- the invariant

  ghost predicate OrgsOk(s: Store) {
    && (forall o | o in s.slugs :: s.slugs[o] in s.orgs && s.orgs[s.slugs[o]] == o)
    && (forall g | g in s.orgs :: s.orgs[g] in s.slugs && s.slugs[s.orgs[g]] == g)
  }

  function KeyOf(f: FrameRow): FrameKey { FrameKey(f.org, f.name) }

  /** The name index and the frame table are inverse to each other. */
  ghost predicate NamesOk(s: Store) {
    && (forall id | id in s.frames :: KeyOf(s.frames[id]) in s.names && s.names[KeyOf(s.frames[id])] == id)
    && (forall k | k in s.names :: s.names[k] in s.frames && KeyOf(s.frames[s.names[k]]) == k)
  }

  ghost predicate EdgesLive(s: Store, org: Id, es: seq<ParentEdge>) {
    forall e | e in es :: e.parent in s.frames && s.frames[e.parent].org == org
  }

  /** A version row belongs to a live frame, holds a valid document under its own name and version,
      and all its edges name live frames of the same org. */
  ghost predicate RowOk(s: Store, k: VersionKey, row: VersionRow) {
    && k.frame in s.frames
    && row.doc.version == k.version && row.doc.name == s.frames[k.frame].name && Valid(row.doc)
    && EdgesLive(s, s.frames[k.frame].org, row.parents)
  }

  ghost predicate RowsOk(s: Store) { forall k | k in s.versions :: RowOk(s, k, s.versions[k]) }

  /** Every frame's latest version is a stored one. */
  ghost predicate LatestStored(s: Store) {
    forall id | id in s.frames :: VersionKey(id, s.frames[id].latest) in s.versions
  }

  ghost predicate Sound(s: Store) {
    OrgsOk(s) && NamesOk(s) && RowsOk(s) && LatestStored(s) && s.grants.Keys == s.frames.Keys
  }

  lemma {:induction false} LookupLive(s: Store, slug: string, name: string)
    requires NamesOk(s) && Lookup(s, slug, name).Some?
    ensures var id := Lookup(s, slug, name).value;
            id in s.frames && s.frames[id].name == name && slug in s.orgs && s.frames[id].org == s.orgs[slug]
  {}

  // ---------------------------------------------------------------- what a publish inserts

  lemma {:induction false} EdgesAreLive(s: Store, c: Caller, slug: string, refs: seq<ExtendRef>)
    ensures EdgesOf(s, c, slug, refs).Ok? ==> EdgesLive(s, c.org, EdgesOf(s, c, slug, refs).value)
  {
    hide SplitRef, Lookup;
    if refs != [] { EdgesAreLive(s, c, slug, refs[..|refs| - 1]); }
  }

  /** What an accepted publish inserts into the store it was checked against. */
  ghost predicate Fits(s: Store, c: Caller, n: Insert) {
    && n.frame.org == c.org && n.frame.latest == n.version
    && n.row.doc.version == n.version && n.row.doc.name == n.frame.name && Valid(n.row.doc)
    && EdgesLive(s, c.org, n.row.parents)
    && (!n.isNew ==> n.id in s.frames && KeyOf(s.frames[n.id]) == KeyOf(n.frame) && Can(s, c, n.id, Edit) &&
                     !Lower(n.version, s.frames[n.id].latest))
    && (n.isNew ==> n.grants == DefaultGrants(c.sub, c.org))
  }

  predicate Lower(v: string, latest: string) { Compare(v, latest).Some? && Compare(v, latest).value < 0 }

  lemma {:induction false} InsertFits(s: Store, c: Caller, req: PublishRequest)
    requires Sound(s) && PublishChecks(s, c, req) == None && InsertFor(s, c, req).Ok?
    ensures var n := InsertFor(s, c, req).value;
            && Fits(s, c, n) && n.row.doc == req.doc && n.version == req.doc.version
            && (!n.isNew && req.base != "" ==> s.frames[n.id].latest == req.base)
  {
    hide Can, Lookup, EdgesOf, ExcludedOf, Valid, MissingSlots, Compare, EdgesLive, RowsOk, LatestStored;
    EdgesAreLive(s, c, s.slugs[c.org], req.doc.extends_);
    var found := Lookup(s, s.slugs[c.org], req.doc.name);
    if found.Some? { LookupLive(s, s.slugs[c.org], req.doc.name); }
  }

  /** A publish either changes nothing and fails, or inserts what fits. */
  lemma {:induction false} PublishedCases(s: Store, c: Caller, req: PublishRequest) returns (n: Insert)
    requires Sound(s)
    ensures var o := Published(s, c, req);
            (o.store == s && o.result.Err?) ||
            (Fits(s, c, n) && Inserted(s, n) == Ok(o.store) && o.result == Ok(VersionKey(n.id, n.version)) &&
             n.row.doc == req.doc && (!n.isNew && req.base != "" ==> s.frames[n.id].latest == req.base))
  {
    hide Sound, Fits, InsertFor, PublishChecks, Inserted;
    if PublishChecks(s, c, req) == None && InsertFor(s, c, req).Ok? {
      n := InsertFor(s, c, req).value;
      InsertFits(s, c, req);
    } else {
      n := Insert("", FrameRow("", "", "", "", ""), "", VersionRow(req.doc, "", "", [], []), true, []);
    }
  }

  // ---------------------------------------------------------------- every step keeps the invariant

  lemma {:induction false} RowStays(s: Store, t: Store, k: VersionKey, row: VersionRow)
    requires RowOk(s, k, row)
    requires forall id | id in s.frames :: id in t.frames && KeyOf(t.frames[id]) == KeyOf(s.frames[id])
    ensures RowOk(t, k, row)
  {
    hide Valid;
    forall e | e in row.parents ensures e.parent in t.frames && t.frames[e.parent].org == t.frames[k.frame].org {
      assert KeyOf(t.frames[e.parent]) == KeyOf(s.frames[e.parent]);
    }
  }

  lemma {:induction false} InsertedNames(s: Store, c: Caller, n: Insert)
    requires NamesOk(s) && Fits(s, c, n) && Inserted(s, n).Ok?
    ensures NamesOk(Inserted(s, n).value)
  {
    hide Valid, Can, EdgesLive, Compare, RepeatsEdge, Repeats;
  }

  lemma {:induction false} InsertedRows(s: Store, c: Caller, n: Insert)
    requires RowsOk(s) && Fits(s, c, n) && Inserted(s, n).Ok?
    ensures RowsOk(Inserted(s, n).value)
  {
    hide Valid, Can, Compare, RepeatsEdge, Repeats, RowOk;
    var t := Inserted(s, n).value;
    var key := VersionKey(n.id, n.version);
    forall k | k in t.versions ensures RowOk(t, k, t.versions[k]) {
      if k == key {
        NewRowOk(s, c, n);
      } else {
        RowStays(s, t, k, s.versions[k]);
      }
    }
  }

  lemma {:induction false} NewRowOk(s: Store, c: Caller, n: Insert)
    requires Fits(s, c, n) && Inserted(s, n).Ok?
    ensures RowOk(Inserted(s, n).value, VersionKey(n.id, n.version), n.row)
  {
    hide Valid, Can, Compare, RepeatsEdge, Repeats;
    var t := Inserted(s, n).value;
    forall e | e in n.row.parents ensures e.parent in t.frames && t.frames[e.parent].org == n.frame.org {
      assert e.parent in s.frames;
    }
  }

  lemma {:induction false} InsertedSound(s: Store, c: Caller, n: Insert)
    requires Sound(s) && Fits(s, c, n) && Inserted(s, n).Ok?
    ensures Sound(Inserted(s, n).value)
  {
    hide Valid, Can, Compare, RepeatsEdge, Repeats, NamesOk, RowsOk, EdgesLive;
    InsertedNames(s, c, n);
    InsertedRows(s, c, n);
  }

  lemma {:induction false} KeptEdgesAre(es: seq<ParentEdge>, id: Id)
    ensures forall e :: e in KeptEdges(es, id) <==> e in es && e.parent != id
    ensures |KeptEdges(es, id)| <= |es|
    ensures KeptEdges(es, id) == es <==> !(exists e | e in es :: e.parent == id)
  {
    if es != [] {
      var n := |es| - 1;
      KeptEdgesAre(es[..n], id);
      assert es == es[..n] + [es[n]];
      var rest := KeptEdges(es[..n], id);
      assert es[n].parent == id ==> |KeptEdges(es, id)| < |es|;
      if KeptEdges(es, id) == es && es[n].parent != id {
        assert (rest + [es[n]])[..n] == rest && es[..n] == rest;
      }
    }
  }

  lemma {:induction false} RemovedRow(s: Store, id: Id, k: VersionKey)
    requires k in s.versions && RowOk(s, k, s.versions[k]) && k.frame != id && Removed(s, id).Ok?
    ensures RowOk(Removed(s, id).value, k, Detached(s.versions[k], id))
  {
    hide Valid, KeptEdges;
    KeptEdgesAre(s.versions[k].parents, id);
    var row := Detached(s.versions[k], id);
    assert forall e | e in row.parents :: e in s.versions[k].parents && e.parent != id;
  }

  lemma {:induction false} RemovedSound(s: Store, id: Id)
    requires Sound(s) && Removed(s, id).Ok?
    ensures Sound(Removed(s, id).value)
  {
    hide RowOk, Detached;
    var t := Removed(s, id).value;
    forall k | k in t.versions ensures RowOk(t, k, t.versions[k]) { RemovedRow(s, id, k); }
    assert NamesOk(t);
    assert LatestStored(t);
  }

  lemma {:induction false} PublishSound(s: Store, c: Caller, req: PublishRequest)
    requires Sound(s)
    ensures Sound(Published(s, c, req).store)
  {
    hide Sound, Fits, Published, Inserted;
    var n := PublishedCases(s, c, req);
    if Published(s, c, req).result.Ok? { InsertedSound(s, c, n); }
  }

  lemma {:induction false} StepSound(s: Store, call: Call)
    requires Sound(s)
    ensures Sound(Step(s, call).store)
  {
    hide Sound, Published, Can, Children, Removed;
    match call.request {
      case DoPublish(req) => PublishSound(s, call.caller, req);
      case DoUpdate(p, size) =>
        var d := SourceDoc(s, call.caller, p.name);
        if d.Some? { PublishSound(s, call.caller, UpdateRequest(p, d.value, size)); }
      case DoDelete(slug, name, force) =>
        var found := Lookup(s, slug, name);
        if found.Some? && Removed(s, found.value).Ok? { RemovedSound(s, found.value); }
    }
  }

  /** In every run from a sound store: the name index inverts the frame table, every version row belongs
      to a live frame and every edge names one, every latest version is stored. */
  lemma {:induction false} AlwaysSound(s: Store, calls: seq<Call>)
    requires Sound(s)
    ensures Sound(After(s, calls))
  {
    hide Sound, Step;
    if calls != [] {
      var n := |calls| - 1;
      AlwaysSound(s, calls[..n]);
      StepSound(After(s, calls[..n]), calls[n]);
    }
  }

  /** A registry of organizations without frames. */
  function Empty(slugs: map<Id, string>, orgs: map<string, Id>): Store {
    Store(slugs, orgs, map[], map[], map[], map[])
  }

  lemma {:induction false} EmptySound(slugs: map<Id, string>, orgs: map<string, Id>)
    requires OrgsOk(Empty(slugs, orgs))
    ensures Sound(Empty(slugs, orgs))
  {}

  /** So every run from an empty registry is sound. */
  lemma {:induction false} SoundFromEmpty(slugs: map<Id, string>, orgs: map<string, Id>, calls: seq<Call>)
    requires OrgsOk(Empty(slugs, orgs))
    ensures Sound(After(Empty(slugs, orgs), calls))
  {
    hide Sound, After;
    EmptySound(slugs, orgs);
    AlwaysSound(Empty(slugs, orgs), calls);
  }

  /** A refused request leaves the store as it was. */
  lemma {:induction false} RefusedChangesNothing(s: Store, call: Call)
    requires Step(s, call).result.Err?
    ensures Step(s, call).store == s
  {
    hide PublishChecks, InsertFor, Inserted, Can, Children, Removed, SourceDoc;
  }

  // ---------------------------------------------------------------- one frame over time

  /** The request publishes a version of this frame. */
  predicate PublishesTo(s: Store, call: Call, id: Id) {
    !call.request.DoDelete? && Step(s, call).result.Ok? && Step(s, call).result.value.frame == id
  }

  /** What a frame's rows are after one step that does not delete the frame. */
  ghost predicate Continues(s: Store, call: Call, t: Store, id: Id)
    requires id in s.frames && id in t.frames
  {
    && (forall k | k in s.versions && k.frame == id :: k in t.versions && t.versions[k].doc == s.versions[k].doc)
    && (if PublishesTo(s, call, id) then
          VersionKey(id, t.frames[id].latest) !in s.versions
        else
          t.frames[id] == s.frames[id] &&
          forall k: VersionKey | k.frame == id :: k in t.versions <==> k in s.versions)
  }

  lemma {:induction false} InsertContinues(s: Store, c: Caller, n: Insert, id: Id)
    requires LatestStored(s) && Fits(s, c, n) && Inserted(s, n).Ok? && id in s.frames
    ensures var t := Inserted(s, n).value;
            && id in t.frames
            && (forall k | k in s.versions && k.frame == id ::
                  k in t.versions && t.versions[k].doc == s.versions[k].doc)
            && (if n.id == id then VersionKey(id, t.frames[id].latest) !in s.versions
                else
                  t.frames[id] == s.frames[id] &&
                  forall k: VersionKey | k.frame == id :: k in t.versions <==> k in s.versions)
  {
    hide Valid, Can, Compare, RepeatsEdge, Repeats, NamesOk, RowsOk, EdgesLive, OrgsOk;
  }

  lemma {:induction false} SoundLatest(s: Store)
    requires Sound(s)
    ensures LatestStored(s)
  {}

  lemma {:induction false} PublishContinues(s: Store, c: Caller, req: PublishRequest, id: Id)
    requires Sound(s) && id in s.frames
    ensures var o := Published(s, c, req);
            && id in o.store.frames
            && (forall k | k in s.versions && k.frame == id ::
                  k in o.store.versions && o.store.versions[k].doc == s.versions[k].doc)
            && (if o.result.Ok? && o.result.value.frame == id then
                  VersionKey(id, o.store.frames[id].latest) !in s.versions
                else
                  o.store.frames[id] == s.frames[id] &&
                  forall k: VersionKey | k.frame == id :: k in o.store.versions <==> k in s.versions)
  {
    hide Sound, Fits, Published, Inserted;
    var n := PublishedCases(s, c, req);
    if Published(s, c, req).result.Ok? {
      assert LatestStored(s) by { SoundLatest(s); }
      InsertContinues(s, c, n, id);
    }
  }

  lemma {:induction false} StepContinues(s: Store, call: Call, id: Id)
    requires Sound(s) && id in s.frames && id in Step(s, call).store.frames
    ensures Continues(s, call, Step(s, call).store, id)
  {
    hide Sound, Published, Deleted, UpdateRequest, SourceDoc;
    match call.request {
      case DoPublish(req) =>
        PublishContinues(s, call.caller, req, id);
      case DoUpdate(p, size) =>
        var d := SourceDoc(s, call.caller, p.name);
        if d.Some? { PublishContinues(s, call.caller, UpdateRequest(p, d.value, size), id); }
      case DoDelete(slug, name, force) =>
        DeleteContinues(s, call.caller, slug, name, force, id);
    }
  }

  lemma {:induction false} DeleteContinues(s: Store, c: Caller, slug: string, name: string, force: bool, id: Id)
    requires id in s.frames && id in Deleted(s, c, slug, name, force).store.frames
    ensures var t := Deleted(s, c, slug, name, force).store;
            && t.frames[id] == s.frames[id]
            && (forall k: VersionKey | k.frame == id :: k in t.versions <==> k in s.versions)
            && (forall k: VersionKey | k.frame == id && k in s.versions :: t.versions[k].doc == s.versions[k].doc)
  {
    hide Can, Children, Lookup, KeptEdges;
  }

  /** The state before call n. */
  function At(s: Store, calls: seq<Call>, n: nat): Store
    requires n <= |calls|
  {
    After(s, calls[..n])
  }

  lemma {:induction false} AtNext(s: Store, calls: seq<Call>, n: nat)
    requires n < |calls|
    ensures At(s, calls, n + 1) == Step(At(s, calls, n), calls[n]).store
  {
    assert calls[..n + 1][..n] == calls[..n];
  }

  /** While a frame lives its stored documents stay, and once it is published to, its latest version
      is one that was not stored before. */
  lemma {:induction false} Moves(s: Store, calls: seq<Call>, i: nat, j: nat, id: Id)
    requires Sound(s) && i <= j <= |calls|
    requires forall k | i <= k <= j :: id in At(s, calls, k).frames
    ensures var a, b := At(s, calls, i), At(s, calls, j);
            && (forall k | k in a.versions && k.frame == id ::
                  k in b.versions && b.versions[k].doc == a.versions[k].doc)
            && ((exists k | i <= k < j :: PublishesTo(At(s, calls, k), calls[k], id)) ==>
                  VersionKey(id, b.frames[id].latest) !in a.versions)
    decreases j
  {
    hide At, Step, Sound, PublishesTo;
    if i < j {
      var n := j - 1;
      Moves(s, calls, i, n, id);
      AtNext(s, calls, n);
      assert Sound(At(s, calls, n)) by { AlwaysAt(s, calls, n); }
      assert id in At(s, calls, n).frames && id in At(s, calls, n + 1).frames;
      StepContinues(At(s, calls, n), calls[n], id);
    }
  }

  lemma {:induction false} AlwaysAt(s: Store, calls: seq<Call>, n: nat)
    requires Sound(s) && n <= |calls|
    ensures Sound(At(s, calls, n))
  {
    AlwaysSound(s, calls[..n]);
  }

  /** The document that an accepted update stores. */
  lemma {:induction false} UpdateStores(s: Store, c: Caller, p: Patch, size: nat)
    requires Sound(s) && Updated(s, c, p, size).result.Ok?
    ensures var key := Updated(s, c, p, size).result.value;
            var t := Updated(s, c, p, size).store;
            && key.frame in s.frames && s.frames[key.frame].latest == p.base && s.frames[key.frame].name == p.name
            && VersionKey(key.frame, p.base) in s.versions
            && key in t.versions
            && t.versions[key].doc == Patched(p, s.versions[VersionKey(key.frame, p.base)].doc)
  {
    hide Can, Valid, Compare, OrgsOk, RowsOk, EdgesLive, Patched, PublishChecks, InsertFor;
    var d := SourceDoc(s, c, p.name).value;
    var req := UpdateRequest(p, d, size);
    assert Patched(p, d).name == p.name by { PatchedName(p, d); }
    UpdateFinds(s, c, req);
    LookupLive(s, s.slugs[c.org], p.name);
    InsertFits(s, c, req);
  }

  lemma {:induction false} PatchedName(p: Patch, d: Doc)
    ensures Patched(p, d).name == p.name
  {}

  lemma {:induction false} UpdateFinds(s: Store, c: Caller, req: PublishRequest)
    requires PublishChecks(s, c, req) == None && req.intent == Update && InsertFor(s, c, req).Ok?
    ensures c.org in s.slugs && Lookup(s, s.slugs[c.org], req.doc.name) == Some(InsertFor(s, c, req).value.id)
    ensures !InsertFor(s, c, req).value.isNew
  {
    hide Can, Valid, Compare, Lookup, EdgesOf, ExcludedOf, MissingSlots, Refusal;
  }

  /** No lost update: a client reads version v as a frame's latest before call i and its update based
      on v is accepted as call j, the frame living throughout. Then nothing was published to the frame
      in between, and the stored document is the client's patch of the document it read. */
  lemma {:induction false} NoLostUpdate(s: Store, calls: seq<Call>, i: nat, j: nat, id: Id)
    requires Sound(s) && i <= j < |calls| && calls[j].request.DoUpdate?
    requires forall k | i <= k <= j :: id in At(s, calls, k).frames
    requires var o := Step(At(s, calls, j), calls[j]); o.result.Ok? && o.result.value.frame == id
    requires calls[j].request.patch.base == At(s, calls, i).frames[id].latest
    ensures var p := calls[j].request.patch;
            var read := At(s, calls, i).versions;
            var o := Step(At(s, calls, j), calls[j]);
            && (forall k | i <= k < j :: !PublishesTo(At(s, calls, k), calls[k], id))
            && VersionKey(id, p.base) in read && o.result.value in o.store.versions
            && o.store.versions[o.result.value].doc == Patched(p, read[VersionKey(id, p.base)].doc)
  {
    hide At, Updated, Patched, PublishesTo;
    var p := calls[j].request.patch;
    var a, b := At(s, calls, i), At(s, calls, j);
    AlwaysAt(s, calls, i);
    AlwaysAt(s, calls, j);
    hide Sound;
    Moves(s, calls, i, j, id);
    assert VersionKey(id, p.base) in a.versions by { StoredLatest(a, id); }
    UpdateStores(b, calls[j].caller, p, calls[j].request.size);
  }

  lemma {:induction false} StoredLatest(s: Store, id: Id)
    requires Sound(s) && id in s.frames
    ensures VersionKey(id, s.frames[id].latest) in s.versions
  {}

  /** A published version of a living frame is never published again. */
  lemma {:induction false} NeverRepublished(s: Store, call: Call, id: Id)
    requires Sound(s) && id in s.frames
    ensures PublishesTo(s, call, id) ==> Step(s, call).result.value !in s.versions
  {
    hide Sound, Fits, InsertFor, PublishChecks, Can;
    match call.request {
      case DoPublish(req) =>
      case DoUpdate(p, size) =>
      case DoDelete(slug, name, force) =>
    }
  }

  // ---------------------------------------------------------------- delete

  lemma {:induction false} ChildFound(s: Store, id: Id, k: VersionKey)
    requires k in s.versions && k.frame in s.frames && k.frame != id && HasParent(s.versions[k], id)
    ensures k.frame in Children(s, id)
  {}

  /** A delete that is not forced leaves every surviving row as it was. */
  lemma {:induction false} UnforcedDeleteKeepsRows(s: Store, c: Caller, slug: string, name: string, k: VersionKey)
    requires Sound(s) && k in s.versions
    ensures var o := Deleted(s, c, slug, name, false);
            o.result.Ok? && k.frame != o.result.value.frame ==>
              k in o.store.versions && o.store.versions[k] == s.versions[k]
  {
    hide NamesOk, OrgsOk, LatestStored, Valid, Lookup, Can;
    var o := Deleted(s, c, slug, name, false);
    if o.result.Ok? && k.frame != o.result.value.frame {
      var id := Lookup(s, slug, name).value;
      assert RowOk(s, k, s.versions[k]);
      if HasParent(s.versions[k], id) {
        ChildFound(s, id, k);
        assert false;
      }
      KeptEdgesAre(s.versions[k].parents, id);
    }
  }

  /** A delete, forced or not, changes a surviving row exactly when the row extends the deleted
      frame, and then only by dropping those edges. */
  lemma {:induction false} DeleteChangesOnlyEdges(s: Store, id: Id, k: VersionKey)
    requires Removed(s, id).Ok? && k in s.versions && k.frame != id
    ensures var t := Removed(s, id).value;
            && k in t.versions && t.versions[k].doc == s.versions[k].doc
            && (t.versions[k] != s.versions[k] <==> HasParent(s.versions[k], id))
            && !HasParent(t.versions[k], id)
            && forall e: ParentEdge | e.parent != id :: e in t.versions[k].parents <==> e in s.versions[k].parents
  {
    KeptEdgesAre(s.versions[k].parents, id);
  }

  // ---------------------------------------------------------------- who may change what

  /** The frame's row, grants, versions and edges are the same in both stores. */
  ghost predicate Untouched(s: Store, t: Store, id: Id) {
    && id in s.frames && id in t.frames && t.frames[id] == s.frames[id]
    && id in s.grants && id in t.grants && t.grants[id] == s.grants[id]
    && (forall k: VersionKey | k.frame == id :: k in t.versions <==> k in s.versions)
    && (forall k: VersionKey | k.frame == id && k in s.versions && k in t.versions :: t.versions[k] == s.versions[k])
  }

  lemma {:induction false} PublishAllowed(s: Store, c: Caller, req: PublishRequest, id: Id)
    requires Sound(s) && id in s.frames && !Can(s, c, id, Edit)
    ensures Untouched(s, Published(s, c, req).store, id)
  {
    hide Valid, Can, Compare, RepeatsEdge, Repeats, NamesOk, RowsOk, EdgesLive, OrgsOk, Published;
    var n := PublishedCases(s, c, req);
  }

  lemma {:induction false} DeleteAllowed(s: Store, c: Caller, slug: string, name: string, force: bool, id: Id)
    requires Sound(s) && id in s.frames && s.frames[id].org != c.org
    ensures Untouched(s, Deleted(s, c, slug, name, force).store, id)
  {
    hide Valid, NamesOk, LatestStored, OrgsOk, Children, Lookup;
    var o := Deleted(s, c, slug, name, force);
    if o.result.Ok? {
      var gone := Lookup(s, slug, name).value;
      assert s.frames[gone].org == c.org;
      forall k: VersionKey | k.frame == id && k in s.versions ensures o.store.versions[k] == s.versions[k] {
        assert RowOk(s, k, s.versions[k]);
        KeptEdgesAre(s.versions[k].parents, gone);
      }
    }
  }

  lemma {:induction false} Itself(s: Store, id: Id)
    requires Sound(s) && id in s.frames
    ensures Untouched(s, s, id)
  {}

  lemma {:induction false} OtherOrgCannot(s: Store, c: Caller, id: Id, perm: Permission)
    requires id in s.frames && s.frames[id].org != c.org
    ensures !Can(s, c, id, perm)
  {}

  /** No request of one org's member touches a frame of another org: not its row, its versions, its
      edges or its grants. */
  lemma {:induction false} OrgsIsolated(s: Store, call: Call, id: Id)
    requires Sound(s) && id in s.frames && s.frames[id].org != call.caller.org
    ensures Untouched(s, Step(s, call).store, id)
  {
    hide Published, Deleted, Can, SourceDoc, Sound;
    Itself(s, id);
    hide Untouched;
    OtherOrgCannot(s, call.caller, id, Edit);
    match call.request {
      case DoPublish(req) => PublishAllowed(s, call.caller, req, id);
      case DoUpdate(p, size) =>
        var d := SourceDoc(s, call.caller, p.name);
        if d.Some? { PublishAllowed(s, call.caller, UpdateRequest(p, d.value, size), id); }
      case DoDelete(slug, name, force) => DeleteAllowed(s, call.caller, slug, name, force, id);
    }
  }

  lemma {:induction false} UntouchedLonger(s: Store, t: Store, u: Store, id: Id)
    requires Untouched(s, t, id) && Untouched(t, u, id)
    ensures Untouched(s, u, id)
  {}

  lemma {:induction false} UntouchedRow(s: Store, t: Store, id: Id)
    requires Untouched(s, t, id)
    ensures id in t.frames && t.frames[id] == s.frames[id]
  {}

  /** No run without a caller of the frame's org touches the frame. */
  lemma {:induction false} AlwaysIsolated(s: Store, calls: seq<Call>, id: Id)
    requires Sound(s) && id in s.frames && forall i | 0 <= i < |calls| :: calls[i].caller.org != s.frames[id].org
    ensures Untouched(s, After(s, calls), id)
  {
    hide Sound, Step, Untouched;
    if calls == [] {
      Itself(s, id);
    } else {
      var n := |calls| - 1;
      var t := After(s, calls[..n]);
      AlwaysIsolated(s, calls[..n], id);
      AlwaysSound(s, calls[..n]);
      UntouchedRow(s, t, id);
      OrgsIsolated(t, calls[n], id);
      UntouchedLonger(s, t, After(s, calls), id);
    }
  }

  /** Whoever publishes a new frame may edit and delete it, and their whole org may read it. */
  lemma {:induction false} CreatorOwns(s: Store, call: Call, reader: Caller)
    requires Sound(s) && !call.request.DoDelete? && Step(s, call).result.Ok?
    requires Step(s, call).result.value.frame !in s.frames
    ensures var t, id := Step(s, call).store, Step(s, call).result.value.frame;
            && Can(t, call.caller, id, Edit) && Can(t, call.caller, id, Delete)
            && (reader.org == call.caller.org ==> Can(t, reader, id, Read))
  {
    hide Valid, Compare, RepeatsEdge, Repeats, NamesOk, RowsOk, EdgesLive, OrgsOk, Published, SourceDoc;
    match call.request {
      case DoPublish(req) =>
        var n := PublishedCases(s, call.caller, req);
        assert n.grants == DefaultGrants(call.caller.sub, call.caller.org);
        GrantsIn(call.caller);
      case DoUpdate(p, size) =>
        UpdatesLive(s, call.caller, p, size);
        assert false;
    }
  }

  lemma {:induction false} GrantsIn(c: Caller)
    ensures var gs := DefaultGrants(c.sub, c.org);
            Grant(User(c.sub), Edit) in gs && Grant(User(c.sub), Delete) in gs && Grant(Org(c.org), Read) in gs
  {}

  lemma {:induction false} UpdatesLive(s: Store, c: Caller, p: Patch, size: nat)
    requires Sound(s) && Updated(s, c, p, size).result.Ok?
    ensures Updated(s, c, p, size).result.value.frame in s.frames
  {
    hide Sound, Updated;
    UpdateStores(s, c, p, size);
  }
}
