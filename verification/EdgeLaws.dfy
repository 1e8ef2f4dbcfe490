/** Stored edges and the references they were made from. */
module EdgeLaws {
  import opened Schema
  import opened Validate
  import opened Registry
  import opened RegistryLaws
  import opened Reading
  import opened DeleteLaws
  import Resolver

  /** The frame that a ref of this org's document names. */
  function NamedBy(s: Store, slug: string, ref: string): Option<Id> {
    var (org, name) := SplitRef(ref, slug);
    Lookup(s, org, name)
  }

  /** One edge a reference, in order: to the frame the reference names, at its version. */
  ghost predicate EdgesMatch(s: Store, slug: string, refs: seq<ExtendRef>, es: seq<ParentEdge>) {
    && |es| == |refs|
    && forall i | 0 <= i < |refs| ::
         NamedBy(s, slug, refs[i].ref) == Some(es[i].parent) && es[i].version == refs[i].version
  }

  ghost predicate RowWired(s: Store, org: Id, row: VersionRow) {
    org in s.slugs && EdgesMatch(s, s.slugs[org], row.doc.extends_, row.parents)
  }

  /** Every stored row's edges are exactly what its document's references name today. */
  ghost predicate Wired(s: Store) {
    && (forall id | id in s.frames :: s.frames[id].org in s.slugs)
    && (forall k | k in s.versions :: k.frame in s.frames && RowWired(s, s.frames[k.frame].org, s.versions[k]))
  }

  // ---------------------------------------------------------------- every step without force

  lemma {:induction false} EdgesOfMatch(s: Store, c: Caller, slug: string, refs: seq<ExtendRef>)
    ensures EdgesOf(s, c, slug, refs).Ok? ==> EdgesMatch(s, slug, refs, EdgesOf(s, c, slug, refs).value)
  {
    hide SplitRef, Lookup, Can;
    if refs != [] {
      var n := |refs| - 1;
      EdgesOfMatch(s, c, slug, refs[..n]);
      if EdgesOf(s, c, slug, refs).Ok? {
        var es := EdgesOf(s, c, slug, refs).value;
        assert es[..n] == EdgesOf(s, c, slug, refs[..n]).value;
        forall i | 0 <= i < |refs|
          ensures NamedBy(s, slug, refs[i].ref) == Some(es[i].parent) && es[i].version == refs[i].version
        {
          if i < n { assert refs[i] == refs[..n][i] && es[i] == es[..n][i]; }
        }
      }
    }
  }

  /** What is inserted carries the edges its references name. */
  lemma {:induction false} InsertWired(s: Store, c: Caller, req: PublishRequest)
    requires PublishChecks(s, c, req) == None && InsertFor(s, c, req).Ok?
    ensures c.org in s.slugs && RowWired(s, c.org, InsertFor(s, c, req).value.row)
  {
    hide EdgesMatch, Lookup, Valid, Can, MissingSlots, Refusal, ExcludedOf;
    EdgesOfMatch(s, c, s.slugs[c.org], req.doc.extends_);
  }

  lemma {:induction false} StillNamed(s: Store, t: Store, org: Id, row: VersionRow)
    requires RowWired(s, org, row) && t.slugs == s.slugs && t.orgs == s.orgs
    requires forall k | k in s.names && HasParent(row, s.names[k]) :: k in t.names && t.names[k] == s.names[k]
    ensures RowWired(t, org, row)
  {
    hide SplitRef;
    forall i | 0 <= i < |row.parents|
      ensures NamedBy(t, s.slugs[org], row.doc.extends_[i].ref) == Some(row.parents[i].parent)
    {
      assert row.parents[i] in row.parents;
      assert HasParent(row, row.parents[i].parent);
    }
  }

  lemma {:induction false} PublishWired(s: Store, c: Caller, req: PublishRequest)
    requires Sound(s) && Wired(s)
    ensures Wired(Published(s, c, req).store)
  {
    hide Sound, Wired, PublishChecks, InsertFor, Inserted;
    if Published(s, c, req).result.Ok? {
      InsertFits(s, c, req);
      InsertWired(s, c, req);
      InsertedWired(s, c, InsertFor(s, c, req).value);
    }
  }

  lemma {:induction false} InsertedWired(s: Store, c: Caller, n: Insert)
    requires Wired(s) && Fits(s, c, n) && Inserted(s, n).Ok?
    requires c.org in s.slugs && RowWired(s, c.org, n.row)
    ensures Wired(Inserted(s, n).value)
  {
    hide RowWired, Can, EdgesLive, RepeatsEdge, Repeats, Valid, Lower;
    var t := Inserted(s, n).value;
    forall k | k in t.versions ensures k.frame in t.frames && RowWired(t, t.frames[k.frame].org, t.versions[k]) {
      if k == VersionKey(n.id, n.version) {
        StillNamed(s, t, c.org, n.row);
      } else {
        StillNamed(s, t, s.frames[k.frame].org, s.versions[k]);
      }
    }
  }

  /** A delete that nothing hangs on leaves every other row's references naming what they did. */
  lemma {:induction false} DeleteWired(s: Store, c: Caller, slug: string, name: string)
    requires Sound(s) && Wired(s)
    ensures Wired(Deleted(s, c, slug, name, false).store)
  {
    hide RowWired, Can, Valid, RowsOk, LatestStored, OrgsOk, Lookup, HasParent;
    var o := Deleted(s, c, slug, name, false);
    if o.result.Ok? {
      var id, t := Lookup(s, slug, name).value, o.store;
      forall k | k in t.versions ensures k.frame in t.frames && RowWired(t, t.frames[k.frame].org, t.versions[k]) {
        assert k in s.versions && k.frame != id;
        UnforcedDeleteKeepsRows(s, c, slug, name, k);
        if HasParent(s.versions[k], id) {
          ChildFound(s, id, k);
          assert false;
        }
        StillNamed(s, t, s.frames[k.frame].org, s.versions[k]);
      }
    }
  }

  predicate Forced(call: Call) { call.request.DoDelete? && call.request.force }

  /** In every run without a forced delete, each stored edge goes to the frame that the document's
      reference in its place names. */
  lemma {:induction false} AlwaysWired(s: Store, calls: seq<Call>)
    requires Sound(s) && Wired(s) && forall i | 0 <= i < |calls| :: !Forced(calls[i])
    ensures Wired(After(s, calls))
  {
    hide Sound, Wired, Published, Deleted, SourceDoc;
    if calls != [] {
      var n := |calls| - 1;
      AlwaysWired(s, calls[..n]);
      AlwaysSound(s, calls[..n]);
      var t, call := After(s, calls[..n]), calls[n];
      match call.request {
        case DoPublish(req) => PublishWired(t, call.caller, req);
        case DoUpdate(p, size) =>
          var d := SourceDoc(t, call.caller, p.name);
          if d.Some? { PublishWired(t, call.caller, UpdateRequest(p, d.value, size)); }
        case DoDelete(slug, name, force) => DeleteWired(t, call.caller, slug, name);
      }
    }
  }

  lemma {:induction false} EmptyWired(slugs: map<Id, string>, orgs: map<string, Id>)
    ensures Wired(Empty(slugs, orgs))
  {}

  lemma {:induction false} WiredFromEmpty(slugs: map<Id, string>, orgs: map<string, Id>, calls: seq<Call>)
    requires OrgsOk(Empty(slugs, orgs)) && forall i | 0 <= i < |calls| :: !Forced(calls[i])
    ensures Wired(After(Empty(slugs, orgs), calls))
  {
    hide Sound, Wired, After;
    EmptySound(slugs, orgs);
    EmptyWired(slugs, orgs);
    AlwaysWired(Empty(slugs, orgs), calls);
  }

  // ---------------------------------------------------------------- the delete guard

  /** In a wired store, a frame that some other frame's document extends has that frame as a child, so
      an unforced delete is refused. */
  lemma {:induction false} ExtendedIsGuarded(s: Store, c: Caller, k: VersionKey, i: nat)
    requires Wired(s) && k in s.versions && i < |s.versions[k].doc.extends_|
    requires s.frames[k.frame].org == c.org && Readable(s, c, s.slugs[c.org], s.versions[k].doc.extends_[i].ref).Some?
    ensures var parent := Readable(s, c, s.slugs[c.org], s.versions[k].doc.extends_[i].ref).value;
            parent == k.frame || k.frame in Children(s, parent)
  {
    hide Lookup, SplitRef, Can;
    var row := s.versions[k];
    assert row.parents[i] in row.parents;
  }

  lemma {:induction false} DeletedIsChildless(s: Store, c: Caller, slug: string, name: string)
    requires Deleted(s, c, slug, name, false).result.Ok?
    ensures Children(s, Deleted(s, c, slug, name, false).result.value.frame) == {}
  {
    hide Children, Can, Lookup, Removed;
  }

  /** What a read loads is a stored row of the caller's org. */
  lemma {:induction false} LoadedRow(s: Store, c: Caller, org: string, name: string, version: string)
    returns (k: VersionKey)
    requires Loaded(s, c, org, name, version).Some?
    ensures k in s.versions && k.frame in s.frames && s.frames[k.frame].org == c.org
    ensures Lookup(s, org, name) == Some(k.frame) && s.versions[k].doc == Loaded(s, c, org, name, version).value
  {
    hide Lookup;
    var id := Lookup(s, org, name).value;
    k := VersionKey(id, if version == "" then s.frames[id].latest else version);
  }

  /** On the ways up from a row of another frame, an unforced delete's frame is never met. */
  lemma {:induction false} WayMissesDeleted(s: Store, c: Caller, gone: Id, k: VersionKey, excl: set<string>,
                                            chain: seq<ExtendRef>)
    requires Wired(s) && Children(s, gone) == {} && c.org in s.slugs
    requires k in s.versions && k.frame != gone && k.frame in s.frames && s.frames[k.frame].org == c.org
    requires chain != [] && Way(s, c, s.slugs[c.org], s.versions[k].doc.extends_, excl, chain)
    ensures Readable(s, c, s.slugs[c.org], chain[|chain| - 1].ref) != Some(gone)
    decreases |chain|
  {
    hide Wired, Children, Can, Lookup, SplitRef;
    var slug, p := s.slugs[c.org], chain[0];
    var found := Readable(s, c, slug, p.ref);
    if found.Some? {
      var i :| 0 <= i < |s.versions[k].doc.extends_| && s.versions[k].doc.extends_[i] == p;
      ExtendedIsGuarded(s, c, k, i);
      assert found.value != gone;
      ReadableOrg(s, c, slug, p.ref);
    }
    if |chain| > 1 {
      var d := FetchParent(s, c, slug, p).value;
      var excl' := excl + Resolver.Elements(d.excludes);
      WayMissesDeleted(s, c, gone, VersionKey(found.value, p.version), excl', chain[1..]);
    } else {
      assert chain[|chain| - 1] == p;
    }
  }

  lemma {:induction false} ReadableOrg(s: Store, c: Caller, slug: string, ref: string)
    requires Readable(s, c, slug, ref).Some?
    ensures var id := Readable(s, c, slug, ref).value; id in s.frames && s.frames[id].org == c.org
  {
    hide Lookup, SplitRef;
  }

  /** In a wired store no other frame's read hangs on a frame without children. */
  lemma {:induction false} ChildlessIsFree(s: Store, c: Caller, org: string, child: string, version: string, gone: Id)
    requires Wired(s) && Children(s, gone) == {} && Lookup(s, org, child) != Some(gone)
    ensures !HangsOn(s, c, org, child, version, gone)
  {
    hide Wired, Children, Lookup, Readable, Way, Loaded;
    var loaded := Loaded(s, c, org, child, version);
    if loaded.Some? && c.org in s.slugs {
      var k := LoadedRow(s, c, org, child, version);
      var doc, slug := loaded.value, s.slugs[c.org];
      var excl := Resolver.Elements(doc.excludes);
      forall chain: seq<ExtendRef> | chain != [] && Way(s, c, slug, doc.extends_, excl, chain)
        ensures Readable(s, c, slug, chain[|chain| - 1].ref) != Some(gone)
      {
        WayMissesDeleted(s, c, gone, k, excl, chain);
      }
    }
  }

  /** In a wired store, an unforced delete leaves every other frame's read as it was, by number or by
      latest version, resolved or refused. */
  lemma {:induction false} UnforcedDeleteKeepsReads(s: Store, d: Caller, slug: string, name: string, c: Caller,
                                                    org: string, child: string, version: string)
    requires Sound(s) && Wired(s) && Lookup(s, org, child) != Lookup(s, slug, name)
    ensures var deleted := Deleted(s, d, slug, name, false);
            deleted.result.Ok? ==>
              ResolvedDoc(deleted.store, c, org, child, version) == ResolvedDoc(s, c, org, child, version)
  {
    hide Sound, Wired, Children, Can, Lookup, ResolvedDoc, HangsOn;
    if Deleted(s, d, slug, name, false).result.Ok? {
      DeletedIsChildless(s, d, slug, name);
      ChildlessIsFree(s, c, org, child, version, Lookup(s, slug, name).value);
      DeleteKeepsReadIff(s, d, slug, name, false, c, org, child, version);
    }
  }
}
