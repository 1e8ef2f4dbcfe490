/** Which reads a delete changes. */
module DeleteLaws {
  import opened Schema
  import opened Registry
  import opened RegistryLaws
  import opened Reading
  import Resolver
  import ResolverLaws

  /** Some way up from the parents ends in a ref that names the frame gone. */
  ghost predicate Names(s: Store, c: Caller, slug: string, parents: seq<ExtendRef>, excl: set<string>, gone: Id) {
    exists chain: seq<ExtendRef> :: chain != [] && Way(s, c, slug, parents, excl, chain) &&
                                    Readable(s, c, slug, chain[|chain| - 1].ref) == Some(gone)
  }

  /** Some way up from what the read loads names the frame gone. */
  ghost predicate HangsOn(s: Store, c: Caller, org: string, child: string, version: string, gone: Id) {
    var doc := Loaded(s, c, org, child, version);
    && doc.Some? && c.org in s.slugs
    && Names(s, c, s.slugs[c.org], doc.value.extends_, Resolver.Elements(doc.value.excludes), gone)
  }

  // ---------------------------------------------------------------- one lookup

  /** After a delete only its own name stops being found. */
  lemma {:induction false} LookupLeft(s: Store, gone: Id, org: string, name: string)
    requires Sound(s) && gone in s.frames
    ensures var t := Removed(s, gone).value;
            Lookup(t, org, name) == if Lookup(s, org, name) == Some(gone) then None else Lookup(s, org, name)
  {
    hide RowsOk, OrgsOk, LatestStored;
  }

  lemma {:induction false} CanLeft(s: Store, c: Caller, gone: Id, id: Id)
    requires id != gone
    ensures Removed(s, gone).Ok? ==> (Can(Removed(s, gone).value, c, id, Read) <==> Can(s, c, id, Read))
  {}

  lemma {:induction false} VersionsLeft(s: Store, gone: Id, k: VersionKey)
    requires k.frame != gone
    ensures Removed(s, gone).Ok? ==>
              var t := Removed(s, gone).value;
              (k in t.versions <==> k in s.versions) && (k in s.versions ==> t.versions[k].doc == s.versions[k].doc)
  {}

  lemma {:induction false} FetchedLeft(s: Store, gone: Id, c: Caller, slug: string, p: ExtendRef)
    requires Sound(s) && gone in s.frames
    ensures var t := Removed(s, gone).value;
            FetchParent(t, c, slug, p) ==
            if Readable(s, c, slug, p.ref) == Some(gone) then None else FetchParent(s, c, slug, p)
  {
    hide Sound, Can, Lookup, SplitRef;
    var (org, name) := SplitRef(p.ref, slug);
    LookupLeft(s, gone, org, name);
    var found := Lookup(s, org, name);
    if found.Some? && found.value != gone {
      CanLeft(s, c, gone, found.value);
      VersionsLeft(s, gone, VersionKey(found.value, p.version));
    }
  }

  /** The read of another frame loads what it did. */
  lemma {:induction false} LoadedLeft(s: Store, gone: Id, c: Caller, org: string, child: string, version: string)
    requires Sound(s) && gone in s.frames && Lookup(s, org, child) != Some(gone)
    ensures var t := Removed(s, gone).value;
            t.slugs == s.slugs && Loaded(t, c, org, child, version) == Loaded(s, c, org, child, version)
  {
    hide Sound, Can, Lookup;
    LookupLeft(s, gone, org, child);
    var found := Lookup(s, org, child);
    if found.Some? {
      var id := found.value;
      CanLeft(s, c, gone, id);
      if Can(s, c, id, Read) {
        CanFrame(s, c, id, Read);
        VersionsLeft(s, gone, VersionKey(id, if version == "" then s.frames[id].latest else version));
      }
    }
  }

  // ---------------------------------------------------------------- ways up

  lemma {:induction false} WayPrefix(s: Store, c: Caller, slug: string, parents: seq<ExtendRef>, excl: set<string>,
                                     chain: seq<ExtendRef>, n: nat)
    requires Way(s, c, slug, parents, excl, chain) && n <= |chain|
    ensures Way(s, c, slug, parents, excl, chain[..n])
    decreases n
  {
    hide FetchParent;
    if n > 1 {
      var d := FetchParent(s, c, slug, chain[0]).value;
      WayPrefix(s, c, slug, d.extends_, excl + Resolver.Elements(d.excludes), chain[1..], n - 1);
      assert chain[..n][1..] == chain[1..][..n - 1];
    }
  }

  /** A way up that the deleted frame is at most the end of is one in both stores. */
  lemma {:induction false} WayLeft(s: Store, gone: Id, c: Caller, slug: string, parents: seq<ExtendRef>,
                                   excl: set<string>, chain: seq<ExtendRef>)
    requires Sound(s) && gone in s.frames
    requires forall i | 0 <= i < |chain| - 1 :: Readable(s, c, slug, chain[i].ref) != Some(gone)
    ensures Way(Removed(s, gone).value, c, slug, parents, excl, chain) <==> Way(s, c, slug, parents, excl, chain)
    decreases |chain|
  {
    hide Sound, Readable, FetchParent, Removed;
    if |chain| > 1 && FetchParent(s, c, slug, chain[0]).Some? {
      var d := FetchParent(s, c, slug, chain[0]).value;
      forall i | 0 <= i < |chain[1..]| - 1 ensures Readable(s, c, slug, chain[1..][i].ref) != Some(gone) {
        assert chain[1..][i] == chain[i + 1];
      }
      WayLeft(s, gone, c, slug, d.extends_, excl + Resolver.Elements(d.excludes), chain[1..]);
    }
    if |chain| > 1 { FetchedLeft(s, gone, c, slug, chain[0]); }
  }

  /** The first place on a way that names the deleted frame. */
  lemma {:induction false} FirstGone(s: Store, c: Caller, slug: string, chain: seq<ExtendRef>, gone: Id)
    returns (n: nat)
    ensures n <= |chain| && forall i | 0 <= i < n :: Readable(s, c, slug, chain[i].ref) != Some(gone)
    ensures n < |chain| ==> Readable(s, c, slug, chain[n].ref) == Some(gone)
  {
    hide Readable;
    n := 0;
    while n < |chain| && Readable(s, c, slug, chain[n].ref) != Some(gone)
      invariant n <= |chain| && forall i | 0 <= i < n :: Readable(s, c, slug, chain[i].ref) != Some(gone)
    {
      n := n + 1;
    }
  }

  /** A way that names the deleted frame is cut there: in the new store its first part ends in a frame
      that cannot be fetched. */
  lemma {:induction false} WayCut(s: Store, gone: Id, c: Caller, slug: string, parents: seq<ExtendRef>,
                                  excl: set<string>, chain: seq<ExtendRef>)
    requires Sound(s) && gone in s.frames && Way(s, c, slug, parents, excl, chain)
    requires chain != [] && Readable(s, c, slug, chain[|chain| - 1].ref) == Some(gone)
    ensures !AllWaysClear(Removed(s, gone).value, c, slug, parents, excl)
  {
    hide Sound, Readable, FetchParent, Removed, Way;
    var n := FirstGone(s, c, slug, chain, gone);
    var cut := chain[..n + 1];
    WayPrefix(s, c, slug, parents, excl, chain, n + 1);
    WayLeft(s, gone, c, slug, parents, excl, cut);
    FetchedLeft(s, gone, c, slug, chain[n]);
    assert cut[n] == chain[n];
  }

  /** Where no way names the deleted frame, each is one in both stores, its last frame fetched alike. */
  lemma {:induction false} WayWhole(s: Store, gone: Id, c: Caller, slug: string, parents: seq<ExtendRef>,
                                    excl: set<string>, chain: seq<ExtendRef>)
    requires Sound(s) && gone in s.frames && chain != []
    ensures Way(s, c, slug, parents, excl, chain) && !Names(s, c, slug, parents, excl, gone) ==>
              var t, last := Removed(s, gone).value, chain[|chain| - 1];
              Way(t, c, slug, parents, excl, chain) && FetchParent(t, c, slug, last) == FetchParent(s, c, slug, last)
  {
    hide Sound, Readable, FetchParent, Way;
    if Way(s, c, slug, parents, excl, chain) && !Names(s, c, slug, parents, excl, gone) {
      forall i | 0 <= i < |chain| ensures Readable(s, c, slug, chain[i].ref) != Some(gone) {
        WayPrefix(s, c, slug, parents, excl, chain, i + 1);
        assert chain[..i + 1][i] == chain[i];
      }
      WayLeft(s, gone, c, slug, parents, excl, chain);
      FetchedLeft(s, gone, c, slug, chain[|chain| - 1]);
    }
  }

  lemma {:induction false} GraphsAlike(s: Store, gone: Id, c: Caller, slug: string, parents: seq<ExtendRef>,
                                       excl: set<string>)
    requires Sound(s) && gone in s.frames
    ensures var t := Removed(s, gone).value;
            Pinned(s, parents) && Pinned(t, parents) && !Names(s, c, slug, parents, excl, gone) ==>
              ResolverLaws.AgreeOnChains(Fetchable(s, c, slug), Fetchable(t, c, slug), parents, excl)
  {
    hide Sound, Pinned, Pins, FetchParent, Fetchable, Way, Readable, Names, ResolverLaws.Chain;
    var t := Removed(s, gone).value;
    var g, h := Fetchable(s, c, slug), Fetchable(t, c, slug);
    if Pinned(s, parents) && Pinned(t, parents) && !Names(s, c, slug, parents, excl, gone) {
      forall chain: seq<ExtendRef> | chain != [] && ResolverLaws.Chain(g, parents, excl, chain)
        ensures var last := chain[|chain| - 1];
                (last in g <==> last in h) && (last in g && last in h ==> g[last] == h[last])
      {
        var last := chain[|chain| - 1];
        WayIsChain(s, c, slug, parents, excl, chain);
        WayWhole(s, gone, c, slug, parents, excl, chain);
        WayIsChain(t, c, slug, parents, excl, chain);
        FetchIsLookup(s, c, slug, last);
        FetchIsLookup(t, c, slug, last);
      }
    }
  }

  // ---------------------------------------------------------------- which reads change

  /** Removing a frame leaves every other frame's read as it was, refused or not, unless a way up from
      it names the removed frame; then the read no longer resolves. */
  lemma {:induction false} RemoveChangesReads(s: Store, gone: Id, c: Caller, org: string, child: string,
                                              version: string)
    requires Sound(s) && gone in s.frames && Lookup(s, org, child) != Some(gone)
    ensures var t := Removed(s, gone).value;
            if HangsOn(s, c, org, child, version, gone) then ResolvedDoc(t, c, org, child, version).Err?
            else ResolvedDoc(t, c, org, child, version) == ResolvedDoc(s, c, org, child, version)
  {
    hide Sound, Can, Lookup, Fetchable, Pinned, Way, Readable, Loaded, AllWaysClear, Resolver.Walk,
      ResolverLaws.AgreeOnChains;
    var t, loaded := Removed(s, gone).value, Loaded(s, c, org, child, version);
    LoadedLeft(s, gone, c, org, child, version);
    if loaded.Some? && c.org in s.slugs {
      var doc, slug := loaded.value, s.slugs[c.org];
      var excl := Resolver.Elements(doc.excludes);
      if HangsOn(s, c, org, child, version, gone) {
        var chain: seq<ExtendRef> :| chain != [] && Way(s, c, slug, doc.extends_, excl, chain) &&
                                     Readable(s, c, slug, chain[|chain| - 1].ref) == Some(gone);
        WayCut(s, gone, c, slug, doc.extends_, excl, chain);
        ReadResolvesIff(t, c, org, child, version);
      } else {
        LoadedPins(s, c, org, child, version);
        LoadedPins(t, c, org, child, version);
        GraphsAlike(s, gone, c, slug, doc.extends_, excl);
        ResolverLaws.WalkSame(Fetchable(s, c, slug), Fetchable(t, c, slug), doc.extends_,
                              Resolver.Place(excl, {}, [doc.name]));
      }
    }
  }

  lemma {:induction false} DeletedIs(s: Store, d: Caller, slug: string, name: string, force: bool)
    ensures var deleted := Deleted(s, d, slug, name, force);
            deleted.result.Ok? ==> Lookup(s, slug, name).Some? && Lookup(s, slug, name).value in s.frames &&
                                   deleted.store == Removed(s, Lookup(s, slug, name).value).value
  {
    hide Children, Lookup;
  }

  /** An accepted delete, forced or not, leaves a resolved read of another frame as it was if and only
      if no way up from it names the deleted frame; otherwise the read no longer resolves. */
  lemma {:induction false} DeleteKeepsReadIff(s: Store, d: Caller, slug: string, name: string, force: bool,
                                              c: Caller, org: string, child: string, version: string)
    requires Sound(s) && Lookup(s, org, child) != Lookup(s, slug, name)
    ensures var deleted := Deleted(s, d, slug, name, force);
            var before := ResolvedDoc(s, c, org, child, version);
            var after := ResolvedDoc(deleted.store, c, org, child, version);
            deleted.result.Ok? ==>
              var hangs := HangsOn(s, c, org, child, version, Lookup(s, slug, name).value);
              (before.Ok? ==> (after == before <==> !hangs)) && if hangs then after.Err? else after == before
  {
    hide Sound, Lookup, Removed, HangsOn, ResolvedDoc, Deleted;
    DeletedIs(s, d, slug, name, force);
    if Deleted(s, d, slug, name, force).result.Ok? {
      RemoveChangesReads(s, Lookup(s, slug, name).value, c, org, child, version);
    }
  }

  /** The deleted frame itself is no longer read. */
  lemma {:induction false} DeletedIsUnread(s: Store, d: Caller, slug: string, name: string, force: bool,
                                           c: Caller, version: string)
    requires Sound(s)
    ensures var deleted := Deleted(s, d, slug, name, force);
            deleted.result.Ok? ==> ResolvedDoc(deleted.store, c, slug, name, version) == Err(NoFrame)
  {
    hide Sound, Lookup, Removed, Deleted, Can;
    DeletedIs(s, d, slug, name, force);
    if Deleted(s, d, slug, name, force).result.Ok? { LookupLeft(s, Lookup(s, slug, name).value, slug, name); }
  }
}
