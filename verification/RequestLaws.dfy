/** Which requests are accepted, for whom, and what an accepted one writes, in terms of the stored rows. */
module RequestLaws {
  import opened Text
  import opened Schema
  import opened Validate
  import opened Versions
  import opened Registry
  import opened RegistryLaws
  import opened Reading
  import Templates
  import Resolver
  import ResolverLaws

  // ---------------------------------------------------------------- permissions

  /** The caller belongs to the frame's org and is an admin there, or a grant of this permission on the
      frame goes to the caller's subject or to the whole org. */
  predicate May(s: Store, c: Caller, id: Id, perm: Permission) {
    && id in s.frames && s.frames[id].org == c.org
    && (c.role == Admin ||
        (id in s.grants && exists g | g in s.grants[id] ::
           g.perm == perm && (g.who == User(c.sub) || g.who == Org(c.org))))
  }

  lemma {:induction false} MayIs(s: Store, c: Caller, id: Id, perm: Permission)
    ensures Can(s, c, id, perm) <==> May(s, c, id, perm)
  {
    if Can(s, c, id, perm) && c.role != Admin {
      var g := if Grant(User(c.sub), perm) in s.grants[id] then Grant(User(c.sub), perm) else Grant(Org(c.org), perm);
      assert g in s.grants[id] && g.perm == perm;
    }
    if May(s, c, id, perm) && c.role != Admin {
      var g :| g in s.grants[id] && g.perm == perm && (g.who == User(c.sub) || g.who == Org(c.org));
      assert g == Grant(g.who, perm);
    }
  }

  // ---------------------------------------------------------------- what a reference names

  predicate Named(s: Store, slug: string, name: string) { slug in s.orgs && FrameKey(s.orgs[slug], name) in s.names }

  function IdOf(s: Store, slug: string, name: string): Id
    requires Named(s, slug, name)
  {
    s.names[FrameKey(s.orgs[slug], name)]
  }

  /** ref is "org/name" with the org before its first slash, or a bare name of the org home. */
  predicate RefIs(home: string, ref: string, org: string, name: string) {
    if '/' in ref then '/' !in org && ref == org + "/" + name else org == home && name == ref
  }

  /** A reference splits in exactly one way. */
  lemma {:induction false} SplitIs(home: string, ref: string, org: string, name: string)
    ensures SplitRef(ref, home) == (org, name) <==> RefIs(home, ref, org, name)
  {
    var n := FindSlash(ref, 0);
    SlashFound(ref, 0);
    if n < |ref| {
      assert ref == ref[..n] + "/" + ref[n + 1..];
      assert ref[n] in ref;
      if '/' !in org && ref == org + "/" + name {
        FirstSlash(ref, 0, |org|);
        assert ref[..|org|] == org && ref[|org| + 1..] == name;
      }
    }
  }

  /** The caller's ref names this frame, which the caller may read. */
  ghost predicate Reads(s: Store, c: Caller, home: string, ref: string, id: Id) {
    May(s, c, id, Read) &&
    exists org, name :: RefIs(home, ref, org, name) && Named(s, org, name) && IdOf(s, org, name) == id
  }

  lemma {:induction false} ReadsIs(s: Store, c: Caller, home: string, ref: string, id: Id)
    ensures Readable(s, c, home, ref) == Some(id) <==> Reads(s, c, home, ref, id)
  {
    hide SplitRef, Can, May, RefIs;
    MayIs(s, c, id, Read);
    var (org, name) := SplitRef(ref, home);
    SplitIs(home, ref, org, name);
    if Reads(s, c, home, ref, id) {
      var o, n :| RefIs(home, ref, o, n) && Named(s, o, n) && IdOf(s, o, n) == id;
      SplitIs(home, ref, o, n);
    }
  }

  // ---------------------------------------------------------------- delete

  /** Some other living frame has a version with an edge to this one. */
  predicate Extended(s: Store, id: Id) {
    exists k, e | k in s.versions && e in s.versions[k].parents ::
      e.parent == id && k.frame in s.frames && k.frame != id
  }

  lemma {:induction false} ExtendedIs(s: Store, id: Id)
    ensures Children(s, id) != {} <==> Extended(s, id)
  {
    if k, e :| k in s.versions && e in s.versions[k].parents && e.parent == id && k.frame in s.frames && k.frame != id {
      assert k.frame in Children(s, id);
    }
    if Children(s, id) != {} {
      var f :| f in Children(s, id);
      var k :| k in s.versions && k.frame == f && HasParent(s.versions[k], id);
      var e :| e in s.versions[k].parents && e.parent == id;
    }
  }

  /** A delete is accepted exactly for a named frame of the caller's org that the caller may delete, as
      an admin or by a grant of delete, and only by force over frames that extend it. Who may not delete
      learns nothing but that no such frame is found. */
  lemma {:induction false} DeleteAcceptedIff(s: Store, c: Caller, slug: string, name: string, force: bool)
    ensures var r := Deleted(s, c, slug, name, force).result;
            var mine := Named(s, slug, name) && May(s, c, IdOf(s, slug, name), Delete);
            && (r.Ok? <==> mine && (force || !Extended(s, IdOf(s, slug, name))))
            && (!mine ==> r == Err(NoSuchFrame))
            && (r.Err? && mine ==> r.error.Blocked? && !force && Extended(s, IdOf(s, slug, name)))
  {
    hide Can, May, Children, Extended;
    if Named(s, slug, name) {
      MayIs(s, c, IdOf(s, slug, name), Delete);
      ExtendedIs(s, IdOf(s, slug, name));
      MayLive(s, c, IdOf(s, slug, name), Delete);
    }
  }

  lemma {:induction false} MayLive(s: Store, c: Caller, id: Id, perm: Permission)
    ensures May(s, c, id, perm) ==> id in s.frames
  {}

  // ---------------------------------------------------------------- edges of a publish

  lemma {:induction false} EdgesAre(s: Store, c: Caller, slug: string, refs: seq<ExtendRef>)
    ensures var r := EdgesOf(s, c, slug, refs);
            && (r.Ok? <==> forall i | 0 <= i < |refs| :: Readable(s, c, slug, refs[i].ref).Some?)
            && (r.Ok? ==> |r.value| == |refs| && forall i | 0 <= i < |refs| ::
                  Readable(s, c, slug, refs[i].ref) == Some(r.value[i].parent) &&
                  r.value[i].version == refs[i].version && r.value[i].order == i)
            && (r.Err? ==> r.error.ParentNotFound? && r.error.index < |refs| &&
                           Readable(s, c, slug, refs[r.error.index].ref) == None)
  {
    hide Readable;
    if refs != [] {
      var n := |refs| - 1;
      EdgesAre(s, c, slug, refs[..n]);
      assert forall i | 0 <= i < n :: refs[..n][i] == refs[i];
    }
  }

  lemma {:induction false} ExcludedAre(s: Store, c: Caller, slug: string, refs: seq<string>)
    ensures var r := ExcludedOf(s, c, slug, refs);
            && (r.Ok? <==> forall i | 0 <= i < |refs| :: Readable(s, c, slug, refs[i]).Some?)
            && (r.Ok? ==> |r.value| == |refs| && forall i | 0 <= i < |refs| ::
                  Readable(s, c, slug, refs[i]) == Some(r.value[i]))
            && (r.Err? ==> r.error.ExcludeNotFound? && r.error.index < |refs| &&
                           Readable(s, c, slug, refs[r.error.index]) == None)
  {
    hide Readable;
    if refs != [] {
      var n := |refs| - 1;
      ExcludedAre(s, c, slug, refs[..n]);
      assert forall i | 0 <= i < n :: refs[..n][i] == refs[i];
    }
  }

  // ---------------------------------------------------------------- publish

  ghost predicate Followed(s: Store, c: Caller, home: string, ref: string) { exists id :: Reads(s, c, home, ref, id) }

  /** Every parent names a frame the caller may read. */
  ghost predicate ParentsRead(s: Store, c: Caller, home: string, refs: seq<ExtendRef>) {
    forall i | 0 <= i < |refs| :: Followed(s, c, home, refs[i].ref)
  }

  ghost predicate ExcludesRead(s: Store, c: Caller, home: string, refs: seq<string>) {
    forall i | 0 <= i < |refs| :: Followed(s, c, home, refs[i])
  }

  /** Two parents name the same frame at the same version. */
  ghost predicate ParentTwice(s: Store, c: Caller, home: string, refs: seq<ExtendRef>) {
    exists i, j, id | 0 <= i < j < |refs| && refs[i].version == refs[j].version ::
      Reads(s, c, home, refs[i].ref, id) && Reads(s, c, home, refs[j].ref, id)
  }

  ghost predicate ExcludeTwice(s: Store, c: Caller, home: string, refs: seq<string>) {
    exists i, j, id | 0 <= i < j < |refs| :: Reads(s, c, home, refs[i], id) && Reads(s, c, home, refs[j], id)
  }

  ghost predicate RefsFine(s: Store, c: Caller, home: string, doc: Doc) {
    && ParentsRead(s, c, home, doc.extends_) && !ParentTwice(s, c, home, doc.extends_)
    && ExcludesRead(s, c, home, doc.excludes) && !ExcludeTwice(s, c, home, doc.excludes)
  }

  lemma {:induction false} SomeRead(s: Store, c: Caller, home: string, ref: string)
    ensures Readable(s, c, home, ref).Some? <==> Followed(s, c, home, ref)
  {
    hide Readable, Reads;
    if Readable(s, c, home, ref).Some? { ReadsIs(s, c, home, ref, Readable(s, c, home, ref).value); }
    if id :| Reads(s, c, home, ref, id) { ReadsIs(s, c, home, ref, id); }
  }

  lemma {:induction false} ParentsFound(s: Store, c: Caller, home: string, refs: seq<ExtendRef>)
    ensures EdgesOf(s, c, home, refs).Ok? <==> ParentsRead(s, c, home, refs)
  {
    hide Readable, Followed, EdgesOf;
    EdgesAre(s, c, home, refs);
    forall i | 0 <= i < |refs|
      ensures Readable(s, c, home, refs[i].ref).Some? <==> Followed(s, c, home, refs[i].ref)
    {
      SomeRead(s, c, home, refs[i].ref);
    }
  }

  lemma {:induction false} ExcludesFound(s: Store, c: Caller, home: string, refs: seq<string>)
    ensures ExcludedOf(s, c, home, refs).Ok? <==> ExcludesRead(s, c, home, refs)
  {
    hide Readable, Followed, ExcludedOf;
    ExcludedAre(s, c, home, refs);
    forall i | 0 <= i < |refs|
      ensures Readable(s, c, home, refs[i]).Some? <==> Followed(s, c, home, refs[i])
    {
      SomeRead(s, c, home, refs[i]);
    }
  }

  lemma {:induction false} RefsInserted(s: Store, c: Caller, home: string, doc: Doc)
    ensures var es, xs := EdgesOf(s, c, home, doc.extends_), ExcludedOf(s, c, home, doc.excludes);
            RefsFine(s, c, home, doc) <==> es.Ok? && xs.Ok? && !RepeatsEdge(es.value) && !Repeats(xs.value)
  {
    hide Readable, Reads, EdgesOf, ExcludedOf, ParentTwice, ExcludeTwice, RepeatsEdge, Repeats;
    ParentsFound(s, c, home, doc.extends_);
    ExcludesFound(s, c, home, doc.excludes);
    hide ParentsRead, ExcludesRead;
    RepeatedEdge(s, c, home, doc.extends_);
    RepeatedExclude(s, c, home, doc.excludes);
  }

  lemma {:induction false} RepeatedEdge(s: Store, c: Caller, home: string, refs: seq<ExtendRef>)
    ensures EdgesOf(s, c, home, refs).Ok? ==>
              (RepeatsEdge(EdgesOf(s, c, home, refs).value) <==> ParentTwice(s, c, home, refs))
  {
    hide Readable, Reads, EdgesOf;
    EdgesAre(s, c, home, refs);
    if EdgesOf(s, c, home, refs).Ok? {
      var es := EdgesOf(s, c, home, refs).value;
      forall i, id | 0 <= i < |es| ensures Reads(s, c, home, refs[i].ref, id) <==> es[i].parent == id {
        ReadsIs(s, c, home, refs[i].ref, id);
      }
      if RepeatsEdge(es) {
        var i, j :| 0 <= i < j < |es| && es[i].parent == es[j].parent && es[i].version == es[j].version;
        assert Reads(s, c, home, refs[i].ref, es[i].parent);
      }
    }
  }

  lemma {:induction false} RepeatedExclude(s: Store, c: Caller, home: string, refs: seq<string>)
    ensures ExcludedOf(s, c, home, refs).Ok? ==>
              (Repeats(ExcludedOf(s, c, home, refs).value) <==> ExcludeTwice(s, c, home, refs))
  {
    hide Readable, Reads, ExcludedOf;
    ExcludedAre(s, c, home, refs);
    if ExcludedOf(s, c, home, refs).Ok? {
      var xs := ExcludedOf(s, c, home, refs).value;
      forall i, id | 0 <= i < |xs| ensures Reads(s, c, home, refs[i], id) <==> xs[i] == id {
        ReadsIs(s, c, home, refs[i], id);
      }
      if Repeats(xs) {
        var i, j :| 0 <= i < j < |xs| && xs[i] == xs[j];
        assert Reads(s, c, home, refs[i], xs[i]);
      }
    }
  }

  /** A document that may be stored: it is valid, not too large, and fills every slot that the template
      requires. */
  predicate Storable(req: PublishRequest) {
    && Valid(req.doc) && req.size <= 512 * 1024
    && (req.template.Some? ==> forall i | 0 <= i < |SLOT_TABLE| ::
          var rules, key := req.template.value, SLOT_TABLE[i].key;
          key in rules && rules[key] == Templates.Required ==> Templates.HasContent(SLOT_TABLE[i], req.doc.slots))
  }

  lemma {:induction false} NothingMissing(table: seq<SlotDescriptor>, k: nat, rules: Templates.Rules, s: Slots)
    requires k <= |table|
    ensures Templates.Missing(table, k, rules, s) == [] <==>
            forall i | k <= i < |table| ::
              table[i].key in rules && rules[table[i].key] == Templates.Required ==> Templates.HasContent(table[i], s)
    decreases |table| - k
  {
    hide Templates.HasContent;
    if k < |table| { NothingMissing(table, k + 1, rules, s); }
  }

  /** The frame's place for this version: over a frame of that name, only its editors, on the base they
      named, not below the latest version and not under a stored one, and not as a creation; without one,
      not as an update, and under a fresh id. */
  predicate Fitting(s: Store, c: Caller, home: string, req: PublishRequest) {
    if Named(s, home, req.doc.name) then
      var id := IdOf(s, home, req.doc.name);
      && req.intent != Create && May(s, c, id, Edit)
      && (req.base == "" || req.base == s.frames[id].latest)
      && Compare(req.doc.version, s.frames[id].latest) != Some(-1)
      && VersionKey(id, req.doc.version) !in s.versions
    else
      req.intent != Update && req.newId !in s.frames
  }

  lemma {:induction false} CompareSigns(a: string, b: string)
    ensures Compare(a, b).Some? ==> (Compare(a, b).value < 0 <==> Compare(a, b) == Some(-1))
  {
    hide Parse;
  }

  lemma {:induction false} NamedLive(s: Store, c: Caller, home: string, name: string)
    requires Sound(s) && c.org in s.slugs && s.slugs[c.org] == home
    ensures home in s.orgs && s.orgs[home] == c.org
    ensures Named(s, home, name) ==> IdOf(s, home, name) in s.frames && s.frames[IdOf(s, home, name)].org == c.org
    ensures Lookup(s, home, name) == if Named(s, home, name) then Some(IdOf(s, home, name)) else None
  {
    hide RowsOk, LatestStored;
  }

  lemma {:induction false} NoOrphans(s: Store, id: Id, version: string)
    requires Sound(s)
    ensures id !in s.frames ==> VersionKey(id, version) !in s.versions
  {
    hide Valid, NamesOk, OrgsOk, LatestStored, EdgesLive;
    var k := VersionKey(id, version);
    assert k in s.versions ==> RowOk(s, k, s.versions[k]);
  }

  /** The checks before the references are looked at. */
  lemma {:induction false} ChecksAre(s: Store, c: Caller, req: PublishRequest)
    requires Sound(s)
    ensures PublishChecks(s, c, req) == None <==>
            c.role != Viewer && Storable(req) && c.org in s.slugs &&
            var home := s.slugs[c.org];
            if Named(s, home, req.doc.name) then
              var id := IdOf(s, home, req.doc.name);
              && req.intent != Create && May(s, c, id, Edit) && id in s.frames
              && (req.base == "" || req.base == s.frames[id].latest)
              && Compare(req.doc.version, s.frames[id].latest) != Some(-1)
            else req.intent != Update
  {
    hide Sound, Can, May, Valid, Compare, Lookup, Named, IdOf, Templates.HasContent, Templates.Missing;
    if req.template.Some? { NothingMissing(SLOT_TABLE, 0, req.template.value, req.doc.slots); }
    if c.org in s.slugs {
      var home := s.slugs[c.org];
      NamedLive(s, c, home, req.doc.name);
      if Named(s, home, req.doc.name) {
        var id := IdOf(s, home, req.doc.name);
        MayIs(s, c, id, Edit);
        CompareSigns(req.doc.version, s.frames[id].latest);
      }
    }
  }

  /** A publish is accepted exactly when the caller is no viewer, the document may be stored, its
      references may be followed, and its version fits. */
  lemma {:induction false} PublishAcceptedIff(s: Store, c: Caller, req: PublishRequest)
    requires Sound(s)
    ensures Published(s, c, req).result.Ok? <==>
            c.role != Viewer && Storable(req) && c.org in s.slugs &&
            RefsFine(s, c, s.slugs[c.org], req.doc) && Fitting(s, c, s.slugs[c.org], req)
  {
    hide Sound, May, Valid, Compare, Storable, PublishChecks, EdgesOf, ExcludedOf, RefsFine, Lookup, RepeatsEdge,
      Repeats, Named, IdOf;
    ChecksAre(s, c, req);
    if c.org in s.slugs && Named(s, s.slugs[c.org], req.doc.name) {
      MayLive(s, c, IdOf(s, s.slugs[c.org], req.doc.name), Edit);
    }
    if PublishChecks(s, c, req) == None {
      var home := s.slugs[c.org];
      RefsInserted(s, c, home, req.doc);
      NamedLive(s, c, home, req.doc.name);
      NoOrphans(s, req.newId, req.doc.version);
      KeyFree(s, c, home, req.doc.name);
    }
  }

  lemma {:induction false} KeyFree(s: Store, c: Caller, home: string, name: string)
    requires Sound(s) && c.org in s.slugs && s.slugs[c.org] == home
    ensures Named(s, home, name) <==> FrameKey(c.org, name) in s.names
  {
    hide RowsOk, LatestStored, NamesOk;
  }

  /** The rows that a publish writes under key k; everything else stays. */
  ghost predicate Wrote(s: Store, c: Caller, req: PublishRequest, t: Store, k: VersionKey) {
    && c.org in s.slugs
    && var home := s.slugs[c.org];
    && var isNew := !Named(s, home, req.doc.name);
    && k == VersionKey(if isNew then req.newId else IdOf(s, home, req.doc.name), req.doc.version)
    && (isNew <==> k.frame !in s.frames)
    && t.slugs == s.slugs && t.orgs == s.orgs
    && t.names == (if isNew then s.names[FrameKey(c.org, req.doc.name) := k.frame] else s.names)
    && WroteFrame(s, c, req, t, k.frame)
    && k !in s.versions && k in t.versions && t.versions == s.versions[k := t.versions[k]]
    && t.versions[k].doc == req.doc && t.versions[k].changelog == req.changelog && t.versions[k].publishedBy == c.sub
    && WroteEdges(s, c, home, req.doc, t.versions[k])
  }

  /** The frame's row and, for a new frame, its grants: edit and delete to the publisher, read to the org. */
  ghost predicate WroteFrame(s: Store, c: Caller, req: PublishRequest, t: Store, id: Id) {
    && id in t.frames && t.frames == s.frames[id := t.frames[id]]
    && var f := t.frames[id];
    && f.org == c.org && f.name == req.doc.name && f.description == req.doc.description
    && f.latest == req.doc.version && f.owner == (if id in s.frames then s.frames[id].owner else c.sub)
    && if id in s.frames then t.grants == s.grants
       else
         && id in t.grants && t.grants == s.grants[id := t.grants[id]]
         && forall g :: g in t.grants[id] <==>
              g in {Grant(User(c.sub), Edit), Grant(User(c.sub), Delete), Grant(Org(c.org), Read)}
  }

  /** The edges and excludes of the row, in the order of the document. */
  ghost predicate WroteEdges(s: Store, c: Caller, home: string, doc: Doc, row: VersionRow) {
    && |row.parents| == |doc.extends_| && |row.excluded| == |doc.excludes|
    && (forall i | 0 <= i < |row.parents| ::
          Reads(s, c, home, doc.extends_[i].ref, row.parents[i].parent) &&
          row.parents[i].version == doc.extends_[i].version && row.parents[i].order == i)
    && (forall i | 0 <= i < |row.excluded| :: Reads(s, c, home, doc.excludes[i], row.excluded[i]))
  }

  lemma {:induction false} EdgesWritten(s: Store, c: Caller, home: string, doc: Doc, row: VersionRow)
    requires EdgesOf(s, c, home, doc.extends_) == Ok(row.parents)
    requires ExcludedOf(s, c, home, doc.excludes) == Ok(row.excluded)
    ensures WroteEdges(s, c, home, doc, row)
  {
    hide EdgesOf, ExcludedOf, Readable, Reads;
    EdgesAre(s, c, home, doc.extends_);
    ExcludedAre(s, c, home, doc.excludes);
    forall i | 0 <= i < |row.parents| ensures Reads(s, c, home, doc.extends_[i].ref, row.parents[i].parent) {
      ReadsIs(s, c, home, doc.extends_[i].ref, row.parents[i].parent);
    }
    forall i | 0 <= i < |row.excluded| ensures Reads(s, c, home, doc.excludes[i], row.excluded[i]) {
      ReadsIs(s, c, home, doc.excludes[i], row.excluded[i]);
    }
  }

  lemma {:induction false} InsertIs(s: Store, c: Caller, req: PublishRequest) returns (n: Insert)
    ensures Published(s, c, req).result.Ok? ==>
              && c.org in s.slugs && PublishChecks(s, c, req) == None && InsertFor(s, c, req) == Ok(n)
              && Inserted(s, n) == Ok(Published(s, c, req).store)
              && Published(s, c, req).result.value == VersionKey(n.id, n.version)
  {
    hide Refusal, Valid, MissingSlots, Inserted, EdgesOf, ExcludedOf, Lookup, FrameRowFor, DefaultGrants;
    if Published(s, c, req).result.Ok? {
      n := InsertFor(s, c, req).value;
    } else {
      n := Insert("", FrameRow("", "", "", "", ""), "", VersionRow(req.doc, "", "", [], []), true, []);
    }
  }

  lemma {:induction false} FrameWritten(s: Store, c: Caller, req: PublishRequest, n: Insert)
    requires Sound(s) && c.org in s.slugs && PublishChecks(s, c, req) == None && InsertFor(s, c, req) == Ok(n)
    requires Inserted(s, n).Ok?
    ensures WroteFrame(s, c, req, Inserted(s, n).value, n.id)
    ensures n.isNew <==> !Named(s, s.slugs[c.org], req.doc.name)
    ensures n.isNew <==> n.id !in s.frames
    ensures n.frame.org == c.org && n.frame.name == req.doc.name
    ensures n.id == if n.isNew then req.newId else IdOf(s, s.slugs[c.org], req.doc.name)
  {
    hide PublishChecks, EdgesOf, ExcludedOf, Lookup, RowsOk, LatestStored, OrgsOk, RepeatsEdge, Repeats;
    NamedLive(s, c, s.slugs[c.org], req.doc.name);
  }

  /** What an accepted publish writes, row by row. */
  lemma {:induction false} PublishWrites(s: Store, c: Caller, req: PublishRequest)
    requires Sound(s)
    ensures Published(s, c, req).result.Ok? ==>
              Wrote(s, c, req, Published(s, c, req).store, Published(s, c, req).result.value)
  {
    hide Sound, PublishChecks, Published, EdgesOf, ExcludedOf, Lookup, RepeatsEdge, Repeats, WroteFrame, WroteEdges,
      Named, IdOf, DefaultGrants, FrameRowFor;
    var n := InsertIs(s, c, req);
    if Published(s, c, req).result.Ok? {
      EdgesWritten(s, c, s.slugs[c.org], req.doc, n.row);
      FrameWritten(s, c, req, n);
      var t, k := Published(s, c, req).store, Published(s, c, req).result.value;
      assert t.versions == s.versions[k := n.row];
    }
  }

  // ---------------------------------------------------------------- update

  function Given<T>(given: Option<T>, current: T): T {
    match given
    case Some(x) => x
    case None => current
  }

  /** d is the base document with every supplied field replaced, under the patch's name and version. */
  predicate Overlaid(p: Patch, base: Doc, d: Doc) {
    && d.name == p.name && d.version == p.version
    && d.description == Given(p.description, base.description) && d.visibility == Given(p.visibility, base.visibility)
    && d.scope == Given(p.scope, base.scope) && d.maintainer == Given(p.maintainer, base.maintainer)
    && d.extends_ == Given(p.extends_, base.extends_) && d.excludes == Given(p.excludes, base.excludes)
    && d.slots.terminology == Given(p.terminology, base.slots.terminology)
    && d.slots.rules == Given(p.rules, base.slots.rules) && d.slots.skills == Given(p.skills, base.slots.skills)
    && d.slots.prompts == Given(p.prompts, base.slots.prompts)
    && d.slots.toolSpecs == Given(p.toolSpecs, base.slots.toolSpecs)
    && d.slots.goals == Given(p.goals, base.slots.goals)
    && d.slots.style == Given(p.style, base.slots.style) && d.slots.norms == Given(p.norms, base.slots.norms)
    && d.slots.architecture == Given(p.architecture, base.slots.architecture)
    && d.slots.businessProcess == Given(p.businessProcess, base.slots.businessProcess)
  }

  lemma {:induction false} OverlaidIs(p: Patch, base: Doc, d: Doc)
    ensures Overlaid(p, base, d) <==> d == Patched(p, base)
  {}

  /** The publish that an update of this document is. */
  function UpdateOf(p: Patch, d: Doc, size: nat): PublishRequest {
    PublishRequest(d, p.changelog, Update, p.base, None, size, "")
  }

  /** An update is accepted exactly when it names its base, which is the latest version of a frame of the
      caller's org that the caller may read and edit, and the base overlaid with the supplied fields may be
      published over it. */
  lemma {:induction false} UpdateAcceptedIff(s: Store, c: Caller, p: Patch, size: nat)
    requires Sound(s)
    ensures Updated(s, c, p, size).result.Ok? <==>
            && p.base != "" && c.role != Viewer && c.org in s.slugs && Named(s, s.slugs[c.org], p.name)
            && var id := IdOf(s, s.slugs[c.org], p.name);
            && May(s, c, id, Read) && May(s, c, id, Edit) && id in s.frames && s.frames[id].latest == p.base
            && VersionKey(id, p.base) in s.versions
            && exists d | Overlaid(p, s.versions[VersionKey(id, p.base)].doc, d) ::
                 Storable(UpdateOf(p, d, size)) && RefsFine(s, c, s.slugs[c.org], d) &&
                 Fitting(s, c, s.slugs[c.org], UpdateOf(p, d, size))
  {
    hide Sound, May, Storable, RefsFine, Lookup, Named, IdOf, Published, Overlaid, Patched, Compare, Can;
    if c.org in s.slugs {
      var home := s.slugs[c.org];
      NamedLive(s, c, home, p.name);
      if Named(s, home, p.name) {
        var id := IdOf(s, home, p.name);
        MayIs(s, c, id, Read);
        LatestIn(s, id);
        var base := s.versions[VersionKey(id, s.frames[id].latest)].doc;
        forall d ensures Overlaid(p, base, d) <==> d == Patched(p, base) { OverlaidIs(p, base, d); }
        PatchedNamed(p, base);
        PublishAcceptedIff(s, c, UpdateOf(p, Patched(p, base), size));
      }
    }
  }

  lemma {:induction false} PatchedNamed(p: Patch, base: Doc)
    ensures Patched(p, base).name == p.name
  {}

  lemma {:induction false} LatestIn(s: Store, id: Id)
    requires Sound(s) && id in s.frames
    ensures VersionKey(id, s.frames[id].latest) in s.versions
  {}

  /** An accepted update writes what publishing the overlaid base would. */
  lemma {:induction false} UpdateWrites(s: Store, c: Caller, p: Patch, size: nat)
    requires Sound(s)
    ensures var o := Updated(s, c, p, size);
            o.result.Ok? ==>
              && VersionKey(o.result.value.frame, p.base) in s.versions
              && forall d | Overlaid(p, s.versions[VersionKey(o.result.value.frame, p.base)].doc, d) ::
                   Wrote(s, c, UpdateOf(p, d, size), o.store, o.result.value)
  {
    hide Sound, May, Storable, RefsFine, Lookup, Named, IdOf, Published, Overlaid, Patched, Can, Wrote, Fitting;
    if Updated(s, c, p, size).result.Ok? {
      UpdateAcceptedIff(s, c, p, size);
      var home := s.slugs[c.org];
      var id := IdOf(s, home, p.name);
      NamedLive(s, c, home, p.name);
      var base := s.versions[VersionKey(id, p.base)].doc;
      forall d ensures Overlaid(p, base, d) <==> d == Patched(p, base) { OverlaidIs(p, base, d); }
      PatchedNamed(p, base);
      PublishWrites(s, c, UpdateOf(p, Patched(p, base), size));
      WroteUnder(s, c, UpdateOf(p, Patched(p, base), size), Updated(s, c, p, size).store,
                 Updated(s, c, p, size).result.value);
    }
  }

  lemma {:induction false} WroteUnder(s: Store, c: Caller, req: PublishRequest, t: Store, k: VersionKey)
    requires Wrote(s, c, req, t, k) && Named(s, s.slugs[c.org], req.doc.name)
    ensures k.frame == IdOf(s, s.slugs[c.org], req.doc.name)
  {}

  // ---------------------------------------------------------------- what a refusal means

  /** What each refusal of a publish says about the store and the request. */
  ghost predicate Explained(s: Store, c: Caller, req: PublishRequest, e: PublishError) {
    match e
    case PermissionDenied => c.role == Viewer
    case InvalidDocument => !Valid(req.doc) || MissingSlots(req) != []
    case TooLarge => req.size > 512 * 1024
    case UnknownOrg => c.org !in s.slugs
    case ParentNotFound(i) =>
      c.org in s.slugs && i < |req.doc.extends_| && !Followed(s, c, s.slugs[c.org], req.doc.extends_[i].ref)
    case ExcludeNotFound(i) =>
      c.org in s.slugs && i < |req.doc.excludes| && !Followed(s, c, s.slugs[c.org], req.doc.excludes[i])
    case Internal =>
      c.org in s.slugs && (ParentTwice(s, c, s.slugs[c.org], req.doc.extends_) ||
                           ExcludeTwice(s, c, s.slugs[c.org], req.doc.excludes))
    case NoSuchFrame => c.org in s.slugs && !Named(s, s.slugs[c.org], req.doc.name) && req.intent == Update
    case VersionExists =>
      c.org in s.slugs &&
      if Named(s, s.slugs[c.org], req.doc.name) then
        VersionKey(IdOf(s, s.slugs[c.org], req.doc.name), req.doc.version) in s.versions
      else req.newId in s.frames
    case _ => c.org in s.slugs && Named(s, s.slugs[c.org], req.doc.name) && OverExplained(s, c, req, e)
  }

  /** The refusals that concern the frame published over. */
  ghost predicate OverExplained(s: Store, c: Caller, req: PublishRequest, e: PublishError)
    requires c.org in s.slugs && Named(s, s.slugs[c.org], req.doc.name)
  {
    var id := IdOf(s, s.slugs[c.org], req.doc.name);
    id in s.frames &&
    match e
    case NameTaken => req.intent == Create
    case EditDenied => !May(s, c, id, Edit)
    case MovedOn(latest) => latest == s.frames[id].latest && req.base != "" && req.base != latest
    case NotHigher(latest) => latest == s.frames[id].latest && Compare(req.doc.version, latest) == Some(-1)
    case _ => false
  }

  lemma {:induction false} RefusalMeans(s: Store, c: Caller, req: PublishRequest)
    requires Sound(s)
    ensures Published(s, c, req).result.Err? ==> Explained(s, c, req, Published(s, c, req).result.error)
  {
    hide Sound, Can, May, Valid, Compare, MissingSlots, EdgesOf, ExcludedOf, Lookup, RepeatsEdge, Repeats, Named, IdOf,
      Followed, ParentTwice, ExcludeTwice, Readable;
    if c.org in s.slugs {
      var home := s.slugs[c.org];
      NamedLive(s, c, home, req.doc.name);
      KeyFree(s, c, home, req.doc.name);
      EdgesAre(s, c, home, req.doc.extends_);
      ExcludedAre(s, c, home, req.doc.excludes);
      RepeatedEdge(s, c, home, req.doc.extends_);
      RepeatedExclude(s, c, home, req.doc.excludes);
      forall ref ensures Readable(s, c, home, ref).Some? <==> Followed(s, c, home, ref) { SomeRead(s, c, home, ref); }
      NoOrphans(s, req.newId, req.doc.version);
      if Named(s, home, req.doc.name) {
        MayIs(s, c, IdOf(s, home, req.doc.name), Edit);
        CompareSigns(req.doc.version, s.frames[IdOf(s, home, req.doc.name)].latest);
      }
    }
  }

  // ---------------------------------------------------------------- reads

  /** A read loads the document stored under the version asked for, or under the latest when none is, of a
      named frame that the caller may read. */
  lemma {:induction false} LoadedIff(s: Store, c: Caller, org: string, name: string, version: string, d: Doc)
    ensures Loaded(s, c, org, name, version) == Some(d) <==>
            && Named(s, org, name)
            && var id := IdOf(s, org, name);
            && May(s, c, id, Read) && id in s.frames
            && var key := VersionKey(id, if version != "" then version else s.frames[id].latest);
            && key in s.versions && s.versions[key].doc == d
  {
    hide Can, May;
    if Named(s, org, name) {
      MayIs(s, c, IdOf(s, org, name), Read);
      MayLive(s, c, IdOf(s, org, name), Read);
    }
  }

  /** What a parent reference fetches: its version of the frame it names, when the caller may read that. */
  lemma {:induction false} FetchedIff(s: Store, c: Caller, home: string, p: ExtendRef, d: Doc)
    ensures FetchParent(s, c, home, p) == Some(d) <==>
            exists id :: Reads(s, c, home, p.ref, id) && VersionKey(id, p.version) in s.versions &&
                         s.versions[VersionKey(id, p.version)].doc == d
  {
    hide Readable, Reads;
    forall id ensures Readable(s, c, home, p.ref) == Some(id) <==> Reads(s, c, home, p.ref, id) {
      ReadsIs(s, c, home, p.ref, id);
    }
    if FetchParent(s, c, home, p) == Some(d) { assert Reads(s, c, home, p.ref, Readable(s, c, home, p.ref).value); }
  }

  /** A read that resolves carries the metadata of the document it loaded, and extends and excludes nothing. */
  lemma {:induction false} ReadMetadata(s: Store, c: Caller, org: string, name: string, version: string)
    ensures var r, loaded := ResolvedDoc(s, c, org, name, version), Loaded(s, c, org, name, version);
            r.Ok? ==>
              && loaded.Some?
              && r.value.name == loaded.value.name && r.value.description == loaded.value.description
              && r.value.version == loaded.value.version && r.value.visibility == loaded.value.visibility
              && r.value.scope == loaded.value.scope && r.value.maintainer == loaded.value.maintainer
              && r.value.extends_ == [] && r.value.excludes == []
  {
    hide Loaded, Fetchable, Resolver.Resolved;
    var loaded := Loaded(s, c, org, name, version);
    if ResolvedDoc(s, c, org, name, version).Ok? {
      var doc := loaded.value;
      ResolverLaws.MetadataIsOwn(Fetchable(s, c, s.slugs[c.org]), doc, doc.extends_, doc.excludes);
    }
  }

  /** A read that fails on a cycle names one: a way up from the loaded document on which a ref@version occurs
      twice, by the refs on it. */
  lemma {:induction false} CycleMeans(s: Store, c: Caller, org: string, name: string, version: string)
    returns (chain: seq<ExtendRef>)
    requires var r := ResolvedDoc(s, c, org, name, version); r.Err? && r.error.InCycle?
    ensures var loaded := Loaded(s, c, org, name, version);
            && loaded.Some? && c.org in s.slugs && chain != []
            && Way(s, c, s.slugs[c.org], loaded.value.extends_, Resolver.Elements(loaded.value.excludes), chain)
            && (exists i | 0 <= i < |chain| - 1 ::
                  chain[i].ref + "@" + chain[i].version ==
                  chain[|chain| - 1].ref + "@" + chain[|chain| - 1].version)
            && ResolvedDoc(s, c, org, name, version).error.path == [loaded.value.name] + ResolverLaws.Refs(chain)
  {
    hide Loaded, Fetchable, Way, ResolverLaws.Chain, Pinned, Resolver.Walk, Resolver.Elements;
    var doc := Loaded(s, c, org, name, version).value;
    var slug, excl := s.slugs[c.org], Resolver.Elements(doc.excludes);
    var at := Resolver.Place(excl, {}, [doc.name]);
    chain := ResolverLaws.FaultWitness(Fetchable(s, c, slug), doc.extends_, at);
    LoadedPins(s, c, org, name, version);
    WayIsChain(s, c, slug, doc.extends_, excl, chain);
  }

  /** A read of a loaded document that fails otherwise meets a parent that cannot be fetched. */
  lemma {:induction false} MissingMeans(s: Store, c: Caller, org: string, name: string, version: string)
    returns (chain: seq<ExtendRef>)
    requires ResolvedDoc(s, c, org, name, version) == Err(NoFrame)
    requires Loaded(s, c, org, name, version).Some? && c.org in s.slugs
    ensures var doc, slug := Loaded(s, c, org, name, version).value, s.slugs[c.org];
            && chain != [] && Way(s, c, slug, doc.extends_, Resolver.Elements(doc.excludes), chain)
            && FetchParent(s, c, slug, chain[|chain| - 1]) == None
  {
    hide Loaded, Fetchable, FetchParent, Way, ResolverLaws.Chain, Pinned, Pins, Resolver.Walk, Resolver.Elements;
    var doc, slug := Loaded(s, c, org, name, version).value, s.slugs[c.org];
    var excl := Resolver.Elements(doc.excludes);
    chain := ResolverLaws.FaultWitness(Fetchable(s, c, slug), doc.extends_, Resolver.Place(excl, {}, [doc.name]));
    LoadedPins(s, c, org, name, version);
    WayIsChain(s, c, slug, doc.extends_, excl, chain);
    FetchIsLookup(s, c, slug, chain[|chain| - 1]);
  }

  // ---------------------------------------------------------------- what a delete writes

  /** ys are entries of xs in their order. */
  predicate InOrder(xs: seq<ParentEdge>, ys: seq<ParentEdge>)
  {
    ys == [] || (xs != [] && (InOrder(xs[..|xs| - 1], ys) ||
                              (ys[|ys| - 1] == xs[|xs| - 1] && InOrder(xs[..|xs| - 1], ys[..|ys| - 1]))))
  }

  lemma {:induction false} KeptInOrder(es: seq<ParentEdge>, id: Id)
    ensures InOrder(es, KeptEdges(es, id))
  {
    if es != [] {
      var n := |es| - 1;
      KeptInOrder(es[..n], id);
      if es[n].parent != id {
        assert KeptEdges(es, id)[..|KeptEdges(es, id)| - 1] == KeptEdges(es[..n], id);
      } else {
        assert KeptEdges(es, id) == KeptEdges(es[..n], id);
      }
    }
  }

  /** An accepted delete takes the frame, its name, its grants and its versions, and from every other row
      exactly the edges to it, the rest keeping their order. */
  lemma {:induction false} DeleteWrites(s: Store, c: Caller, slug: string, name: string, force: bool)
    ensures var o := Deleted(s, c, slug, name, force);
            o.result.Ok? ==>
              && Named(s, slug, name)
              && var t, id := o.store, IdOf(s, slug, name);
              && t.slugs == s.slugs && t.orgs == s.orgs && id in s.frames
              && t.frames == s.frames - {id} && t.grants == s.grants - {id}
              && t.names == s.names - {FrameKey(s.frames[id].org, s.frames[id].name)}
              && (forall k :: k in t.versions <==> k in s.versions && k.frame != id)
              && forall k | k in t.versions ::
                   && t.versions[k] == s.versions[k].(parents := t.versions[k].parents)
                   && InOrder(s.versions[k].parents, t.versions[k].parents)
                   && (forall e :: e in t.versions[k].parents <==> e in s.versions[k].parents && e.parent != id)
  {
    hide Can, Children, InOrder;
    var o := Deleted(s, c, slug, name, force);
    if o.result.Ok? {
      var id := IdOf(s, slug, name);
      hide KeptEdges;
      forall k | k in o.store.versions
        ensures InOrder(s.versions[k].parents, o.store.versions[k].parents)
        ensures forall e :: e in o.store.versions[k].parents <==> e in s.versions[k].parents && e.parent != id
      {
        KeptInOrder(s.versions[k].parents, id);
        KeptEdgesAre(s.versions[k].parents, id);
      }
    }
  }
}
