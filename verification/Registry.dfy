/** The registry of frames: its store, and the publish, update and delete requests on it. */
module Registry {
  import opened Text
  import opened Schema
  import opened Validate
  import opened Versions
  import Templates

  type Id = string

  datatype Permission = Read | Edit | Delete
  datatype Role = Viewer | Publisher | Admin
  datatype Subject = User(sub: string) | Org(org: Id)
  datatype Grant = Grant(who: Subject, perm: Permission)
  datatype Caller = Caller(sub: string, org: Id, role: Role)

  datatype FrameRow = FrameRow(org: Id, name: string, description: string, owner: string, latest: string)
  datatype ParentEdge = ParentEdge(parent: Id, version: string, order: nat)
  datatype VersionRow = VersionRow(doc: Doc, changelog: string, publishedBy: string,
                                   parents: seq<ParentEdge>, excluded: seq<Id>)

  datatype FrameKey = FrameKey(org: Id, name: string)
  datatype VersionKey = VersionKey(frame: Id, version: string)

  /** The tables, as one value. */
  datatype Store = Store(
    slugs: map<Id, string>, orgs: map<string, Id>,
    frames: map<Id, FrameRow>, names: map<FrameKey, Id>,
    versions: map<VersionKey, VersionRow>, grants: map<Id, seq<Grant>>)

  datatype StoreError = AlreadyExists | Conflict | NotFound

  // ---------------------------------------------------------------- reading

  /** A row whose latest description and version a publish sets, with everything it inserts. */
  datatype Insert = Insert(id: Id, frame: FrameRow, version: string, row: VersionRow, isNew: bool, grants: seq<Grant>)

  /** "org/name", or a bare name in the caller's own org. */
  function SplitRef(ref: string, slug: string): (r: (string, string)) {
    var n := FindSlash(ref, 0);
    if n < |ref| then (ref[..n], ref[n + 1..]) else (slug, ref)
  }

  function Lookup(s: Store, slug: string, name: string): Option<Id> {
    if slug in s.orgs && FrameKey(s.orgs[slug], name) in s.names then Some(s.names[FrameKey(s.orgs[slug], name)])
    else None
  }

  /** rbac.Can: another org's frames are closed, an admin may do all, else a grant decides. */
  predicate Can(s: Store, c: Caller, id: Id, perm: Permission) {
    && id in s.frames && s.frames[id].org == c.org
    && (c.role == Admin ||
        (id in s.grants && (Grant(User(c.sub), perm) in s.grants[id] || Grant(Org(c.org), perm) in s.grants[id])))
  }

  /** The frame a caller's ref names, when the caller may read it. */
  function Readable(s: Store, c: Caller, slug: string, ref: string): Option<Id> {
    var (org, name) := SplitRef(ref, slug);
    match Lookup(s, org, name)
    case None => None
    case Some(id) => if Can(s, c, id, Read) then Some(id) else None
  }

  // ---------------------------------------------------------------- the store

  predicate Repeats<T(==)>(xs: seq<T>) { exists i, j | 0 <= i < j < |xs| :: xs[i] == xs[j] }

  /** Two edges with one primary key: same parent, same version. */
  predicate RepeatsEdge(es: seq<ParentEdge>) {
    exists i, j | 0 <= i < j < |es| :: es[i].parent == es[j].parent && es[i].version == es[j].version
  }

  /** One transaction: the frame row, the version row and its edges, or nothing. */
  function Inserted(s: Store, n: Insert): Result<Store, StoreError> {
    var key := FrameKey(n.frame.org, n.frame.name);
    if n.isNew && (n.id in s.frames || key in s.names) then Err(AlreadyExists)
    else if VersionKey(n.id, n.version) in s.versions then Err(AlreadyExists)
    else if RepeatsEdge(n.row.parents) || Repeats(n.row.excluded) then Err(Conflict)
    else
      Ok(s.(frames := s.frames[n.id := n.frame],
            names := if n.isNew then s.names[key := n.id] else s.names,
            versions := s.versions[VersionKey(n.id, n.version) := n.row],
            grants := if n.isNew then s.grants[n.id := n.grants] else s.grants))
  }

  function KeptEdges(es: seq<ParentEdge>, id: Id): seq<ParentEdge> {
    if es == [] then []
    else KeptEdges(es[..|es| - 1], id) + if es[|es| - 1].parent != id then [es[|es| - 1]] else []
  }

  /** The row without its edges to a deleted frame. */
  function Detached(row: VersionRow, id: Id): VersionRow { row.(parents := KeptEdges(row.parents, id)) }

  /** The frame, its name, its grants and its versions are gone, and no edge names it. */
  function Removed(s: Store, id: Id): Result<Store, StoreError> {
    if id !in s.frames then Err(NotFound)
    else
      Ok(s.(frames := s.frames - {id},
            names := s.names - {FrameKey(s.frames[id].org, s.frames[id].name)},
            versions := map k | k in s.versions && k.frame != id :: Detached(s.versions[k], id),
            grants := s.grants - {id}))
  }

  predicate HasParent(row: VersionRow, id: Id) { exists e | e in row.parents :: e.parent == id }

  /** The live frames, other than id itself, with a version that extends id. */
  function Children(s: Store, id: Id): set<Id> {
    set k | k in s.versions && k.frame in s.frames && k.frame != id && HasParent(s.versions[k], id) :: k.frame
  }

  // ---------------------------------------------------------------- publish

  datatype Intent = Upsert | Create | Update

  datatype PublishRequest = PublishRequest(
    doc: Doc, changelog: string, intent: Intent, base: string, template: Option<Templates.Rules>,
    size: nat, newId: Id)

  datatype PublishError =
    | PermissionDenied | InvalidDocument | TooLarge | UnknownOrg | NoSuchFrame | NameTaken | EditDenied
    | MovedOn(latest: string) | NotHigher(latest: string)
    | ParentNotFound(index: nat) | ExcludeNotFound(index: nat) | VersionExists | Internal
    | BaseRequired | Blocked(children: set<Id>)

  const MAX_CONTENT_BYTES := 524288

  function EdgesOf(s: Store, c: Caller, slug: string, refs: seq<ExtendRef>): Result<seq<ParentEdge>, PublishError> {
    if refs == [] then Ok([])
    else
      var n := |refs| - 1;
      match EdgesOf(s, c, slug, refs[..n])
      case Err(e) => Err(e)
      case Ok(es) =>
        match Readable(s, c, slug, refs[n].ref)
        case None => Err(ParentNotFound(n))
        case Some(id) => Ok(es + [ParentEdge(id, refs[n].version, n)])
  }

  function ExcludedOf(s: Store, c: Caller, slug: string, refs: seq<string>): Result<seq<Id>, PublishError> {
    if refs == [] then Ok([])
    else
      var n := |refs| - 1;
      match ExcludedOf(s, c, slug, refs[..n])
      case Err(e) => Err(e)
      case Ok(ids) =>
        match Readable(s, c, slug, refs[n])
        case None => Err(ExcludeNotFound(n))
        case Some(id) => Ok(ids + [id])
  }

  function DefaultGrants(sub: string, org: Id): seq<Grant> {
    [Grant(User(sub), Edit), Grant(User(sub), Delete), Grant(Org(org), Read)]
  }

  function MissingSlots(req: PublishRequest): seq<SlotKey> {
    match req.template
    case None => []
    case Some(rules) => Templates.Missing(SLOT_TABLE, 0, rules, req.doc.slots)
  }

  /** May this request publish over a frame whose latest version is latest? */
  function Refusal(s: Store, c: Caller, id: Id, req: PublishRequest): Option<PublishError>
    requires id in s.frames
  {
    var latest := s.frames[id].latest;
    if !Can(s, c, id, Edit) then Some(EditDenied)
    else if req.base != "" && latest != req.base then Some(MovedOn(latest))
    else
      var cmp := Compare(req.doc.version, latest);
      if cmp.Some? && cmp.value < 0 then Some(NotHigher(latest)) else None
  }

  /** The row that a publish writes for the frame. */
  function FrameRowFor(s: Store, c: Caller, found: Option<Id>, doc: Doc): FrameRow {
    if found.Some? && found.value in s.frames then
      s.frames[found.value].(description := doc.description, latest := doc.version)
    else FrameRow(c.org, doc.name, doc.description, c.sub, doc.version)
  }

  function PublishChecks(s: Store, c: Caller, req: PublishRequest): Option<PublishError> {
    if c.role == Viewer then Some(PermissionDenied)
    else if !Valid(req.doc) || MissingSlots(req) != [] then Some(InvalidDocument)
    else if req.size > MAX_CONTENT_BYTES then Some(TooLarge)
    else if c.org !in s.slugs then Some(UnknownOrg)
    else
      var found := Lookup(s, s.slugs[c.org], req.doc.name);
      if found == None && req.intent == Update then Some(NoSuchFrame)
      else if found.Some? && req.intent == Create then Some(NameTaken)
      else if found.Some? && found.value in s.frames then Refusal(s, c, found.value, req)
      else None
  }

  function InsertFor(s: Store, c: Caller, req: PublishRequest): Result<Insert, PublishError>
    requires PublishChecks(s, c, req) == None
  {
    var slug := s.slugs[c.org];
    var found := Lookup(s, slug, req.doc.name);
    match EdgesOf(s, c, slug, req.doc.extends_)
    case Err(e) => Err(e)
    case Ok(edges) =>
      match ExcludedOf(s, c, slug, req.doc.excludes)
      case Err(e) => Err(e)
      case Ok(excluded) =>
        Ok(Insert(if found.Some? then found.value else req.newId, FrameRowFor(s, c, found, req.doc),
                  req.doc.version, VersionRow(req.doc, req.changelog, c.sub, edges, excluded),
                  found == None, DefaultGrants(c.sub, c.org)))
  }

  /** The result of a request, and the store after it. */
  datatype Outcome = Outcome(store: Store, result: Result<VersionKey, PublishError>)

  function Published(s: Store, c: Caller, req: PublishRequest): Outcome {
    match PublishChecks(s, c, req)
    case Some(e) => Outcome(s, Err(e))
    case None =>
      match InsertFor(s, c, req)
      case Err(e) => Outcome(s, Err(e))
      case Ok(n) =>
        match Inserted(s, n)
        case Err(e) => Outcome(s, Err(if e == AlreadyExists then VersionExists else Internal))
        case Ok(next) => Outcome(next, Ok(VersionKey(n.id, n.version)))
  }

  // ---------------------------------------------------------------- update

  /** The fields an update supplies; an omitted one is None. */
  datatype Patch = Patch(
    name: string, version: string, changelog: string, base: string,
    description: Option<string>, visibility: Option<string>, scope: Option<string>, maintainer: Option<string>,
    terminology: Option<seq<Term>>, rules: Option<seq<string>>, skills: Option<seq<string>>,
    prompts: Option<seq<string>>, toolSpecs: Option<string>, goals: Option<string>, style: Option<string>,
    norms: Option<string>, architecture: Option<string>, businessProcess: Option<string>,
    extends_: Option<seq<ExtendRef>>, excludes: Option<seq<string>>)

  function Or<T>(given: Option<T>, current: T): T { if given.Some? then given.value else current }

  function PatchedSlots(p: Patch, s: Slots): Slots {
    Slots(Or(p.terminology, s.terminology), Or(p.rules, s.rules), Or(p.skills, s.skills), Or(p.prompts, s.prompts),
          Or(p.toolSpecs, s.toolSpecs), Or(p.goals, s.goals), Or(p.style, s.style), Or(p.norms, s.norms),
          Or(p.architecture, s.architecture), Or(p.businessProcess, s.businessProcess))
  }

  function Patched(p: Patch, base: Doc): Doc {
    Doc(p.name, Or(p.description, base.description), p.version, Or(p.visibility, base.visibility),
        Or(p.scope, base.scope), Or(p.maintainer, base.maintainer),
        Or(p.extends_, base.extends_), Or(p.excludes, base.excludes), PatchedSlots(p, base.slots))
  }

  /** SourceDoc: the frame's own document at its latest version, as far as the caller may read it. */
  function SourceDoc(s: Store, c: Caller, name: string): Option<Doc> {
    if c.org !in s.slugs then None
    else match Lookup(s, s.slugs[c.org], name)
      case None => None
      case Some(id) =>
        if Can(s, c, id, Read) && VersionKey(id, s.frames[id].latest) in s.versions then
          Some(s.versions[VersionKey(id, s.frames[id].latest)].doc)
        else None
  }

  /** The publish that an update asks for. */
  function UpdateRequest(p: Patch, current: Doc, size: nat): PublishRequest {
    PublishRequest(Patched(p, current), p.changelog, Update, p.base, None, size, "")
  }

  function Updated(s: Store, c: Caller, p: Patch, size: nat): Outcome {
    if p.base == "" then Outcome(s, Err(BaseRequired))
    else if c.org !in s.slugs then Outcome(s, Err(UnknownOrg))
    else match SourceDoc(s, c, p.name)
      case None => Outcome(s, Err(NoSuchFrame))
      case Some(current) => Published(s, c, UpdateRequest(p, current, size))
  }

  // ---------------------------------------------------------------- delete

  function Deleted(s: Store, c: Caller, slug: string, name: string, force: bool): Outcome {
    match Lookup(s, slug, name)
    case None => Outcome(s, Err(NoSuchFrame))
    case Some(id) =>
      if !Can(s, c, id, Delete) then Outcome(s, Err(NoSuchFrame))
      else if Children(s, id) != {} && !force then Outcome(s, Err(Blocked(Children(s, id))))
      else match Removed(s, id)
        case Err(_) => Outcome(s, Err(NoSuchFrame))
        case Ok(next) => Outcome(next, Ok(VersionKey(id, "")))
  }

  // ---------------------------------------------------------------- the service

  /** The tables, changed in place by each request. */
  class Tables {
    var slugs: map<Id, string>
    var orgs: map<string, Id>
    var frames: map<Id, FrameRow>
    var names: map<FrameKey, Id>
    var versions: map<VersionKey, VersionRow>
    var grants: map<Id, seq<Grant>>

    ghost function Now(): Store
      reads this
    {
      Store(slugs, orgs, frames, names, versions, grants)
    }

    constructor (slugs: map<Id, string>, orgs: map<string, Id>)
      ensures Now() == Store(slugs, orgs, map[], map[], map[], map[])
    {
      this.slugs, this.orgs := slugs, orgs;
      frames, names, versions, grants := map[], map[], map[], map[];
    }

    method GetFrameBySlugName(slug: string, name: string) returns (id: Option<Id>)
      ensures id == Lookup(Now(), slug, name)
    {
      if slug !in orgs { return None; }
      var key := FrameKey(orgs[slug], name);
      if key !in names { return None; }
      return Some(names[key]);
    }

    method Allowed(c: Caller, id: Id, perm: Permission) returns (ok: bool)
      ensures ok == Can(Now(), c, id, perm)
    {
      if id !in frames || frames[id].org != c.org { return false; }
      if c.role == Admin { return true; }
      if id !in grants { return false; }
      var gs := grants[id];
      for i := 0 to |gs|
        invariant forall j | 0 <= j < i :: gs[j] != Grant(User(c.sub), perm) && gs[j] != Grant(Org(c.org), perm)
      {
        if gs[i].perm != perm { continue; }
        if gs[i].who == User(c.sub) { return true; }
        if gs[i].who == Org(c.org) { return true; }
      }
      return false;
    }

    /** Either the whole version goes in or nothing changes. */
    method CreateFrameVersion(n: Insert) returns (error: Option<StoreError>)
      modifies this
      ensures match Inserted(old(Now()), n)
              case Ok(next) => error == None && Now() == next
              case Err(e) => error == Some(e) && Now() == old(Now())
    {
      var key := FrameKey(n.frame.org, n.frame.name);
      if n.isNew && (n.id in frames || key in names) { return Some(AlreadyExists); }
      if VersionKey(n.id, n.version) in versions { return Some(AlreadyExists); }
      if RepeatsEdge(n.row.parents) || Repeats(n.row.excluded) { return Some(Conflict); }
      frames := frames[n.id := n.frame];
      if n.isNew {
        names := names[key := n.id];
        grants := grants[n.id := n.grants];
      }
      versions := versions[VersionKey(n.id, n.version) := n.row];
      return None;
    }

    method FrameChildren(id: Id) returns (children: set<Id>)
      ensures children == Children(Now(), id)
    {
      children := {};
      var left := versions.Keys;
      while left != {}
        invariant left <= versions.Keys
        invariant children == set k | k in versions && k !in left && k.frame in frames && k.frame != id &&
                                      HasParent(versions[k], id) :: k.frame
      {
        var k :| k in left;
        left := left - {k};
        var found := false;
        var es := versions[k].parents;
        for i := 0 to |es|
          invariant found <==> exists j | 0 <= j < i :: es[j].parent == id
        {
          if es[i].parent == id { found := true; }
        }
        if found && k.frame != id && k.frame in frames { children := children + {k.frame}; }
      }
    }

    method DeleteFrame(id: Id) returns (error: Option<StoreError>)
      modifies this
      ensures match Removed(old(Now()), id)
              case Ok(next) => error == None && Now() == next
              case Err(e) => error == Some(e) && Now() == old(Now())
    {
      hide KeptEdges;
      if id !in frames { return Some(NotFound); }
      var f := frames[id];
      frames := frames - {id};
      names := names - {FrameKey(f.org, f.name)};
      grants := grants - {id};
      DropVersions(id);
      DetachEdges(id);
      return None;
    }

    method DropVersions(id: Id)
      modifies `versions
      ensures versions == map k | k in old(versions) && k.frame != id :: old(versions)[k]
    {
      ghost var before := versions;
      var left := versions.Keys;
      while left != {}
        invariant left <= before.Keys
        invariant versions == map k | k in before && (k in left || k.frame != id) :: before[k]
      {
        var k :| k in left;
        left := left - {k};
        if k.frame == id { versions := versions - {k}; }
      }
    }

    method DetachEdges(id: Id)
      modifies `versions
      ensures versions == map k | k in old(versions) :: Detached(old(versions)[k], id)
    {
      ghost var before := versions;
      var left := versions.Keys;
      while left != {}
        invariant left <= before.Keys == versions.Keys
        invariant forall k | k in before :: versions[k] == if k in left then before[k] else Detached(before[k], id)
      {
        var k :| k in left;
        left := left - {k};
        var kept := FilterEdges(versions[k].parents, id);
        versions := versions[k := versions[k].(parents := kept)];
      }
    }

    method ResolveEdges(c: Caller, slug: string, refs: seq<ExtendRef>)
      returns (r: Result<seq<ParentEdge>, PublishError>)
      ensures r == EdgesOf(Now(), c, slug, refs)
    {
      var out := [];
      assert refs[..0] == [];
      for i := 0 to |refs|
        invariant EdgesOf(Now(), c, slug, refs[..i]) == Ok(out)
      {
        assert refs[..i + 1][..i] == refs[..i];
        var (org, name) := SplitRef(refs[i].ref, slug);
        var found := GetFrameBySlugName(org, name);
        if found.Some? {
          var ok := Allowed(c, found.value, Read);
          if !ok { found := None; }
        }
        if found == None {
          EdgesFail(Now(), c, slug, refs, i);
          return Err(ParentNotFound(i));
        }
        out := out + [ParentEdge(found.value, refs[i].version, i)];
      }
      assert refs[..|refs|] == refs;
      return Ok(out);
    }

    method ResolveExcludes(c: Caller, slug: string, refs: seq<string>) returns (r: Result<seq<Id>, PublishError>)
      ensures r == ExcludedOf(Now(), c, slug, refs)
    {
      var out := [];
      assert refs[..0] == [];
      for i := 0 to |refs|
        invariant ExcludedOf(Now(), c, slug, refs[..i]) == Ok(out)
      {
        assert refs[..i + 1][..i] == refs[..i];
        var (org, name) := SplitRef(refs[i], slug);
        var found := GetFrameBySlugName(org, name);
        if found.Some? {
          var ok := Allowed(c, found.value, Read);
          if !ok { found := None; }
        }
        if found == None {
          ExcludesFail(Now(), c, slug, refs, i);
          return Err(ExcludeNotFound(i));
        }
        out := out + [found.value];
      }
      assert refs[..|refs|] == refs;
      return Ok(out);
    }

    method Publish(c: Caller, req: PublishRequest) returns (r: Result<VersionKey, PublishError>)
      modifies this
      ensures Outcome(Now(), r) == Published(old(Now()), c, req)
    {
      hide Can, Lookup, EdgesOf, ExcludedOf, Inserted, Valid, MissingSlots, Compare;
      if c.role == Viewer { return Err(PermissionDenied); }
      var errs := Validate.Validate(req.doc);
      var missing: seq<SlotKey> := [];
      if req.template.Some? { missing := Templates.Check(SLOT_TABLE, req.template.value, req.doc.slots); }
      assert missing == MissingSlots(req) by { MissingIs(req); }
      if errs != [] || missing != [] { return Err(InvalidDocument); }
      if req.size > MAX_CONTENT_BYTES { return Err(TooLarge); }
      if c.org !in slugs { return Err(UnknownOrg); }
      var slug := slugs[c.org];
      var found := GetFrameBySlugName(slug, req.doc.name);
      if found == None && req.intent == Update { return Err(NoSuchFrame); }
      if found.Some? && req.intent == Create { return Err(NameTaken); }
      var row := FrameRow(c.org, req.doc.name, req.doc.description, c.sub, req.doc.version);
      if found.Some? && found.value in frames {
        var existing := frames[found.value];
        var allowed := Allowed(c, found.value, Edit);
        if !allowed { return Err(EditDenied); }
        if req.base != "" && existing.latest != req.base { return Err(MovedOn(existing.latest)); }
        var cmp := CompareVersions(req.doc.version, existing.latest);
        if cmp.Some? && cmp.value < 0 { return Err(NotHigher(existing.latest)); }
        row := existing.(description := req.doc.description);
        row := row.(latest := req.doc.version);
      }
      var edges := ResolveEdges(c, slug, req.doc.extends_);
      if edges.Err? { return Err(edges.error); }
      var excluded := ResolveExcludes(c, slug, req.doc.excludes);
      if excluded.Err? { return Err(excluded.error); }
      var n := Insert(if found.Some? then found.value else req.newId, row, req.doc.version,
                      VersionRow(req.doc, req.changelog, c.sub, edges.value, excluded.value),
                      found == None, DefaultGrants(c.sub, c.org));
      assert InsertFor(Now(), c, req) == Ok(n);
      var error := CreateFrameVersion(n);
      if error.Some? { return Err(if error.value == AlreadyExists then VersionExists else Internal); }
      return Ok(VersionKey(n.id, n.version));
    }

    method UpdateFrame(c: Caller, p: Patch, size: nat) returns (r: Result<VersionKey, PublishError>)
      modifies this
      ensures Outcome(Now(), r) == Updated(old(Now()), c, p, size)
    {
      hide Published, Can, Patched;
      if p.base == "" { return Err(BaseRequired); }
      if c.org !in slugs { return Err(UnknownOrg); }
      var found := GetFrameBySlugName(slugs[c.org], p.name);
      if found == None { return Err(NoSuchFrame); }
      var allowed := Allowed(c, found.value, Read);
      if !allowed { return Err(NoSuchFrame); }
      CanFrame(Now(), c, found.value, Read);
      var key := VersionKey(found.value, frames[found.value].latest);
      if key !in versions { return Err(NoSuchFrame); }
      var doc := ApplyTo(p, versions[key].doc);
      r := Publish(c, PublishRequest(doc, p.changelog, Update, p.base, None, size, ""));
    }

    method RemoveFrame(c: Caller, slug: string, name: string, force: bool) returns (r: Result<VersionKey, PublishError>)
      modifies this
      ensures Outcome(Now(), r) == Deleted(old(Now()), c, slug, name, force)
    {
      hide Can, Children, Removed;
      var found := GetFrameBySlugName(slug, name);
      if found == None { return Err(NoSuchFrame); }
      var allowed := Allowed(c, found.value, Delete);
      if !allowed { return Err(NoSuchFrame); }
      var children := FrameChildren(found.value);
      if children != {} && !force { return Err(Blocked(children)); }
      var error := DeleteFrame(found.value);
      if error.Some? { return Err(NoSuchFrame); }
      return Ok(VersionKey(found.value, ""));
    }
  }

  lemma {:induction false} CanFrame(s: Store, c: Caller, id: Id, perm: Permission)
    requires Can(s, c, id, perm)
    ensures id in s.frames && s.frames[id].org == c.org
  {}

  lemma {:induction false} MissingIs(req: PublishRequest)
    ensures MissingSlots(req) ==
            if req.template.Some? then Templates.Missing(SLOT_TABLE, 0, req.template.value, req.doc.slots) else []
  {}

  lemma {:induction false} EdgesFail(s: Store, c: Caller, slug: string, refs: seq<ExtendRef>, i: nat)
    requires i < |refs| && EdgesOf(s, c, slug, refs[..i]).Ok? && Readable(s, c, slug, refs[i].ref) == None
    ensures EdgesOf(s, c, slug, refs) == Err(ParentNotFound(i))
    decreases |refs|
  {
    hide Readable;
    var n := |refs| - 1;
    if i < n {
      assert refs[..n][..i] == refs[..i];
      EdgesFail(s, c, slug, refs[..n], i);
    }
  }

  lemma {:induction false} ExcludesFail(s: Store, c: Caller, slug: string, refs: seq<string>, i: nat)
    requires i < |refs| && ExcludedOf(s, c, slug, refs[..i]).Ok? && Readable(s, c, slug, refs[i]) == None
    ensures ExcludedOf(s, c, slug, refs) == Err(ExcludeNotFound(i))
    decreases |refs|
  {
    hide Readable;
    var n := |refs| - 1;
    if i < n {
      assert refs[..n][..i] == refs[..i];
      ExcludesFail(s, c, slug, refs[..n], i);
    }
  }

  method FilterEdges(es: seq<ParentEdge>, id: Id) returns (kept: seq<ParentEdge>)
    ensures kept == KeptEdges(es, id)
  {
    kept := [];
    assert es[..0] == [];
    for i := 0 to |es|
      invariant kept == KeptEdges(es[..i], id)
    {
      assert es[..i + 1][..i] == es[..i];
      if es[i].parent != id { kept := kept + [es[i]]; }
    }
    assert es[..|es|] == es;
  }

  /** setString: a field left out of the request keeps its value. */
  method SetString(dst: string, src: Option<string>) returns (r: string)
    ensures r == Or(src, dst)
  {
    r := dst;
    if src.Some? { r := src.value; }
  }

  method ApplyProse(p: Patch, base: Slots) returns (s: Slots)
    ensures s == PatchedSlots(p, base).(terminology := base.terminology, rules := base.rules,
                                        skills := base.skills, prompts := base.prompts)
  {
    var toolSpecs := SetString(base.toolSpecs, p.toolSpecs);
    var goals := SetString(base.goals, p.goals);
    var style := SetString(base.style, p.style);
    var norms := SetString(base.norms, p.norms);
    var architecture := SetString(base.architecture, p.architecture);
    var businessProcess := SetString(base.businessProcess, p.businessProcess);
    s := base.(toolSpecs := toolSpecs, goals := goals, style := style, norms := norms,
               architecture := architecture, businessProcess := businessProcess);
  }

  method ApplyLists(p: Patch, base: Slots) returns (s: Slots)
    ensures s == base.(terminology := Or(p.terminology, base.terminology), rules := Or(p.rules, base.rules),
                       skills := Or(p.skills, base.skills), prompts := Or(p.prompts, base.prompts))
  {
    s := base;
    if p.rules.Some? { s := s.(rules := p.rules.value); }
    if p.skills.Some? { s := s.(skills := p.skills.value); }
    if p.prompts.Some? { s := s.(prompts := p.prompts.value); }
    if p.terminology.Some? { s := s.(terminology := p.terminology.value); }
  }

  /** applyTo: the supplied fields laid over a copy of the base. */
  method ApplyTo(p: Patch, base: Doc) returns (d: Doc)
    ensures d == Patched(p, base)
  {
    hide Or;
    var description := SetString(base.description, p.description);
    var visibility := SetString(base.visibility, p.visibility);
    var scope := SetString(base.scope, p.scope);
    var maintainer := SetString(base.maintainer, p.maintainer);
    var prose := ApplyProse(p, base.slots);
    var slots := ApplyLists(p, prose);
    d := base.(name := p.name, version := p.version, description := description, visibility := visibility,
               scope := scope, maintainer := maintainer, slots := slots);
    d := d.(extends_ := if p.extends_.Some? then p.extends_.value else d.extends_);
    d := d.(excludes := if p.excludes.Some? then p.excludes.value else d.excludes);
    OrCases(p.extends_, base.extends_);
    OrCases(p.excludes, base.excludes);
  }

  lemma {:induction false} OrCases<T>(given: Option<T>, current: T)
    ensures Or(given, current) == if given.Some? then given.value else current
  {}
}
