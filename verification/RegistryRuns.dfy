/** Concrete runs of the registry on which a promise made in its comments fails. */
module RegistryRuns {
  import opened Text
  import opened Schema
  import opened Validate
  import opened Versions
  import opened Registry
  import opened RegistryLaws
  import opened EdgeLaws
  import opened Reading
  import Resolver

  // ---------------------------------------------------------------- accepted publishes

  /** The store after a first publish of doc under a new id. */
  function Added(s: Store, c: Caller, id: Id, doc: Doc, es: seq<ParentEdge>): Store {
    s.(frames := s.frames[id := FrameRow(c.org, doc.name, doc.description, c.sub, doc.version)],
       names := s.names[FrameKey(c.org, doc.name) := id],
       versions := s.versions[VersionKey(id, doc.version) := VersionRow(doc, "", c.sub, es, [])],
       grants := s.grants[id := DefaultGrants(c.sub, c.org)])
  }

  /** The store after a further version of frame id. */
  function Extended(s: Store, c: Caller, id: Id, doc: Doc, es: seq<ParentEdge>): Store
    requires id in s.frames
  {
    s.(frames := s.frames[id := s.frames[id].(description := doc.description, latest := doc.version)],
       versions := s.versions[VersionKey(id, doc.version) := VersionRow(doc, "", c.sub, es, [])])
  }

  function Ask(doc: Doc, newId: Id): PublishRequest { PublishRequest(doc, "", Upsert, "", None, 0, newId) }

  lemma {:induction false} AddAccepted(s: Store, c: Caller, doc: Doc, id: Id, es: seq<ParentEdge>)
    requires c.role != Viewer && Valid(doc) && doc.excludes == [] && c.org in s.slugs
    requires Lookup(s, s.slugs[c.org], doc.name) == None
    requires id !in s.frames && FrameKey(c.org, doc.name) !in s.names && VersionKey(id, doc.version) !in s.versions
    requires EdgesOf(s, c, s.slugs[c.org], doc.extends_) == Ok(es) && |es| <= 1
    ensures Published(s, c, Ask(doc, id)) == Outcome(Added(s, c, id, doc, es), Ok(VersionKey(id, doc.version)))
  {
    hide Valid, Lookup, EdgesOf, Can;
  }

  lemma {:induction false} ExtendAccepted(s: Store, c: Caller, doc: Doc, id: Id, es: seq<ParentEdge>, newId: Id)
    requires c.role != Viewer && Valid(doc) && doc.excludes == [] && c.org in s.slugs
    requires Lookup(s, s.slugs[c.org], doc.name) == Some(id) && id in s.frames && Can(s, c, id, Edit)
    requires !Lower(doc.version, s.frames[id].latest) && VersionKey(id, doc.version) !in s.versions
    requires EdgesOf(s, c, s.slugs[c.org], doc.extends_) == Ok(es) && |es| <= 1
    ensures Published(s, c, Ask(doc, newId)) == Outcome(Extended(s, c, id, doc, es), Ok(VersionKey(id, doc.version)))
  {
    hide Valid, Lookup, EdgesOf, Can, Compare;
  }

  // ---------------------------------------------------------------- the setting

  const ADMIN_CALLER := Caller("u", "o", Admin)
  const EMPTY := Empty(map["o" := "org"], map["org" := "o"])

  function Plain(name: string, version: string, parents: seq<ExtendRef>): Doc {
    Doc(name, "d", version, "", "", "", parents, [], EMPTY_SLOTS)
  }

  lemma {:induction false} PlainValid(name: string, version: string, parents: seq<ExtendRef>)
    requires name in ["a", "p", "c"] && version in ["1.0.0", "2.0.0", "draft"]
    requires forall p | p in parents :: p == ExtendRef("org/p", "1.0.0")
    ensures Valid(Plain(name, version, parents))
  {
    assert NameChar(name[0]);
    assert !IsSpace(version[0]);
    forall i | 0 <= i < |parents| ensures ParentOk(parents[i]) {
      assert parents[i] in parents;
      assert parents[i].ref[3] == '/' && parents[i].version[0] == '1';
    }
  }

  lemma {:induction false} RunOf(s: Store, calls: seq<Call>, call: Call)
    ensures After(s, calls + [call]) == Step(After(s, calls), call).store
  {
    assert (calls + [call])[..|calls|] == calls;
  }

  // ---------------------------------------------------------------- latest going backwards

  lemma {:induction false} Parses()
    ensures Parse("2.0.0") == Some(Triple(2, 0, 0)) && Parse("1.0.0") == Some(Triple(1, 0, 0)) && Parse("draft") == None
  {
    hide Parse, Atoi;
    NumberOf("0", 0);
    NumberOf("1", 1);
    NumberOf("2", 2);
    ParsesTo("2", "0", "0", 2, 0, 0);
    ParsesTo("1", "0", "0", 1, 0, 0);
    assert "2" + "." + "0" + "." + "0" == "2.0.0";
    assert "1" + "." + "0" + "." + "0" == "1.0.0";
    OnePart("draft");
  }

  lemma {:induction false} NumberOf(s: string, n: nat)
    requires s in ["0", "1", "2"] && n == if s == "0" then 0 else if s == "1" then 1 else 2
    ensures Atoi(s) == Some(n)
  {
    assert s[0] == '0' || s[0] == '1' || s[0] == '2';
    assert s[..0] == "" && Value("") == 0;
  }

  lemma {:induction false} OnePart(v: string)
    requires forall i | 0 <= i < |v| :: v[i] != '.'
    ensures Parse(v) == None
  {
    hide Atoi;
    PartsOne(v);
  }

  /** Validation does not enforce the shape of versions: a document whose version is not three numbers
      validates. */
  lemma {:induction false} DraftValidates()
    ensures Valid(Plain("a", "draft", [])) && Parse("draft") == None
  {
    PlainValid("a", "draft", []);
    Parses();
  }

  function Publish(doc: Doc, newId: Id): Call { Call(ADMIN_CALLER, DoPublish(Ask(doc, newId))) }

  function Older(): Store { Added(EMPTY, ADMIN_CALLER, "f", Plain("a", "2.0.0", []), []) }

  function Drafted(): Store
    requires "f" in Older().frames
  {
    Extended(Older(), ADMIN_CALLER, "f", Plain("a", "draft", []), [])
  }

  lemma {:induction false} PublishOlder()
    ensures "f" in Older().frames
    ensures Published(EMPTY, ADMIN_CALLER, Ask(Plain("a", "2.0.0", []), "f")) ==
            Outcome(Older(), Ok(VersionKey("f", "2.0.0")))
  {
    hide Valid, Published;
    PlainValid("a", "2.0.0", []);
    AddAccepted(EMPTY, ADMIN_CALLER, Plain("a", "2.0.0", []), "f", []);
  }

  lemma {:induction false} PublishDraft()
    requires "f" in Older().frames
    ensures Published(Older(), ADMIN_CALLER, Ask(Plain("a", "draft", []), "g")) ==
            Outcome(Drafted(), Ok(VersionKey("f", "draft")))
  {
    hide Valid, Published, Parse;
    PlainValid("a", "draft", []);
    Parses();
    VersionsDiffer();
    ExtendAccepted(Older(), ADMIN_CALLER, Plain("a", "draft", []), "f", [], "g");
  }

  lemma {:induction false} PublishLower()
    requires "f" in Older().frames
    ensures "f" in Drafted().frames
    ensures Published(Drafted(), ADMIN_CALLER, Ask(Plain("a", "1.0.0", []), "h")) ==
            Outcome(Extended(Drafted(), ADMIN_CALLER, "f", Plain("a", "1.0.0", []), []), Ok(VersionKey("f", "1.0.0")))
  {
    hide Valid, Published, Parse;
    PlainValid("a", "1.0.0", []);
    Parses();
    VersionsDiffer();
    ExtendAccepted(Drafted(), ADMIN_CALLER, Plain("a", "1.0.0", []), "f", [], "h");
  }

  /** Publishing 2.0.0, then "draft", then 1.0.0 is accepted at every step, and the latest version ends
      below a stored one. */
  lemma {:induction false} LatestGoesBack()
    ensures var calls := [Publish(Plain("a", "2.0.0", []), "f"), Publish(Plain("a", "draft", []), "g"),
                          Publish(Plain("a", "1.0.0", []), "h")];
            var t := After(EMPTY, calls);
            && (forall i | 0 <= i < 3 :: Step(At(EMPTY, calls, i), calls[i]).result.Ok?)
            && "f" in t.frames && t.frames["f"].latest == "1.0.0"
            && VersionKey("f", "2.0.0") in t.versions && Lower("1.0.0", "2.0.0")
  {
    hide Valid, Parse, After, Published, Plain, Older, Drafted, Extended;
    var a, b := Publish(Plain("a", "2.0.0", []), "f"), Publish(Plain("a", "draft", []), "g");
    var c := Publish(Plain("a", "1.0.0", []), "h");
    PublishOlder();
    PublishDraft();
    PublishLower();
    Parses();
    ThreeSteps(EMPTY, a, b, c);
    LowerStored();
  }

  lemma {:induction false} LowerStored()
    requires "f" in Older().frames && "f" in Drafted().frames
    ensures var t := Extended(Drafted(), ADMIN_CALLER, "f", Plain("a", "1.0.0", []), []);
            "f" in t.frames && t.frames["f"].latest == "1.0.0" && VersionKey("f", "2.0.0") in t.versions
  {
    VersionsDiffer();
  }

  lemma {:induction false} ThreeSteps(s: Store, a: Call, b: Call, c: Call)
    ensures var s1 := Step(s, a).store;
            var s2 := Step(s1, b).store;
            var calls := [a, b, c];
            && At(s, calls, 0) == s && At(s, calls, 1) == s1 && At(s, calls, 2) == s2
            && After(s, calls) == Step(s2, c).store
  {
    hide Step;
    RunStart(s);
    RunOf(s, [], a);
    RunOf(s, [a], b);
    RunOf(s, [a, b], c);
    assert [] + [a] == [a] && [a] + [b] == [a, b] && [a, b] + [c] == [a, b, c];
    assert [a, b, c][..0] == [] && [a, b, c][..1] == [a] && [a, b, c][..2] == [a, b];
  }

  lemma {:induction false} RunStart(s: Store)
    ensures After(s, []) == s
  {}

  lemma {:induction false} VersionsDiffer()
    ensures "2.0.0" != "draft" && "2.0.0" != "1.0.0" && "draft" != "1.0.0"
  {
    assert "2.0.0"[0] != "draft"[0] && "2.0.0"[0] != "1.0.0"[0] && "draft"[0] != "1.0.0"[0];
  }

  // ---------------------------------------------------------------- a guard that forgets

  const PIN := ExtendRef("org/p", "1.0.0")

  lemma {:induction false} PinSplits()
    ensures SplitRef(PIN.ref, "org") == ("org", "p")
  {
    var r := PIN.ref;
    assert FindSlash(r, 3) == 3 && FindSlash(r, 2) == 3 && FindSlash(r, 1) == 3 && FindSlash(r, 0) == 3;
    assert r[..3] == "org" && r[4..] == "p";
  }

  lemma {:induction false} NamesDiffer()
    ensures "p" != "c" && "p1" != "p2" && "p1" != "c1" && "p2" != "c1"
  {
    assert "p"[0] != "c"[0] && "p1"[1] != "p2"[1] && "p1"[0] != "c1"[0] && "p2"[0] != "c1"[0];
  }

  /** The store once the parent is deleted: the child is alone, its edge gone. */
  function Orphaned(): Store {
    Store(map["o" := "org"], map["org" := "o"],
          map["c1" := FrameRow("o", "c", "d", "u", "1.0.0")], map[FrameKey("o", "c") := "c1"],
          map[VersionKey("c1", "1.0.0") := VersionRow(Plain("c", "1.0.0", [PIN]), "", "u", [], [])],
          map["c1" := DefaultGrants("u", "o")])
  }

  /** The store after the parent is deleted by force and published again under its old name. */
  function Forgetful(): Store {
    var p, child := Plain("p", "1.0.0", []), Plain("c", "1.0.0", [PIN]);
    Store(map["o" := "org"], map["org" := "o"],
          map["c1" := FrameRow("o", "c", "d", "u", "1.0.0"), "p2" := FrameRow("o", "p", "d", "u", "1.0.0")],
          map[FrameKey("o", "c") := "c1", FrameKey("o", "p") := "p2"],
          map[VersionKey("c1", "1.0.0") := VersionRow(child, "", "u", [], []),
              VersionKey("p2", "1.0.0") := VersionRow(p, "", "u", [], [])],
          map["c1" := DefaultGrants("u", "o"), "p2" := DefaultGrants("u", "o")])
  }

  /** The parent published, then its child. */
  function Parented(): Store { Added(EMPTY, ADMIN_CALLER, "p1", Plain("p", "1.0.0", []), []) }

  function Extending(): Store {
    Added(Parented(), ADMIN_CALLER, "c1", Plain("c", "1.0.0", [PIN]), [ParentEdge("p1", "1.0.0", 0)])
  }

  lemma {:induction false} PublishParent()
    ensures Published(EMPTY, ADMIN_CALLER, Ask(Plain("p", "1.0.0", []), "p1")) ==
            Outcome(Parented(), Ok(VersionKey("p1", "1.0.0")))
  {
    hide Valid, Published;
    PlainValid("p", "1.0.0", []);
    AddAccepted(EMPTY, ADMIN_CALLER, Plain("p", "1.0.0", []), "p1", []);
  }

  /** A frame may extend an earlier version of itself: both publishes are accepted, the stored edge leads
      from the frame to itself, and the delete guard does not count it. */
  lemma {:induction false} SelfExtends()
    ensures var calls := [Publish(Plain("p", "1.0.0", []), "p1"), Publish(Plain("p", "2.0.0", [PIN]), "q")];
            var t, k := After(EMPTY, calls), VersionKey("p1", "2.0.0");
            && (forall i | 0 <= i < 2 :: Step(At(EMPTY, calls, i), calls[i]).result.Ok?)
            && k in t.versions && t.versions[k].parents == [ParentEdge("p1", "1.0.0", 0)]
            && Children(t, "p1") == {}
  {
    hide Valid, Parse, After, Published, Plain, Parented, Extended, Children;
    var a, b := Publish(Plain("p", "1.0.0", []), "p1"), Publish(Plain("p", "2.0.0", [PIN]), "q");
    PublishParent();
    PublishOnItself();
    RunStart(EMPTY);
    RunOf(EMPTY, [], a);
    RunOf(EMPTY, [a], b);
    assert [] + [a] == [a] && [a] + [b] == [a, b] && [a, b][..0] == [] && [a, b][..1] == [a];
    SelfEdge();
  }

  lemma {:induction false} PublishOnItself()
    ensures "p1" in Parented().frames
    ensures var doc, es := Plain("p", "2.0.0", [PIN]), [ParentEdge("p1", "1.0.0", 0)];
            Published(Parented(), ADMIN_CALLER, Ask(doc, "q")) ==
            Outcome(Extended(Parented(), ADMIN_CALLER, "p1", doc, es), Ok(VersionKey("p1", "2.0.0")))
  {
    hide Valid, Published, Parse;
    PlainValid("p", "2.0.0", [PIN]);
    Parses();
    VersionsDiffer();
    ChildEdges(Parented());
    ExtendAccepted(Parented(), ADMIN_CALLER, Plain("p", "2.0.0", [PIN]), "p1", [ParentEdge("p1", "1.0.0", 0)], "q");
  }

  lemma {:induction false} SelfEdge()
    requires "p1" in Parented().frames
    ensures var es := [ParentEdge("p1", "1.0.0", 0)];
            var t := Extended(Parented(), ADMIN_CALLER, "p1", Plain("p", "2.0.0", [PIN]), es);
            var k := VersionKey("p1", "2.0.0");
            k in t.versions && t.versions[k].parents == es && Children(t, "p1") == {}
  {}

  lemma {:induction false} PublishChild()
    ensures Published(Parented(), ADMIN_CALLER, Ask(Plain("c", "1.0.0", [PIN]), "c1")).store == Extending()
  {
    hide Valid, Published;
    PlainValid("c", "1.0.0", [PIN]);
    NamesDiffer();
    ChildEdges(Parented());
    AddAccepted(Parented(), ADMIN_CALLER, Plain("c", "1.0.0", [PIN]), "c1", [ParentEdge("p1", "1.0.0", 0)]);
  }

  lemma {:induction false} PublishAgain()
    ensures Published(Orphaned(), ADMIN_CALLER, Ask(Plain("p", "1.0.0", []), "p2")).store == Forgetful()
  {
    hide Valid, Published;
    PlainValid("p", "1.0.0", []);
    NamesDiffer();
    AddAccepted(Orphaned(), ADMIN_CALLER, Plain("p", "1.0.0", []), "p2", []);
    assert Added(Orphaned(), ADMIN_CALLER, "p2", Plain("p", "1.0.0", []), []) == Forgetful();
  }

  lemma {:induction false} ForcedRun()
    ensures var calls := [Publish(Plain("p", "1.0.0", []), "p1"), Publish(Plain("c", "1.0.0", [PIN]), "c1"),
                          Call(ADMIN_CALLER, DoDelete("org", "p", true)), Publish(Plain("p", "1.0.0", []), "p2")];
            After(EMPTY, calls) == Forgetful()
  {
    hide After, Published, Deleted, Plain, Parented, Extending, Forgetful, Orphaned;
    var a, b := Publish(Plain("p", "1.0.0", []), "p1"), Publish(Plain("c", "1.0.0", [PIN]), "c1");
    var d, e := Call(ADMIN_CALLER, DoDelete("org", "p", true)), Publish(Plain("p", "1.0.0", []), "p2");
    PublishParent();
    PublishChild();
    ForcedDelete();
    PublishAgain();
    ThreeSteps(EMPTY, a, b, d);
    RunOf(EMPTY, [a, b, d], e);
    assert [a, b, d] + [e] == [a, b, d, e];
  }

  lemma {:induction false} ChildEdges(s: Store)
    requires s == Added(EMPTY, ADMIN_CALLER, "p1", Plain("p", "1.0.0", []), [])
    ensures EdgesOf(s, ADMIN_CALLER, "org", [PIN]) == Ok([ParentEdge("p1", "1.0.0", 0)])
  {
    hide SplitRef;
    PinSplits();
    assert Lookup(s, "org", "p") == Some("p1") && Can(s, ADMIN_CALLER, "p1", Read);
    assert Readable(s, ADMIN_CALLER, "org", PIN.ref) == Some("p1");
    OneEdge(s, ADMIN_CALLER, "org", PIN, "p1");
  }

  lemma {:induction false} OneEdge(s: Store, c: Caller, slug: string, p: ExtendRef, id: Id)
    requires Readable(s, c, slug, p.ref) == Some(id)
    ensures EdgesOf(s, c, slug, [p]) == Ok([ParentEdge(id, p.version, 0)])
  {
    hide Readable;
    var refs := [p];
    assert refs[..0] == [] && refs[0] == p;
    assert EdgesOf(s, c, slug, refs[..0]) == Ok([]);
    assert [] + [ParentEdge(id, p.version, 0)] == [ParentEdge(id, p.version, 0)];
  }

  lemma {:induction false} ForcedDelete()
    ensures Deleted(Extending(), ADMIN_CALLER, "org", "p", true).store == Orphaned()
  {
    NamesDiffer();
    var s := Extending();
    assert Lookup(s, "org", "p") == Some("p1") && Can(s, ADMIN_CALLER, "p1", Delete);
    RemovesParent();
    hide Removed, Children, Lookup, Can, Extending, Orphaned;
    assert Deleted(s, ADMIN_CALLER, "org", "p", true).store == Removed(s, "p1").value;
  }

  /** A store of two frames, each with one version. */
  function TwoFrames(a: Id, f: FrameRow, v: VersionRow, b: Id, g: FrameRow, w: VersionRow): Store {
    Store(map["o" := "org"], map["org" := "o"], map[a := f, b := g], map[KeyOf(f) := a, KeyOf(g) := b],
          map[VersionKey(a, f.latest) := v, VersionKey(b, g.latest) := w],
          map[a := DefaultGrants("u", "o"), b := DefaultGrants("u", "o")])
  }

  function OneFrame(a: Id, f: FrameRow, v: VersionRow): Store {
    Store(map["o" := "org"], map["org" := "o"], map[a := f], map[KeyOf(f) := a], map[VersionKey(a, f.latest) := v],
          map[a := DefaultGrants("u", "o")])
  }

  lemma {:induction false} DropSecond<K, V>(a: K, x: V, b: K, y: V)
    requires a != b
    ensures map[a := x, b := y] - {b} == map[a := x]
  {}

  lemma {:induction false} SwapTwo<K, V>(a: K, x: V, b: K, y: V)
    requires a != b
    ensures map[][a := x][b := y] == map[b := y, a := x]
  {}

  lemma {:induction false} DropVersion(a: VersionKey, v: VersionRow, b: VersionKey, w: VersionRow)
    requires a.frame != b.frame
    ensures var vs := map[a := v, b := w];
            (map k | k in vs && k.frame != b.frame :: Detached(vs[k], b.frame)) == map[a := Detached(v, b.frame)]
  {
    hide Detached;
  }

  lemma {:induction false} RemoveSecond(a: Id, f: FrameRow, v: VersionRow, b: Id, g: FrameRow, w: VersionRow)
    requires a != b && KeyOf(f) != KeyOf(g)
    ensures Removed(TwoFrames(a, f, v, b, g, w), b) == Ok(OneFrame(a, f, Detached(v, b)))
  {
    hide Detached, DefaultGrants;
    DropSecond(a, f, b, g);
    DropSecond(KeyOf(f), a, KeyOf(g), b);
    DropSecond(a, DefaultGrants("u", "o"), b, DefaultGrants("u", "o"));
    DropVersion(VersionKey(a, f.latest), v, VersionKey(b, g.latest), w);
    RemovedTables(TwoFrames(a, f, v, b, g, w), b);
  }

  lemma {:induction false} RemovedTables(s: Store, id: Id)
    requires id in s.frames
    ensures Removed(s, id) ==
            Ok(s.(frames := s.frames - {id}, names := s.names - {KeyOf(s.frames[id])},
                  versions := map k | k in s.versions && k.frame != id :: Detached(s.versions[k], id),
                  grants := s.grants - {id}))
  {
    hide Detached;
  }

  lemma {:induction false} RemovesParent()
    ensures Removed(Extending(), "p1") == Ok(Orphaned())
  {
    NamesDiffer();
    var f, g := FrameRow("o", "c", "d", "u", "1.0.0"), FrameRow("o", "p", "d", "u", "1.0.0");
    var v := VersionRow(Plain("c", "1.0.0", [PIN]), "", "u", [ParentEdge("p1", "1.0.0", 0)], []);
    var w := VersionRow(Plain("p", "1.0.0", []), "", "u", [], []);
    RemoveSecond("c1", f, v, "p1", g, w);
    EdgeGoes(ParentEdge("p1", "1.0.0", 0));
    hide KeptEdges, DefaultGrants, Removed;
    SwapTwo("p1", g, "c1", f);
    SwapTwo(KeyOf(g), "p1", KeyOf(f), "c1");
    SwapTwo(VersionKey("p1", "1.0.0"), w, VersionKey("c1", "1.0.0"), v);
    SwapTwo("p1", DefaultGrants("u", "o"), "c1", DefaultGrants("u", "o"));
    assert Extending() == TwoFrames("c1", f, v, "p1", g, w);
  }

  lemma {:induction false} EdgeGoes(edge: ParentEdge)
    ensures KeptEdges([edge], edge.parent) == []
  {
    assert [edge][..0] == [];
  }

  /** After a forced delete and a publish under the same name, the child's edge is gone but its
      reference resolves to the new parent: an unforced delete of that parent is accepted, and the
      child no longer resolves. */
  lemma {:induction false} ForcedDeleteDisarmsGuard()
    ensures var t, c := Forgetful(), ADMIN_CALLER;
            var after := Deleted(t, c, "org", "p", false);
            && Children(t, "p2") == {} && after.result.Ok? && !Wired(t)
            && ResolvedDoc(t, c, "org", "c", "1.0.0").Ok?
            && ResolvedDoc(after.store, c, "org", "c", "1.0.0") == Err(NoFrame)
  {
    hide Resolver.Resolved, Wired, Fetchable, Pins, ResolvedDoc, Deleted, Children;
    var t, c := Forgetful(), ADMIN_CALLER;
    DeleteAgain();
    assert !Wired(t) by { NotWired(); }
    ChildResolves();
    ChildBreaks();
  }

  lemma {:induction false} NotWired()
    ensures !Wired(Forgetful())
  {
    hide EdgesMatch, SplitRef, Lookup;
    var t := Forgetful();
    var k := VersionKey("c1", "1.0.0");
    NamesDiffer();
    if Wired(t) {
      assert RowWired(t, "o", t.versions[k]);
      EdgesCount(t, "org", [PIN], []);
    }
  }

  lemma {:induction false} EdgesCount(s: Store, slug: string, refs: seq<ExtendRef>, es: seq<ParentEdge>)
    requires |refs| != |es|
    ensures !EdgesMatch(s, slug, refs, es)
  {}

  lemma {:induction false} ChildResolves()
    ensures ResolvedDoc(Forgetful(), ADMIN_CALLER, "org", "c", "1.0.0").Ok?
  {
    hide Resolver.Resolved, Fetchable, ResolvedDoc, Pins;
    var t, c := Forgetful(), ADMIN_CALLER;
    NamesDiffer();
    PinSplits();
    var doc := Plain("c", "1.0.0", [PIN]);
    assert Loaded(t, c, "org", "c", "1.0.0") == Some(doc);
    assert FetchParent(t, c, "org", PIN) == Some(Plain("p", "1.0.0", []));
    forall chain | Way(t, c, "org", [PIN], {}, chain) ensures WayClear(t, c, "org", chain) {
      ShortWay(t, c, chain);
    }
    assert Resolver.Elements([]) == {};
    assert AllWaysClear(t, c, "org", [PIN], {});
    ReadResolvesIff(t, c, "org", "c", "1.0.0");
  }

  lemma {:induction false} ShortWay(t: Store, c: Caller, chain: seq<ExtendRef>)
    requires FetchParent(t, c, "org", PIN) == Some(Plain("p", "1.0.0", [])) && Way(t, c, "org", [PIN], {}, chain)
    ensures WayClear(t, c, "org", chain)
  {
    hide FetchParent;
    if |chain| > 1 {
      NoWayUp(t, c, "org", {} + Resolver.Elements([]), chain[1..]);
      assert false;
    }
  }

  lemma {:induction false} NoWayUp(t: Store, c: Caller, slug: string, excl: set<string>, chain: seq<ExtendRef>)
    requires Way(t, c, slug, [], excl, chain)
    ensures chain == []
  {}

  lemma {:induction false} ChildBreaks()
    ensures var after := Deleted(Forgetful(), ADMIN_CALLER, "org", "p", false).store;
            ResolvedDoc(after, ADMIN_CALLER, "org", "c", "1.0.0") == Err(NoFrame)
  {
    hide Deleted, Forgetful, Orphaned, ResolvedDoc;
    DeleteAgain();
    OrphanBreaks();
  }

  lemma {:induction false} OrphanBreaks()
    ensures ResolvedDoc(Orphaned(), ADMIN_CALLER, "org", "c", "1.0.0") == Err(NoFrame)
  {
    hide Fetchable, Pins, Resolver.Walk, Resolver.WalkOne, DefaultGrants;
    var u, c := Orphaned(), ADMIN_CALLER;
    assert Loaded(u, c, "org", "c", "1.0.0") == Some(Plain("c", "1.0.0", [PIN]));
    PinIsGone();
    DeadEnd(Fetchable(u, c, "org"), Resolver.Place({}, {}, ["c"]));
    assert Resolver.Elements([]) == {};
  }

  lemma {:induction false} DeleteAgain()
    ensures Children(Forgetful(), "p2") == {}
    ensures Deleted(Forgetful(), ADMIN_CALLER, "org", "p", false) == Outcome(Orphaned(), Ok(VersionKey("p2", "")))
  {
    NamesDiffer();
    var t := Forgetful();
    assert Children(t, "p2") == {};
    hide Removed, Children;
    RemovesAgain();
  }

  lemma {:induction false} RemovesAgain()
    ensures Removed(Forgetful(), "p2") == Ok(Orphaned())
  {
    NamesDiffer();
    var f, g := FrameRow("o", "c", "d", "u", "1.0.0"), FrameRow("o", "p", "d", "u", "1.0.0");
    var v := VersionRow(Plain("c", "1.0.0", [PIN]), "", "u", [], []);
    var w := VersionRow(Plain("p", "1.0.0", []), "", "u", [], []);
    RemoveSecond("c1", f, v, "p2", g, w);
    assert KeptEdges([], "p2") == [];
    hide KeptEdges, DefaultGrants, Removed;
    assert Forgetful() == TwoFrames("c1", f, v, "p2", g, w);
  }

  lemma {:induction false} PinIsGone()
    ensures PIN !in Fetchable(Orphaned(), ADMIN_CALLER, "org")
  {
    NamesDiffer();
    PinSplits();
    assert FetchParent(Orphaned(), ADMIN_CALLER, "org", PIN) == None;
  }

  lemma {:induction false} DeadEnd(g: Resolver.Graph, at: Resolver.Place)
    requires PIN !in g && at.excl == {} && at.visiting == {}
    ensures Resolver.Walk(g, [PIN], at) == Err(Resolver.Unfetchable(Resolver.Key(PIN)))
  {
    Resolver.WalkOneCases(g, PIN, at);
  }
}
