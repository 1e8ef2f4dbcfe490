/** Frame inheritance: the depth-first walk over pinned parents, with its one accumulator. */
module Resolver {
  import opened Text
  import opened Schema
  import opened Merge

  /** The frame versions a caller can fetch; it may contain cycles and dangling parents. */
  type Graph = map<ExtendRef, Doc>

  datatype Fault = Cycle(path: seq<string>) | Unfetchable(key: string)

  function Key(p: ExtendRef): string { p.ref + "@" + p.version }

  function Keys(g: Graph): set<string> { set p | p in g :: Key(p) }

  function Elements(s: seq<string>): set<string> { set x | x in s }

  /** What the walk is to fetch next: the graph, the excludes in force, the keys being visited
      and the refs on the way down. */
  datatype Place = Place(excl: set<string>, visiting: set<string>, path: seq<string>)
  {
    /** The place of the parents of p, whose document is d. */
    function Below(p: ExtendRef, d: Doc): Place {
      Place(excl + Elements(d.excludes), visiting + {Key(p)}, path + [p.ref])
    }
  }

  type Walked = Result<seq<Slots>, Fault>

  function Then(a: Walked, b: Walked): Walked {
    if a.Err? then a else if b.Err? then b else Ok(a.value + b.value)
  }

  /** The slots met by walking the parents in order, every frame after its own ancestors. */
  function Walk(g: Graph, parents: seq<ExtendRef>, at: Place): Walked
    decreases Keys(g) - at.visiting, 1 + |parents|
  {
    if parents == [] then Ok([]) else Then(WalkOne(g, parents[0], at), Walk(g, parents[1..], at))
  }

  function WalkOne(g: Graph, p: ExtendRef, at: Place): Walked
    decreases Keys(g) - at.visiting, 0
  {
    if p.ref in at.excl then Ok([])
    else if Key(p) in at.visiting then Err(Cycle(at.path + [p.ref]))
    else if p !in g then Err(Unfetchable(Key(p)))
    else
      KeyIn(g, p);
      Then(Walk(g, g[p].extends_, at.Below(p, g[p])), Ok([g[p].slots]))
  }

  lemma {:induction false} KeyIn(g: Graph, p: ExtendRef)
    requires p in g
    ensures Key(p) in Keys(g)
  {}

  lemma {:induction false} ThenAssoc(a: Walked, b: Walked, c: Walked)
    ensures Then(Then(a, b), c) == Then(a, Then(b, c))
  {
    if a.Ok? && b.Ok? && c.Ok? { Assoc(a.value, b.value, c.value); }
  }

  /** The mutable part of one resolution. */
  class Resolution {
    var acc: Slots
    var visiting: set<string>

    constructor ()
      ensures acc == EMPTY_SLOTS && visiting == {}
    {
      acc := EMPTY_SLOTS;
      visiting := {};
    }

    method MergeInto(src: Slots)
      modifies `acc
      ensures acc == MergeSlots(old(acc), src)
    {
      var terms := MergeTerms(acc.terminology, src.terminology);
      var rules := MergeStrings(acc.rules, src.rules);
      var skills := MergeStrings(acc.skills, src.skills);
      var prompts := MergeStrings(acc.prompts, src.prompts);
      acc := acc.(terminology := terms);
      acc := acc.(rules := rules);
      acc := acc.(skills := skills);
      acc := acc.(prompts := prompts);
      acc := acc.(toolSpecs := ReplaceIfSet(acc.toolSpecs, src.toolSpecs));
      acc := acc.(goals := ReplaceIfSet(acc.goals, src.goals));
      acc := acc.(style := ReplaceIfSet(acc.style, src.style));
      acc := acc.(norms := ReplaceIfSet(acc.norms, src.norms));
      acc := acc.(architecture := ReplaceIfSet(acc.architecture, src.architecture));
      acc := acc.(businessProcess := ReplaceIfSet(acc.businessProcess, src.businessProcess));
    }

    /** Merges the parents' ancestors and then the parents onto acc, in order. The keys being
        visited are restored on success. */
    method MergeParents(g: Graph, parents: seq<ExtendRef>, excl: set<string>, path: seq<string>)
      returns (fault: Option<Fault>)
      modifies this
      ensures match Walk(g, parents, Place(excl, old(visiting), path))
              case Ok(docs) => fault == None && visiting == old(visiting) && acc == MergeAll(old(acc), docs)
              case Err(f) => fault == Some(f)
      decreases Keys(g) - visiting
    {
      hide Walk, WalkOne, MergeSlots, MergeAll;
      ghost var at := Place(excl, visiting, path);
      ghost var start, done := acc, [];
      WalkNone(g, at);
      MergeNone(acc);
      assert parents[0..] == parents;
      for i := 0 to |parents|
        invariant visiting == at.visiting && acc == MergeAll(start, done)
        invariant Walk(g, parents, at) == Then(Ok(done), Walk(g, parents[i..], at))
      {
        var p := parents[i];
        WalkNext(g, parents, i, at, done);
        WalkOneCases(g, p, at);
        if p.ref in excl { continue; }
        var key := Key(p);
        if key in visiting { return Some(Cycle(path + [p.ref])); }
        if p !in g { return Some(Unfetchable(key)); }
        var pdoc := g[p];
        KeyIn(g, p);
        visiting := visiting + {key};
        ghost var before := acc;
        fault := MergeParents(g, pdoc.extends_, excl + Elements(pdoc.excludes), path + [p.ref]);
        if fault.Some? { return; }
        ghost var above := Walk(g, pdoc.extends_, at.Below(p, pdoc)).value;
        MergeInto(pdoc.slots);
        visiting := visiting - {key};
        MergeMore(start, done, above, pdoc.slots);
        done := done + (above + [pdoc.slots]);
      }
      assert parents[|parents|..] == [];
      fault := None;
    }
  }

  lemma {:induction false} WalkNone(g: Graph, at: Place)
    ensures Walk(g, [], at) == Ok([])
    ensures forall r: Walked :: Then(Ok([]), r) == r
    ensures forall done: seq<Slots> :: Then(Ok(done), Ok([])) == Ok(done)
  {
    assert forall x: seq<Slots> :: [] + x == x && x + [] == x;
  }

  lemma {:induction false} MergeNone(acc: Slots)
    ensures MergeAll(acc, []) == acc
  {}

  lemma {:induction false} WalkOneCases(g: Graph, p: ExtendRef, at: Place)
    ensures WalkOne(g, p, at) ==
            if p.ref in at.excl then Ok([])
            else if Key(p) in at.visiting then Err(Cycle(at.path + [p.ref]))
            else if p !in g then Err(Unfetchable(Key(p)))
            else Then(Walk(g, g[p].extends_, at.Below(p, g[p])), Ok([g[p].slots]))
  {}

  lemma {:induction false} WalkNext(g: Graph, parents: seq<ExtendRef>, i: nat, at: Place, done: seq<Slots>)
    requires i < |parents|
    ensures Then(Ok(done), Walk(g, parents[i..], at)) ==
            Then(Then(Ok(done), WalkOne(g, parents[i], at)), Walk(g, parents[i + 1..], at))
  {
    assert parents[i..][0] == parents[i] && parents[i..][1..] == parents[i + 1..];
    ThenAssoc(Ok(done), WalkOne(g, parents[i], at), Walk(g, parents[i + 1..], at));
  }

  lemma {:induction false} MergeMore(start: Slots, done: seq<Slots>, above: seq<Slots>, own: Slots)
    ensures MergeSlots(MergeAll(MergeAll(start, done), above), own) == MergeAll(start, done + (above + [own]))
  {
    hide MergeSlots;
    MergeAllConcat(start, done, above + [own]);
    MergeAllConcat(MergeAll(start, done), above, [own]);
    assert [own][1..] == [];
  }

  /** The document with the slots of all its ancestors merged under its own. */
  function Resolved(g: Graph, doc: Doc, parents: seq<ExtendRef>, excludes: seq<string>): Result<Doc, Fault> {
    match Walk(g, parents, Place(Elements(excludes), {}, [doc.name]))
    case Err(f) => Err(f)
    case Ok(docs) => Ok(Carried(doc, MergeSlots(MergeAll(EMPTY_SLOTS, docs), doc.slots)))
  }

  /** The document's own metadata, which is never inherited, around resolved slots. */
  function Carried(doc: Doc, slots: Slots): Doc {
    Doc(doc.name, doc.description, doc.version, doc.visibility, doc.scope, doc.maintainer, [], [], slots)
  }

  method Resolve(g: Graph, doc: Doc, parents: seq<ExtendRef>, excludes: seq<string>) returns (r: Result<Doc, Fault>)
    ensures r == Resolved(g, doc, parents, excludes)
  {
    var run := new Resolution();
    var fault := run.MergeParents(g, parents, Elements(excludes), [doc.name]);
    if fault.Some? { return Err(fault.value); }
    run.MergeInto(doc.slots);
    return Ok(Carried(doc, run.acc));
  }
}
