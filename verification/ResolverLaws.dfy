/** What resolution promises: when it succeeds, what it computes, and what it does not depend on. */
module ResolverLaws {
  import opened Text
  import opened Schema
  import opened Merge
  import opened Resolver
  import opened Validate
  import opened CodecShape
  import opened CodecLaws

  // ---------------------------------------------------------------- siblings

  /** Parents are walked independently: neither the excludes nor the ancestors of one reach the next. */
  lemma {:induction false} WalkConcat(g: Graph, a: seq<ExtendRef>, b: seq<ExtendRef>, at: Place)
    ensures Walk(g, a + b, at) == Then(Walk(g, a, at), Walk(g, b, at))
    decreases |a|
  {
    hide WalkOne;
    if a == [] {
      assert a + b == b;
      WalkNone(g, at);
    } else {
      WalkConcat(g, a[1..], b, at);
      assert (a + b)[1..] == a[1..] + b;
      ThenAssoc(WalkOne(g, a[0], at), Walk(g, a[1..], at), Walk(g, b, at));
    }
  }

  lemma {:induction false} WalkSnoc(g: Graph, parents: seq<ExtendRef>, at: Place)
    requires parents != []
    ensures var n := |parents| - 1;
            Walk(g, parents, at) == Then(Walk(g, parents[..n], at), WalkOne(g, parents[n], at))
  {
    hide WalkOne;
    var n := |parents| - 1;
    assert parents == parents[..n] + [parents[n]];
    WalkConcat(g, parents[..n], [parents[n]], at);
    assert [parents[n]][1..] == [];
    WalkNone(g, at);
  }

  // ---------------------------------------------------------------- the recursive definition

  /** The parents resolved one by one, each from nothing, and folded left to right. */
  function ResolvedParents(g: Graph, parents: seq<ExtendRef>, at: Place): Result<Slots, Fault>
    decreases Keys(g) - at.visiting, 1 + |parents|
  {
    if parents == [] then Ok(EMPTY_SLOTS)
    else
      var n := |parents| - 1;
      match ResolvedParents(g, parents[..n], at)
      case Err(f) => Err(f)
      case Ok(s) =>
        if parents[n].ref in at.excl then Ok(s)
        else match ResolvedFrame(g, parents[n], at)
          case Err(f) => Err(f)
          case Ok(one) => Ok(MergeSlots(s, one))
  }

  /** One frame resolved from nothing: its own parents, then itself. */
  function ResolvedFrame(g: Graph, p: ExtendRef, at: Place): Result<Slots, Fault>
    decreases Keys(g) - at.visiting, 0
  {
    if Key(p) in at.visiting then Err(Cycle(at.path + [p.ref]))
    else if p !in g then Err(Unfetchable(Key(p)))
    else
      KeyIn(g, p);
      match ResolvedParents(g, g[p].extends_, at.Below(p, g[p]))
      case Err(f) => Err(f)
      case Ok(s) => Ok(MergeSlots(s, g[p].slots))
  }

  function Merged(w: Walked): Result<Slots, Fault> {
    match w case Err(f) => Err(f) case Ok(docs) => Ok(MergeAll(EMPTY_SLOTS, docs))
  }

  /** The shared accumulator computes the recursive definition, success and failure alike. */
  lemma {:induction false} AccumulatorRefines(g: Graph, parents: seq<ExtendRef>, at: Place)
    ensures ResolvedParents(g, parents, at) == Merged(Walk(g, parents, at))
    decreases Keys(g) - at.visiting, 1 + |parents|
  {
    hide WalkOne, MergeSlots, ResolvedFrame;
    if parents == [] {
      MergeNone(EMPTY_SLOTS);
    } else {
      var n := |parents| - 1;
      AccumulatorRefines(g, parents[..n], at);
      WalkSnoc(g, parents, at);
      hide Walk;
      WalkOneCases(g, parents[n], at);
      var init, one := Walk(g, parents[..n], at), WalkOne(g, parents[n], at);
      if parents[n].ref in at.excl {
        assert init.Ok? ==> init.value + [] == init.value;
      } else {
        FrameRefines(g, parents[n], at);
        if init.Ok? && one.Ok? { MergeTwo(init.value, one.value); }
      }
    }
  }

  lemma {:induction false} MergeTwo(init: seq<Slots>, one: seq<Slots>)
    requires one != []
    ensures MergeAll(EMPTY_SLOTS, init + one) ==
            MergeSlots(MergeAll(EMPTY_SLOTS, init), MergeAll(EMPTY_SLOTS, one))
  {
    hide MergeSlots;
    MergeAllConcat(EMPTY_SLOTS, init, one);
    MergeAllOnto(MergeAll(EMPTY_SLOTS, init), one);
  }

  lemma {:induction false} FrameRefines(g: Graph, p: ExtendRef, at: Place)
    requires p.ref !in at.excl
    ensures ResolvedFrame(g, p, at) == Merged(WalkOne(g, p, at))
    ensures WalkOne(g, p, at).Ok? ==> WalkOne(g, p, at).value != []
    decreases Keys(g) - at.visiting, 0
  {
    hide MergeSlots, Walk, ResolvedParents;
    if Key(p) !in at.visiting && p in g {
      KeyIn(g, p);
      var above := Walk(g, g[p].extends_, at.Below(p, g[p]));
      AccumulatorRefines(g, g[p].extends_, at.Below(p, g[p]));
      if above.Ok? {
        MergeAllLast(EMPTY_SLOTS, above.value + [g[p].slots]);
        assert (above.value + [g[p].slots])[..|above.value|] == above.value;
      }
    }
  }

  // ---------------------------------------------------------------- when it succeeds

  /** A way down from the parents that meets no exclude on it. */
  predicate Chain(g: Graph, parents: seq<ExtendRef>, excl: set<string>, chain: seq<ExtendRef>)
    decreases |chain|
  {
    chain == [] ||
    (chain[0] in parents && chain[0].ref !in excl &&
     (|chain| > 1 ==> chain[0] in g &&
                      Chain(g, g[chain[0]].extends_, excl + Elements(g[chain[0]].excludes), chain[1..])))
  }

  /** Every frame on the way can be fetched and no key occurs twice. */
  predicate Clear(g: Graph, visiting: set<string>, chain: seq<ExtendRef>) {
    && (forall i | 0 <= i < |chain| :: chain[i] in g && Key(chain[i]) !in visiting)
    && (forall i, j | 0 <= i < j < |chain| :: Key(chain[i]) != Key(chain[j]))
  }

  /** Every frame on the way can be fetched and no ref@version text occurs twice. */
  predicate AllPinsDiffer(g: Graph, chain: seq<ExtendRef>) {
    && (forall i | 0 <= i < |chain| :: chain[i] in g)
    && (forall i, j | 0 <= i < j < |chain| ::
          chain[i].ref + "@" + chain[i].version != chain[j].ref + "@" + chain[j].version)
  }

  lemma {:induction false} WalkMember(g: Graph, parents: seq<ExtendRef>, at: Place, p: ExtendRef)
    requires p in parents && Walk(g, parents, at).Ok?
    ensures WalkOne(g, p, at).Ok?
    decreases |parents|
  {
    hide WalkOne;
    if p != parents[0] { WalkMember(g, parents[1..], at, p); }
  }

  lemma {:induction false} OkClear(g: Graph, parents: seq<ExtendRef>, at: Place, chain: seq<ExtendRef>)
    requires Walk(g, parents, at).Ok? && Chain(g, parents, at.excl, chain)
    ensures Clear(g, at.visiting, chain)
    decreases |chain|
  {
    hide Walk, Key;
    if chain != [] {
      var p := chain[0];
      WalkMember(g, parents, at, p);
      WalkOneCases(g, p, at);
      if |chain| > 1 {
        var next := at.Below(p, g[p]);
        OkClear(g, g[p].extends_, next, chain[1..]);
        assert Key(p) in next.visiting && at.visiting <= next.visiting;
        assert forall i | 1 <= i < |chain| :: chain[i] == chain[1..][i - 1];
      }
    }
  }

  /** The chain ends in a repeated key, or in a frame that cannot be fetched. */
  predicate Explains(g: Graph, at: Place, chain: seq<ExtendRef>, f: Fault) {
    && chain != []
    && var last := chain[|chain| - 1];
    match f
    case Cycle(path) =>
      path == at.path + Refs(chain) &&
      (Key(last) in at.visiting || exists i | 0 <= i < |chain| - 1 :: Key(chain[i]) == Key(last))
    case Unfetchable(key) => last !in g && key == Key(last)
  }

  function Refs(chain: seq<ExtendRef>): (r: seq<string>)
    ensures |r| == |chain| && forall i | 0 <= i < |chain| :: r[i] == chain[i].ref
  {
    seq(|chain|, i requires 0 <= i < |chain| => chain[i].ref)
  }

  lemma {:induction false} ExplainsNotClear(g: Graph, at: Place, chain: seq<ExtendRef>, f: Fault)
    requires Explains(g, at, chain, f)
    ensures !Clear(g, at.visiting, chain)
  {}

  /** A failed walk points at a real way down that explains it. */
  lemma {:induction false} FaultWitness(g: Graph, parents: seq<ExtendRef>, at: Place) returns (chain: seq<ExtendRef>)
    requires Walk(g, parents, at).Err?
    ensures Chain(g, parents, at.excl, chain) && Explains(g, at, chain, Walk(g, parents, at).error)
    decreases Keys(g) - at.visiting, 1 + |parents|
  {
    hide WalkOne, Explains;
    if WalkOne(g, parents[0], at).Err? {
      chain := OneWitness(g, parents[0], at);
      ChainFrom(g, [parents[0]], parents, at.excl, chain);
    } else {
      chain := FaultWitness(g, parents[1..], at);
      ChainFrom(g, parents[1..], parents, at.excl, chain);
    }
  }

  lemma {:induction false} ChainFrom(g: Graph, a: seq<ExtendRef>, b: seq<ExtendRef>, excl: set<string>,
                                     chain: seq<ExtendRef>)
    requires Chain(g, a, excl, chain) && forall p | p in a :: p in b
    ensures Chain(g, b, excl, chain)
  {}

  lemma {:induction false} OneWitness(g: Graph, p: ExtendRef, at: Place) returns (chain: seq<ExtendRef>)
    requires WalkOne(g, p, at).Err?
    ensures Chain(g, [p], at.excl, chain) && Explains(g, at, chain, WalkOne(g, p, at).error)
    decreases Keys(g) - at.visiting, 0
  {
    hide Walk, Key;
    if Key(p) in at.visiting || p !in g {
      chain := [p];
      assert Refs([p]) == [p.ref];
    } else {
      KeyIn(g, p);
      var rest := FaultWitness(g, g[p].extends_, at.Below(p, g[p]));
      chain := [p] + rest;
      assert chain[1..] == rest;
      ExplainsFurther(g, p, at, rest, Walk(g, g[p].extends_, at.Below(p, g[p])).error);
    }
  }

  lemma {:induction false} ExplainsFurther(g: Graph, p: ExtendRef, at: Place, rest: seq<ExtendRef>, f: Fault)
    requires p in g && Explains(g, at.Below(p, g[p]), rest, f)
    ensures Explains(g, at, [p] + rest, f)
  {
    var chain := [p] + rest;
    var n := |chain| - 1;
    assert chain[n] == rest[n - 1];
    if f.Cycle? {
      assert Refs(chain) == [p.ref] + Refs(rest);
      Assoc(at.path, [p.ref], Refs(rest));
      if Key(chain[n]) == Key(p) {
        assert chain[0] == p;
      } else if i :| 0 <= i < n - 1 && Key(rest[i]) == Key(rest[n - 1]) {
        assert chain[i + 1] == rest[i];
      }
    }
  }

  /** Resolution succeeds exactly when every exclude-aware way up from the document can be fetched
      and repeats no pinned version. */
  lemma {:induction false} ResolvesIff(g: Graph, doc: Doc, parents: seq<ExtendRef>, excludes: seq<string>)
    ensures Resolved(g, doc, parents, excludes).Ok? <==>
            forall chain | Chain(g, parents, Elements(excludes), chain) :: AllPinsDiffer(g, chain)
  {
    hide Walk, Chain, Explains, MergeAll, MergeSlots;
    forall chain ensures AllPinsDiffer(g, chain) <==> Clear(g, {}, chain) {}
    hide Clear, AllPinsDiffer;
    var at := Place(Elements(excludes), {}, [doc.name]);
    if Walk(g, parents, at).Ok? {
      forall chain | Chain(g, parents, at.excl, chain) ensures Clear(g, {}, chain) {
        OkClear(g, parents, at, chain);
      }
    } else {
      var chain := FaultWitness(g, parents, at);
      ExplainsNotClear(g, at, chain, Walk(g, parents, at).error);
    }
  }

  /** If every frame on every way up can be fetched, a failure is a cycle, and its path names one. */
  lemma {:induction false} OnlyCycles(g: Graph, doc: Doc, parents: seq<ExtendRef>, excludes: seq<string>)
    requires forall chain | chain != [] && Chain(g, parents, Elements(excludes), chain) :: chain[|chain| - 1] in g
    requires Resolved(g, doc, parents, excludes).Err?
    ensures var f := Resolved(g, doc, parents, excludes).error;
            f.Cycle? &&
            exists chain, i, j | Chain(g, parents, Elements(excludes), chain) && 0 <= i < j < |chain| ::
              Key(chain[i]) == Key(chain[j]) && f.path == [doc.name] + Refs(chain)
  {
    hide Walk, Chain, MergeAll, MergeSlots;
    var at := Place(Elements(excludes), {}, [doc.name]);
    var chain := FaultWitness(g, parents, at);
    assert chain[|chain| - 1] in g;
  }

  // ---------------------------------------------------------------- excludes are pruning

  function Without(parents: seq<ExtendRef>, cut: set<string>): seq<ExtendRef> {
    if parents == [] then []
    else (if parents[0].ref in cut then [] else [parents[0]]) + Without(parents[1..], cut)
  }

  /** The graph whose documents no longer extend any ref in cut. */
  function Pruned(g: Graph, cut: set<string>): Graph {
    map p | p in g :: g[p].(extends_ := Without(g[p].extends_, cut))
  }

  lemma {:induction false} PruneWalk(g: Graph, parents: seq<ExtendRef>, cut: set<string>, at: Place)
    ensures Walk(g, parents, at.(excl := cut + at.excl)) == Walk(Pruned(g, cut), Without(parents, cut), at)
    decreases Keys(g) - at.visiting, 1 + |parents|
  {
    hide WalkOne, Pruned;
    if parents != [] {
      var p, rest := parents[0], parents[1..];
      PruneWalk(g, rest, cut, at);
      PruneOne(g, p, cut, at);
      WalkNone(g, at);
      if p.ref !in cut {
        assert ([p] + Without(rest, cut))[1..] == Without(rest, cut);
      } else {
        WalkOneCases(g, p, at.(excl := cut + at.excl));
        assert [] + Without(rest, cut) == Without(rest, cut);
      }
    }
  }

  lemma {:induction false} PruneOne(g: Graph, p: ExtendRef, cut: set<string>, at: Place)
    ensures p.ref !in cut ==> WalkOne(g, p, at.(excl := cut + at.excl)) == WalkOne(Pruned(g, cut), p, at)
    decreases Keys(g) - at.visiting, 0
  {
    hide Walk;
    if p.ref !in cut + at.excl && Key(p) !in at.visiting && p in g {
      KeyIn(g, p);
      var d, h := g[p], Pruned(g, cut);
      PruneWalk(g, d.extends_, cut, at.Below(p, d));
      assert cut + at.excl + Elements(d.excludes) == cut + (at.excl + Elements(d.excludes));
      assert at.(excl := cut + at.excl).Below(p, d) == at.Below(p, d).(excl := cut + at.Below(p, d).excl);
      assert at.Below(p, d) == at.Below(p, h[p]);
    }
  }

  /** Excluding refs at the root is pruning them from the whole graph. */
  lemma {:induction false} ExcludesPrune(g: Graph, doc: Doc, parents: seq<ExtendRef>, excludes: seq<string>)
    ensures var cut := Elements(excludes);
            Resolved(g, doc, parents, excludes) == Resolved(Pruned(g, cut), doc, Without(parents, cut), [])
  {
    hide Walk, Pruned, MergeAll, MergeSlots;
    var cut := Elements(excludes);
    PruneWalk(g, parents, cut, Place({}, {}, [doc.name]));
    assert cut + {} == cut && Elements([]) == {};
  }

  // ---------------------------------------------------------------- later versions

  /** Publishing more versions never changes what a pinned document resolves to. */
  lemma {:induction false} PinnedStable(g: Graph, h: Graph, parents: seq<ExtendRef>, at: Place)
    requires forall p | p in g :: p in h && h[p] == g[p]
    requires var w := Walk(g, parents, at); w.Ok? || w.error.Cycle?
    ensures Walk(h, parents, at) == Walk(g, parents, at)
    decreases Keys(g) - at.visiting, 1 + |parents|
  {
    hide WalkOne;
    if parents != [] {
      PinnedOne(g, h, parents[0], at);
      if WalkOne(g, parents[0], at).Ok? { PinnedStable(g, h, parents[1..], at); }
    }
  }

  lemma {:induction false} PinnedOne(g: Graph, h: Graph, p: ExtendRef, at: Place)
    requires forall q | q in g :: q in h && h[q] == g[q]
    requires var w := WalkOne(g, p, at); w.Ok? || w.error.Cycle?
    ensures WalkOne(h, p, at) == WalkOne(g, p, at)
    decreases Keys(g) - at.visiting, 0
  {
    hide Walk;
    WalkOneCases(g, p, at);
    WalkOneCases(h, p, at);
    if p.ref !in at.excl && Key(p) !in at.visiting && p in g {
      KeyIn(g, p);
      PinnedStable(g, h, g[p].extends_, at.Below(p, g[p]));
    }
  }

  /** Two graphs that agree on the end of every chain resolve alike. */
  ghost predicate AgreeOnChains(g: Graph, h: Graph, parents: seq<ExtendRef>, excl: set<string>) {
    forall chain | chain != [] && Chain(g, parents, excl, chain) ::
      var last := chain[|chain| - 1]; (last in g <==> last in h) && (last in g && last in h ==> g[last] == h[last])
  }

  lemma {:induction false} AgreeBelow(g: Graph, h: Graph, parents: seq<ExtendRef>, excl: set<string>, p: ExtendRef)
    requires AgreeOnChains(g, h, parents, excl) && p in parents && p.ref !in excl && p in g
    ensures p in h && h[p] == g[p]
    ensures AgreeOnChains(g, h, g[p].extends_, excl + Elements(g[p].excludes))
  {
    assert Chain(g, parents, excl, [p]);
    var below := excl + Elements(g[p].excludes);
    forall chain | chain != [] && Chain(g, g[p].extends_, below, chain)
      ensures var last := chain[|chain| - 1];
              (last in g <==> last in h) && (last in g && last in h ==> g[last] == h[last])
    {
      var longer := [p] + chain;
      assert longer[1..] == chain;
      assert Chain(g, parents, excl, longer);
      assert longer[|longer| - 1] == chain[|chain| - 1];
    }
  }

  lemma {:induction false} AgreeOnFewer(g: Graph, h: Graph, a: seq<ExtendRef>, b: seq<ExtendRef>, excl: set<string>)
    requires AgreeOnChains(g, h, b, excl) && forall p | p in a :: p in b
    ensures AgreeOnChains(g, h, a, excl)
  {
    forall chain: seq<ExtendRef> | chain != [] && Chain(g, a, excl, chain)
      ensures var last := chain[|chain| - 1];
              (last in g <==> last in h) && (last in g && last in h ==> g[last] == h[last])
    {
      ChainFrom(g, a, b, excl, chain);
    }
  }

  lemma {:induction false} AgreeAt(g: Graph, h: Graph, parents: seq<ExtendRef>, excl: set<string>, p: ExtendRef)
    requires AgreeOnChains(g, h, parents, excl) && p in parents && p.ref !in excl
    ensures p in g <==> p in h
  {
    assert Chain(g, parents, excl, [p]);
    assert [p][|[p]| - 1] == p;
  }

  /** A walk depends on nothing but the frames on its chains. */
  lemma {:induction false} WalkSame(g: Graph, h: Graph, parents: seq<ExtendRef>, at: Place)
    requires AgreeOnChains(g, h, parents, at.excl)
    ensures Walk(h, parents, at) == Walk(g, parents, at)
    decreases Keys(g) - at.visiting, 1 + |parents|
  {
    hide WalkOne, AgreeOnChains;
    if parents != [] {
      AgreeOnFewer(g, h, [parents[0]], parents, at.excl);
      WalkOneSame(g, h, parents[0], at);
      AgreeOnFewer(g, h, parents[1..], parents, at.excl);
      WalkSame(g, h, parents[1..], at);
    }
  }

  lemma {:induction false} WalkOneSame(g: Graph, h: Graph, p: ExtendRef, at: Place)
    requires AgreeOnChains(g, h, [p], at.excl)
    ensures WalkOne(h, p, at) == WalkOne(g, p, at)
    decreases Keys(g) - at.visiting, 0
  {
    hide Walk, AgreeOnChains;
    WalkOneCases(g, p, at);
    WalkOneCases(h, p, at);
    if p.ref !in at.excl && Key(p) !in at.visiting {
      AgreeAt(g, h, [p], at.excl, p);
      if p in g {
        KeyIn(g, p);
        AgreeBelow(g, h, [p], at.excl, p);
        WalkSame(g, h, g[p].extends_, at.Below(p, g[p]));
      }
    }
  }

  // ---------------------------------------------------------------- the result

  /** A resolved slot in closed form over the frames in walk order, the document itself last. */
  lemma {:induction false} ResolvedClosed(g: Graph, doc: Doc, parents: seq<ExtendRef>, excludes: seq<string>,
                                          key: SlotKey)
    requires Resolved(g, doc, parents, excludes).Ok?
    ensures var docs := Walk(g, parents, Place(Elements(excludes), {}, [doc.name])).value + [doc.slots];
            var s := Resolved(g, doc, parents, excludes).value.slots;
            && s.terminology == Terms([], AllTermsOf(docs))
            && s.List(key) == KeepLast(AllItemsOf(docs, key))
            && s.Prose(key) == LastProse(docs, key)
  {
    hide Walk, MergeSlots, Terms, KeepLast, LastProse, AllTermsOf, AllItemsOf;
    var above := Walk(g, parents, Place(Elements(excludes), {}, [doc.name])).value;
    MergedClosed(above + [doc.slots], key);
    MergeAllLast(EMPTY_SLOTS, above + [doc.slots]);
    assert (above + [doc.slots])[..|above|] == above;
  }

  /** Resolving a resolved document changes nothing. */
  lemma {:induction false} ResolvedTwice(g: Graph, h: Graph, doc: Doc, parents: seq<ExtendRef>, excludes: seq<string>)
    requires Resolved(g, doc, parents, excludes).Ok?
    ensures var once := Resolved(g, doc, parents, excludes).value;
            Resolved(h, once, once.extends_, once.excludes) == Ok(once)
  {
    hide Walk, MergeSlots;
    var above := Walk(g, parents, Place(Elements(excludes), {}, [doc.name])).value;
    var once := Resolved(g, doc, parents, excludes).value;
    MergeAllLast(EMPTY_SLOTS, above + [doc.slots]);
    assert (above + [doc.slots])[..|above|] == above;
    MergeAllOnto(EMPTY_SLOTS, above + [doc.slots]);
    MergeNone(EMPTY_SLOTS);
    WalkNone(h, Place(Elements(once.excludes), {}, [once.name]));
  }

  // ---------------------------------------------------------------- what merging keeps

  lemma {:induction false} TermsFrom(a: seq<Term>, b: seq<Term>)
    ensures forall t | t in Terms(a, b) :: t in a || t in b
  {
    if b != [] {
      var n := |b| - 1;
      TermsFrom(a, b[..n]);
      var x := Terms(a, b[..n]);
      assert forall t | t in Upsert(x, b[n]) :: t in x || t == b[n];
    }
  }

  lemma {:induction false} FilledMerge(a: seq<Term>, b: seq<Term>)
    requires FilledTerms(a) && FilledTerms(b)
    ensures FilledTerms(Terms(a, b))
  {
    hide Terms, FilledTerm;
    TermsFrom(a, b);
    var r := Terms(a, b);
    forall i | 0 <= i < |r| ensures FilledTerm(r[i]) { assert r[i] in a || r[i] in b; }
  }

  lemma {:induction false} CanonicalMerge(a: seq<Term>, b: seq<Term>)
    requires CanonicalTerms(a) && CanonicalTerms(b)
    ensures CanonicalTerms(Terms(a, b))
  {
    hide Terms, CanonicalTerm;
    TermsFrom(a, b);
    var r := Terms(a, b);
    forall i | 0 <= i < |r| ensures CanonicalTerm(r[i]) { assert r[i] in a || r[i] in b; }
  }

  lemma {:induction false} DistinctMerge(a: seq<Term>, b: seq<Term>)
    requires DistinctTerms(a)
    ensures DistinctTerms(Terms(a, b))
  {
    if b != [] {
      var n := |b| - 1;
      DistinctMerge(a, b[..n]);
      DistinctUpsert(Terms(a, b[..n]), b[n]);
    }
  }

  lemma {:induction false} DistinctUpsert(ts: seq<Term>, t: Term)
    requires DistinctTerms(ts)
    ensures DistinctTerms(Upsert(ts, t))
  {}

  lemma {:induction false} FilledKeep(a: seq<string>, b: seq<string>)
    requires FilledItems(a) && FilledItems(b)
    ensures FilledItems(KeepLast(a + b))
  {
    hide KeepLast, Blank;
    var r := KeepLast(a + b);
    forall i | 0 <= i < |r| ensures !Blank(r[i]) {
      KeepLastSame(a + b, r[i]);
      assert r[i] in a || r[i] in b;
    }
  }

  lemma {:induction false} CanonicalKeep(a: seq<string>, b: seq<string>)
    requires CanonicalItems(a) && CanonicalItems(b)
    ensures CanonicalItems(KeepLast(a + b))
  {
    hide KeepLast, CanonicalItem;
    var r := KeepLast(a + b);
    forall i | 0 <= i < |r| ensures CanonicalItem(r[i]) {
      KeepLastSame(a + b, r[i]);
      assert r[i] in a || r[i] in b;
    }
  }

  lemma {:induction false} MergeOk(a: Slots, b: Slots)
    requires SlotsOk(a) && SlotsOk(b)
    ensures SlotsOk(MergeSlots(a, b))
  {
    hide FilledTerms, DistinctTerms, FilledItems, Terms, KeepLast;
    FilledMerge(a.terminology, b.terminology);
    DistinctMerge(a.terminology, b.terminology);
    FilledKeep(a.rules, b.rules);
    FilledKeep(a.skills, b.skills);
    FilledKeep(a.prompts, b.prompts);
  }

  lemma {:induction false} MergeCanonical(a: Slots, b: Slots)
    requires CanonicalSlots(a) && CanonicalSlots(b)
    ensures CanonicalSlots(MergeSlots(a, b))
  {
    hide CanonicalTerms, CanonicalItems, CanonicalProse, Terms, KeepLast;
    CanonicalMerge(a.terminology, b.terminology);
    CanonicalKeep(a.rules, b.rules);
    CanonicalKeep(a.skills, b.skills);
    CanonicalKeep(a.prompts, b.prompts);
  }

  lemma {:induction false} MergeAllOk(acc: Slots, docs: seq<Slots>)
    requires SlotsOk(acc) && forall i | 0 <= i < |docs| :: SlotsOk(docs[i])
    ensures SlotsOk(MergeAll(acc, docs))
    decreases |docs|
  {
    hide SlotsOk, MergeSlots;
    if docs != [] {
      MergeOk(acc, docs[0]);
      MergeAllOk(MergeSlots(acc, docs[0]), docs[1..]);
    }
  }

  lemma {:induction false} MergeAllCanonical(acc: Slots, docs: seq<Slots>)
    requires CanonicalSlots(acc) && forall i | 0 <= i < |docs| :: CanonicalSlots(docs[i])
    ensures CanonicalSlots(MergeAll(acc, docs))
    decreases |docs|
  {
    hide CanonicalSlots, MergeSlots;
    if docs != [] {
      MergeCanonical(acc, docs[0]);
      MergeAllCanonical(MergeSlots(acc, docs[0]), docs[1..]);
    }
  }

  /** Every slot set the walk meets belongs to a frame on some way up. */
  lemma {:induction false} WalkedFrames(g: Graph, parents: seq<ExtendRef>, at: Place,
                                        s: Slots) returns (chain: seq<ExtendRef>)
    requires Walk(g, parents, at).Ok? && s in Walk(g, parents, at).value
    ensures chain != [] && Chain(g, parents, at.excl, chain)
    ensures chain[|chain| - 1] in g && g[chain[|chain| - 1]].slots == s
    decreases Keys(g) - at.visiting, 1 + |parents|
  {
    hide WalkOne;
    if s in WalkOne(g, parents[0], at).value {
      chain := WalkedOne(g, parents[0], at, s);
      ChainFrom(g, [parents[0]], parents, at.excl, chain);
    } else {
      chain := WalkedFrames(g, parents[1..], at, s);
      ChainFrom(g, parents[1..], parents, at.excl, chain);
    }
  }

  lemma {:induction false} WalkedOne(g: Graph, p: ExtendRef, at: Place, s: Slots) returns (chain: seq<ExtendRef>)
    requires WalkOne(g, p, at).Ok? && s in WalkOne(g, p, at).value
    ensures chain != [] && Chain(g, [p], at.excl, chain)
    ensures chain[|chain| - 1] in g && g[chain[|chain| - 1]].slots == s
    decreases Keys(g) - at.visiting, 0
  {
    hide Walk;
    WalkOneCases(g, p, at);
    if s == g[p].slots {
      chain := [p];
    } else {
      KeyIn(g, p);
      var rest := WalkedFrames(g, g[p].extends_, at.Below(p, g[p]), s);
      chain := [p] + rest;
      assert chain[1..] == rest;
    }
  }

  lemma {:induction false} EmptyOk()
    ensures SlotsOk(EMPTY_SLOTS) && CanonicalSlots(EMPTY_SLOTS)
  {
    EmptyProse();
  }

  /** Error-free content stays error-free under inheritance: terms keep distinct names and nothing
      is blank. */
  lemma {:induction false} ResolvedValid(g: Graph, doc: Doc, parents: seq<ExtendRef>, excludes: seq<string>)
    requires Resolved(g, doc, parents, excludes).Ok? && SlotsOk(doc.slots)
    requires forall chain | chain != [] && Chain(g, parents, Elements(excludes), chain) && chain[|chain| - 1] in g ::
               SlotsOk(g[chain[|chain| - 1]].slots)
    ensures SlotsOk(Resolved(g, doc, parents, excludes).value.slots)
  {
    hide Walk, SlotsOk, MergeSlots, Chain;
    var at := Place(Elements(excludes), {}, [doc.name]);
    var docs := Walk(g, parents, at).value;
    forall i | 0 <= i < |docs| ensures SlotsOk(docs[i]) {
      var chain := WalkedFrames(g, parents, at, docs[i]);
    }
    EmptyOk();
    MergeAllOk(EMPTY_SLOTS, docs);
    MergeOk(MergeAll(EMPTY_SLOTS, docs), doc.slots);
  }

  /** Canonical slots stay canonical under inheritance, so a resolved document with a visibility
      and a title survives the Markdown codec. */
  lemma {:induction false} ResolvedCanonical(g: Graph, doc: Doc, parents: seq<ExtendRef>, excludes: seq<string>)
    requires Resolved(g, doc, parents, excludes).Ok? && CanonicalSlots(doc.slots)
    requires doc.visibility != "" && TitleOk(doc.name)
    requires forall chain | chain != [] && Chain(g, parents, Elements(excludes), chain) && chain[|chain| - 1] in g ::
               CanonicalSlots(g[chain[|chain| - 1]].slots)
    ensures Canonical(Resolved(g, doc, parents, excludes).value)
  {
    hide Walk, CanonicalSlots, MergeSlots, Chain, TitleOk;
    var at := Place(Elements(excludes), {}, [doc.name]);
    var docs := Walk(g, parents, at).value;
    forall i | 0 <= i < |docs| ensures CanonicalSlots(docs[i]) {
      var chain := WalkedFrames(g, parents, at, docs[i]);
    }
    EmptyOk();
    MergeAllCanonical(EMPTY_SLOTS, docs);
    MergeCanonical(MergeAll(EMPTY_SLOTS, docs), doc.slots);
  }

  /** Metadata describes the document itself: whatever it extends and excludes, its resolution has its own
      name, description, version, visibility, scope and maintainer, and neither parents nor excludes. */
  lemma {:induction false} MetadataIsOwn(g: Graph, doc: Doc, parents: seq<ExtendRef>, excludes: seq<string>)
    requires Resolved(g, doc, parents, excludes).Ok?
    ensures var r := Resolved(g, doc, parents, excludes).value;
            && r.name == doc.name && r.description == doc.description && r.version == doc.version
            && r.visibility == doc.visibility && r.scope == doc.scope && r.maintainer == doc.maintainer
            && r.extends_ == [] && r.excludes == []
  {
    hide Walk, MergeAll, MergeSlots;
  }
}
