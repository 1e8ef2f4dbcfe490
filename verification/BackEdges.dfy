/** When a back edge contributes nothing to the levels, and when it does. */
module BackEdges {
  import opened Hierarchy

  // ---------------------------------------------------------------- the levelling that was meant

  /** The same visit with a back edge that contributes nothing: it returns -1, as no parent does. */
  function Quiet(g: Links, id: string, levels: map<string, nat>, busy: set<string>): (r: Seen)
    ensures -1 <= r.level
    decreases g.Keys - busy, 0
  {
    if id in levels then Seen(levels[id], levels)
    else if id in busy then Seen(-1, levels)
    else if Next(g, id) == [] then Seen(0, levels[id := 0])
    else
      var r := QuietAll(g, g[id], levels, busy + {id});
      Seen(r.level + 1, r.levels[id := r.level + 1])
  }

  function QuietAll(g: Links, ids: seq<string>, levels: map<string, nat>, busy: set<string>): (r: Seen)
    ensures -1 <= r.level
    decreases g.Keys - busy, 1 + |ids|
  {
    if ids == [] then Seen(-1, levels)
    else
      var a := Quiet(g, ids[0], levels, busy);
      var b := QuietAll(g, ids[1..], a.levels, busy);
      Seen(Max(a.level, b.level), b.levels)
  }

  // ---------------------------------------------------------------- starved ids

  /** Some parent is not in progress. */
  predicate HasFreeParent(ids: seq<string>, busy: set<string>) { exists p | p in ids :: p !in busy }

  /** No id that the visit expands has parents that are all in progress. */
  predicate Fed(g: Links, id: string, levels: map<string, nat>, busy: set<string>)
    decreases g.Keys - busy, 0
  {
    id in levels || id in busy || Next(g, id) == [] ||
    (HasFreeParent(g[id], busy + {id}) && AllFed(g, g[id], levels, busy + {id}))
  }

  predicate AllFed(g: Links, ids: seq<string>, levels: map<string, nat>, busy: set<string>)
    decreases g.Keys - busy, 1 + |ids|
  {
    ids == [] ||
    (Fed(g, ids[0], levels, busy) && AllFed(g, ids[1..], Visited(g, ids[0], levels, busy).levels, busy))
  }

  /** No id in progress has a level yet. */
  predicate Apart(levels: map<string, nat>, busy: set<string>) { forall x | x in busy :: x !in levels }

  // ---------------------------------------------------------------- fed visits agree

  lemma {:induction false} FedAgree(g: Links, id: string, levels: map<string, nat>, busy: set<string>)
    requires Fed(g, id, levels, busy) && Apart(levels, busy)
    ensures var r, q := Visited(g, id, levels, busy), Quiet(g, id, levels, busy);
            q.levels == r.levels && if id in busy then r.level == 0 && q.level == -1 else q.level == r.level
    decreases g.Keys - busy, 0
  {
    hide VisitedAll, QuietAll, AllFed;
    if id !in levels && id !in busy && Next(g, id) != [] { AllFedAgree(g, g[id], levels, busy + {id}); }
  }

  lemma {:induction false} AllFedAgree(g: Links, ids: seq<string>, levels: map<string, nat>, busy: set<string>)
    requires AllFed(g, ids, levels, busy) && Apart(levels, busy)
    ensures var r, q := VisitedAll(g, ids, levels, busy), QuietAll(g, ids, levels, busy);
            && q.levels == r.levels
            && (if HasFreeParent(ids, busy) then q.level == r.level
                else q.level == -1 && r.level == if ids == [] then -1 else 0)
    decreases g.Keys - busy, 1 + |ids|
  {
    hide Visited, Quiet, Fed;
    if ids != [] {
      VisitedKeeps(g, ids[0], levels, busy);
      FedAgree(g, ids[0], levels, busy);
      AllFedAgree(g, ids[1..], Visited(g, ids[0], levels, busy).levels, busy);
      assert ids == [ids[0]] + ids[1..];
    }
  }

  // ---------------------------------------------------------------- a starved id shows

  /** Some id has one level in a and another in b. */
  predicate Differ(a: map<string, nat>, b: map<string, nat>) { exists x | x in a :: x in b && a[x] != b[x] }

  lemma {:induction false} QuietKeeps(g: Links, id: string, levels: map<string, nat>, busy: set<string>)
    ensures var r := Quiet(g, id, levels, busy);
            && (forall x | x in levels :: x in r.levels && r.levels[x] == levels[x])
            && (forall x | x in r.levels :: x in levels || x !in busy)
    decreases g.Keys - busy, 0
  {
    hide QuietAll;
    if id !in levels && id !in busy && Next(g, id) != [] { QuietAllKeeps(g, g[id], levels, busy + {id}); }
  }

  lemma {:induction false} QuietAllKeeps(g: Links, ids: seq<string>, levels: map<string, nat>, busy: set<string>)
    ensures var r := QuietAll(g, ids, levels, busy);
            && (forall x | x in levels :: x in r.levels && r.levels[x] == levels[x])
            && (forall x | x in r.levels :: x in levels || x !in busy)
    decreases g.Keys - busy, 1 + |ids|
  {
    hide Quiet;
    if ids != [] {
      QuietKeeps(g, ids[0], levels, busy);
      QuietAllKeeps(g, ids[1..], Quiet(g, ids[0], levels, busy).levels, busy);
    }
  }

  /** An id whose parents are all in progress gets level 1 where it was meant to get level 0. */
  lemma {:induction false} StarvedParents(g: Links, ids: seq<string>, levels: map<string, nat>, busy: set<string>)
    requires ids != [] && !HasFreeParent(ids, busy) && Apart(levels, busy)
    ensures VisitedAll(g, ids, levels, busy) == Seen(0, levels)
    ensures QuietAll(g, ids, levels, busy) == Seen(-1, levels)
    decreases |ids|
  {
    assert ids[0] in ids;
    if |ids| > 1 {
      assert forall p | p in ids[1..] :: p in ids;
      StarvedParents(g, ids[1..], levels, busy);
    } else {
      assert ids[1..] == [];
    }
  }

  lemma {:induction false} UnfedDiffer(g: Links, id: string, levels: map<string, nat>, busy: set<string>)
    requires !Fed(g, id, levels, busy) && Apart(levels, busy)
    ensures Differ(Visited(g, id, levels, busy).levels, Quiet(g, id, levels, busy).levels)
    decreases g.Keys - busy, 0
  {
    hide VisitedAll, QuietAll, AllFed;
    var below := busy + {id};
    var r, q := VisitedAll(g, g[id], levels, below), QuietAll(g, g[id], levels, below);
    if HasFreeParent(g[id], below) {
      AllUnfedDiffer(g, g[id], levels, below);
      VisitedAllKeeps(g, g[id], levels, below);
      var x :| x in r.levels && x in q.levels && r.levels[x] != q.levels[x];
      assert x != id;
      assert x in Visited(g, id, levels, busy).levels;
    } else {
      StarvedParents(g, g[id], levels, below);
      assert id in Visited(g, id, levels, busy).levels;
    }
  }

  lemma {:induction false} AllUnfedDiffer(g: Links, ids: seq<string>, levels: map<string, nat>, busy: set<string>)
    requires !AllFed(g, ids, levels, busy) && Apart(levels, busy)
    ensures Differ(VisitedAll(g, ids, levels, busy).levels, QuietAll(g, ids, levels, busy).levels)
    decreases g.Keys - busy, 1 + |ids|
  {
    hide Visited, Quiet, Fed;
    var a, b := Visited(g, ids[0], levels, busy), Quiet(g, ids[0], levels, busy);
    VisitedKeeps(g, ids[0], levels, busy);
    if Fed(g, ids[0], levels, busy) {
      FedAgree(g, ids[0], levels, busy);
      AllUnfedDiffer(g, ids[1..], a.levels, busy);
    } else {
      UnfedDiffer(g, ids[0], levels, busy);
      var x :| x in a.levels && x in b.levels && a.levels[x] != b.levels[x];
      VisitedAllKeeps(g, ids[1..], a.levels, busy);
      QuietAllKeeps(g, ids[1..], b.levels, busy);
      assert x in VisitedAll(g, ids, levels, busy).levels;
    }
  }

  /** Back edges contribute nothing to any level if and only if no id is expanded while all of its
      parents are in progress. */
  lemma {:induction false} BackEdgesQuietIff(g: Links, ids: seq<string>)
    ensures VisitedAll(g, ids, map[], {}).levels == QuietAll(g, ids, map[], {}).levels <==>
            AllFed(g, ids, map[], {})
  {
    hide VisitedAll, QuietAll, AllFed;
    if AllFed(g, ids, map[], {}) {
      AllFedAgree(g, ids, map[], {});
    } else {
      AllUnfedDiffer(g, ids, map[], {});
    }
  }

  // ---------------------------------------------------------------- a condition on the graph alone

  predicate Simple(p: seq<string>) { forall i, j | 0 <= i < j < |p| :: p[i] != p[j] }

  /** A repetition-free way that holds all parents of its last frame, which has some. */
  predicate Trap(g: Links, p: seq<string>) {
    Path(g, p) && Simple(p) &&
    var parents := Next(g, p[|p| - 1]); parents != [] && forall q | q in parents :: q in p
  }

  function On(p: seq<string>): set<string> { set x | x in p }

  /** p is a repetition-free way, empty or with id one step further. */
  predicate LeadsTo(g: Links, p: seq<string>, id: string) {
    p == [] || (Path(g, p) && Simple(p) && id in Next(g, p[|p| - 1]))
  }

  lemma {:induction false} WayGrows(g: Links, p: seq<string>, id: string)
    requires LeadsTo(g, p, id) && id !in p
    ensures Path(g, p + [id]) && Simple(p + [id]) && On(p + [id]) == On(p) + {id}
  {
    var q := p + [id];
    forall i | 0 <= i < |q| - 1 ensures q[i + 1] in Next(g, q[i]) {
      if i < |p| - 1 { assert p[i + 1] in Next(g, p[i]); }
    }
  }

  lemma {:induction false} TrapFreeFed(g: Links, p: seq<string>, id: string, levels: map<string, nat>)
    requires (forall t :: !Trap(g, t)) && LeadsTo(g, p, id)
    ensures Fed(g, id, levels, On(p))
    decreases g.Keys - On(p), 0
  {
    hide AllFed, LeadsTo, Path, Simple;
    if id !in levels && id !in p && Next(g, id) != [] {
      var q := p + [id];
      WayGrows(g, p, id);
      assert !Trap(g, q) && q[|q| - 1] == id;
      assert HasFreeParent(g[id], On(q));
      forall y | y in g[id] ensures LeadsTo(g, q, y) { StepAhead(g, q, y); }
      TrapFreeAllFed(g, q, g[id], levels);
    }
  }

  lemma {:induction false} StepAhead(g: Links, p: seq<string>, y: string)
    requires Path(g, p) && Simple(p) && y in Next(g, p[|p| - 1])
    ensures LeadsTo(g, p, y)
  {}

  lemma {:induction false} TrapFreeAllFed(g: Links, p: seq<string>, ids: seq<string>, levels: map<string, nat>)
    requires (forall t :: !Trap(g, t)) && forall y | y in ids :: LeadsTo(g, p, y)
    ensures AllFed(g, ids, levels, On(p))
    decreases g.Keys - On(p), 1 + |ids|
  {
    hide Visited, Fed, Trap, LeadsTo;
    if ids != [] {
      TrapFreeFed(g, p, ids[0], levels);
      TrapFreeAllFed(g, p, ids[1..], Visited(g, ids[0], levels, On(p)).levels);
    }
  }

  /** Without a trap, back edges contribute nothing, in whatever order the ids are visited. */
  lemma {:induction false} TrapFreeQuiet(g: Links, ids: seq<string>)
    requires forall p :: !Trap(g, p)
    ensures VisitedAll(g, ids, map[], {}).levels == QuietAll(g, ids, map[], {}).levels
  {
    hide VisitedAll, QuietAll, AllFed, Trap;
    TrapFreeAllFed(g, [], ids, map[]);
    assert On([]) == {};
    BackEdgesQuietIff(g, ids);
  }

  // ---------------------------------------------------------------- a trap shows in some listing

  function Without(ids: seq<string>, x: string): seq<string> {
    if ids == [] then [] else if ids[0] == x then ids[1..] else [ids[0]] + Without(ids[1..], x)
  }

  lemma {:induction false} WithoutOne(ids: seq<string>, x: string)
    requires x in ids
    ensures multiset([x] + Without(ids, x)) == multiset(ids)
  {
    assert ids == [ids[0]] + ids[1..];
    if ids[0] != x { WithoutOne(ids[1..], x); }
  }

  /** The same links with, at each frame of p, the next frame of p listed first. */
  function Turned(g: Links, p: seq<string>): Links {
    if |p| < 2 then g else Turned(g, p[1..])[p[0] := [p[1]] + Without(Next(g, p[0]), p[1])]
  }

  /** The same links with the parents of each frame listed in another order. */
  ghost predicate Relisted(g: Links, h: Links) {
    g.Keys == h.Keys && forall x :: multiset(Next(g, x)) == multiset(Next(h, x))
  }

  lemma {:induction false} TurnedRelists(g: Links, p: seq<string>)
    requires Path(g, p)
    ensures Relisted(g, Turned(g, p))
  {
    if |p| >= 2 {
      PathTail(g, p);
      TurnedRelists(g, p[1..]);
      TurnedFirst(g, p);
      WithoutOne(Next(g, p[0]), p[1]);
      hide Path, Turned, Next, Without;
    }
  }

  lemma {:induction false} TurnedLeads(g: Links, p: seq<string>, i: nat)
    requires Path(g, p) && Simple(p) && i < |p| - 1
    ensures Next(Turned(g, p), p[i]) != [] && Next(Turned(g, p), p[i])[0] == p[i + 1]
  {
    PathTail(g, p);
    TurnedFirst(g, p);
    if i > 0 {
      assert p[1..][i - 1] == p[i] && p[1..][i] == p[i + 1] && p[i] != p[0];
      TurnedLeads(g, p[1..], i - 1);
    }
  }

  lemma {:induction false} TurnedFirst(g: Links, p: seq<string>)
    requires |p| >= 2 && p[1] in Next(g, p[0])
    ensures var h, rest := Turned(g, p), Turned(g, p[1..]);
            && h.Keys == rest.Keys + {p[0]} && p[0] in g
            && forall x :: Next(h, x) == if x == p[0] then [p[1]] + Without(Next(g, x), p[1]) else Next(rest, x)
  {
    hide Without;
  }

  /** Along a trap whose frames are listed first, the last frame is expanded with all its parents in
      progress. */
  lemma {:induction false} TrapStarves(h: Links, p: seq<string>, i: nat)
    requires Trap(h, p) && i < |p|
    requires forall i | 0 <= i < |p| - 1 :: Next(h, p[i]) != [] && Next(h, p[i])[0] == p[i + 1]
    ensures !Fed(h, p[i], map[], On(p[..i]))
    decreases |p| - i
  {
    var ids := Next(h, p[i]);
    assert p[i] !in On(p[..i]);
    assert On(p[..i]) + {p[i]} == On(p[..i + 1]) by { assert p[..i + 1] == p[..i] + [p[i]]; }
    if i == |p| - 1 {
      assert p[..i + 1] == p;
    } else {
      TrapStarves(h, p, i + 1);
      assert !Fed(h, ids[0], map[], On(p[..i + 1]));
    }
  }

  lemma {:induction false} SameMembers(g: Links, h: Links, x: string, y: string)
    requires Relisted(g, h)
    ensures y in Next(g, x) <==> y in Next(h, x)
  {
    assert y in Next(g, x) <==> y in multiset(Next(g, x));
    assert y in Next(h, x) <==> y in multiset(Next(h, x));
  }

  lemma {:induction false} TrapRelisted(g: Links, h: Links, p: seq<string>)
    requires Relisted(g, h) && Trap(g, p)
    ensures Trap(h, p)
  {
    hide Relisted;
    forall x, y ensures y in Next(g, x) <==> y in Next(h, x) { SameMembers(g, h, x, y); }
    assert Next(g, p[|p| - 1])[0] in Next(g, p[|p| - 1]);
  }

  /** In some listing of the parents a trap shows, whatever else is visited after its first frame. */
  lemma {:induction false} TrapShows(g: Links, p: seq<string>, rest: seq<string>)
    requires Trap(g, p)
    ensures var h, ids := Turned(g, p), [p[0]] + rest;
            Relisted(g, h) && VisitedAll(h, ids, map[], {}).levels != QuietAll(h, ids, map[], {}).levels
  {
    hide VisitedAll, QuietAll, Fed;
    var h, ids := Turned(g, p), [p[0]] + rest;
    TurnedRelists(g, p);
    forall i | 0 <= i < |p| - 1 ensures Next(h, p[i]) != [] && Next(h, p[i])[0] == p[i + 1] { TurnedLeads(g, p, i); }
    TrapRelisted(g, h, p);
    TrapStarves(h, p, 0);
    assert On(p[..0]) == {};
    BackEdgesQuietIff(h, ids);
  }

  /** Back edges contribute nothing to any level, in whatever order the ids are visited and the parents
      are listed, if and only if no repetition-free way holds all the parents of its last frame. */
  lemma {:induction false} AlwaysQuietIff(g: Links)
    ensures (forall h, ids :: Relisted(g, h) ==>
               VisitedAll(h, ids, map[], {}).levels == QuietAll(h, ids, map[], {}).levels)
            <==> forall p :: !Trap(g, p)
  {
    hide VisitedAll, QuietAll, Trap, Relisted, Turned;
    if p :| Trap(g, p) {
      assert p != [] by { TrapStarts(g, p); }
      var h, ids := Turned(g, p), [p[0]] + [];
      TrapShows(g, p, []);
      assert Relisted(g, h) && VisitedAll(h, ids, map[], {}).levels != QuietAll(h, ids, map[], {}).levels;
    } else {
      forall h, ids | Relisted(g, h)
        ensures VisitedAll(h, ids, map[], {}).levels == QuietAll(h, ids, map[], {}).levels
      {
        forall p ensures !Trap(h, p) {
          if Trap(h, p) {
            RelistedBack(g, h);
            TrapRelisted(h, g, p);
          }
        }
        TrapFreeQuiet(h, ids);
      }
    }
  }

  lemma {:induction false} TrapStarts(g: Links, p: seq<string>)
    requires Trap(g, p)
    ensures p != []
  {}

  lemma {:induction false} RelistedBack(g: Links, h: Links)
    requires Relisted(g, h)
    ensures Relisted(h, g)
  {}

  /** Every id with parents has one that does not descend from it. */
  ghost predicate NoTrap(g: Links) {
    forall id | Next(g, id) != [] :: exists p | p in Next(g, id) :: !Reaches(g, p, id)
  }

  /** A condition by reachability: then there is no trap. */
  lemma {:induction false} NoTrapQuiet(g: Links, ids: seq<string>)
    requires NoTrap(g)
    ensures VisitedAll(g, ids, map[], {}).levels == QuietAll(g, ids, map[], {}).levels
  {
    hide VisitedAll, QuietAll, Reaches;
    forall p ensures !Trap(g, p) {
      if Trap(g, p) {
        var last := p[|p| - 1];
        var q :| q in Next(g, last) && !Reaches(g, q, last);
        OnReaches(g, p, q);
      }
    }
    TrapFreeQuiet(g, ids);
  }

  lemma {:induction false} OnReaches(g: Links, p: seq<string>, q: string)
    requires Path(g, p) && q in p && q in Next(g, p[|p| - 1])
    ensures Reaches(g, q, p[|p| - 1])
  {
    var i :| 0 <= i < |p| && p[i] == q;
    var last := p[|p| - 1];
    if i == |p| - 1 {
      assert PathBetween(g, [q, q], q, last);
    } else {
      assert PathBetween(g, p[i..], q, last);
    }
  }

  // ---------------------------------------------------------------- failing inputs

  /** A frame that extends an earlier version of itself is drawn at level 1, not 0. */
  lemma {:induction false} SelfLoopCounts(id: string)
    ensures var g: Links := map[id := [id]];
            && VisitedAll(g, [id], map[], {}).levels == map[id := 1]
            && QuietAll(g, [id], map[], {}).levels == map[id := 0]
  {
    var g: Links := map[id := [id]];
    assert {} + {id} == {id};
    StarvedParents(g, [id], map[], {id});
    assert Visited(g, id, map[], {}) == Seen(1, map[id := 1]);
    assert Quiet(g, id, map[], {}) == Seen(0, map[id := 0]);
    assert [id][1..] == [];
  }

  /** Two frames that extend each other are drawn at levels 2 and 1, not 1 and 0. */
  lemma {:induction false} CycleCounts()
    ensures var g: Links := map["a" := ["b"], "b" := ["a"]];
            && VisitedAll(g, ["a"], map[], {}).levels == map["a" := 2, "b" := 1]
            && QuietAll(g, ["a"], map[], {}).levels == map["a" := 1, "b" := 0]
  {
    var g: Links := map["a" := ["b"], "b" := ["a"]];
    assert {} + {"a"} == {"a"} && {"a"} + {"b"} == {"a", "b"};
    StarvedParents(g, ["a"], map[], {"a", "b"});
    assert Visited(g, "b", map[], {"a"}) == Seen(1, map["b" := 1]);
    assert Quiet(g, "b", map[], {"a"}) == Seen(0, map["b" := 0]);
    assert ["b"][1..] == [] && ["a"][1..] == [];
    assert VisitedAll(g, ["b"], map[], {"a"}) == Seen(1, map["b" := 1]);
    assert QuietAll(g, ["b"], map[], {"a"}) == Seen(0, map["b" := 0]);
    assert Visited(g, "a", map[], {}) == Seen(2, map["b" := 1]["a" := 2]);
    assert Quiet(g, "a", map[], {}) == Seen(1, map["b" := 0]["a" := 1]);
  }
}
