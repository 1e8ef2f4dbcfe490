/** The org-wide inheritance graph: levels by longest ancestor chain. */
module Hierarchy {

  /** The parents (or children) listed for each id; an absent id has none. */
  type Links = map<string, seq<string>>

  function Next(g: Links, id: string): seq<string> { if id in g then g[id] else [] }

  // ---------------------------------------------------------------- the levelling

  /** A level, or -1 for no parent at all, and the levels known after computing it. */
  datatype Seen = Seen(level: int, levels: map<string, nat>)

  function Max(a: int, b: int): int { if a >= b then a else b }

  /** visit: the level of id, given the levels known so far and the ids in progress. */
  function Visited(g: Links, id: string, levels: map<string, nat>, busy: set<string>): (r: Seen)
    ensures 0 <= r.level
    decreases g.Keys - busy, 0
  {
    if id in levels then Seen(levels[id], levels)
    else if id in busy then Seen(0, levels)
    else if Next(g, id) == [] then Seen(0, levels[id := 0])
    else
      var r := VisitedAll(g, g[id], levels, busy + {id});
      Seen(r.level + 1, r.levels[id := r.level + 1])
  }

  function VisitedAll(g: Links, ids: seq<string>, levels: map<string, nat>, busy: set<string>): (r: Seen)
    ensures -1 <= r.level
    decreases g.Keys - busy, 1 + |ids|
  {
    if ids == [] then Seen(-1, levels)
    else
      var a := Visited(g, ids[0], levels, busy);
      var b := VisitedAll(g, ids[1..], a.levels, busy);
      Seen(Max(a.level, b.level), b.levels)
  }

  class Leveler {
    var level: map<string, nat>
    var inProgress: set<string>

    constructor ()
      ensures level == map[] && inProgress == {}
    {
      level := map[];
      inProgress := {};
    }

    method Visit(g: Links, id: string) returns (l: nat)
      modifies this
      ensures inProgress == old(inProgress)
      ensures Seen(l, level) == Visited(g, id, old(level), old(inProgress))
      decreases g.Keys - inProgress
    {
      if id in level { return level[id]; }
      if id in inProgress { return 0; }
      ghost var busy := inProgress + {id};
      inProgress := inProgress + {id};
      var max := -1;
      var parents := Next(g, id);
      ghost var goal := VisitedAll(g, parents, level, busy);
      for i := 0 to |parents|
        invariant inProgress == busy && -1 <= max
        invariant var rest := VisitedAll(g, parents[i..], level, busy);
                  goal == Seen(Max(max, rest.level), rest.levels)
      {
        assert parents[i..][1..] == parents[i + 1..];
        var l := Visit(g, parents[i]);
        max := Max(max, l);
      }
      inProgress := inProgress - {id};
      l := max + 1;
      level := level[id := l];
    }
  }

  method ComputeLevels(ids: seq<string>, g: Links) returns (levels: map<string, nat>)
    ensures levels == VisitedAll(g, ids, map[], {}).levels
  {
    var run := new Leveler();
    for i := 0 to |ids|
      invariant run.inProgress == {}
      invariant VisitedAll(g, ids, map[], {}).levels == VisitedAll(g, ids[i..], run.level, {}).levels
    {
      assert ids[i..][1..] == ids[i + 1..];
      var _ := run.Visit(g, ids[i]);
    }
    return run.level;
  }

  // ---------------------------------------------------------------- chains

  /** A way along the links. */
  predicate Path(g: Links, p: seq<string>) {
    p != [] && forall i | 0 <= i < |p| - 1 :: p[i + 1] in Next(g, p[i])
  }

  predicate PathBetween(g: Links, p: seq<string>, from: string, to: string) {
    Path(g, p) && p[0] == from && p[|p| - 1] == to
  }

  /** to is reached from from in at least one step. */
  ghost predicate Reaches(g: Links, from: string, to: string) {
    exists p :: PathBetween(g, p, from, to) && |p| >= 2
  }

  ghost predicate Acyclic(g: Links) { forall id :: !Reaches(g, id, id) }

  /** n is the length of the longest chain of ancestors of id. */
  ghost predicate Longest(g: Links, id: string, n: nat) {
    && (exists p :: Path(g, p) && p[0] == id && |p| == n + 1)
    && (forall p :: Path(g, p) && p[0] == id ==> |p| <= n + 1)
  }

  /** Every known level is the length of the longest ancestor chain. */
  ghost predicate Tight(g: Links, levels: map<string, nat>) { forall id | id in levels :: Longest(g, id, levels[id]) }

  /** Every id in progress is below id. */
  ghost predicate AllBelow(g: Links, busy: set<string>, id: string) { forall x | x in busy :: Reaches(g, x, id) }

  lemma {:induction false} PathJoin(g: Links, p: seq<string>, q: seq<string>, a: string, b: string, c: string)
    requires PathBetween(g, p, a, b) && PathBetween(g, q, b, c)
    ensures PathBetween(g, p + q[1..], a, c) && |p + q[1..]| == |p| + |q| - 1
  {
    var r := p + q[1..];
    forall i | 0 <= i < |r| - 1 ensures r[i + 1] in Next(g, r[i]) {
      if i >= |p| - 1 { assert r[i] == q[i - |p| + 1] && r[i + 1] == q[i - |p| + 2]; }
    }
  }

  lemma {:induction false} ReachesStep(g: Links, id: string, next: string)
    requires next in Next(g, id)
    ensures Reaches(g, id, next)
  {
    assert PathBetween(g, [id, next], id, next);
  }

  lemma {:induction false} ReachesTrans(g: Links, a: string, b: string, c: string)
    requires Reaches(g, a, b) && Reaches(g, b, c)
    ensures Reaches(g, a, c)
  {
    var p :| PathBetween(g, p, a, b) && |p| >= 2;
    var q :| PathBetween(g, q, b, c) && |q| >= 2;
    PathJoin(g, p, q, a, b, c);
  }

  // ---------------------------------------------------------------- what the levelling covers

  lemma {:induction false} VisitedKeeps(g: Links, id: string, levels: map<string, nat>, busy: set<string>)
    ensures var r := Visited(g, id, levels, busy);
            && (forall x | x in levels :: x in r.levels && r.levels[x] == levels[x])
            && (id in r.levels || id in busy)
            && (id in r.levels ==> r.level == r.levels[id])
            && (forall x | x in r.levels :: x in levels || x !in busy)
    decreases g.Keys - busy, 0
  {
    hide VisitedAll;
    if id !in levels && id !in busy && Next(g, id) != [] { VisitedAllKeeps(g, g[id], levels, busy + {id}); }
  }

  lemma {:induction false} VisitedAllKeeps(g: Links, ids: seq<string>, levels: map<string, nat>, busy: set<string>)
    ensures var r := VisitedAll(g, ids, levels, busy);
            && (forall x | x in levels :: x in r.levels && r.levels[x] == levels[x])
            && (forall x | x in ids :: x in r.levels || x in busy)
            && (forall x | x in r.levels :: x in levels || x !in busy)
    decreases g.Keys - busy, 1 + |ids|
  {
    hide Visited;
    if ids != [] {
      VisitedKeeps(g, ids[0], levels, busy);
      VisitedAllKeeps(g, ids[1..], Visited(g, ids[0], levels, busy).levels, busy);
    }
  }

  /** On any graph, cyclic or not, every id gets a level. */
  lemma {:induction false} EveryIdLevelled(g: Links, ids: seq<string>)
    ensures forall x | x in ids :: x in VisitedAll(g, ids, map[], {}).levels
  {
    VisitedAllKeeps(g, ids, map[], {});
  }

  // ---------------------------------------------------------------- acyclic graphs

  /** The greatest level among the ids, or -1. */
  ghost predicate Greatest(ids: seq<string>, levels: map<string, nat>, m: int) {
    && (forall x | x in ids :: x in levels && levels[x] <= m)
    && (if ids == [] then m == -1 else exists x | x in ids && x in levels :: levels[x] == m)
  }

  lemma {:induction false} LongestStep(g: Links, id: string, levels: map<string, nat>, m: int)
    requires Tight(g, levels) && Greatest(Next(g, id), levels, m) && m >= -1
    ensures Longest(g, id, m + 1)
  {
    hide Next, Longest;
    var q: seq<string>;
    if Next(g, id) == [] {
      q := [id];
      OnePath(g, id);
    } else {
      var x :| x in Next(g, id) && x in levels && levels[x] == m;
      assert Longest(g, x, m);
      var p := LongestPath(g, x, m);
      q := [id] + p;
      PathCons(g, id, p);
    }
    forall p | Path(g, p) && p[0] == id ensures |p| <= m + 2 {
      if |p| > 1 {
        PathTail(g, p);
        assert Longest(g, p[1], levels[p[1]]);
        LongestBound(g, p[1], levels[p[1]], p[1..]);
      }
    }
    LongestIs(g, id, m + 1, q);
  }

  lemma {:induction false} OnePath(g: Links, id: string)
    ensures Path(g, [id])
  {}

  lemma {:induction false} PathCons(g: Links, id: string, p: seq<string>)
    requires Path(g, p) && p[0] in Next(g, id)
    ensures Path(g, [id] + p)
  {
    hide Next;
    var q := [id] + p;
    forall i | 0 <= i < |q| - 1 ensures q[i + 1] in Next(g, q[i]) {
      if i > 0 { assert q[i + 1] == p[(i - 1) + 1] && q[i] == p[i - 1]; }
    }
  }

  lemma {:induction false} PathTail(g: Links, p: seq<string>)
    requires Path(g, p) && |p| > 1
    ensures p[1] in Next(g, p[0]) && Path(g, p[1..])
  {
    hide Next;
    assert p[0 + 1] in Next(g, p[0]);
    var r := p[1..];
    forall i | 0 <= i < |r| - 1 ensures r[i + 1] in Next(g, r[i]) { assert p[(i + 1) + 1] in Next(g, p[i + 1]); }
  }

  lemma {:induction false} LongestPath(g: Links, id: string, n: nat) returns (p: seq<string>)
    requires Longest(g, id, n)
    ensures Path(g, p) && p[0] == id && |p| == n + 1
  {
    hide Next;
    p :| Path(g, p) && p[0] == id && |p| == n + 1;
  }

  lemma {:induction false} LongestBound(g: Links, id: string, n: nat, p: seq<string>)
    requires Longest(g, id, n) && Path(g, p) && p[0] == id
    ensures |p| <= n + 1
  {}

  lemma {:induction false} LongestIs(g: Links, id: string, n: nat, q: seq<string>)
    requires Path(g, q) && q[0] == id && |q| == n + 1
    requires forall p | Path(g, p) && p[0] == id :: |p| <= n + 1
    ensures Longest(g, id, n)
  {}

  lemma {:induction false} VisitedTight(g: Links, id: string, levels: map<string, nat>, busy: set<string>)
    requires Acyclic(g) && Tight(g, levels) && AllBelow(g, busy, id)
    ensures var r := Visited(g, id, levels, busy); id in r.levels && r.levels[id] == r.level && Tight(g, r.levels)
    decreases g.Keys - busy, 0
  {
    hide VisitedAll, Longest, Reaches;
    VisitedKeeps(g, id, levels, busy);
    if id !in levels {
      assert id !in busy;
      var ps := Next(g, id);
      if ps == [] {
        LongestStep(g, id, levels, -1);
      } else {
        forall x, y | x in busy + {id} && y in ps ensures Reaches(g, x, y) {
          ReachesStep(g, id, y);
          if x != id { ReachesTrans(g, x, id, y); }
        }
        VisitedAllTight(g, ps, levels, busy + {id});
        var r := VisitedAll(g, ps, levels, busy + {id});
        LongestStep(g, id, r.levels, r.level);
      }
    }
  }

  lemma {:induction false} VisitedAllTight(g: Links, ids: seq<string>, levels: map<string, nat>, busy: set<string>)
    requires Acyclic(g) && Tight(g, levels) && forall y | y in ids :: AllBelow(g, busy, y)
    ensures var r := VisitedAll(g, ids, levels, busy); Tight(g, r.levels) && Greatest(ids, r.levels, r.level)
    decreases g.Keys - busy, 1 + |ids|
  {
    hide Visited, Tight, AllBelow, Acyclic;
    if ids != [] {
      VisitedTight(g, ids[0], levels, busy);
      var a := Visited(g, ids[0], levels, busy);
      VisitedAllTight(g, ids[1..], a.levels, busy);
      var b := VisitedAll(g, ids[1..], a.levels, busy);
      VisitedAllKeeps(g, ids[1..], a.levels, busy);
      assert ids == [ids[0]] + ids[1..];
      var r := VisitedAll(g, ids, levels, busy);
      assert b.levels[ids[0]] == a.level;
      if a.level >= b.level { assert r.levels[ids[0]] == r.level; }
    }
  }

  /** On acyclic links every id's level is the length of its longest ancestor chain. */
  lemma {:induction false} LevelsAreLongest(g: Links, ids: seq<string>)
    requires Acyclic(g)
    ensures Tight(g, VisitedAll(g, ids, map[], {}).levels)
  {
    hide Acyclic, Reaches;
    VisitedAllTight(g, ids, map[], {});
  }

  lemma {:induction false} LongestUnique(g: Links, id: string, m: nat, n: nat)
    requires Longest(g, id, m) && Longest(g, id, n)
    ensures m == n
  {}

  /** Neither the visiting order nor the order of parents changes an acyclic graph's levels. */
  lemma {:induction false} LevelsIgnoreOrder(g: Links, h: Links, a: seq<string>, b: seq<string>, id: string)
    requires Acyclic(g) && id in a && id in b
    requires forall x, y :: y in Next(g, x) <==> y in Next(h, x)
    ensures var la, lb := VisitedAll(g, a, map[], {}).levels, VisitedAll(h, b, map[], {}).levels;
            id in la && id in lb && la[id] == lb[id]
  {
    hide Acyclic, Longest, VisitedAll, Next;
    SamePaths(g, h);
    LevelsAreLongest(g, a);
    LevelsAreLongest(h, b);
    EveryIdLevelled(g, a);
    EveryIdLevelled(h, b);
    var la, lb := VisitedAll(g, a, map[], {}).levels, VisitedAll(h, b, map[], {}).levels;
    LongestUnique(g, id, la[id], lb[id]);
  }

  lemma {:induction false} SamePaths(g: Links, h: Links)
    requires forall x, y :: y in Next(g, x) <==> y in Next(h, x)
    ensures Acyclic(g) <==> Acyclic(h)
    ensures forall id, n: nat :: Longest(g, id, n) <==> Longest(h, id, n)
  {
    hide Next;
    assert forall p :: Path(g, p) <==> Path(h, p);
    forall a, b ensures Reaches(g, a, b) <==> Reaches(h, a, b) {
      if p :| PathBetween(g, p, a, b) && |p| >= 2 { assert PathBetween(h, p, a, b); }
      if p :| PathBetween(h, p, a, b) && |p| >= 2 { assert PathBetween(g, p, a, b); }
    }
    assert forall id, n: nat :: Longest(g, id, n) ==> Longest(h, id, n);
    assert forall id, n: nat :: Longest(h, id, n) ==> Longest(g, id, n);
  }

  /** Each level is strictly below the levels of its parents. */
  ghost predicate Descending(g: Links, levels: map<string, nat>) {
    forall x, y {:trigger y in Next(g, x)} | y in Next(g, x) :: x in levels && y in levels && levels[x] > levels[y]
  }

  lemma {:induction false} DescendingPath(g: Links, levels: map<string, nat>, p: seq<string>)
    requires Descending(g, levels) && Path(g, p) && |p| >= 2
    ensures p[0] in levels && p[|p| - 1] in levels && levels[p[0]] > levels[p[|p| - 1]]
    decreases |p|
  {
    assert p[0 + 1] in Next(g, p[0]);
    assert levels[p[0]] > levels[p[1]];
    if |p| > 2 {
      var r := p[1..];
      assert forall i | 0 <= i < |r| :: r[i] == p[i + 1];
      DescendingPath(g, levels, r);
    }
  }

  /** When all ids of the graph are levelled, every frame is strictly below all its parents exactly
      when the graph is acyclic. */
  lemma {:induction false} BelowParentsIffAcyclic(g: Links, ids: seq<string>)
    requires forall x, y {:trigger y in Next(g, x)} | y in Next(g, x) :: x in ids && y in ids
    ensures Descending(g, VisitedAll(g, ids, map[], {}).levels) <==> Acyclic(g)
  {
    hide VisitedAll, Longest, Path, Tight;
    var levels := VisitedAll(g, ids, map[], {}).levels;
    EveryIdLevelled(g, ids);
    if Descending(g, levels) {
      forall id ensures !Reaches(g, id, id) {
        if p :| PathBetween(g, p, id, id) && |p| >= 2 { DescendingPath(g, levels, p); }
      }
    }
    if Acyclic(g) {
      LevelsAreLongest(g, ids);
      forall x, y | y in Next(g, x) ensures x in levels && y in levels && levels[x] > levels[y] {
        assert x in ids && y in ids;
        LongerAbove(g, levels, x, y);
      }
    }
  }

  lemma {:induction false} LongerAbove(g: Links, levels: map<string, nat>, x: string, y: string)
    requires Tight(g, levels) && x in levels && y in levels && y in Next(g, x)
    ensures levels[x] > levels[y]
  {
    assert Longest(g, y, levels[y]) && Longest(g, x, levels[x]);
    var p :| Path(g, p) && p[0] == y && |p| == levels[y] + 1;
    var q := [x] + p;
    assert forall i | 1 <= i < |q| :: q[i] == p[i - 1];
    assert Path(g, q);
  }

  /** A level above 0 has a parent exactly one level up, so on acyclic links no level is skipped. */
  lemma {:induction false} ParentOneUp(g: Links, levels: map<string, nat>, x: string) returns (y: string)
    requires Tight(g, levels) && x in levels && levels[x] > 0
    requires forall z | z in Next(g, x) :: z in levels
    ensures y in Next(g, x) && levels[y] == levels[x] - 1
  {
    assert Longest(g, x, levels[x]);
    var p :| Path(g, p) && p[0] == x && |p| == levels[x] + 1;
    assert p[0 + 1] in Next(g, p[0]);
    y := p[1];
    var r := p[1..];
    assert forall i | 0 <= i < |r| :: r[i] == p[i + 1];
    assert Path(g, r) && r[0] == y;
    assert Longest(g, y, levels[y]);
    LongerAbove(g, levels, x, y);
  }
}
