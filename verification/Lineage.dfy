/** The lineage of one frame: a two-direction walk that shares one result set. */
module Lineage {
  import opened Hierarchy

  datatype Edge = Edge(child: string, parent: string, version: string)

  function AddLink(g: Links, from: string, to: string): Links { g[from := Next(g, from) + [to]] }

  /** Each child's parents, in edge order. */
  function UpLinks(edges: seq<Edge>): Links {
    if edges == [] then map[]
    else var n := |edges| - 1; AddLink(UpLinks(edges[..n]), edges[n].child, edges[n].parent)
  }

  /** Each parent's children, in edge order. */
  function DownLinks(edges: seq<Edge>): Links {
    if edges == [] then map[]
    else var n := |edges| - 1; AddLink(DownLinks(edges[..n]), edges[n].parent, edges[n].child)
  }

  predicate Extends(edges: seq<Edge>, child: string, parent: string) {
    exists e | e in edges :: e.child == child && e.parent == parent
  }

  lemma {:induction false} LinksAreEdges(edges: seq<Edge>, x: string, y: string)
    ensures y in Next(UpLinks(edges), x) <==> Extends(edges, x, y)
    ensures x in Next(DownLinks(edges), y) <==> Extends(edges, x, y)
  {
    if edges != [] {
      var n := |edges| - 1;
      LinksAreEdges(edges[..n], x, y);
      assert edges == edges[..n] + [edges[n]];
      assert Extends(edges, x, y) <==>
             Extends(edges[..n], x, y) || (edges[n].child == x && edges[n].parent == y);
    }
  }

  // ---------------------------------------------------------------- one walk

  /** x is reached from start through ids that are not in seen. */
  ghost predicate Spread(g: Links, start: string, seen: set<string>, x: string) {
    exists p :: Avoids(g, p, start, seen, x)
  }

  predicate Avoids(g: Links, p: seq<string>, start: string, seen: set<string>, x: string) {
    PathBetween(g, p, start, x) && |p| >= 2 && forall i | 1 <= i < |p| :: p[i] !in seen
  }

  lemma {:induction false} SpreadStep(g: Links, start: string, seen: set<string>, x: string, y: string)
    requires x == start || Spread(g, start, seen, x)
    requires y in Next(g, x) && y !in seen
    ensures Spread(g, start, seen, y)
  {
    if p :| Avoids(g, p, start, seen, x) {
      assert PathBetween(g, [x, y], x, y);
      PathJoin(g, p, [x, y], start, x, y);
      assert [x, y][1..] == [y];
      assert Avoids(g, p + [y], start, seen, y);
    } else {
      assert Avoids(g, [x, y], start, seen, y);
    }
  }

  /** A set that contains start's links and is closed under them contains all that start spreads to. */
  lemma {:induction false} SpreadClosed(g: Links, start: string, seen: set<string>, all: set<string>,
                                        p: seq<string>, x: string)
    requires Avoids(g, p, start, seen, x)
    requires forall y, z {:trigger z in Next(g, y)} | (y == start || y in all - seen) && z in Next(g, y) :: z in all
    ensures x in all
    decreases |p|
  {
    var n := |p| - 1;
    assert p[(n - 1) + 1] in Next(g, p[n - 1]);
    if n >= 2 { SpreadClosed(g, start, seen, all, p[..n], p[n - 1]); }
  }

  ghost function Targets(g: Links): set<string> { set x, y | x in g && y in g[x] :: y }

  lemma {:induction false} IsTarget(g: Links, x: string, y: string)
    requires y in Next(g, x)
    ensures y in Targets(g)
  {}

  /** Every id found so far that is not waiting on the stack has all its links in result. */
  ghost predicate Expanded(g: Links, start: string, seen: set<string>, result: set<string>, waiting: seq<string>) {
    forall y, z {:trigger z in Next(g, y)} |
      (y == start || y in result - seen) && y !in waiting && z in Next(g, y) :: z in result
  }

  ghost predicate Found(g: Links, start: string, seen: set<string>, result: set<string>, waiting: seq<string>) {
    && seen <= result
    && (forall x | x in result - seen :: Spread(g, start, seen, x))
    && (forall x | x in waiting :: x == start || x in result - seen)
  }

  /** Everything one depth-first walk from start adds to seen. */
  method Walk(g: Links, start: string, seen: set<string>) returns (result: set<string>)
    ensures forall x :: x in result <==> x in seen || Spread(g, start, seen, x)
  {
    hide Spread, Avoids, Targets;
    result := seen;
    var stack := [start];
    while stack != []
      invariant Found(g, start, seen, result, stack)
      invariant Expanded(g, start, seen, result, stack)
      decreases Targets(g) - result, |stack|
    {
      var cur := stack[|stack| - 1];
      stack := stack[..|stack| - 1];
      result, stack := Push(g, start, seen, cur, result, stack);
    }
    forall x | Spread(g, start, seen, x) ensures x in result { SpreadInside(g, start, seen, result, x); }
  }

  lemma {:induction false} SpreadInside(g: Links, start: string, seen: set<string>, all: set<string>, x: string)
    requires Spread(g, start, seen, x) && Expanded(g, start, seen, all, [])
    ensures x in all
  {
    var p :| Avoids(g, p, start, seen, x);
    SpreadClosed(g, start, seen, all, p, x);
  }

  /** One turn of the walk: the unseen links of cur are recorded and pushed. */
  method Push(g: Links, start: string, seen: set<string>, cur: string, found: set<string>, waiting: seq<string>)
    returns (result: set<string>, stack: seq<string>)
    requires Found(g, start, seen, found, waiting + [cur])
    requires Expanded(g, start, seen, found, waiting + [cur])
    ensures Found(g, start, seen, result, stack) && Expanded(g, start, seen, result, stack)
    ensures found <= result
    ensures (result == found && stack == waiting) || Targets(g) - result < Targets(g) - found
  {
    hide Spread, Targets;
    result, stack := found, waiting;
    var links := Next(g, cur);
    for i := 0 to |links|
      invariant Found(g, start, seen, result, stack) && found <= result
      invariant Expanded(g, start, seen, result, stack + [cur])
      invariant forall j | 0 <= j < i :: links[j] in result
      invariant (result == found && stack == waiting) || Targets(g) - result < Targets(g) - found
    {
      var next := links[i];
      if next !in result {
        assert cur in waiting + [cur];
        SpreadStep(g, start, seen, cur, next);
        IsTarget(g, cur, next);
        result := result + {next};
        stack := stack + [next];
      }
    }
  }

  // ---------------------------------------------------------------- both walks

  /** A way to x != focus can be cut so that it leaves focus for good. */
  lemma {:induction false} LeaveFocus(g: Links, focus: string, p: seq<string>, x: string)
    requires PathBetween(g, p, focus, x) && x != focus
    ensures Spread(g, focus, {focus}, x)
    decreases |p|
  {
    assert |p| >= 2;
    if k :| 1 <= k < |p| && p[k] == focus {
      assert Path(g, p[k..]) by {
        forall i | 0 <= i < |p[k..]| - 1 ensures p[k..][i + 1] in Next(g, p[k..][i]) {
          assert p[k + i + 1] in Next(g, p[k + i]);
        }
      }
      LeaveFocus(g, focus, p[k..], x);
    } else {
      assert Avoids(g, p, focus, {focus}, x);
    }
  }

  lemma {:induction false} FirstWalk(g: Links, focus: string, x: string)
    ensures x == focus || Spread(g, focus, {focus}, x) <==> x == focus || Reaches(g, focus, x)
  {
    if x != focus {
      if p :| PathBetween(g, p, focus, x) && |p| >= 2 { LeaveFocus(g, focus, p, x); }
      if p :| Avoids(g, p, focus, {focus}, x) { assert PathBetween(g, p, focus, x); }
    }
  }

  /** x is the focus or one of its ancestors. */
  ghost predicate Above(edges: seq<Edge>, focus: string, x: string) {
    x == focus || Reaches(UpLinks(edges), focus, x)
  }

  /** x is a descendant of the focus. */
  ghost predicate Below(edges: seq<Edge>, focus: string, x: string) { Reaches(DownLinks(edges), focus, x) }

  /** x is reached downwards from the focus without passing through the focus or an ancestor. */
  ghost predicate PlainlyBelow(edges: seq<Edge>, focus: string, x: string) {
    exists p :: PlainPath(edges, focus, p, x)
  }

  ghost predicate PlainPath(edges: seq<Edge>, focus: string, p: seq<string>, x: string) {
    PathBetween(DownLinks(edges), p, focus, x) && |p| >= 2 &&
    forall i | 1 <= i < |p| :: !Above(edges, focus, p[i])
  }

  /** connectedTo: the focus, its ancestors, and the descendants that the second walk can reach; on
      any graph, nothing unrelated. */
  method ConnectedTo(known: set<string>, edges: seq<Edge>, focus: string) returns (result: set<string>)
    ensures focus !in known ==> result == {}
    ensures focus in known ==>
              forall x :: x in result <==> Above(edges, focus, x) || PlainlyBelow(edges, focus, x)
    ensures forall x | x in result :: Above(edges, focus, x) || Below(edges, focus, x)
  {
    hide Above, Spread, PlainlyBelow, Below;
    if focus !in known { return {}; }
    var up: Links, down: Links := map[], map[];
    assert edges[..0] == [];
    for i := 0 to |edges|
      invariant up == UpLinks(edges[..i]) && down == DownLinks(edges[..i])
    {
      var e := edges[i];
      assert edges[..i + 1][..i] == edges[..i];
      up := AddLink(up, e.child, e.parent);
      down := AddLink(down, e.parent, e.child);
    }
    assert edges[..|edges|] == edges;
    result := Walk(up, focus, {focus});
    ghost var above := result;
    forall x ensures x in above <==> Above(edges, focus, x) { AboveIs(edges, focus, x); }
    result := Walk(down, focus, result);
    forall x ensures Spread(down, focus, above, x) <==> PlainlyBelow(edges, focus, x) {
      PlainlyIs(edges, focus, above, x);
    }
    forall x | PlainlyBelow(edges, focus, x) ensures Below(edges, focus, x) { PlainIsBelow(edges, focus, x); }
  }

  lemma {:induction false} PlainIsBelow(edges: seq<Edge>, focus: string, x: string)
    requires PlainlyBelow(edges, focus, x)
    ensures Below(edges, focus, x)
  {
    var p :| PlainPath(edges, focus, p, x);
    assert PathBetween(DownLinks(edges), p, focus, x);
  }

  lemma {:induction false} AboveIs(edges: seq<Edge>, focus: string, x: string)
    ensures Above(edges, focus, x) <==> x in {focus} || Spread(UpLinks(edges), focus, {focus}, x)
  {
    FirstWalk(UpLinks(edges), focus, x);
  }

  lemma {:induction false} PlainlyIs(edges: seq<Edge>, focus: string, above: set<string>, x: string)
    requires forall y :: y in above <==> Above(edges, focus, y)
    ensures Spread(DownLinks(edges), focus, above, x) <==> PlainlyBelow(edges, focus, x)
  {
    hide Above;
    var down := DownLinks(edges);
    if p :| Avoids(down, p, focus, above, x) { assert PlainPath(edges, focus, p, x); }
    if p :| PlainPath(edges, focus, p, x) { assert Avoids(down, p, focus, above, x); }
  }

  // ---------------------------------------------------------------- what is complete

  /** The lineage is the whole lineage: the focus, every ancestor and every descendant. */
  ghost predicate Complete(edges: seq<Edge>, focus: string) {
    forall x | Below(edges, focus, x) :: Above(edges, focus, x) || PlainlyBelow(edges, focus, x)
  }

  /** Every child of a frame that is both above and below the focus is an ancestor of the focus, or
      reached from it by a way down that meets no ancestor. */
  ghost predicate CyclesClosed(edges: seq<Edge>, focus: string) {
    forall x, y {:trigger Extends(edges, y, x)} |
      Above(edges, focus, x) && Below(edges, focus, x) && Extends(edges, y, x) ::
      Above(edges, focus, y) || PlainlyBelow(edges, focus, y)
  }

  lemma {:induction false} BelowStep(edges: seq<Edge>, focus: string, x: string, y: string)
    requires Below(edges, focus, x) && Extends(edges, y, x)
    ensures Below(edges, focus, y)
  {
    hide Extends;
    LinksAreEdges(edges, y, x);
    ReachesStep(DownLinks(edges), x, y);
    ReachesTrans(DownLinks(edges), focus, x, y);
  }

  lemma {:induction false} PlainStep(edges: seq<Edge>, focus: string, x: string, y: string)
    requires x == focus || PlainlyBelow(edges, focus, x)
    requires y in Next(DownLinks(edges), x) && !Above(edges, focus, y)
    ensures PlainlyBelow(edges, focus, y)
  {
    hide Above;
    var down := DownLinks(edges);
    if p :| PlainPath(edges, focus, p, x) {
      assert PathBetween(down, [x, y], x, y);
      PathJoin(down, p, [x, y], focus, x, y);
      assert [x, y][1..] == [y];
      assert PlainPath(edges, focus, p + [y], y);
    } else {
      assert PlainPath(edges, focus, [x, y], y);
    }
  }

  lemma {:induction false} ClosedComplete(edges: seq<Edge>, focus: string, p: seq<string>, x: string)
    requires CyclesClosed(edges, focus) && PathBetween(DownLinks(edges), p, focus, x) && |p| >= 2
    ensures Above(edges, focus, x) || PlainlyBelow(edges, focus, x)
    decreases |p|
  {
    hide Above, PlainlyBelow;
    var n := |p| - 1;
    var down, y := DownLinks(edges), p[n - 1];
    assert p[(n - 1) + 1] in Next(down, p[n - 1]);
    LinksAreEdges(edges, x, y);
    if n == 1 {
      if !Above(edges, focus, x) { PlainStep(edges, focus, focus, x); }
    } else {
      assert PathBetween(down, p[..n], focus, y);
      ClosedComplete(edges, focus, p[..n], y);
      if Above(edges, focus, y) {
        assert Below(edges, focus, y);
        assert Extends(edges, x, y);
      } else if !Above(edges, focus, x) {
        PlainStep(edges, focus, y, x);
      }
    }
  }

  /** The lineage is complete exactly when every child of a frame both above and below the focus is an
      ancestor of the focus or reached from it by a way down that meets no ancestor. */
  lemma {:induction false} CompleteIff(edges: seq<Edge>, focus: string)
    ensures Complete(edges, focus) <==> CyclesClosed(edges, focus)
  {
    hide Above, PlainlyBelow, Extends;
    if Complete(edges, focus) {
      forall x, y | Above(edges, focus, x) && Below(edges, focus, x) && Extends(edges, y, x)
        ensures Above(edges, focus, y) || PlainlyBelow(edges, focus, y)
      {
        BelowStep(edges, focus, x, y);
      }
    }
    if CyclesClosed(edges, focus) {
      forall x | Below(edges, focus, x) ensures Above(edges, focus, x) || PlainlyBelow(edges, focus, x) {
        var p :| PathBetween(DownLinks(edges), p, focus, x) && |p| >= 2;
        ClosedComplete(edges, focus, p, x);
      }
    }
  }

  function Reversed(p: seq<string>): (r: seq<string>)
    ensures |r| == |p| && forall i | 0 <= i < |p| :: r[i] == p[|p| - 1 - i]
  {
    seq(|p|, i requires 0 <= i < |p| => p[|p| - 1 - i])
  }

  /** Descendants are ancestors the other way round. */
  lemma {:induction false} DownIsUpReversed(edges: seq<Edge>, a: string, b: string)
    requires Reaches(DownLinks(edges), a, b)
    ensures Reaches(UpLinks(edges), b, a)
  {
    hide Extends;
    var down, up := DownLinks(edges), UpLinks(edges);
    var p :| PathBetween(down, p, a, b) && |p| >= 2;
    var r := Reversed(p);
    forall i | 0 <= i < |r| - 1 ensures r[i + 1] in Next(up, r[i]) {
      var k := |p| - 2 - i;
      assert p[k + 1] in Next(down, p[k]);
      LinksAreEdges(edges, p[k + 1], p[k]);
    }
    assert PathBetween(up, r, b, a);
  }

  /** On acyclic edges the lineage is exactly the focus, its ancestors and its descendants. */
  lemma {:induction false} AcyclicComplete(edges: seq<Edge>, focus: string)
    requires Acyclic(UpLinks(edges))
    ensures Complete(edges, focus)
  {
    hide Reaches, Complete;
    OffCycleComplete(edges, focus);
  }

  /** So it is when the focus itself is on no cycle, whatever cycles lie elsewhere. */
  lemma {:induction false} OffCycleComplete(edges: seq<Edge>, focus: string)
    requires !Reaches(UpLinks(edges), focus, focus)
    ensures Complete(edges, focus)
  {
    hide Reaches, Extends, PlainlyBelow;
    var up := UpLinks(edges);
    forall x | Below(edges, focus, x) ensures !Above(edges, focus, x) {
      DownIsUpReversed(edges, focus, x);
      if Reaches(up, focus, x) { ReachesTrans(up, focus, x, focus); }
    }
    assert CyclesClosed(edges, focus);
    CompleteIff(edges, focus);
  }

  /** A plain way down starts with a child of the focus that is not above it. */
  lemma {:induction false} PlainFirst(edges: seq<Edge>, focus: string, x: string) returns (child: string)
    requires PlainlyBelow(edges, focus, x)
    ensures Extends(edges, child, focus) && !Above(edges, focus, child)
  {
    hide Above, Extends;
    var p :| PlainPath(edges, focus, p, x);
    assert p[0 + 1] in Next(DownLinks(edges), p[0]);
    child := p[1];
    LinksAreEdges(edges, child, focus);
  }

  lemma {:induction false} AncestorsAreParents(edges: seq<Edge>, focus: string, x: string) returns (child: string)
    requires Reaches(UpLinks(edges), focus, x)
    ensures Extends(edges, child, x)
  {
    hide Extends;
    var p :| PathBetween(UpLinks(edges), p, focus, x) && |p| >= 2;
    var n := |p| - 1;
    assert p[(n - 1) + 1] in Next(UpLinks(edges), p[n - 1]);
    child := p[n - 1];
    LinksAreEdges(edges, child, x);
  }

  /** On a cycle a descendant can be missed: b extends a, a extends b, and c extends b; from a, the
      first walk takes b, so the second never looks below it. */
  lemma {:induction false} CycleMisses()
    ensures var edges := [Edge("b", "a", "1"), Edge("a", "b", "1"), Edge("c", "b", "1")];
            Below(edges, "a", "c") && !Above(edges, "a", "c") && !PlainlyBelow(edges, "a", "c")
  {
    hide Reaches, PlainlyBelow, UpLinks, DownLinks;
    var edges := [Edge("b", "a", "1"), Edge("a", "b", "1"), Edge("c", "b", "1")];
    var up, down := UpLinks(edges), DownLinks(edges);
    assert edges[0] in edges && edges[1] in edges && edges[2] in edges;
    LinksAreEdges(edges, "a", "b");
    LinksAreEdges(edges, "b", "a");
    LinksAreEdges(edges, "c", "b");
    ReachesStep(down, "a", "b");
    ReachesStep(down, "b", "c");
    ReachesTrans(down, "a", "b", "c");
    ReachesStep(up, "a", "b");
    if Reaches(up, "a", "c") {
      var child := AncestorsAreParents(edges, "a", "c");
      assert false;
    }
    if PlainlyBelow(edges, "a", "c") {
      var child := PlainFirst(edges, "a", "c");
      assert false;
    }
  }
}
