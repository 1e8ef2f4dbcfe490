/** What the drawn rows are: sorted, and on acyclic edges the same however the input is listed. */
module LayoutLaws {
  import opened Hierarchy
  import opened Lineage
  import opened RowOrder
  import opened HierarchyBuild

  // ---------------------------------------------------------------- rows are sorted

  /** Each row lists its level's nodes once, by barycenter and then by id; ties keep node order. */
  lemma {:induction false} RowsAreSorted(frames: seq<Frame>, k: Kept, le: (string, string) -> bool, g: Drawn, l: nat)
    requires KeptWell(frames, k) && Collates(le) && LaidOut(k, le, g) && l < |g.rows|
    ensures var o := RowOrderAt(k, le, g.nodes.at, l);
            && (forall id :: id in g.rows[l] <==> id in g.nodes.at && g.nodes.at[id].level == l)
            && Distinct(g.rows[l]) && SortedAs(o, RowOf(k.nodes.order, g.nodes.at, l), g.rows[l])
  {
    hide IsFrame, IsParent, Placed, Arranged, SortedAs, Collates, LevelsOf;
    var o, row := RowOrderAt(k, le, g.nodes.at, l), RowOf(k.nodes.order, g.nodes.at, l);
    RowMembers(k.nodes.order, g.nodes.at, l);
    assert forall i, j | 0 <= i < j < |row| :: row[i] != row[j];
    assert Distinct(row);
    assert o.le == le;
    ArrangedSorts(o, row);
  }

  lemma {:induction false} NoCols(parents: seq<string>)
    ensures PlacedCols(parents, map[]) == []
  {
    if parents != [] { NoCols(parents[1..]); }
  }

  /** The top row stands by id alone. */
  lemma {:induction false} TopRowById(frames: seq<Frame>, k: Kept, le: (string, string) -> bool, g: Drawn)
    requires KeptWell(frames, k) && Collates(le) && LaidOut(k, le, g) && g.rows != []
    ensures forall i, j | 0 <= i < j < |g.rows[0]| :: le(g.rows[0][i], g.rows[0][j])
  {
    hide KeptWell, LaidOut, Collates, Comes, RowOf;
    RowsAreSorted(frames, k, le, g, 0);
    var o := RowOrderAt(k, le, g.nodes.at, 0);
    assert o.colOf == map[];
    forall id ensures o.At(id) == Infinity { NoCols(Next(k.parents, id)); }
    forall i, j | 0 <= i < j < |g.rows[0]| ensures le(g.rows[0][i], g.rows[0][j]) {
      assert Ahead(o, RowOf(k.nodes.order, g.nodes.at, 0), g.rows[0][i], g.rows[0][j]);
    }
  }

  // ---------------------------------------------------------------- totals over edges

  function Total(f: Edge -> nat, edges: seq<Edge>): nat {
    if edges == [] then 0 else Total(f, edges[..|edges| - 1]) + f(edges[|edges| - 1])
  }

  lemma {:induction false} TotalWithout(f: Edge -> nat, edges: seq<Edge>, i: nat)
    requires i < |edges|
    ensures Total(f, edges) == Total(f, edges[..i] + edges[i + 1..]) + f(edges[i])
  {
    var n := |edges| - 1;
    var rest := edges[..i] + edges[i + 1..];
    if i < n {
      TotalWithout(f, edges[..n], i);
      assert rest[..n - 1] == edges[..n][..i] + edges[..n][i + 1..] && rest[n - 1] == edges[n];
    } else {
      assert rest == edges[..n];
    }
  }

  lemma {:induction false} OneLess(a: seq<Edge>, i: nat)
    requires i < |a|
    ensures multiset(a[..i] + a[i + 1..]) == multiset(a) - multiset{a[i]}
  {
    assert a == a[..i] + [a[i]] + a[i + 1..];
  }

  lemma {:induction false} TotalAnyhow(f: Edge -> nat, a: seq<Edge>, b: seq<Edge>)
    requires multiset(a) == multiset(b)
    ensures Total(f, a) == Total(f, b)
  {
    assert |multiset(a)| == |multiset(b)|;
    if a != [] {
      hide Total;
      var n := |a| - 1;
      assert a[n] in multiset(b);
      var i :| 0 <= i < |b| && b[i] == a[n];
      assert a[..n] + a[n + 1..] == a[..n];
      OneLess(a, n);
      OneLess(b, i);
      TotalAnyhow(f, a[..n], b[..i] + b[i + 1..]);
      TotalWithout(f, a, n);
      TotalWithout(f, b, i);
    }
  }

  // ---------------------------------------------------------------- barycenters

  /** What an edge adds to the sum of a child's placed columns. */
  function ColOf(colOf: map<string, nat>, child: string): Edge -> nat {
    (e: Edge) => if e.child == child && e.parent in colOf then colOf[e.parent] else 0
  }

  /** What an edge adds to their number. */
  function Counts(colOf: map<string, nat>, child: string): Edge -> nat {
    (e: Edge) => if e.child == child && e.parent in colOf then 1 else 0
  }

  lemma {:induction false} ColsCons(p: string, rest: seq<string>, colOf: map<string, nat>)
    ensures PlacedCols([p] + rest, colOf) ==
            if p in colOf then [colOf[p]] + PlacedCols(rest, colOf) else PlacedCols(rest, colOf)
  {
    assert ([p] + rest)[1..] == rest;
  }

  lemma {:induction false} ColsAppend(parents: seq<string>, p: string, colOf: map<string, nat>)
    ensures PlacedCols(parents + [p], colOf) ==
            if p in colOf then PlacedCols(parents, colOf) + [colOf[p]] else PlacedCols(parents, colOf)
  {
    if parents == [] {
      assert [] + [p] == [p];
      ColsCons(p, [], colOf);
    } else {
      hide PlacedCols;
      assert parents == [parents[0]] + parents[1..];
      assert parents + [p] == [parents[0]] + (parents[1..] + [p]);
      ColsAppend(parents[1..], p, colOf);
      ColsCons(parents[0], parents[1..], colOf);
      ColsCons(parents[0], parents[1..] + [p], colOf);
    }
  }

  lemma {:induction false} SumAppend(cols: seq<nat>, c: nat)
    ensures Sum(cols + [c]) == Sum(cols) + c
  {
    if cols == [] {
      assert [] + [c] == [c] && [c][1..] == [];
    } else {
      assert (cols + [c])[1..] == cols[1..] + [c];
      SumAppend(cols[1..], c);
    }
  }

  lemma {:induction false} LastLink(edges: seq<Edge>, id: string)
    requires edges != []
    ensures var n := |edges| - 1;
            Next(UpLinks(edges), id) ==
            Next(UpLinks(edges[..n]), id) + if edges[n].child == id then [edges[n].parent] else []
  {}

  lemma {:induction false} CenterTotals(edges: seq<Edge>, colOf: map<string, nat>, id: string)
    ensures var cols := PlacedCols(Next(UpLinks(edges), id), colOf);
            && Sum(cols) == Total(ColOf(colOf, id), edges)
            && |cols| == Total(Counts(colOf, id), edges)
  {
    if edges != [] {
      hide PlacedCols, Sum, UpLinks;
      var n := |edges| - 1;
      var before := Next(UpLinks(edges[..n]), id);
      CenterTotals(edges[..n], colOf, id);
      LastLink(edges, id);
      var p := edges[n].parent;
      if edges[n].child == id {
        ColsAppend(before, p, colOf);
        if p in colOf { SumAppend(PlacedCols(before, colOf), colOf[p]); }
      } else {
        assert before + [] == before;
      }
    }
  }

  /** A node's barycenter does not depend on the order of its parents' edges. */
  lemma {:induction false} BarycenterAnyhow(a: seq<Edge>, b: seq<Edge>, colOf: map<string, nat>, id: string)
    requires multiset(a) == multiset(b)
    ensures Barycenter(UpLinks(a), colOf, id) == Barycenter(UpLinks(b), colOf, id)
  {
    hide PlacedCols, Sum, UpLinks, Total;
    CenterTotals(a, colOf, id);
    CenterTotals(b, colOf, id);
    TotalAnyhow(ColOf(colOf, id), a, b);
    TotalAnyhow(Counts(colOf, id), a, b);
  }

  // ---------------------------------------------------------------- what the order means

  /** The columns of a node's parents in the rows above, added up over its kept edges. */
  function ColumnSum(g: Drawn, l: nat, id: string): nat { Total(ColOf(ColsAbove(g.nodes.at, l), id), g.edges) }

  /** The number of kept edges that lead from the node to the rows above. */
  function EdgesAbove(g: Drawn, l: nat, id: string): nat { Total(Counts(ColsAbove(g.nodes.at, l), id), g.edges) }

  lemma {:induction false} MeansCompare(a: nat, m: nat, b: nat, n: nat)
    requires m > 0 && n > 0
    ensures a as real / m as real <= b as real / n as real <==> a * n <= b * m
  {
    var x, y := a as real / m as real, b as real / n as real;
    var mn := m as real * n as real;
    assert x * mn == a as real * n as real;
    assert y * mn == b as real * m as real;
    assert (a * n) as real == a as real * n as real;
    assert (b * m) as real == b as real * m as real;
    assert mn > 0.0;
    if x <= y {
      assert x * mn <= y * mn;
    } else {
      assert x * mn > y * mn;
    }
  }

  /** Of two nodes in a row, the first has the smaller mean column of parents above, or the same mean and
      an id that is not greater; a node without parents above stands after all that have some. */
  lemma {:induction false} RowsByMean(frames: seq<Frame>, k: Kept, le: (string, string) -> bool, g: Drawn,
                                      l: nat, i: nat, j: nat)
    requires KeptWell(frames, k) && Collates(le) && LaidOut(k, le, g) && l < |g.rows| && i < j < |g.rows[l]|
    ensures var x, y := g.rows[l][i], g.rows[l][j];
            var a, m, b, n := ColumnSum(g, l, x), EdgesAbove(g, l, x), ColumnSum(g, l, y), EdgesAbove(g, l, y);
            if n == 0 then m == 0 ==> le(x, y)
            else m > 0 && a * n <= b * m && (a * n == b * m ==> le(x, y))
  {
    var x, y := g.rows[l][i], g.rows[l][j];
    var o := RowOrderAt(k, le, g.nodes.at, l);
    RowsAreSorted(frames, k, le, g, l);
    assert o.Precedes(x, y) by { assert Ahead(o, RowOf(k.nodes.order, g.nodes.at, l), x, y); }
    CenterIs(g, k, o, l, x);
    CenterIs(g, k, o, l, y);
    hide KeptWell, LaidOut, Collates, Comes, RowOf, SortedAs, RowOrderAt, ColumnSum, EdgesAbove;
    var a, m, b, n := ColumnSum(g, l, x), EdgesAbove(g, l, x), ColumnSum(g, l, y), EdgesAbove(g, l, y);
    if m > 0 && n > 0 {
      MeansCompare(a, m, b, n);
      MeansCompare(b, n, a, m);
    }
  }

  lemma {:induction false} CenterIs(g: Drawn, k: Kept, o: Order, l: nat, id: string)
    requires g.edges == k.edges && k.parents == UpLinks(k.edges)
    requires o.parents == k.parents && o.colOf == ColsAbove(g.nodes.at, l)
    ensures o.At(id) == if EdgesAbove(g, l, id) == 0 then Infinity
                        else Mean(ColumnSum(g, l, id) as real / EdgesAbove(g, l, id) as real)
  {
    hide PlacedCols, Sum, Total, UpLinks;
    CenterTotals(k.edges, o.colOf, id);
  }

  // ---------------------------------------------------------------- the same drawing

  /** The same frames and edges in any order, every edge's child a frame. */
  ghost predicate SameInput(f: seq<Frame>, e: seq<Edge>, f': seq<Frame>, e': seq<Edge>) {
    && (forall id :: IsFrame(f, id) <==> IsFrame(f', id))
    && multiset(e) == multiset(e')
    && (forall x | x in e :: IsFrame(f, x.child))
  }

  lemma {:induction false} AllKept(frames: seq<Frame>, edges: seq<Edge>)
    requires forall e | e in edges :: IsFrame(frames, e.child)
    ensures WithFrameChild(frames, edges) == edges
  {
    hide IsFrame;
    if edges != [] {
      var n := |edges| - 1;
      assert edges == edges[..n] + [edges[n]];
      AllKept(frames, edges[..n]);
    }
  }

  /** The app's edges are all kept. */
  lemma {:induction false} AppKeepsAll(frames: seq<Frame>, edges: seq<Edge>)
    requires forall e | e in edges :: IsFrame(frames, e.child)
    ensures KeepEdges(frames, edges).edges == edges
  {
    hide IsFrame, KeepEdges;
    forall i: nat, j: nat ensures !LateChild(frames, edges, i, j) {
      if j < |edges| { assert edges[j] in edges; }
    }
    KeptAreFrameChildren(frames, edges);
    AllKept(frames, edges);
  }

  lemma {:induction false} SameMembers(a: seq<Edge>, b: seq<Edge>)
    requires multiset(a) == multiset(b)
    ensures forall e :: e in a <==> e in b
  {
    forall e ensures e in a <==> e in b {
      assert e in a <==> e in multiset(a);
      assert e in b <==> e in multiset(b);
    }
  }

  lemma {:induction false} SameParents(a: seq<Edge>, b: seq<Edge>)
    requires multiset(a) == multiset(b)
    ensures forall x, y :: y in Next(UpLinks(a), x) <==> y in Next(UpLinks(b), x)
    ensures forall id :: IsParent(a, id) <==> IsParent(b, id)
  {
    hide UpLinks;
    SameMembers(a, b);
    forall x, y ensures y in Next(UpLinks(a), x) <==> y in Next(UpLinks(b), x) {
      LinksAreEdges(a, x, y);
      LinksAreEdges(b, x, y);
      assert Extends(a, x, y) <==> Extends(b, x, y);
    }
  }

  /** The same nodes at the same levels. */
  lemma {:induction false} SameLevels(f: seq<Frame>, k: Kept, f': seq<Frame>, k': Kept)
    requires KeptWell(f, k) && KeptWell(f', k') && multiset(k.edges) == multiset(k'.edges)
    requires (forall id :: IsFrame(f, id) <==> IsFrame(f', id)) && Acyclic(UpLinks(k.edges))
    ensures LevelsOf(k) == LevelsOf(k')
  {
    hide IsFrame, IsParent, UpLinks, VisitedAll, Acyclic, Next;
    SameParents(k.edges, k'.edges);
    LevelsAreNodes(f, k);
    LevelsAreNodes(f', k');
    forall id | id in LevelsOf(k) ensures id in LevelsOf(k') && LevelsOf(k)[id] == LevelsOf(k')[id] {
      LevelsIgnoreOrder(k.parents, k'.parents, k.nodes.order, k'.nodes.order, id);
    }
  }

  /** Two drawings of the same graph. */
  ghost predicate Twins(k: Kept, g: Drawn, k': Kept, g': Drawn, le: (string, string) -> bool) {
    && LaidOut(k, le, g) && LaidOut(k', le, g') && LevelsOf(k) == LevelsOf(k')
    && k.parents == UpLinks(k.edges) && k'.parents == UpLinks(k'.edges) && multiset(k.edges) == multiset(k'.edges)
    && k.nodes.Valid() && k'.nodes.Valid() && Collates(le) && Separates(le)
  }

  lemma {:induction false} AsManyRows(k: Kept, g: Drawn, k': Kept, g': Drawn, le: (string, string) -> bool)
    requires Twins(k, g, k', g', le)
    ensures |g.rows| <= |g'.rows|
  {
    hide Placed, RowsArranged, LevelsOf, Nodes.Valid, Collates, Separates, UpLinks, SameButPlaced;
    if |g.rows| != 1 {
      var id :| id in g.nodes.at && g.nodes.at[id].level == |g.rows| - 1;
      assert id in g'.nodes.at;
    }
  }

  /** Rows above l alike, so are the columns above l. */
  lemma {:induction false} SameCols(k: Kept, g: Drawn, k': Kept, g': Drawn, le: (string, string) -> bool, l: nat)
    requires Twins(k, g, k', g', le) && l <= |g.rows| == |g'.rows| && g.rows[..l] == g'.rows[..l]
    ensures ColsAbove(g.nodes.at, l) == ColsAbove(g'.nodes.at, l)
  {
    hide RowsArranged, LevelsOf, Nodes.Valid, Collates, Separates, UpLinks, SameButPlaced;
    forall id | id in ColsAbove(g.nodes.at, l)
      ensures id in ColsAbove(g'.nodes.at, l) && g.nodes.at[id].col == g'.nodes.at[id].col
    {
      var lvl, c := g.nodes.at[id].level, g.nodes.at[id].col;
      assert g.rows[..l][lvl] == g'.rows[..l][lvl];
      assert g'.rows[lvl][c] == id;
    }
  }

  lemma {:induction false} SameRow(k: Kept, g: Drawn, k': Kept, g': Drawn, le: (string, string) -> bool, l: nat)
    requires Twins(k, g, k', g', le) && l < |g.rows| == |g'.rows| && g.rows[..l] == g'.rows[..l]
    ensures g.rows[l] == g'.rows[l]
  {
    hide LevelsOf, Collates, Separates, UpLinks, LaidOut, Arranged, Barycenter, ColsAbove, RowOf, Nodes.Valid;
    RowAsArranged(k, g, le, l);
    RowAsArranged(k', g', le, l);
    var o, o' := RowOrderAt(k, le, g.nodes.at, l), RowOrderAt(k', le, g'.nodes.at, l);
    SameCols(k, g, k', g', le, l);
    forall id ensures o.At(id) == o'.At(id) { BarycenterAnyhow(k.edges, k'.edges, o.colOf, id); }
    RowIds(k, g, le, l);
    RowIds(k', g', le, l);
    ArrangedAnyhow(o, RowOf(k.nodes.order, g.nodes.at, l), o', RowOf(k'.nodes.order, g'.nodes.at, l));
  }

  lemma {:induction false} RowAsArranged(k: Kept, g: Drawn, le: (string, string) -> bool, l: nat)
    requires LaidOut(k, le, g) && l < |g.rows|
    ensures g.rows[l] == Arranged(RowOrderAt(k, le, g.nodes.at, l), RowOf(k.nodes.order, g.nodes.at, l))
  {
    hide SameButPlaced, Placed, LevelsOf, Arranged, RowOf;
  }

  /** A row holds the ids of its level. */
  lemma {:induction false} RowIds(k: Kept, g: Drawn, le: (string, string) -> bool, l: nat)
    requires k.nodes.Valid() && LaidOut(k, le, g)
    ensures Distinct(RowOf(k.nodes.order, g.nodes.at, l))
    ensures forall id :: id in RowOf(k.nodes.order, g.nodes.at, l) <==> id in LevelsOf(k) && LevelsOf(k)[id] == l
  {
    hide LevelsOf, Placed, RowsArranged;
    RowMembers(k.nodes.order, g.nodes.at, l);
  }

  lemma {:induction false} SameRowsAbove(k: Kept, g: Drawn, k': Kept, g': Drawn, le: (string, string) -> bool, l: nat)
    requires Twins(k, g, k', g', le) && l <= |g.rows| == |g'.rows|
    ensures g.rows[..l] == g'.rows[..l]
  {
    hide Twins;
    if l > 0 {
      SameRowsAbove(k, g, k', g', le, l - 1);
      SameRow(k, g, k', g', le, l - 1);
      assert g.rows[..l] == g.rows[..l - 1] + [g.rows[l - 1]];
      assert g'.rows[..l] == g'.rows[..l - 1] + [g'.rows[l - 1]];
    }
  }

  /** On acyclic edges the drawn rows do not depend on the order in which frames and edges are listed. */
  lemma {:induction false} DrawingIgnoresOrder(f: seq<Frame>, e: seq<Edge>, f': seq<Frame>, e': seq<Edge>,
                                               le: (string, string) -> bool, g: Drawn, g': Drawn)
    requires SameInput(f, e, f', e') && Acyclic(UpLinks(e)) && Collates(le) && Separates(le)
    requires LaidOut(KeepEdges(f, e), le, g) && LaidOut(KeepEdges(f', e'), le, g')
    ensures g.rows == g'.rows
    ensures g.nodes.at.Keys == g'.nodes.at.Keys
    ensures forall id | id in g.nodes.at ::
              g.nodes.at[id].level == g'.nodes.at[id].level && g.nodes.at[id].col == g'.nodes.at[id].col
  {
    hide IsFrame, KeepEdges, Acyclic, LevelsOf, UpLinks, Nodes.Valid, Collates, Separates, IsParent, RowsArranged,
      SameButPlaced;
    var k, k' := KeepEdges(f, e), KeepEdges(f', e');
    SameMembers(e, e');
    AppKeepsAll(f, e);
    AppKeepsAll(f', e');
    KeepsWell(f, e);
    KeepsWell(f', e');
    SameLevels(f, k, f', k');
    assert Twins(k, g, k', g', le);
    AsManyRows(k, g, k', g', le);
    AsManyRows(k', g', k, g, le);
    SameRowsAbove(k, g, k', g', le, |g.rows|);
    assert g.rows[..|g.rows|] == g.rows && g'.rows[..|g'.rows|] == g'.rows;
    SameCols(k, g, k', g', le, |g.rows|);
    forall id | id in g.nodes.at ensures g.nodes.at[id].col == g'.nodes.at[id].col {
      assert ColsAbove(g.nodes.at, |g.rows|)[id] == ColsAbove(g'.nodes.at, |g.rows|)[id];
    }
  }

  lemma {:induction false} PairVisited(x: string, y: string)
    requires x != y
    ensures var g: Links := map[x := [y], y := [x]];
            VisitedAll(g, [x, y], map[], {}).levels == map[x := 2, y := 1]
  {
    var g: Links := map[x := [y], y := [x]];
    assert {} + {x} == {x} && {x} + {y} == {x, y};
    assert [x][1..] == [] && [y][1..] == [] && [x, y][1..] == [y];
    assert VisitedAll(g, [x], map[], {x, y}) == Seen(0, map[]);
    assert Visited(g, y, map[], {x}) == Seen(1, map[y := 1]);
    assert VisitedAll(g, [y], map[], {x}) == Seen(1, map[y := 1]);
    assert Visited(g, x, map[], {}) == Seen(2, map[y := 1][x := 2]);
    var done := map[y := 1][x := 2];
    assert VisitedAll(g, [y], done, {}) == Seen(1, done);
    assert VisitedAll(g, [x, y], map[], {}) == Seen(2, done);
  }

  lemma {:induction false} PairNodes(x: Frame, y: Frame)
    requires x.id != y.id
    ensures FrameNodes([x, y]).order == [x.id, y.id] && FrameNodes([x, y]).at.Keys == {x.id, y.id}
  {
    assert [x, y][..1] == [x] && [x][..0] == [];
    assert FrameNodes([x]) == Nodes([x.id], map[x.id := Node(x, 0, 0, false)]);
    assert [x.id] + [y.id] == [x.id, y.id];
  }

  lemma {:induction false} FirstLink(g: Links, child: string, parent: string)
    requires child !in g
    ensures AddLink(g, child, parent) == g[child := [parent]]
  {
    assert [] + [parent] == [parent];
  }

  /** An edge between two nodes adds its link and no node. */
  lemma {:induction false} InnerEdge(k: Kept, e: Edge)
    requires e.child in k.nodes.at && e.parent in k.nodes.at && e.child !in k.parents
    ensures KeepEdge(k, e) == Kept(k.nodes, k.edges + [e], k.parents[e.child := [e.parent]])
  {
    FirstLink(k.parents, e.child, e.parent);
    hide AddLink;
  }

  lemma {:induction false} PairKept(x: Frame, y: Frame, a: Edge, b: Edge)
    requires x.id != y.id && a.child in {x.id, y.id} && a.parent in {x.id, y.id}
    requires b.child == a.parent && b.parent == a.child && a.child != b.child
    ensures var k := KeepEdges([x, y], [a, b]);
            k.nodes.order == [x.id, y.id] && k.parents == map[x.id := [y.id], y.id := [x.id]]
  {
    hide FrameNodes, KeepEdge, KeepEdges;
    var k := Kept(FrameNodes([x, y]), [], map[]);
    PairNodes(x, y);
    TwoEdges([x, y], a, b);
    InnerEdge(k, a);
    InnerEdge(KeepEdge(k, a), b);
  }

  /** On a cycle the drawing does depend on the order of frames: the first one listed is put lower. */
  lemma {:induction false} CycleMindsOrder()
    ensures var a, b := Frame("a", "", "a", "", "1"), Frame("b", "", "b", "", "1");
            var edges := [Edge("a", "b", "1"), Edge("b", "a", "1")];
            && LevelsOf(KeepEdges([a, b], edges)) == map["a" := 2, "b" := 1]
            && LevelsOf(KeepEdges([b, a], edges)) == map["b" := 2, "a" := 1]
  {
    hide KeepEdges, VisitedAll;
    var a, b := Frame("a", "", "a", "", "1"), Frame("b", "", "b", "", "1");
    var up, down := Edge("a", "b", "1"), Edge("b", "a", "1");
    assert "a"[0] != "b"[0];
    PairKept(a, b, up, down);
    PairVisited("a", "b");
    PairKept(b, a, up, down);
    PairVisited("b", "a");
  }
}
