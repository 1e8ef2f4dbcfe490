/** Building the drawn graph: nodes, kept edges, levels, rows and columns. */
module HierarchyBuild {
  import opened Text
  import opened Hierarchy
  import opened Lineage
  import opened RowOrder

  datatype Frame = Frame(id: string, orgSlug: string, name: string, description: string, latestVersion: string)

  datatype Node = Node(frame: Frame, level: nat, col: nat, external: bool)

  /** A JavaScript Map: keys keep the order they were first set in. */
  datatype Nodes = Nodes(order: seq<string>, at: map<string, Node>)
  {
    function Set(id: string, n: Node): Nodes { Nodes(if id in at then order else order + [id], at[id := n]) }

    ghost predicate Valid() {
      && (forall id :: id in order <==> id in at)
      && (forall i, j | 0 <= i < j < |order| :: order[i] != order[j])
      && (forall id | id in at :: at[id].frame.id == id)
    }
  }

  predicate IsFrame(frames: seq<Frame>, id: string) { exists f | f in frames :: f.id == id }

  /** A node for a parent ref with no frame record; its name is the part after the first slash. */
  function Placeholder(id: string): Node {
    var n := FindSlash(id, 0);
    var name := if n == |id| then id else id[n + 1..FindSlash(id, n + 1)];
    Node(Frame(id, id[..n], name, "", ""), 0, 0, true)
  }

  function FrameNodes(frames: seq<Frame>): Nodes {
    if frames == [] then Nodes([], map[])
    else
      var n := |frames| - 1;
      FrameNodes(frames[..n]).Set(frames[n].id, Node(frames[n], 0, 0, false))
  }

  datatype Kept = Kept(nodes: Nodes, edges: seq<Edge>, parents: Links)

  /** One edge: dropped when its child is unknown, else kept, with a placeholder for an unknown parent. */
  function KeepEdge(k: Kept, e: Edge): Kept {
    if e.child !in k.nodes.at then k
    else
      Kept(if e.parent in k.nodes.at then k.nodes else k.nodes.Set(e.parent, Placeholder(e.parent)),
           k.edges + [e], AddLink(k.parents, e.child, e.parent))
  }

  function KeepEdges(frames: seq<Frame>, edges: seq<Edge>): Kept {
    if edges == [] then Kept(FrameNodes(frames), [], map[])
    else KeepEdge(KeepEdges(frames, edges[..|edges| - 1]), edges[|edges| - 1])
  }

  // ---------------------------------------------------------------- nodes and edges

  lemma {:induction false} SetValid(ns: Nodes, id: string, n: Node)
    requires ns.Valid() && n.frame.id == id
    ensures ns.Set(id, n).Valid()
  {
    var next := ns.Set(id, n);
    if id !in ns.at {
      assert id !in ns.order;
      assert forall x :: x in next.order <==> x in ns.order || x == id;
    }
  }

  lemma {:induction false} NoNodes()
    ensures Nodes([], map[]).Valid()
  {}

  lemma {:induction false} IsFrameStep(frames: seq<Frame>, f: Frame, id: string)
    ensures IsFrame(frames + [f], id) <==> IsFrame(frames, id) || f.id == id
  {
    if IsFrame(frames, id) {
      var x :| x in frames && x.id == id;
      assert x in frames + [f];
    }
  }

  lemma {:induction false} FrameNodesAre(frames: seq<Frame>)
    ensures var ns := FrameNodes(frames);
            ns.Valid() && forall id :: id in ns.at <==> IsFrame(frames, id)
    ensures forall id | id in FrameNodes(frames).at :: !FrameNodes(frames).at[id].external
  {
    hide Nodes.Valid;
    if frames == [] {
      assert Nodes([], map[]).Valid() by { NoNodes(); }
    } else {
      hide IsFrame;
      var n := |frames| - 1;
      FrameNodesAre(frames[..n]);
      assert frames == frames[..n] + [frames[n]];
      SetValid(FrameNodes(frames[..n]), frames[n].id, Node(frames[n], 0, 0, false));
      forall id ensures IsFrame(frames, id) <==> IsFrame(frames[..n], id) || frames[n].id == id {
        IsFrameStep(frames[..n], frames[n], id);
      }
    }
  }

  predicate IsParent(edges: seq<Edge>, id: string) { exists e | e in edges :: e.parent == id }

  /** What is known of the graph whatever the edges: the nodes are the frames and the kept edges'
      parents, the placeholders being the ones that are no frame. */
  ghost predicate KeptWell(frames: seq<Frame>, k: Kept) {
    && k.nodes.Valid()
    && (forall id :: id in k.nodes.at <==> IsFrame(frames, id) || IsParent(k.edges, id))
    && (forall id | id in k.nodes.at :: k.nodes.at[id].external <==> !IsFrame(frames, id))
    && (forall e | e in k.edges :: e.child in k.nodes.at)
    && k.parents == UpLinks(k.edges)
  }

  lemma {:induction false} KeepsWell(frames: seq<Frame>, edges: seq<Edge>)
    ensures KeptWell(frames, KeepEdges(frames, edges))
  {
    hide IsFrame, UpLinks, FrameNodes, KeepEdge;
    FrameNodesAre(frames);
    if edges == [] {
      assert UpLinks([]) == map[] by { NoLinks(); }
    } else {
      var n := |edges| - 1;
      KeepsWell(frames, edges[..n]);
      KeepsOne(frames, KeepEdges(frames, edges[..n]), edges[n]);
    }
  }

  lemma {:induction false} NoLinks()
    ensures UpLinks([]) == map[]
  {}

  lemma {:induction false} LinksAppend(edges: seq<Edge>, e: Edge)
    ensures UpLinks(edges + [e]) == AddLink(UpLinks(edges), e.child, e.parent)
  {
    assert (edges + [e])[..|edges|] == edges;
  }

  lemma {:induction false} KeepsOne(frames: seq<Frame>, k: Kept, e: Edge)
    requires KeptWell(frames, k)
    ensures KeptWell(frames, KeepEdge(k, e))
  {
    hide IsFrame, UpLinks, AddLink, Placeholder, Nodes.Valid;
    if e.child in k.nodes.at {
      LinksAppend(k.edges, e);
      PlaceholderIs(e.parent);
      SetValid(k.nodes, e.parent, Placeholder(e.parent));
      var next := KeepEdge(k, e);
      ParentsOf(frames, k, e);
      assert forall x | x in next.edges :: x in k.edges || x == e;
    }
  }

  lemma {:induction false} PlaceholderIs(id: string)
    ensures Placeholder(id).external && Placeholder(id).frame.id == id
  {}

  /** One more kept edge adds at most its parent to the nodes. */
  lemma {:induction false} ParentsOf(frames: seq<Frame>, k: Kept, e: Edge)
    requires KeptWell(frames, k) && e.child in k.nodes.at
    ensures var next := KeepEdge(k, e);
            forall id :: id in next.nodes.at <==> IsFrame(frames, id) || IsParent(next.edges, id)
  {
    hide IsFrame, UpLinks, AddLink, Placeholder, Nodes.Valid;
    var next := KeepEdge(k, e);
    forall id ensures IsParent(next.edges, id) <==> IsParent(k.edges, id) || e.parent == id {
      ParentAppend(k.edges, e, id);
    }
  }

  lemma {:induction false} ParentAppend(edges: seq<Edge>, e: Edge, id: string)
    ensures IsParent(edges + [e], id) <==> IsParent(edges, id) || e.parent == id
  {
    if x :| x in edges && x.parent == id { assert x in edges + [e]; }
    assert e in edges + [e];
  }

  // ---------------------------------------------------------------- what a node carries

  /** f is the last listed frame with this id. */
  predicate LastFrame(frames: seq<Frame>, id: string, f: Frame) {
    exists i | 0 <= i < |frames| :: frames[i] == f && f.id == id && forall j | i < j < |frames| :: frames[j].id != id
  }

  /** What stands for a parent without a record: the part before its first slash as org, the part from
      there to the next one as name, or the whole ref as both. */
  predicate StandIn(id: string, f: Frame) {
    && f.id == id && f.description == "" && f.latestVersion == ""
    && if '/' in id then
         && '/' !in f.orgSlug && '/' !in f.name
         && (id == f.orgSlug + "/" + f.name || f.orgSlug + "/" + f.name + "/" <= id)
       else f.orgSlug == id && f.name == id
  }

  /** A node not drawn yet carries the last frame listed under its id, or stands in for it. */
  ghost predicate Carries(frames: seq<Frame>, n: Node, id: string) {
    && n.level == 0 && n.col == 0 && n.external == !IsFrame(frames, id)
    && if IsFrame(frames, id) then LastFrame(frames, id, n.frame) else StandIn(id, n.frame)
  }

  lemma {:induction false} SlashParts(id: string, n: nat, m: nat)
    requires n < m <= |id| && id[n] == '/'
    ensures id[..m] == id[..n] + "/" + id[n + 1..m]
    ensures m < |id| && id[m] == '/' ==> id[..n] + "/" + id[n + 1..m] + "/" <= id
  {
    if m < |id| { assert id[..m + 1] == id[..m] + [id[m]]; }
  }

  lemma {:induction false} NoSlash(s: string, i: nat, n: nat)
    requires i <= n <= |s| && forall k | i <= k < n :: s[k] != '/'
    ensures '/' !in s[i..n]
  {}

  lemma {:induction false} SlashIn(s: string, n: nat)
    requires n <= |s| && (forall k | 0 <= k < n :: s[k] != '/') && (n < |s| ==> s[n] == '/')
    ensures '/' in s <==> n < |s|
  {
    if n < |s| { assert s[n] in s; }
  }

  lemma {:induction false} PlaceholderStandsIn(id: string)
    ensures StandIn(id, Placeholder(id).frame)
  {
    var n := FindSlash(id, 0);
    var f := Placeholder(id).frame;
    assert f.id == id && f.description == "" && f.latestVersion == "" && f.orgSlug == id[..n];
    assert f.name == if n == |id| then id else id[n + 1..FindSlash(id, n + 1)];
    SlashFound(id, 0);
    SlashIn(id, n);
    NoSlash(id, 0, n);
    assert id[0..n] == id[..n];
    if n < |id| {
      var m := FindSlash(id, n + 1);
      SlashFound(id, n + 1);
      NoSlash(id, n + 1, m);
      hide FindSlash, Placeholder;
      SlashParts(id, n, m);
      if m == |id| { assert id[..m] == id; }
    } else {
      assert id[..n] == id;
    }
  }

  lemma {:induction false} FramesCarry(frames: seq<Frame>)
    ensures forall id | id in FrameNodes(frames).at :: Carries(frames, FrameNodes(frames).at[id], id)
  {
    hide StandIn;
    if frames != [] {
      var n := |frames| - 1;
      var init, last := frames[..n], frames[n];
      FramesCarry(init);
      FrameNodesAre(frames);
      FrameNodesAre(init);
      assert frames == init + [last];
      hide IsFrame, LastFrame;
      forall id | id in FrameNodes(frames).at ensures Carries(frames, FrameNodes(frames).at[id], id) {
        if id == last.id {
          LastFrameIsLast(init, last);
        } else {
          LastFrameLonger(init, last, id, FrameNodes(init).at[id].frame);
        }
      }
    }
  }

  lemma {:induction false} LastFrameIsLast(frames: seq<Frame>, last: Frame)
    ensures LastFrame(frames + [last], last.id, last)
  {
    assert (frames + [last])[|frames|] == last;
  }

  lemma {:induction false} LastFrameLonger(frames: seq<Frame>, last: Frame, id: string, f: Frame)
    requires LastFrame(frames, id, f) && last.id != id
    ensures LastFrame(frames + [last], id, f)
  {
    var i :| 0 <= i < |frames| && frames[i] == f && f.id == id && forall j | i < j < |frames| :: frames[j].id != id;
    assert (frames + [last])[i] == f;
  }

  /** Every node of the kept graph carries its frame's data, or stands in for a parent without a record. */
  lemma {:induction false} NodesCarry(frames: seq<Frame>, edges: seq<Edge>)
    ensures var k := KeepEdges(frames, edges);
            forall id | id in k.nodes.at :: Carries(frames, k.nodes.at[id], id)
  {
    hide FrameNodes, LastFrame, StandIn, IsFrame, AddLink;
    if edges == [] {
      FramesCarry(frames);
    } else {
      var n := |edges| - 1;
      NodesCarry(frames, edges[..n]);
      KeepsWell(frames, edges[..n]);
      PlaceholderStandsIn(edges[n].parent);
      PlaceholderIs(edges[n].parent);
      PlaceholderPlain(edges[n].parent);
      hide Placeholder;
    }
  }

  lemma {:induction false} PlaceholderPlain(id: string)
    ensures Placeholder(id).level == 0 && Placeholder(id).col == 0
  {}

  /** Drawing keeps that: a drawn node has the data of its frame, or of a stand-in. */
  lemma {:induction false} DrawnCarries(frames: seq<Frame>, edges: seq<Edge>, le: (string, string) -> bool, g: Drawn,
                                        id: string)
    requires id in g.nodes.at
    ensures LaidOut(KeepEdges(frames, edges), le, g) ==>
              var n := g.nodes.at[id];
              && n.external == !IsFrame(frames, id)
              && if IsFrame(frames, id) then LastFrame(frames, id, n.frame) else StandIn(id, n.frame)
  {
    hide Placed, RowsArranged, LevelsOf, KeepEdge, FrameNodes;
    var k := KeepEdges(frames, edges);
    if LaidOut(k, le, g) {
      NodeCarries(frames, edges, id);
      CarriedOn(frames, k.nodes.at[id], g.nodes.at[id], id);
    }
  }

  lemma {:induction false} NodeCarries(frames: seq<Frame>, edges: seq<Edge>, id: string)
    requires id in KeepEdges(frames, edges).nodes.at
    ensures Carries(frames, KeepEdges(frames, edges).nodes.at[id], id)
  {
    NodesCarry(frames, edges);
  }

  lemma {:induction false} CarriedOn(frames: seq<Frame>, m: Node, n: Node, id: string)
    requires Carries(frames, m, id) && n == m.(level := n.level, col := n.col)
    ensures n.external == !IsFrame(frames, id)
    ensures if IsFrame(frames, id) then LastFrame(frames, id, n.frame) else StandIn(id, n.frame)
  {
    hide IsFrame, LastFrame, StandIn;
  }

  function WithFrameChild(frames: seq<Frame>, edges: seq<Edge>): seq<Edge> {
    if edges == [] then []
    else
      var n := |edges| - 1;
      WithFrameChild(frames, edges[..n]) + if IsFrame(frames, edges[n].child) then [edges[n]] else []
  }

  /** An edge whose child is no frame but the parent of an earlier edge from a frame. */
  predicate LateChild(frames: seq<Frame>, edges: seq<Edge>, i: nat, j: nat) {
    i < j < |edges| && IsFrame(frames, edges[i].child) && edges[i].parent == edges[j].child &&
    !IsFrame(frames, edges[j].child)
  }

  lemma {:induction false} FrameChildren(frames: seq<Frame>, edges: seq<Edge>)
    ensures forall e :: e in WithFrameChild(frames, edges) <==> e in edges && IsFrame(frames, e.child)
  {
    hide IsFrame;
    if edges != [] {
      FrameChildren(frames, edges[..|edges| - 1]);
      assert edges == edges[..|edges| - 1] + [edges[|edges| - 1]];
    }
  }

  lemma {:induction false} KeepEdgeEdges(k: Kept, e: Edge)
    ensures KeepEdge(k, e).edges == if e.child in k.nodes.at then k.edges + [e] else k.edges
  {}

  lemma {:induction false} KeptGrows(frames: seq<Frame>, edges: seq<Edge>, m: nat, e: Edge)
    requires m <= |edges| && e in KeepEdges(frames, edges[..m]).edges
    ensures e in KeepEdges(frames, edges).edges
    decreases |edges|
  {
    hide KeepEdge, FrameNodes;
    if m == |edges| {
      assert edges[..m] == edges;
    } else {
      var n := |edges| - 1;
      assert edges[..n][..m] == edges[..m];
      KeptGrows(frames, edges[..n], m, e);
      KeepEdgeEdges(KeepEdges(frames, edges[..n]), edges[n]);
    }
  }

  /** An edge is kept when its child is a node by the time it is reached. */
  lemma {:induction false} KeptWhenKnown(frames: seq<Frame>, edges: seq<Edge>, i: nat)
    requires i < |edges| && edges[i].child in KeepEdges(frames, edges[..i]).nodes.at
    ensures edges[i] in KeepEdges(frames, edges).edges
  {
    hide KeepEdge, FrameNodes;
    assert edges[..i + 1][..i] == edges[..i];
    KeepEdgeEdges(KeepEdges(frames, edges[..i]), edges[i]);
    KeptGrows(frames, edges, i + 1, edges[i]);
  }

  lemma {:induction false} LateKept(frames: seq<Frame>, edges: seq<Edge>, i: nat, j: nat)
    requires LateChild(frames, edges, i, j)
    ensures edges[j] in KeepEdges(frames, edges).edges && edges[j] !in WithFrameChild(frames, edges)
  {
    hide IsFrame, KeepEdges;
    var before := edges[..j];
    assert before[..i] == edges[..i] && before[i] == edges[i];
    KeepsWell(frames, edges[..i]);
    KeptWhenKnown(frames, before, i);
    KeepsWell(frames, before);
    KeptWhenKnown(frames, edges, j);
    FrameChildren(frames, edges);
  }

  lemma {:induction false} LateFrom(frames: seq<Frame>, edges: seq<Edge>) returns (i: nat)
    requires edges != []
    requires var n := |edges| - 1;
             var k := KeepEdges(frames, edges[..n]);
             && k.edges == WithFrameChild(frames, edges[..n])
             && edges[n].child in k.nodes.at && !IsFrame(frames, edges[n].child)
    ensures LateChild(frames, edges, i, |edges| - 1)
  {
    hide IsFrame, KeepEdges;
    var n := |edges| - 1;
    var init := edges[..n];
    KeepsWell(frames, init);
    FrameChildren(frames, init);
    var x :| x in KeepEdges(frames, init).edges && x.parent == edges[n].child;
    i :| 0 <= i < n && init[i] == x;
  }

  lemma {:induction false} NoneLate(frames: seq<Frame>, edges: seq<Edge>)
    requires forall i: nat, j: nat :: !LateChild(frames, edges, i, j)
    ensures KeepEdges(frames, edges).edges == WithFrameChild(frames, edges)
  {
    hide IsFrame, KeepEdge, FrameNodes;
    if edges != [] {
      var n := |edges| - 1;
      var init, e := edges[..n], edges[n];
      forall i: nat, j: nat ensures !LateChild(frames, init, i, j) { assert !LateChild(frames, edges, i, j); }
      NoneLate(frames, init);
      KeepsWell(frames, init);
      var k := KeepEdges(frames, init);
      KeepEdgeEdges(k, e);
      FrameChildren(frames, init);
      if e.child in k.nodes.at && !IsFrame(frames, e.child) {
        var i := LateFrom(frames, edges);
        assert false;
      }
    }
  }

  /** The kept edges are those whose child is a frame exactly when no external child comes after an
      edge that made a placeholder of it: whether an edge is kept depends on the order of edges. */
  lemma {:induction false} KeptAreFrameChildren(frames: seq<Frame>, edges: seq<Edge>)
    ensures KeepEdges(frames, edges).edges == WithFrameChild(frames, edges) <==>
            forall i: nat, j: nat :: !LateChild(frames, edges, i, j)
  {
    hide LateChild, KeepEdges, WithFrameChild;
    if i: nat, j: nat :| LateChild(frames, edges, i, j) {
      LateKept(frames, edges, i, j);
    } else {
      NoneLate(frames, edges);
    }
  }

  /** One frame c and the edges c to x and x to y, where x is no frame: whether the second edge is kept
      depends on which comes first. */
  lemma {:induction false} OrderDecides()
    ensures var frames := [Frame("c", "", "c", "", "1")];
            var up, further := Edge("c", "x", "1"), Edge("x", "y", "1");
            && KeepEdges(frames, [up, further]).edges == [up, further]
            && KeepEdges(frames, [further, up]).edges == [up]
  {
    var f := Frame("c", "", "c", "", "1");
    var up, further := Edge("c", "x", "1"), Edge("x", "y", "1");
    assert "c"[0] != "x"[0] && "x"[0] != "y"[0] && "c"[0] != "y"[0];
    assert [f][..0] == [] && FrameNodes([f]).at.Keys == {"c"};
    TwoEdges([f], up, further);
    TwoEdges([f], further, up);
  }

  lemma {:induction false} TwoEdges(frames: seq<Frame>, a: Edge, b: Edge)
    ensures KeepEdges(frames, [a, b]) == KeepEdge(KeepEdge(Kept(FrameNodes(frames), [], map[]), a), b)
  {
    hide KeepEdge, FrameNodes;
    assert [a, b][..1] == [a] && [a][..0] == [];
    assert KeepEdges(frames, []) == Kept(FrameNodes(frames), [], map[]);
    assert KeepEdges(frames, [a]) == KeepEdge(KeepEdges(frames, []), a);
  }

  // ---------------------------------------------------------------- rows

  function RowOf(order: seq<string>, at: map<string, Node>, lvl: nat): seq<string> {
    if order == [] then []
    else
      var n := |order| - 1;
      RowOf(order[..n], at, lvl) + if order[n] in at && at[order[n]].level == lvl then [order[n]] else []
  }

  lemma {:induction false} RowMembers(order: seq<string>, at: map<string, Node>, lvl: nat)
    requires forall i, j | 0 <= i < j < |order| :: order[i] != order[j]
    ensures var r := RowOf(order, at, lvl);
            && (forall id :: id in r <==> id in order && id in at && at[id].level == lvl)
            && (forall i, j | 0 <= i < j < |r| :: r[i] != r[j])
  {
    if order != [] {
      var n := |order| - 1;
      RowMembers(order[..n], at, lvl);
      assert order == order[..n] + [order[n]];
      assert order[n] !in order[..n];
    }
  }

  lemma {:induction false} RowOfSame(order: seq<string>, a: map<string, Node>, b: map<string, Node>, lvl: nat)
    requires a.Keys == b.Keys && forall id | id in a :: a[id].level == b[id].level
    ensures RowOf(order, a, lvl) == RowOf(order, b, lvl)
  {
    if order != [] { RowOfSame(order[..|order| - 1], a, b, lvl); }
  }

  /** The columns of the rows above a level. */
  function ColsAbove(at: map<string, Node>, lvl: nat): map<string, nat> {
    map id | id in at && at[id].level < lvl :: at[id].col
  }

  /** What row lvl is sorted by: its nodes' parents above it, then the collation. */
  function RowOrderAt(k: Kept, le: (string, string) -> bool, at: map<string, Node>, lvl: nat): Order {
    Order(k.parents, ColsAbove(at, lvl), le)
  }

  ghost predicate RowsArranged(k: Kept, le: (string, string) -> bool, at: map<string, Node>, rows: seq<seq<string>>) {
    forall l | 0 <= l < |rows| :: rows[l] == Arranged(RowOrderAt(k, le, at, l), RowOf(k.nodes.order, at, l))
  }

  /** The finished graph. */
  datatype Drawn = Drawn(nodes: Nodes, edges: seq<Edge>, rows: seq<seq<string>>)

  /** b is a with other positions. */
  predicate SameButPlaced(a: map<string, Node>, b: map<string, Node>) {
    a.Keys == b.Keys && forall id | id in a :: b[id] == a[id].(level := b[id].level, col := b[id].col)
  }

  /** Every node of a level below n sits in its cell, and every cell of those rows holds its node. */
  ghost predicate Placed(at: map<string, Node>, rows: seq<seq<string>>) {
    && (forall id | id in at && at[id].level < |rows| ::
          at[id].col < |rows[at[id].level]| && rows[at[id].level][at[id].col] == id)
    && (forall l, i | 0 <= l < |rows| && 0 <= i < |rows[l]| ::
          rows[l][i] in at && at[rows[l][i]].level == l && at[rows[l][i]].col == i)
  }

  method PickRow(order: seq<string>, at: map<string, Node>, lvl: nat) returns (picked: seq<string>)
    requires Nodes(order, at).Valid()
    ensures picked == RowOf(order, at, lvl) && Distinct(picked)
    ensures forall id :: id in picked <==> id in at && at[id].level == lvl
  {
    picked := [];
    assert order[..0] == [];
    for i := 0 to |order|
      invariant picked == RowOf(order[..i], at, lvl)
    {
      assert order[..i + 1][..i] == order[..i];
      if at[order[i]].level == lvl { picked := picked + [order[i]]; }
    }
    assert order[..|order|] == order;
    RowMembers(order, at, lvl);
  }

  /** What giving the row's nodes their places in it makes of the nodes and of the columns. */
  ghost predicate Seated(at: map<string, Node>, colOf: map<string, nat>, row: seq<string>,
                         next: map<string, Node>, cols: map<string, nat>) {
    && next.Keys == at.Keys
    && (forall id | id in at :: next[id] == at[id].(col := next[id].col))
    && (forall id | id in at && id !in row :: next[id] == at[id])
    && (forall id :: id in cols <==> id in colOf || id in row)
    && (forall id | id in colOf && id !in row :: cols[id] == colOf[id])
    && (forall j | 0 <= j < |row| :: row[j] in next && next[row[j]].col == j)
    && (forall j | 0 <= j < |row| :: row[j] in cols && cols[row[j]] == j)
  }

  lemma {:induction false} SeatOne(at: map<string, Node>, colOf: map<string, nat>, row: seq<string>, id: string,
                                   next: map<string, Node>, cols: map<string, nat>)
    requires Seated(at, colOf, row, next, cols) && id in at && id !in row
    ensures Seated(at, colOf, row + [id], next[id := next[id].(col := |row|)], cols[id := |row|])
  {}

  method SeatRow(at: map<string, Node>, colOf: map<string, nat>, row: seq<string>)
    returns (next: map<string, Node>, cols: map<string, nat>)
    requires Distinct(row) && forall id | id in row :: id in at
    ensures Seated(at, colOf, row, next, cols)
  {
    next, cols := at, colOf;
    assert row[..0] == [];
    for i := 0 to |row|
      invariant Seated(at, colOf, row[..i], next, cols)
    {
      assert row[..i + 1] == row[..i] + [row[i]] && row[i] in row;
      SeatOne(at, colOf, row[..i], row[i], next, cols);
      next := next[row[i] := next[row[i]].(col := i)];
      cols := cols[row[i] := i];
    }
    assert row[..|row|] == row;
  }

  /** One more row, sorted by the columns of the rows above; its nodes' columns are their places in it. */
  method PlaceRow(k: Kept, le: (string, string) -> bool, at: map<string, Node>, rows: seq<seq<string>>,
                  colOf: map<string, nat>)
    returns (next: map<string, Node>, row: seq<string>, cols: map<string, nat>)
    requires Nodes(k.nodes.order, at).Valid() && Placed(at, rows) && RowsArranged(k, le, at, rows)
    requires colOf == ColsAbove(at, |rows|) && Collates(le)
    ensures SameButPlaced(at, next) && forall id | id in at :: next[id].level == at[id].level
    ensures Placed(next, rows + [row]) && RowsArranged(k, le, next, rows + [row])
    ensures cols == ColsAbove(next, |rows| + 1)
  {
    hide Placed, RowsArranged, Arranged, ColsAbove, Collates, SortedAs, Seated, SameButPlaced, RowOf, Nodes.Valid;
    var picked := PickRow(k.nodes.order, at, |rows|);
    row := Arranged(Order(k.parents, colOf, le), picked);
    ArrangedSorts(Order(k.parents, colOf, le), picked);
    next, cols := SeatRow(at, colOf, row);
    RowPlaced(k, le, at, rows, row, next, cols);
  }

  /** What seating an arranged row does to the drawing. */
  lemma {:induction false} RowPlaced(k: Kept, le: (string, string) -> bool, at: map<string, Node>,
                                     rows: seq<seq<string>>, row: seq<string>,
                                     next: map<string, Node>, cols: map<string, nat>)
    requires Placed(at, rows) && RowsArranged(k, le, at, rows) && Seated(at, ColsAbove(at, |rows|), row, next, cols)
    requires forall id :: id in row <==> id in at && at[id].level == |rows|
    requires row == Arranged(RowOrderAt(k, le, at, |rows|), RowOf(k.nodes.order, at, |rows|))
    ensures SameButPlaced(at, next) && forall id | id in at :: next[id].level == at[id].level
    ensures Placed(next, rows + [row]) && RowsArranged(k, le, next, rows + [row])
    ensures cols == ColsAbove(next, |rows| + 1)
  {
    hide Placed, RowsArranged, Arranged, ColsAbove, RowOf;
    PlacedRow(at, next, rows, row);
    RowsKept(k, le, at, next, rows, row);
    SeatedCols(at, next, cols, row, |rows|);
  }

  lemma {:induction false} SeatedCols(at: map<string, Node>, next: map<string, Node>, cols: map<string, nat>,
                                     row: seq<string>, lvl: nat)
    requires Seated(at, ColsAbove(at, lvl), row, next, cols)
    requires forall id :: id in row <==> id in at && at[id].level == lvl
    ensures cols == ColsAbove(next, lvl + 1)
  {
    forall id ensures id in cols <==> id in next && next[id].level < lvl + 1 {}
    forall id | id in cols ensures cols[id] == next[id].col {
      if id in row { var j :| 0 <= j < |row| && row[j] == id; }
    }
  }

  lemma {:induction false} PlacedRow(at: map<string, Node>, next: map<string, Node>, rows: seq<seq<string>>,
                                     row: seq<string>)
    requires Placed(at, rows) && next.Keys == at.Keys
    requires forall id | id in at :: next[id] == at[id].(col := next[id].col)
    requires forall id | id in at && id !in row :: next[id] == at[id]
    requires forall id :: id in row <==> id in at && at[id].level == |rows|
    requires forall j | 0 <= j < |row| :: row[j] in next && next[row[j]].col == j
    ensures Placed(next, rows + [row])
  {
    var all := rows + [row];
    forall id | id in next && next[id].level < |all|
      ensures next[id].col < |all[next[id].level]| && all[next[id].level][next[id].col] == id
    {
      if next[id].level == |rows| {
        assert id in row;
        var j :| 0 <= j < |row| && row[j] == id;
      } else {
        assert id !in row && next[id] == at[id];
      }
    }
    forall l, i | 0 <= l < |all| && 0 <= i < |all[l]|
      ensures all[l][i] in next && next[all[l][i]].level == l && next[all[l][i]].col == i
    {
      if l < |rows| { assert all[l][i] == rows[l][i]; }
    }
  }

  /** Placing one more row changes no column above it. */
  lemma {:induction false} RowsKept(k: Kept, le: (string, string) -> bool, at: map<string, Node>,
                                    next: map<string, Node>, rows: seq<seq<string>>, row: seq<string>)
    requires next.Keys == at.Keys && RowsArranged(k, le, at, rows)
    requires forall id | id in at :: next[id].level == at[id].level
    requires forall id | id in at && at[id].level != |rows| :: next[id] == at[id]
    requires row == Arranged(RowOrderAt(k, le, at, |rows|), RowOf(k.nodes.order, at, |rows|))
    ensures RowsArranged(k, le, next, rows + [row])
  {
    hide Arranged, RowOf;
    var all := rows + [row];
    forall l | 0 <= l < |all|
      ensures all[l] == Arranged(RowOrderAt(k, le, next, l), RowOf(k.nodes.order, next, l))
    {
      RowOfSame(k.nodes.order, at, next, l);
      assert ColsAbove(at, l) == ColsAbove(next, l);
    }
  }

  // ---------------------------------------------------------------- the whole graph

  predicate ClosedIds(g: Links, all: set<string>) {
    forall x, y {:trigger y in Next(g, x)} | x in g && y in Next(g, x) :: y in all
  }

  lemma {:induction false} LevelsStay(g: Links, id: string, levels: map<string, nat>, busy: set<string>,
                                      all: set<string>)
    requires ClosedIds(g, all) && id in all && levels.Keys <= all
    ensures Visited(g, id, levels, busy).levels.Keys <= all
    decreases g.Keys - busy, 0
  {
    hide VisitedAll;
    if id !in levels && id !in busy && Next(g, id) != [] { AllLevelsStay(g, g[id], levels, busy + {id}, all); }
  }

  lemma {:induction false} AllLevelsStay(g: Links, ids: seq<string>, levels: map<string, nat>, busy: set<string>,
                                         all: set<string>)
    requires ClosedIds(g, all) && levels.Keys <= all && forall x | x in ids :: x in all
    ensures VisitedAll(g, ids, levels, busy).levels.Keys <= all
    decreases g.Keys - busy, 1 + |ids|
  {
    hide Visited;
    if ids != [] {
      LevelsStay(g, ids[0], levels, busy, all);
      AllLevelsStay(g, ids[1..], Visited(g, ids[0], levels, busy).levels, busy, all);
    }
  }

  /** The links of the kept edges, whose ends are all nodes. */
  lemma {:induction false} LinksEndInNodes(frames: seq<Frame>, k: Kept, x: string, y: string)
    requires KeptWell(frames, k) && y in Next(k.parents, x)
    ensures x in k.nodes.at && y in k.nodes.at
  {
    hide IsFrame;
    LinksAreEdges(k.edges, x, y);
  }

  /** The levels of the graph, and every node's. */
  function LevelsOf(k: Kept): map<string, nat> { VisitedAll(k.parents, k.nodes.order, map[], {}).levels }

  lemma {:induction false} LevelsAreNodes(frames: seq<Frame>, k: Kept)
    requires KeptWell(frames, k)
    ensures LevelsOf(k).Keys == k.nodes.at.Keys
  {
    hide KeptWell, Visited, VisitedAll;
    EveryIdLevelled(k.parents, k.nodes.order);
    assert k.nodes.Valid() by { KeptNodes(frames, k); }
    forall x, y | y in Next(k.parents, x) ensures y in k.nodes.at { LinksEndInNodes(frames, k, x, y); }
    AllLevelsStay(k.parents, k.nodes.order, map[], {}, k.nodes.at.Keys);
  }

  lemma {:induction false} KeptNodes(frames: seq<Frame>, k: Kept)
    requires KeptWell(frames, k)
    ensures k.nodes.Valid()
  {}

  method KeepAll(frames: seq<Frame>, edges: seq<Edge>) returns (k: Kept)
    ensures k == KeepEdges(frames, edges)
  {
    var nodes := Nodes([], map[]);
    assert frames[..0] == [];
    for i := 0 to |frames|
      invariant nodes == FrameNodes(frames[..i])
    {
      assert frames[..i + 1][..i] == frames[..i];
      nodes := nodes.Set(frames[i].id, Node(frames[i], 0, 0, false));
    }
    assert frames[..|frames|] == frames;
    var kept: seq<Edge>, parents: Links := [], map[];
    assert edges[..0] == [];
    for i := 0 to |edges|
      invariant Kept(nodes, kept, parents) == KeepEdges(frames, edges[..i])
    {
      assert edges[..i + 1][..i] == edges[..i];
      var e := edges[i];
      if e.child !in nodes.at { continue; }
      if e.parent !in nodes.at { nodes := nodes.Set(e.parent, Placeholder(e.parent)); }
      kept := kept + [e];
      parents := AddLink(parents, e.child, e.parent);
    }
    assert edges[..|edges|] == edges;
    k := Kept(nodes, kept, parents);
  }

  /** at is nodes with these ids' levels set, maxLevel the highest of them. */
  ghost predicate Leveled(nodes: map<string, Node>, levels: map<string, nat>, ids: seq<string>,
                          at: map<string, Node>, maxLevel: nat)
    requires levels.Keys == nodes.Keys
  {
    && SameButPlaced(nodes, at) && (forall id | id in ids :: id in at && at[id].level == levels[id] <= maxLevel)
    && (maxLevel == 0 || exists id | id in ids :: at[id].level == maxLevel)
  }

  lemma {:induction false} LevelOne(nodes: map<string, Node>, levels: map<string, nat>, ids: seq<string>, id: string,
                                    at: map<string, Node>, maxLevel: nat)
    requires levels.Keys == nodes.Keys && Leveled(nodes, levels, ids, at, maxLevel) && id in nodes
    ensures Leveled(nodes, levels, ids + [id], at[id := at[id].(level := levels[id])],
                    if levels[id] > maxLevel then levels[id] else maxLevel)
  {
    var more := ids + [id];
    if x :| x in ids && at[x].level == maxLevel { assert x in more; }
    assert id in more;
  }

  lemma {:induction false} NoneLeveled(nodes: map<string, Node>, levels: map<string, nat>)
    requires levels.Keys == nodes.Keys
    ensures Leveled(nodes, levels, [], nodes, 0)
  {}

  lemma {:induction false} AllLeveled(nodes: Nodes, levels: map<string, nat>, at: map<string, Node>, maxLevel: nat)
    requires nodes.Valid() && levels.Keys == nodes.at.Keys && Leveled(nodes.at, levels, nodes.order, at, maxLevel)
    ensures SameButPlaced(nodes.at, at) && forall id | id in at :: at[id].level == levels[id] <= maxLevel
    ensures maxLevel == 0 || exists id | id in at :: at[id].level == maxLevel
  {}

  method SetLevels(nodes: Nodes, levels: map<string, nat>) returns (at: map<string, Node>, maxLevel: nat)
    requires nodes.Valid() && levels.Keys == nodes.at.Keys
    ensures SameButPlaced(nodes.at, at) && forall id | id in at :: at[id].level == levels[id] <= maxLevel
    ensures maxLevel == 0 || exists id | id in at :: at[id].level == maxLevel
  {
    hide Nodes.Set, Leveled, SameButPlaced;
    at, maxLevel := nodes.at, 0;
    NoneLeveled(nodes.at, levels);
    for i := 0 to |nodes.order|
      invariant Leveled(nodes.at, levels, nodes.order[..i], at, maxLevel) && at.Keys == nodes.at.Keys
    {
      var id := nodes.order[i];
      assert id in nodes.order && nodes.order[..i + 1] == nodes.order[..i] + [id];
      LevelOne(nodes.at, levels, nodes.order[..i], id, at, maxLevel);
      at := at[id := at[id].(level := levels[id])];
      if levels[id] > maxLevel { maxLevel := levels[id]; }
    }
    assert nodes.order[..|nodes.order|] == nodes.order;
    AllLeveled(nodes, levels, at, maxLevel);
  }

  /** The graph as drawn: every node at its computed level, in the cell of the rows that is its own, every
      row arranged, and no row below the deepest node. */
  ghost predicate LaidOut(k: Kept, le: (string, string) -> bool, g: Drawn) {
    && g.edges == k.edges && g.nodes.order == k.nodes.order && SameButPlaced(k.nodes.at, g.nodes.at)
    && LevelsOf(k).Keys == g.nodes.at.Keys
    && (forall id | id in g.nodes.at :: g.nodes.at[id].level == LevelsOf(k)[id] < |g.rows|)
    && (|g.rows| == 1 || exists id | id in g.nodes.at :: g.nodes.at[id].level == |g.rows| - 1)
    && Placed(g.nodes.at, g.rows) && RowsArranged(k, le, g.nodes.at, g.rows)
  }

  /** The graph while its rows are being drawn. */
  ghost predicate Drawing(k: Kept, le: (string, string) -> bool, levels: map<string, nat>, maxLevel: nat,
                          at: map<string, Node>, rows: seq<seq<string>>) {
    && SameButPlaced(k.nodes.at, at) && levels.Keys == at.Keys
    && (forall id | id in at :: at[id].level == levels[id] <= maxLevel)
    && (maxLevel == 0 || exists id | id in at :: at[id].level == maxLevel)
    && Placed(at, rows) && RowsArranged(k, le, at, rows)
  }

  lemma {:induction false} DrawnRow(k: Kept, le: (string, string) -> bool, levels: map<string, nat>, maxLevel: nat,
                                    at: map<string, Node>, rows: seq<seq<string>>,
                                    next: map<string, Node>, more: seq<seq<string>>)
    requires Drawing(k, le, levels, maxLevel, at, rows) && Placed(next, more) && RowsArranged(k, le, next, more)
    requires SameButPlaced(at, next) && forall id | id in at :: next[id].level == at[id].level
    ensures Drawing(k, le, levels, maxLevel, next, more)
  {
    hide Placed, RowsArranged;
    if id :| id in at && at[id].level == maxLevel { assert next[id].level == maxLevel; }
  }

  lemma {:induction false} LevelsVisited(k: Kept)
    ensures LevelsOf(k) == VisitedAll(k.parents, k.nodes.order, map[], {}).levels
  {}

  lemma {:induction false} SameKeys(a: map<string, Node>, b: map<string, Node>)
    requires SameButPlaced(a, b)
    ensures a.Keys == b.Keys
  {}

  lemma {:induction false} StartDrawing(frames: seq<Frame>, k: Kept, le: (string, string) -> bool,
                                        levels: map<string, nat>, maxLevel: nat, at: map<string, Node>)
    requires KeptWell(frames, k) && SameButPlaced(k.nodes.at, at) && levels.Keys == at.Keys
    requires forall id | id in at :: at[id].level == levels[id] <= maxLevel
    requires maxLevel == 0 || exists id | id in at :: at[id].level == maxLevel
    ensures Drawing(k, le, levels, maxLevel, at, []) && ColsAbove(at, 0) == map[]
  {
    hide KeptWell, RowOf, Arranged;
  }

  lemma {:induction false} DrawingValid(frames: seq<Frame>, k: Kept, le: (string, string) -> bool,
                                        levels: map<string, nat>, maxLevel: nat, at: map<string, Node>,
                                        rows: seq<seq<string>>)
    requires KeptWell(frames, k)
    ensures Drawing(k, le, levels, maxLevel, at, rows) ==>
              Nodes(k.nodes.order, at).Valid() && Placed(at, rows) && RowsArranged(k, le, at, rows)
  {
    hide Placed, RowsArranged, IsFrame, IsParent;
  }

  lemma {:induction false} EndDrawing(k: Kept, le: (string, string) -> bool, maxLevel: nat,
                                      at: map<string, Node>, rows: seq<seq<string>>)
    ensures Drawing(k, le, LevelsOf(k), maxLevel, at, rows) && |rows| == maxLevel + 1 ==>
              LaidOut(k, le, Drawn(Nodes(k.nodes.order, at), k.edges, rows))
  {
    hide Placed, RowsArranged, LevelsOf;
  }

  /** buildHierarchy: the kept graph, each node at its level and in its own cell of the rows. */
  method BuildHierarchy(frames: seq<Frame>, edges: seq<Edge>, le: (string, string) -> bool) returns (g: Drawn)
    requires Collates(le)
    ensures LaidOut(KeepEdges(frames, edges), le, g)
  {
    hide *;
    var k := KeepAll(frames, edges);
    KeepsWell(frames, edges);
    KeptNodes(frames, k);
    LevelsAreNodes(frames, k);
    var levels := ComputeLevels(k.nodes.order, k.parents);
    LevelsVisited(k);
    var at, maxLevel := SetLevels(k.nodes, levels);
    SameKeys(k.nodes.at, at);
    StartDrawing(frames, k, le, levels, maxLevel, at);
    var rows: seq<seq<string>>, colOf: map<string, nat> := [], map[];
    for lvl := 0 to maxLevel + 1
      invariant |rows| == lvl && Drawing(k, le, levels, maxLevel, at, rows) && colOf == ColsAbove(at, lvl)
    {
      DrawingValid(frames, k, le, levels, maxLevel, at, rows);
      var next, row, cols := PlaceRow(k, le, at, rows, colOf);
      DrawnRow(k, le, levels, maxLevel, at, rows, next, rows + [row]);
      at, colOf := next, cols;
      rows := rows + [row];
    }
    EndDrawing(k, le, maxLevel, at, rows);
    g := Drawn(Nodes(k.nodes.order, at), k.edges, rows);
  }

  // ---------------------------------------------------------------- what is drawn

  /** Every kept edge points strictly upwards exactly when the kept edges are acyclic. */
  lemma {:induction false} EdgesPointUp(frames: seq<Frame>, edges: seq<Edge>)
    ensures var k := KeepEdges(frames, edges);
            (forall e | e in k.edges :: e.child in LevelsOf(k) && e.parent in LevelsOf(k) &&
                                        LevelsOf(k)[e.child] > LevelsOf(k)[e.parent])
            <==> Acyclic(UpLinks(k.edges))
  {
    hide KeepEdges, VisitedAll, Acyclic;
    var k := KeepEdges(frames, edges);
    KeepsWell(frames, edges);
    var up := UpLinks(k.edges);
    assert k.parents == up && k.nodes.Valid();
    forall x, y | y in Next(up, x) ensures x in k.nodes.order { LinksEndInNodes(frames, k, x, y); }
    forall x, y | y in Next(up, x) ensures y in k.nodes.order { LinksEndInNodes(frames, k, x, y); }
    BelowParentsIffAcyclic(up, k.nodes.order);
    var levels := LevelsOf(k);
    hide KeptWell, UpLinks;
    forall x, y ensures y in Next(up, x) <==> Extends(k.edges, x, y) { LinksAreEdges(k.edges, x, y); }
    forall e | e in k.edges ensures e.parent in Next(up, e.child) { assert Extends(k.edges, e.child, e.parent); }
  }

  /** On acyclic kept edges no row is empty, except the one row of an empty graph. */
  lemma {:induction false} NoRowEmpty(frames: seq<Frame>, edges: seq<Edge>, top: string, l: nat) returns (id: string)
    requires var k := KeepEdges(frames, edges);
             Acyclic(UpLinks(k.edges)) && top in LevelsOf(k) && l <= LevelsOf(k)[top]
    ensures id in LevelsOf(KeepEdges(frames, edges)) && LevelsOf(KeepEdges(frames, edges))[id] == l
    decreases if top in LevelsOf(KeepEdges(frames, edges)) then LevelsOf(KeepEdges(frames, edges))[top] else 0
  {
    hide KeepEdges, VisitedAll, Acyclic, Longest, UpLinks;
    var k := KeepEdges(frames, edges);
    var levels := LevelsOf(k);
    if levels[top] == l {
      id := top;
    } else {
      KeepsWell(frames, edges);
      LevelsAreNodes(frames, k);
      LevelsAreLongest(k.parents, k.nodes.order);
      forall z | z in Next(k.parents, top) ensures z in levels { LinksEndInNodes(frames, k, top, z); }
      var parent := ParentOneUp(k.parents, levels, top);
      id := NoRowEmpty(frames, edges, parent, l);
    }
  }
}
