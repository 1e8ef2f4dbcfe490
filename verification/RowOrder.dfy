/** The order of one drawn row: by the mean column of a node's placed parents, then by id. */
module RowOrder {
  import opened Hierarchy

  /** A collation as localeCompare(a, b) <= 0 gives it: total and transitive, ties allowed. */
  ghost predicate Collates(le: (string, string) -> bool) {
    && (forall a, b :: le(a, b) || le(b, a))
    && (forall a, b, c :: le(a, b) && le(b, c) ==> le(a, c))
  }

  /** No two ids tie. */
  ghost predicate Separates(le: (string, string) -> bool) { forall a, b :: le(a, b) && le(b, a) ==> a == b }

  function PlacedCols(parents: seq<string>, colOf: map<string, nat>): seq<nat> {
    if parents == [] then []
    else (if parents[0] in colOf then [colOf[parents[0]]] else []) + PlacedCols(parents[1..], colOf)
  }

  function Sum(cols: seq<nat>): nat { if cols == [] then 0 else cols[0] + Sum(cols[1..]) }

  /** Infinity for a node with no placed parent. */
  datatype Center = Infinity | Mean(value: real)
  {
    predicate AtMost(c: Center) { c.Infinity? || (Mean? && value <= c.value) }
  }

  function Barycenter(parents: Links, colOf: map<string, nat>, id: string): Center {
    var cols := PlacedCols(Next(parents, id), colOf);
    if cols == [] then Infinity else Mean(Sum(cols) as real / |cols| as real)
  }

  /** What a row is sorted by. */
  datatype Order = Order(parents: Links, colOf: map<string, nat>, le: (string, string) -> bool)
  {
    function At(id: string): Center { Barycenter(parents, colOf, id) }

    /** The comparator puts a no later than b. */
    predicate Precedes(a: string, b: string) { if At(a) != At(b) then At(a).AtMost(At(b)) else le(a, b) }
  }

  lemma {:induction false} PrecedesTotal(o: Order, a: string, b: string)
    requires Collates(o.le)
    ensures o.Precedes(a, b) || o.Precedes(b, a)
  {
    hide Barycenter;
  }

  lemma {:induction false} PrecedesTransitive(o: Order, a: string, b: string, c: string)
    requires Collates(o.le) && o.Precedes(a, b) && o.Precedes(b, c)
    ensures o.Precedes(a, c)
  {
    hide Barycenter;
  }

  lemma {:induction false} PrecedesOneWay(o: Order, a: string, b: string)
    requires Separates(o.le) && o.Precedes(a, b) && o.Precedes(b, a)
    ensures a == b
  {
    hide Barycenter;
  }

  // ---------------------------------------------------------------- a stable sort

  function Insert(o: Order, sorted: seq<string>, id: string): seq<string> {
    if sorted == [] || o.Precedes(sorted[|sorted| - 1], id) then sorted + [id]
    else Insert(o, sorted[..|sorted| - 1], id) + [sorted[|sorted| - 1]]
  }

  /** The row as a stable sort leaves it. */
  function Arranged(o: Order, row: seq<string>): seq<string> {
    if row == [] then [] else Insert(o, Arranged(o, row[..|row| - 1]), row[|row| - 1])
  }

  predicate Distinct(row: seq<string>) { forall i, j | 0 <= i < j < |row| :: row[i] != row[j] }

  predicate Comes(row: seq<string>, x: string, y: string) {
    exists i, j | 0 <= i < j < |row| :: row[i] == x && row[j] == y
  }

  /** x belongs before y: it compares lower, or they tie and x stood before y in the row. */
  predicate Ahead(o: Order, row: seq<string>, x: string, y: string) {
    o.Precedes(x, y) && (o.Precedes(y, x) ==> Comes(row, x, y))
  }

  predicate SortedAs(o: Order, row: seq<string>, r: seq<string>) {
    forall p, q | 0 <= p < q < |r| :: Ahead(o, row, r[p], r[q])
  }

  ghost predicate SameIds(a: seq<string>, b: seq<string>) {
    Distinct(a) && Distinct(b) && forall x :: x in a <==> x in b
  }

  lemma {:induction false} AheadIs(o: Order, row: seq<string>, x: string, y: string)
    ensures Ahead(o, row, x, y) <==> o.Precedes(x, y) && (o.Precedes(y, x) ==> Comes(row, x, y))
  {}

  lemma {:induction false} AheadLonger(o: Order, row: seq<string>, id: string, x: string, y: string)
    requires Ahead(o, row, x, y)
    ensures Ahead(o, row + [id], x, y)
  {
    hide Order.Precedes;
    if i, j :| 0 <= i < j < |row| && row[i] == x && row[j] == y {
      assert (row + [id])[i] == x && (row + [id])[j] == y;
    }
  }

  lemma {:induction false} AheadOfLast(o: Order, row: seq<string>, id: string, x: string)
    requires x in row && o.Precedes(x, id)
    ensures Ahead(o, row + [id], x, id)
  {
    hide Order.Precedes;
    var i :| 0 <= i < |row| && row[i] == x;
    assert (row + [id])[i] == x && (row + [id])[|row|] == id;
  }

  lemma {:induction false} DistinctPlus(r: seq<string>, id: string)
    requires Distinct(r) && id !in r
    ensures Distinct(r + [id])
  {
    forall i | 0 <= i < |r| ensures r[i] != id { assert r[i] in r; }
  }

  lemma {:induction false} InsertIds(o: Order, r: seq<string>, id: string)
    requires Distinct(r) && id !in r
    ensures SameIds(Insert(o, r, id), r + [id])
  {
    hide Order.Precedes;
    DistinctPlus(r, id);
    if r != [] && !o.Precedes(r[|r| - 1], id) {
      var n := |r| - 1;
      assert r == r[..n] + [r[n]] && r[n] !in r[..n];
      InsertIds(o, r[..n], id);
      DistinctPlus(Insert(o, r[..n], id), r[n]);
    }
  }

  lemma {:induction false} InsertSorted(o: Order, row: seq<string>, r: seq<string>, id: string)
    requires Collates(o.le) && SortedAs(o, row, r) && Distinct(r) && id !in row
    requires forall x | x in r :: x in row
    ensures SortedAs(o, row + [id], Insert(o, r, id))
  {
    hide Order.Precedes, Ahead, Collates, Comes;
    if r != [] {
      var n := |r| - 1;
      if o.Precedes(r[n], id) {
        forall p | 0 <= p < |r| ensures Ahead(o, row + [id], r[p], id) {
          if p < n {
            AheadIs(o, row, r[p], r[n]);
            PrecedesTransitive(o, r[p], r[n], id);
          }
          AheadOfLast(o, row, id, r[p]);
        }
        forall p, q | 0 <= p < q < |r| ensures Ahead(o, row + [id], r[p], r[q]) {
          AheadLonger(o, row, id, r[p], r[q]);
        }
      } else {
        InsertSorted(o, row, r[..n], id);
        PrecedesTotal(o, r[n], id);
        InsertIds(o, r[..n], id);
        var s := Insert(o, r[..n], id);
        AheadIs(o, row + [id], id, r[n]);
        forall p | 0 <= p < |s| ensures Ahead(o, row + [id], s[p], r[n]) {
          assert s[p] in r[..n] + [id];
          if s[p] != id {
            var q :| 0 <= q < n && r[q] == s[p];
            AheadLonger(o, row, id, r[q], r[n]);
          }
        }
      }
    }
  }

  /** The sort keeps the ids, orders them by the comparator and keeps the order of ties. */
  lemma {:induction false} ArrangedSorts(o: Order, row: seq<string>)
    requires Collates(o.le) && Distinct(row)
    ensures SameIds(Arranged(o, row), row) && SortedAs(o, row, Arranged(o, row))
  {
    hide Order.Precedes, Ahead, Collates, Comes, Insert;
    if row != [] {
      var n := |row| - 1;
      var r := Arranged(o, row[..n]);
      ArrangedSorts(o, row[..n]);
      assert row == row[..n] + [row[n]] && row[n] !in row[..n];
      InsertIds(o, r, row[n]);
      InsertSorted(o, row[..n], r, row[n]);
    }
  }

  lemma {:induction false} HasSome(a: seq<string>)
    ensures a != [] ==> exists x :: x in a
  {
    if a != [] { assert a[0] in a; }
  }

  lemma {:induction false} FirstBefore(rel: (string, string) -> bool, a: seq<string>, i: nat)
    requires i < |a| && forall p, q | 0 <= p < q < |a| :: rel(a[p], a[q])
    ensures a[0] == a[i] || rel(a[0], a[i])
  {}

  /** A strict order leaves one way to list the same ids. */
  lemma {:induction false} OneOrder(rel: (string, string) -> bool, a: seq<string>, b: seq<string>)
    requires SameIds(a, b)
    requires forall p, q | 0 <= p < q < |a| :: rel(a[p], a[q])
    requires forall p, q | 0 <= p < q < |b| :: rel(b[p], b[q])
    requires forall x, y | x in a && y in a && rel(x, y) && rel(y, x) :: x == y
    ensures a == b
  {
    if a == [] {
      HasSome(b);
    } else {
      assert a[0] in a && a[0] in b;
      assert b[0] in b && b[0] in a;
      var i :| 0 <= i < |a| && a[i] == b[0];
      var j :| 0 <= j < |b| && b[j] == a[0];
      FirstBefore(rel, a, i);
      FirstBefore(rel, b, j);
      RestIds(a, b);
      OneOrder(rel, a[1..], b[1..]);
      assert a == [a[0]] + a[1..] && b == [b[0]] + b[1..];
    }
  }

  lemma {:induction false} RestIds(a: seq<string>, b: seq<string>)
    requires SameIds(a, b) && a != [] && b != [] && a[0] == b[0]
    ensures SameIds(a[1..], b[1..])
  {
    forall x ensures x in a[1..] <==> x in b[1..] {
      assert x in a[1..] <==> x in a && x != a[0] by { RestOf(a, x); }
      assert x in b[1..] <==> x in b && x != b[0] by { RestOf(b, x); }
    }
  }

  lemma {:induction false} RestOf(a: seq<string>, x: string)
    requires Distinct(a) && a != []
    ensures x in a[1..] <==> x in a && x != a[0]
  {
    assert a == [a[0]] + a[1..];
    if x in a[1..] { var i :| 1 <= i < |a| && a[i] == x; }
  }

  lemma {:induction false} SamePlace(row: seq<string>, i: nat, j: nat)
    requires Distinct(row) && i < |row| && j < |row| && row[i] == row[j]
    ensures i == j
  {}

  lemma {:induction false} ComesOnce(row: seq<string>, x: string, y: string)
    requires Distinct(row) && Comes(row, x, y)
    ensures !Comes(row, y, x)
  {
    var i, j :| 0 <= i < j < |row| && row[i] == x && row[j] == y;
    forall k, l | 0 <= k < l < |row| ensures !(row[k] == y && row[l] == x) {
      if row[k] == y { SamePlace(row, j, k); }
      if row[l] == x { SamePlace(row, i, l); }
    }
  }

  /** A row is arranged exactly when it lists the same ids sorted, ties in their old order. */
  lemma {:induction false} ArrangedIff(o: Order, row: seq<string>, r: seq<string>)
    requires Collates(o.le) && Distinct(row)
    ensures r == Arranged(o, row) <==> SameIds(r, row) && SortedAs(o, row, r)
  {
    hide Order.Precedes, Collates, Comes, Arranged;
    ArrangedSorts(o, row);
    var s := Arranged(o, row);
    if SameIds(r, row) && SortedAs(o, row, r) {
      forall x, y ensures !(Ahead(o, row, x, y) && Ahead(o, row, y, x)) {
        if Comes(row, x, y) { ComesOnce(row, x, y); }
      }
      OneOrder((x, y) => Ahead(o, row, x, y), r, s);
    }
  }

  /** When no two ids tie, the arrangement does not depend on how the row stood before. */
  lemma {:induction false} ArrangedAnyhow(o: Order, a: seq<string>, p: Order, b: seq<string>)
    requires Collates(o.le) && Separates(o.le) && Collates(p.le) && SameIds(a, b)
    requires forall x, y :: o.Precedes(x, y) <==> p.Precedes(x, y)
    ensures Arranged(o, a) == Arranged(p, b)
  {
    hide Order.Precedes, Collates, Comes, Arranged, Separates;
    ArrangedSorts(o, a);
    ArrangedSorts(p, b);
    forall x, y | o.Precedes(x, y) && o.Precedes(y, x) ensures x == y { PrecedesOneWay(o, x, y); }
    OneOrder((x, y) => o.Precedes(x, y), Arranged(o, a), Arranged(p, b));
  }
}
