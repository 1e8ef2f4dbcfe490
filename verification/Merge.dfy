/** The three merge disciplines of frame inheritance, and their algebra. */
module Merge {
  import opened Text
  import opened Schema

  // ---------------------------------------------------------------- terms

  predicate HasTerm(ts: seq<Term>, name: string) { exists i | 0 <= i < |ts| :: ts[i].term == name }

  /** The last position of a term. */
  function LastIndex(ts: seq<Term>, name: string): (i: nat)
    requires HasTerm(ts, name)
    ensures i < |ts| && ts[i].term == name
    ensures forall j | i < j < |ts| :: ts[j].term != name
  {
    if ts[|ts| - 1].term == name then |ts| - 1 else LastIndex(ts[..|ts| - 1], name)
  }

  /** One incoming term: it redefines the term of its name, or joins at the end. */
  function Upsert(ts: seq<Term>, t: Term): seq<Term> {
    if HasTerm(ts, t.term) then ts[LastIndex(ts, t.term) := t] else ts + [t]
  }

  /** Incoming terms taken one by one. */
  function Terms(existing: seq<Term>, incoming: seq<Term>): seq<Term> {
    if incoming == [] then existing
    else Upsert(Terms(existing, incoming[..|incoming| - 1]), incoming[|incoming| - 1])
  }

  /** idx maps each name in ts to its last position. */
  ghost predicate Indexes(idx: map<string, nat>, ts: seq<Term>) {
    forall name :: if name in idx then HasTerm(ts, name) && idx[name] == LastIndex(ts, name) else !HasTerm(ts, name)
  }

  lemma {:induction false} LastIndexIs(ts: seq<Term>, i: nat)
    requires i < |ts| && forall j | i < j < |ts| :: ts[j].term != ts[i].term
    ensures HasTerm(ts, ts[i].term) && LastIndex(ts, ts[i].term) == i
  {}

  lemma {:induction false} IndexesAppend(idx: map<string, nat>, ts: seq<Term>, t: Term)
    requires Indexes(idx, ts)
    ensures Indexes(idx[t.term := |ts|], ts + [t])
  {
    var next := ts + [t];
    LastIndexIs(next, |ts|);
    forall name: string | name != t.term ensures HasTerm(next, name) <==> HasTerm(ts, name) {
      if HasTerm(ts, name) { assert next[LastIndex(ts, name)].term == name; }
    }
    forall name: string | name != t.term && HasTerm(ts, name)
      ensures LastIndex(next, name) == LastIndex(ts, name)
    {
      var i := LastIndex(ts, name);
      assert next[i].term == name;
      LastIndexIs(next, i);
    }
  }

  lemma {:induction false} IndexesUpdate(idx: map<string, nat>, ts: seq<Term>, i: nat, t: Term)
    requires Indexes(idx, ts) && i < |ts| && t.term == ts[i].term
    ensures Indexes(idx, ts[i := t])
  {
    var next := ts[i := t];
    assert forall k | 0 <= k < |ts| :: next[k].term == ts[k].term;
    forall name: string ensures HasTerm(next, name) <==> HasTerm(ts, name) {
      if HasTerm(ts, name) { assert next[LastIndex(ts, name)].term == name; }
    }
    forall name: string | HasTerm(ts, name) ensures LastIndex(next, name) == LastIndex(ts, name) {
      LastIndexIs(next, LastIndex(ts, name));
    }
  }

  method MergeTerms(existing: seq<Term>, incoming: seq<Term>) returns (out: seq<Term>)
    ensures out == Terms(existing, incoming)
  {
    hide LastIndex, Upsert, Indexes;
    var idx: map<string, nat> := map[];
    out := [];
    assert Indexes(idx, out) by { NothingIndexed(); }
    for i := 0 to |existing|
      invariant out == existing[..i] && Indexes(idx, out)
    {
      IndexesAppend(idx, out, existing[i]);
      idx := idx[existing[i].term := |out|];
      out := out + [existing[i]];
    }
    assert incoming[..0] == [];
    for i := 0 to |incoming|
      invariant out == Terms(existing, incoming[..i]) && Indexes(idx, out)
    {
      var t := incoming[i];
      TermsStep(existing, incoming, i);
      UpsertIndexed(idx, out, t);
      if t.term in idx {
        IndexesUpdate(idx, out, idx[t.term], t);
        out := out[idx[t.term] := out[idx[t.term]].(definition := t.definition)];
      } else {
        IndexesAppend(idx, out, t);
        idx := idx[t.term := |out|];
        out := out + [t];
      }
    }
    assert incoming[..|incoming|] == incoming;
  }

  lemma {:induction false} NothingIndexed()
    ensures Indexes(map[], [])
  {}

  lemma {:induction false} TermsStep(existing: seq<Term>, incoming: seq<Term>, i: nat)
    requires i < |incoming|
    ensures Terms(existing, incoming[..i + 1]) == Upsert(Terms(existing, incoming[..i]), incoming[i])
  {
    assert incoming[..i + 1][..i] == incoming[..i];
  }

  lemma {:induction false} UpsertIndexed(idx: map<string, nat>, ts: seq<Term>, t: Term)
    requires Indexes(idx, ts)
    ensures t.term in idx ==> idx[t.term] < |ts| && ts[idx[t.term]].term == t.term
    ensures Upsert(ts, t) ==
            if t.term in idx then ts[idx[t.term] := ts[idx[t.term]].(definition := t.definition)] else ts + [t]
  {}

  /** A redefinition overrides the one before it. */
  lemma {:induction false} UpsertTwice(ts: seq<Term>, t: Term, u: Term)
    requires t.term == u.term
    ensures Upsert(Upsert(ts, t), u) == Upsert(ts, u)
  {
    var next := Upsert(ts, t);
    if HasTerm(ts, t.term) {
      var i := LastIndex(ts, t.term);
      assert next[i].term == t.term;
      LastIndexIs(next, i);
      assert next[i := u] == ts[i := u];
    } else {
      LastIndexIs(next, |ts|);
      assert next[|ts| := u] == ts + [u];
    }
  }

  lemma {:induction false} UpsertNames(ts: seq<Term>, t: Term, name: string)
    ensures HasTerm(Upsert(ts, t), name) <==> HasTerm(ts, name) || name == t.term
  {
    var next := Upsert(ts, t);
    if HasTerm(ts, name) {
      assert next[LastIndex(ts, name)].term == name;
    }
    if name == t.term && !HasTerm(ts, name) { assert next[|ts|].term == name; }
  }

  lemma {:induction false} UpsertIndex(ts: seq<Term>, t: Term, name: string)
    requires t.term != name && HasTerm(ts, name)
    ensures HasTerm(Upsert(ts, t), name) && LastIndex(Upsert(ts, t), name) == LastIndex(ts, name)
  {
    UpsertNames(ts, t, name);
    LastIndexIs(Upsert(ts, t), LastIndex(ts, name));
  }

  /** A redefinition commutes with every later term of another name. */
  lemma {:induction false} UpsertSwap(ts: seq<Term>, u: Term, t: Term)
    requires u.term != t.term && HasTerm(ts, t.term)
    ensures Upsert(Upsert(ts, u), t) == Upsert(Upsert(ts, t), u)
  {
    UpsertIndex(ts, u, t.term);
    UpsertNames(ts, t, u.term);
    var i := LastIndex(ts, t.term);
    if HasTerm(ts, u.term) {
      UpsertIndex(ts, t, u.term);
      var j := LastIndex(ts, u.term);
      assert ts[j := u][i := t] == ts[i := t][j := u];
    } else {
      assert (ts + [u])[i := t] == ts[i := t] + [u];
    }
  }

  lemma {:induction false} TermsNames(a: seq<Term>, b: seq<Term>, name: string)
    ensures HasTerm(Terms(a, b), name) <==> HasTerm(a, name) || HasTerm(b, name)
  {
    hide Upsert, LastIndex;
    if b != [] {
      var n := |b| - 1;
      TermsNames(a, b[..n], name);
      UpsertNames(Terms(a, b[..n]), b[n], name);
      assert b == b[..n] + [b[n]];
      if HasTerm(b[..n], name) {
        var i :| 0 <= i < n && b[..n][i].term == name;
        assert b[i].term == name;
      }
    }
  }

  /** Redefining inside the incoming terms and redefining after the merge come to the same. */
  lemma {:induction false} TermsUpdate(a: seq<Term>, b: seq<Term>, k: nat, t: Term)
    requires k < |b| && b[k].term == t.term && forall j | k < j < |b| :: b[j].term != t.term
    ensures Terms(a, b[k := t]) == Upsert(Terms(a, b), t)
    decreases |b|
  {
    hide Upsert, LastIndex;
    var n := |b| - 1;
    var x := Terms(a, b[..n]);
    if k == n {
      assert b[k := t][..n] == b[..n];
      UpsertTwice(x, b[n], t);
    } else {
      TermsUpdate(a, b[..n], k, t);
      assert b[k := t][..n] == b[..n][k := t];
      TermsNames(a, b[..n], t.term);
      assert b[..n][k].term == t.term;
      UpsertSwap(x, b[n], t);
    }
  }

  lemma {:induction false} TermsUpsert(a: seq<Term>, b: seq<Term>, t: Term)
    ensures Terms(a, Upsert(b, t)) == Upsert(Terms(a, b), t)
  {
    if HasTerm(b, t.term) {
      TermsUpdate(a, b, LastIndex(b, t.term), t);
    } else {
      assert (b + [t])[..|b|] == b;
    }
  }

  lemma {:induction false} TermsAssoc(a: seq<Term>, b: seq<Term>, c: seq<Term>)
    ensures Terms(a, Terms(b, c)) == Terms(Terms(a, b), c)
  {
    hide Upsert;
    if c != [] {
      var n := |c| - 1;
      TermsAssoc(a, b, c[..n]);
      TermsUpsert(a, Terms(b, c[..n]), c[n]);
    }
  }

  lemma {:induction false} TermsConcat(a: seq<Term>, b: seq<Term>, c: seq<Term>)
    ensures Terms(a, b + c) == Terms(Terms(a, b), c)
  {
    hide Upsert;
    if c == [] {
      assert b + c == b;
    } else {
      var n := |c| - 1;
      TermsConcat(a, b, c[..n]);
      assert (b + c)[..|b| + n] == b + c[..n];
    }
  }

  // ---------------------------------------------------------------- lists

  /** Each string where it last occurs. */
  function KeepLast(s: seq<string>): seq<string> {
    if s == [] then []
    else if s[0] in s[1..] then KeepLast(s[1..])
    else [s[0]] + KeepLast(s[1..])
  }

  lemma {:induction false} KeepLastStep(s: seq<string>, k: nat)
    requires k < |s|
    ensures KeepLast(s[k..]) == (if s[k] in s[k + 1..] then [] else [s[k]]) + KeepLast(s[k + 1..])
  {
    assert s[k..][1..] == s[k + 1..];
  }

  /** last maps each string to its last position. */
  predicate LastPositions(all: seq<string>, last: map<string, nat>) {
    && (forall i | 0 <= i < |all| :: all[i] in last)
    && (forall x | x in last :: last[x] < |all| && all[last[x]] == x && x !in all[last[x] + 1..])
  }

  method FindLast(all: seq<string>) returns (last: map<string, nat>)
    ensures LastPositions(all, last)
  {
    last := map[];
    for i := 0 to |all|
      invariant LastPositions(all[..i], last)
    {
      LastAppend(all[..i], last, all[i]);
      assert all[..i + 1] == all[..i] + [all[i]];
      last := last[all[i] := i];
    }
    assert all[..|all|] == all;
  }

  lemma {:induction false} LastAppend(all: seq<string>, last: map<string, nat>, s: string)
    requires LastPositions(all, last)
    ensures LastPositions(all + [s], last[s := |all|])
  {
    var more, next := all + [s], last[s := |all|];
    forall x | x in next ensures next[x] < |more| && more[next[x]] == x && x !in more[next[x] + 1..] {
      if x != s { assert more[next[x] + 1..] == all[next[x] + 1..] + [s]; }
    }
  }

  method MergeStrings(existing: seq<string>, incoming: seq<string>) returns (out: seq<string>)
    ensures out == KeepLast(existing + incoming)
  {
    hide LastPositions, KeepLast;
    var all := existing + incoming;
    var last := FindLast(all);
    out := [];
    assert all[0..] == all;
    assert [] + KeepLast(all) == KeepLast(all);
    for i := 0 to |all|
      invariant out + KeepLast(all[i..]) == KeepLast(all)
    {
      KeepLastStep(all, i);
      var s := all[i];
      LastMark(all, last, i);
      if last[s] == i {
        Assoc(out, [s], KeepLast(all[i + 1..]));
        out := out + [s];
      }
    }
    assert all[|all|..] == [];
    assert out + [] == out;
    assert KeepLast([]) == [] by { NothingMerged(); }
  }

  lemma {:induction false} InDrop(all: seq<string>, n: nat, i: nat)
    requires n < i < |all|
    ensures all[i] in all[n + 1..]
  {
    assert all[n + 1..][i - n - 1] == all[i];
  }

  lemma {:induction false} LastMark(all: seq<string>, last: map<string, nat>, i: nat)
    requires LastPositions(all, last) && i < |all|
    ensures all[i] in last && (last[all[i]] == i <==> all[i] !in all[i + 1..])
  {
    var n: nat := last[all[i]];
    if n > i {
      InDrop(all, i, n);
    } else if n < i {
      InDrop(all, n, i);
      assert false;
    }
  }

  lemma {:induction false} KeepLastSame(s: seq<string>, x: string)
    ensures x in KeepLast(s) <==> x in s
  {
    if s != [] {
      KeepLastSame(s[1..], x);
      assert s == [s[0]] + s[1..];
    }
  }

  lemma {:induction false} KeepLastDistinct(s: seq<string>)
    ensures var r := KeepLast(s); forall i, j | 0 <= i < j < |r| :: r[i] != r[j]
  {
    if s != [] {
      KeepLastDistinct(s[1..]);
      KeepLastSame(s[1..], s[0]);
    }
  }

  /** x occurs last in s at p. */
  predicate LastIs(s: seq<string>, x: string, p: nat) { p < |s| && s[p] == x && x !in s[p + 1..] }

  lemma {:induction false} LastInTail(s: seq<string>, x: string, p: nat)
    requires s != [] && LastIs(s, x, p) && x in s[1..]
    ensures p > 0 && LastIs(s[1..], x, p - 1)
  {
    if p > 0 { assert s[1..][p..] == s[p + 1..]; }
  }

  lemma {:induction false} LastIsIn(s: seq<string>, x: string, p: nat)
    requires LastIs(s, x, p)
    ensures p > 0 ==> x in s[1..]
  {
    if p > 0 { assert s[1..][p - 1] == x; }
  }

  lemma {:induction false} LastOrder(s: seq<string>, i: nat, j: nat, p: nat, q: nat)
    requires i < j < |KeepLast(s)| && LastIs(s, KeepLast(s)[i], p) && LastIs(s, KeepLast(s)[j], q)
    ensures p < q
  {
    var r, rest := KeepLast(s), KeepLast(s[1..]);
    KeepLastSame(s[1..], r[i]);
    KeepLastSame(s[1..], r[j]);
    if s[0] in s[1..] {
      LastInTail(s, r[i], p);
      LastInTail(s, r[j], q);
      LastOrder(s[1..], i, j, p - 1, q - 1);
    } else {
      assert r[j] == rest[j - 1];
      LastInTail(s, r[j], q);
      if i > 0 {
        assert r[i] == rest[i - 1];
        LastInTail(s, r[i], p);
        LastOrder(s[1..], i - 1, j - 1, p - 1, q - 1);
      } else {
        LastIsIn(s, s[0], p);
      }
    }
  }

  /** The kept strings are those of s, once each, in the order of their last occurrences. */
  lemma {:induction false} KeepLastIs(s: seq<string>)
    ensures var r := KeepLast(s);
            && (forall x :: x in r <==> x in s)
            && (forall i, j | 0 <= i < j < |r| :: r[i] != r[j])
            && (forall i, j, p, q | 0 <= i < j < |r| && LastIs(s, r[i], p) && LastIs(s, r[j], q) :: p < q)
  {
    hide KeepLast, LastIs;
    var r := KeepLast(s);
    forall x ensures x in r <==> x in s { KeepLastSame(s, x); }
    KeepLastDistinct(s);
    forall i, j, p, q | 0 <= i < j < |r| && LastIs(s, r[i], p) && LastIs(s, r[j], q) ensures p < q {
      LastOrder(s, i, j, p, q);
    }
  }

  lemma {:induction false} KeepLastFixed(s: seq<string>)
    requires forall i, j | 0 <= i < j < |s| :: s[i] != s[j]
    ensures KeepLast(s) == s
  {
    if s != [] {
      KeepLastFixed(s[1..]);
      assert s == [s[0]] + s[1..];
      assert forall j | 0 <= j < |s[1..]| :: s[1..][j] == s[j + 1];
    }
  }

  lemma {:induction false} InConcat(a: seq<string>, b: seq<string>, x: string)
    ensures x in a + b <==> x in a || x in b
  {}

  lemma {:induction false} KeepLastRight(a: seq<string>, b: seq<string>)
    ensures KeepLast(a + KeepLast(b)) == KeepLast(a + b)
  {
    if a == [] {
      assert a + b == b && a + KeepLast(b) == KeepLast(b);
      KeepLastDistinct(b);
      KeepLastFixed(KeepLast(b));
    } else {
      KeepLastRight(a[1..], b);
      assert (a + b)[1..] == a[1..] + b && (a + KeepLast(b))[1..] == a[1..] + KeepLast(b);
      KeepLastSame(b, a[0]);
      InConcat(a[1..], b, a[0]);
      InConcat(a[1..], KeepLast(b), a[0]);
    }
  }

  lemma {:induction false} KeepLastLeft(a: seq<string>, b: seq<string>)
    ensures KeepLast(KeepLast(a) + b) == KeepLast(a + b)
  {
    if a != [] {
      KeepLastLeft(a[1..], b);
      assert (a + b)[1..] == a[1..] + b;
      InConcat(a[1..], b, a[0]);
      if a[0] !in a[1..] {
        var r := KeepLast(a[1..]);
        assert ([a[0]] + r + b)[1..] == r + b;
        KeepLastSame(a[1..], a[0]);
        InConcat(r, b, a[0]);
      }
    }
  }

  lemma {:induction false} StringsAssoc(a: seq<string>, b: seq<string>, c: seq<string>)
    ensures KeepLast(a + KeepLast(b + c)) == KeepLast(KeepLast(a + b) + c)
  {
    KeepLastRight(a, b + c);
    KeepLastLeft(a + b, c);
    Assoc(a, b, c);
  }

  // ---------------------------------------------------------------- slots

  function ReplaceIfSet(existing: string, incoming: string): string {
    if incoming != "" then incoming else existing
  }

  /** src merged onto dst; src wins. */
  function MergeSlots(dst: Slots, src: Slots): Slots {
    Slots(Terms(dst.terminology, src.terminology),
          KeepLast(dst.rules + src.rules), KeepLast(dst.skills + src.skills), KeepLast(dst.prompts + src.prompts),
          ReplaceIfSet(dst.toolSpecs, src.toolSpecs), ReplaceIfSet(dst.goals, src.goals),
          ReplaceIfSet(dst.style, src.style), ReplaceIfSet(dst.norms, src.norms),
          ReplaceIfSet(dst.architecture, src.architecture), ReplaceIfSet(dst.businessProcess, src.businessProcess))
  }

  /** Merging is associative, whatever the documents hold. */
  lemma {:induction false} MergeAssoc(a: Slots, b: Slots, c: Slots)
    ensures MergeSlots(a, MergeSlots(b, c)) == MergeSlots(MergeSlots(a, b), c)
  {
    hide Terms, KeepLast;
    TermsAssoc(a.terminology, b.terminology, c.terminology);
    StringsAssoc(a.rules, b.rules, c.rules);
    StringsAssoc(a.skills, b.skills, c.skills);
    StringsAssoc(a.prompts, b.prompts, c.prompts);
  }

  lemma {:induction false} MergeEmpty(a: Slots, s: Slots)
    ensures MergeSlots(a, MergeSlots(EMPTY_SLOTS, s)) == MergeSlots(a, s)
  {
    hide KeepLast;
    TermsAssoc(a.terminology, [], s.terminology);
    assert forall x: seq<string> :: [] + x == x;
    KeepLastRight(a.rules, s.rules);
    KeepLastRight(a.skills, s.skills);
    KeepLastRight(a.prompts, s.prompts);
  }

  /** The documents merged in order onto acc. */
  function MergeAll(acc: Slots, docs: seq<Slots>): Slots
    decreases |docs|
  {
    if docs == [] then acc else MergeAll(MergeSlots(acc, docs[0]), docs[1..])
  }

  lemma {:induction false} MergeAllConcat(acc: Slots, a: seq<Slots>, b: seq<Slots>)
    ensures MergeAll(acc, a + b) == MergeAll(MergeAll(acc, a), b)
    decreases |a|
  {
    hide MergeSlots;
    if a == [] {
      assert a + b == b;
    } else {
      MergeAllConcat(MergeSlots(acc, a[0]), a[1..], b);
      assert (a + b)[1..] == a[1..] + b;
    }
  }

  /** Merging in order onto acc is merging the merge of all of them onto acc. */
  lemma {:induction false} MergeAllOnto(acc: Slots, docs: seq<Slots>)
    requires docs != []
    ensures MergeAll(acc, docs) == MergeSlots(acc, MergeAll(EMPTY_SLOTS, docs))
    decreases |docs|
  {
    hide MergeSlots, MergeAll;
    var n := |docs| - 1;
    MergeAllLast(acc, docs);
    MergeAllLast(EMPTY_SLOTS, docs);
    if n == 0 {
      assert docs[..0] == [];
      MergeNothing(acc);
      MergeNothing(EMPTY_SLOTS);
      MergeEmpty(acc, docs[0]);
    } else {
      MergeAllOnto(acc, docs[..n]);
      MergeAssoc(acc, MergeAll(EMPTY_SLOTS, docs[..n]), docs[n]);
    }
  }

  lemma {:induction false} MergeAllLast(acc: Slots, docs: seq<Slots>)
    requires docs != []
    ensures MergeAll(acc, docs) == MergeSlots(MergeAll(acc, docs[..|docs| - 1]), docs[|docs| - 1])
  {
    hide MergeSlots, MergeAll;
    var n := |docs| - 1;
    MergeAllConcat(acc, docs[..n], [docs[n]]);
    assert docs[..n] + [docs[n]] == docs;
    MergeOne(MergeAll(acc, docs[..n]), docs[n]);
  }

  lemma {:induction false} MergeNothing(acc: Slots)
    ensures MergeAll(acc, []) == acc
  {}

  lemma {:induction false} MergeOne(acc: Slots, doc: Slots)
    ensures MergeAll(acc, [doc]) == MergeSlots(acc, doc)
  {
    hide MergeSlots;
    assert [doc][1..] == [];
  }

  // ---------------------------------------------------------------- closed forms

  function NamesOf(ts: seq<Term>): (r: seq<string>)
    ensures |r| == |ts| && forall i | 0 <= i < |ts| :: r[i] == ts[i].term
  {
    seq(|ts|, i requires 0 <= i < |ts| => ts[i].term)
  }

  /** Each string where it first occurs. */
  function FirstOnly(names: seq<string>): seq<string> {
    if names == [] then []
    else
      var n := |names| - 1;
      FirstOnly(names[..n]) + if names[n] in names[..n] then [] else [names[n]]
  }

  /** The definition that the last term of this name carries. */
  function LastDefinition(ts: seq<Term>, name: string): string
    requires HasTerm(ts, name)
  {
    ts[LastIndex(ts, name)].definition
  }

  lemma {:induction false} NamesIn(ts: seq<Term>, name: string)
    ensures name in NamesOf(ts) <==> HasTerm(ts, name)
  {
    if HasTerm(ts, name) { assert NamesOf(ts)[LastIndex(ts, name)] == name; }
  }

  lemma {:induction false} UpsertNamesOf(ts: seq<Term>, t: Term)
    ensures NamesOf(Upsert(ts, t)) == if HasTerm(ts, t.term) then NamesOf(ts) else NamesOf(ts) + [t.term]
  {}

  predicate Unique(names: seq<string>) { forall i, j | 0 <= i < j < |names| :: names[i] != names[j] }

  /** The names of merged terms: first occurrences, in order. */
  lemma {:induction false} TermsOrder(ts: seq<Term>)
    ensures NamesOf(Terms([], ts)) == FirstOnly(NamesOf(ts))
    ensures Unique(NamesOf(Terms([], ts)))
  {
    hide Upsert, HasTerm, NamesOf;
    if ts != [] {
      var n := |ts| - 1;
      var x := Terms([], ts[..n]);
      TermsOrder(ts[..n]);
      UpsertNamesOf(x, ts[n]);
      assert NamesOf(ts)[..n] == NamesOf(ts[..n]);
      NamesIn(ts[..n], ts[n].term);
      NamesIn(x, ts[n].term);
      TermsNames([], ts[..n], ts[n].term);
      NoTerms(ts[n].term);
    }
  }

  lemma {:induction false} NoTerms(name: string)
    ensures !HasTerm([], name)
  {}

  lemma {:induction false} UpsertDefinition(ts: seq<Term>, t: Term, name: string)
    requires HasTerm(Upsert(ts, t), name)
    ensures name != t.term ==> HasTerm(ts, name)
    ensures LastDefinition(Upsert(ts, t), name) ==
            if name == t.term then t.definition else LastDefinition(ts, name)
  {
    UpsertNames(ts, t, name);
    var next := Upsert(ts, t);
    if name != t.term {
      UpsertIndex(ts, t, name);
    } else if HasTerm(ts, name) {
      LastIndexIs(next, LastIndex(ts, name));
    } else {
      LastIndexIs(next, |ts|);
    }
  }

  lemma {:induction false} LastDefinitionStep(ts: seq<Term>, t: Term, name: string)
    requires HasTerm(ts + [t], name)
    ensures name != t.term ==> HasTerm(ts, name)
    ensures LastDefinition(ts + [t], name) == if name == t.term then t.definition else LastDefinition(ts, name)
  {
    var next := ts + [t];
    if name == t.term {
      LastIndexIs(next, |ts|);
    } else {
      var i := LastIndex(next, name);
      assert ts[i].term == name;
      LastIndexIs(ts, i);
    }
  }

  /** Each merged term carries its last definition. */
  lemma {:induction false} TermsDefinition(ts: seq<Term>, name: string)
    requires HasTerm(ts, name)
    ensures HasTerm(Terms([], ts), name) && LastDefinition(Terms([], ts), name) == LastDefinition(ts, name)
  {
    hide HasTerm, LastDefinition, Upsert;
    NoTerms(name);
    TermsNames([], ts, name);
    if ts == [] {
      assert false;
    } else {
      var n := |ts| - 1;
      assert ts == ts[..n] + [ts[n]];
      UpsertDefinition(Terms([], ts[..n]), ts[n], name);
      LastDefinitionStep(ts[..n], ts[n], name);
      if name != ts[n].term { TermsDefinition(ts[..n], name); }
    }
  }

  function AllTermsOf(docs: seq<Slots>): seq<Term> {
    if docs == [] then [] else AllTermsOf(docs[..|docs| - 1]) + docs[|docs| - 1].terminology
  }

  function AllItemsOf(docs: seq<Slots>, key: SlotKey): seq<string> {
    if docs == [] then [] else AllItemsOf(docs[..|docs| - 1], key) + docs[|docs| - 1].List(key)
  }

  /** The last non-empty prose. */
  function LastProse(docs: seq<Slots>, key: SlotKey): string {
    if docs == [] then ""
    else if docs[|docs| - 1].Prose(key) != "" then docs[|docs| - 1].Prose(key)
    else LastProse(docs[..|docs| - 1], key)
  }

  /** Merged documents in closed form: the terms of the concatenation, by first place and last
      definition; the list entries of the concatenation, each where it last occurs; the last
      non-empty prose. */
  lemma {:induction false} MergedClosed(docs: seq<Slots>, key: SlotKey)
    ensures var r := MergeAll(EMPTY_SLOTS, docs);
            && r.terminology == Terms([], AllTermsOf(docs))
            && r.List(key) == KeepLast(AllItemsOf(docs, key))
            && r.Prose(key) == LastProse(docs, key)
  {
    hide Terms, KeepLast, MergeSlots;
    if docs == [] {
      assert Terms([], []) == [] by { NothingMerged(); }
      assert KeepLast([]) == [] by { NothingMerged(); }
    } else {
      var n := |docs| - 1;
      MergedClosed(docs[..n], key);
      MergeAllLast(EMPTY_SLOTS, docs);
      TermsConcat([], AllTermsOf(docs[..n]), docs[n].terminology);
      KeepLastLeft(AllItemsOf(docs[..n], key), docs[n].List(key));
      MergedSlot(MergeAll(EMPTY_SLOTS, docs[..n]), docs[n], key);
    }
  }

  lemma {:induction false} NothingMerged()
    ensures Terms([], []) == [] && KeepLast([]) == []
  {}

  lemma {:induction false} MergedSlot(dst: Slots, src: Slots, key: SlotKey)
    ensures MergeSlots(dst, src).terminology == Terms(dst.terminology, src.terminology)
    ensures MergeSlots(dst, src).List(key) == KeepLast(dst.List(key) + src.List(key))
    ensures MergeSlots(dst, src).Prose(key) == ReplaceIfSet(dst.Prose(key), src.Prose(key))
  {
    hide Terms;
    assert KeepLast([] + []) == [] by { NothingMerged(); }
  }
}
