/** String primitives of the Go standard library that the codec relies on:
    splitting and joining on newlines, trimming, and the CRLF fold. */
module Text {

  /** unicode.IsSpace: the White_Space property. */
  predicate IsSpace(c: char) {
    || c == ' ' || '\t' <= c <= '\r' || c == '\U{85}' || c == '\U{A0}' || c == '\U{1680}'
    || '\U{2000}' <= c <= '\U{200A}' || c == '\U{2028}' || c == '\U{2029}' || c == '\U{202F}'
    || c == '\U{205F}' || c == '\U{3000}'
  }

  predicate IsDigit(c: char) { '0' <= c <= '9' }

  /** The first slash of s at or after i, or its length. */
  function FindSlash(s: string, i: nat): (n: nat)
    requires i <= |s|
    ensures i <= n <= |s|
    decreases |s| - i
  {
    if i < |s| && s[i] != '/' then FindSlash(s, i + 1) else i
  }

  lemma {:induction false} FirstSlash(s: string, i: nat, n: nat)
    requires i <= n <= |s| && (forall k | i <= k < n :: s[k] != '/') && (n < |s| ==> s[n] == '/')
    ensures FindSlash(s, i) == n
    decreases n - i
  {
    if i < n { FirstSlash(s, i + 1, n); }
  }

  lemma {:induction false} SlashFound(s: string, i: nat)
    requires i <= |s|
    ensures var n := FindSlash(s, i);
            (forall k | i <= k < n :: s[k] != '/') && (n < |s| ==> s[n] == '/')
    decreases |s| - i
  {
    if i < |s| && s[i] != '/' { SlashFound(s, i + 1); }
  }

  /** The two cutsets the codec trims by. */
  datatype Cut = Spaces | Newlines

  predicate Cuts(cut: Cut, c: char) {
    match cut
    case Spaces => IsSpace(c)
    case Newlines => c == '\n'
  }

  /** strings.TrimSpace(s) == "". */
  predicate Blank(s: string) { forall i | 0 <= i < |s| :: IsSpace(s[i]) }

  predicate OneLine(s: string) { forall i | 0 <= i < |s| :: s[i] != '\n' }

  /** The first index from i on that is not cut. */
  function Lead(s: string, cut: Cut, i: nat): (n: nat)
    requires i <= |s|
    ensures i <= n <= |s|
    decreases |s| - i
  {
    if i < |s| && Cuts(cut, s[i]) then Lead(s, cut, i + 1) else i
  }

  /** Where s[lo..hi] ends once its trailing cut characters are gone. */
  function Keep(s: string, cut: Cut, lo: nat, hi: nat): (n: nat)
    requires lo <= hi <= |s|
    ensures lo <= n <= hi
    decreases hi - lo
  {
    if lo < hi && Cuts(cut, s[hi - 1]) then Keep(s, cut, lo, hi - 1) else hi
  }

  /** strings.TrimRight. */
  function TrimEnd(s: string, cut: Cut): string { s[..Keep(s, cut, 0, |s|)] }

  /** strings.Trim. */
  function Trim(s: string, cut: Cut): string {
    var n := Lead(s, cut, 0);
    s[n..Keep(s, cut, n, |s|)]
  }

  function TrimSpace(s: string): string { Trim(s, Spaces) }

  function TrimNL(s: string): string { Trim(s, Newlines) }

  /** strings.Split(s, "\n"). */
  function Lines(s: string): (ls: seq<string>)
    ensures |ls| >= 1
  {
    if s == "" then [""]
    else if s[0] == '\n' then [""] + Lines(s[1..])
    else Prefixed(s[0], Lines(s[1..]))
  }

  /** c put in front of the first line. */
  function Prefixed(c: char, ls: seq<string>): (r: seq<string>)
    requires ls != []
    ensures |r| == |ls|
    ensures r[0] == [c] + ls[0]
    ensures r[1..] == ls[1..]
  {
    [[c] + ls[0]] + ls[1..]
  }

  /** Two runs of lines with the last of one and the first of the other glued. */
  function Glue(a: seq<string>, b: seq<string>): (r: seq<string>)
    requires a != [] && b != []
    ensures |r| == |a| + |b| - 1
    ensures forall i | 0 <= i < |a| - 1 :: r[i] == a[i]
    ensures r[|a| - 1] == a[|a| - 1] + b[0]
    ensures forall i | |a| <= i < |r| :: r[i] == b[i - |a| + 1]
  {
    a[..|a| - 1] + [a[|a| - 1] + b[0]] + b[1..]
  }

  /** strings.Join(ls, "\n"). */
  function Join(ls: seq<string>): string {
    if ls == [] then "" else if |ls| == 1 then ls[0] else ls[0] + "\n" + Join(ls[1..])
  }

  /** Every line followed by a newline: what a sequence of "%s\n" writes leaves behind. */
  function Unlines(ls: seq<string>): string {
    if ls == [] then "" else ls[0] + "\n" + Unlines(ls[1..])
  }

  /** strings.ReplaceAll(s, "\r\n", "\n"). */
  function FoldCRLF(s: string): (r: string) {
    if s == "" then ""
    else if |s| > 1 && s[0] == '\r' && s[1] == '\n' then FoldCRLF(s[1..])
    else [s[0]] + FoldCRLF(s[1..])
  }

  /** What the CRLF fold does to one newline-terminated line. */
  function DropCR(l: string): string {
    if l != "" && l[|l| - 1] == '\r' then l[..|l| - 1] else l
  }

  function DropCRs(ls: seq<string>): (r: seq<string>)
    ensures |r| == |ls|
    ensures forall i | 0 <= i < |ls| :: r[i] == DropCR(ls[i])
  {
    seq(|ls|, i requires 0 <= i < |ls| => DropCR(ls[i]))
  }

  /** The number of carriage returns in s. */
  ghost function Returns(s: string): nat { multiset(s)['\r'] }

  predicate AllOneLine(ls: seq<string>) { forall i | 0 <= i < |ls| :: OneLine(ls[i]) }

  lemma {:induction false} Assoc<T>(a: seq<T>, b: seq<T>, c: seq<T>)
    ensures (a + b) + c == a + (b + c)
  {}

  // ---------------------------------------------------------------- trimming

  predicate AllCut(s: string, cut: Cut) { forall i | 0 <= i < |s| :: Cuts(cut, s[i]) }

  /** s neither starts nor ends with a cut character. */
  predicate Bare(s: string, cut: Cut) { s != "" ==> !Cuts(cut, s[0]) && !Cuts(cut, s[|s| - 1]) }

  lemma {:induction false} LeadFacts(s: string, cut: Cut, i: nat, n: nat)
    requires i <= |s| && n == Lead(s, cut, i)
    ensures forall k | i <= k < n :: Cuts(cut, s[k])
    ensures n < |s| ==> !Cuts(cut, s[n])
    decreases |s| - i
  {
    if i < |s| && Cuts(cut, s[i]) { LeadFacts(s, cut, i + 1, n); }
  }

  lemma {:induction false} KeepFacts(s: string, cut: Cut, lo: nat, hi: nat, n: nat)
    requires lo <= hi <= |s| && n == Keep(s, cut, lo, hi)
    ensures forall k | n <= k < hi :: Cuts(cut, s[k])
    ensures n > lo ==> !Cuts(cut, s[n - 1])
    decreases hi - lo
  {
    if lo < hi && Cuts(cut, s[hi - 1]) { KeepFacts(s, cut, lo, hi - 1, n); }
  }

  lemma {:induction false} LeadIs(s: string, cut: Cut, i: nat, n: nat)
    requires i <= n <= |s| && (n < |s| ==> !Cuts(cut, s[n]))
    requires forall k | i <= k < n :: Cuts(cut, s[k])
    ensures Lead(s, cut, i) == n
    decreases n - i
  {
    if i < n { LeadIs(s, cut, i + 1, n); }
  }

  lemma {:induction false} KeepIs(s: string, cut: Cut, lo: nat, hi: nat, n: nat)
    requires lo <= n <= hi <= |s| && (n > lo ==> !Cuts(cut, s[n - 1]))
    requires forall k | n <= k < hi :: Cuts(cut, s[k])
    ensures Keep(s, cut, lo, hi) == n
    decreases hi - n
  {
    if n < hi { KeepIs(s, cut, lo, hi - 1, n); }
  }

  /** Trim is determined by any split of s into cut, kept and cut parts. */
  lemma {:induction false} TrimUnique(a: string, m: string, b: string, cut: Cut)
    requires AllCut(a, cut) && AllCut(b, cut) && Bare(m, cut)
    ensures Trim(a + m + b, cut) == m
  {
    var s := a + m + b;
    if m == "" {
      LeadIs(s, cut, 0, |s|);
    } else {
      assert s[|a|] == m[0] && s[|a| + |m| - 1] == m[|m| - 1];
      LeadIs(s, cut, 0, |a|);
      assert forall k | |a| + |m| <= k < |s| :: s[k] == b[k - |a| - |m|];
      KeepIs(s, cut, |a|, |s|, |a| + |m|);
    }
  }

  lemma {:induction false} TrimSlice(s: string, cut: Cut) returns (i: nat, j: nat)
    ensures i <= j <= |s| && Trim(s, cut) == s[i..j]
    ensures forall k | 0 <= k < i :: Cuts(cut, s[k])
    ensures forall k | j <= k < |s| :: Cuts(cut, s[k])
    ensures i < j ==> !Cuts(cut, s[i]) && !Cuts(cut, s[j - 1])
  {
    i := Lead(s, cut, 0);
    LeadFacts(s, cut, 0, i);
    j := Keep(s, cut, i, |s|);
    KeepFacts(s, cut, i, |s|, j);
  }

  /** Trim cuts s into three parts. */
  lemma {:induction false} TrimParts(s: string, cut: Cut) returns (a: string, b: string)
    ensures s == a + Trim(s, cut) + b
    ensures AllCut(a, cut) && AllCut(b, cut) && Bare(Trim(s, cut), cut)
  {
    var i, j := TrimSlice(s, cut);
    a, b := s[0..i], s[j..|s|];
    ThreeParts(s, i, j);
    SliceCut(s, cut, 0, i);
    SliceCut(s, cut, j, |s|);
    SliceEnds(s, i, j);
  }

  lemma {:induction false} SliceCut(s: string, cut: Cut, i: nat, j: nat)
    requires i <= j <= |s| && forall k | i <= k < j :: Cuts(cut, s[k])
    ensures AllCut(s[i..j], cut)
  {}

  lemma {:induction false} SliceEnds(s: string, i: nat, j: nat)
    requires i <= j <= |s|
    ensures i < j ==> s[i..j] != "" && s[i..j][0] == s[i] && s[i..j][j - i - 1] == s[j - 1]
    ensures i == j ==> s[i..j] == ""
  {}

  lemma {:induction false} ThreeParts(s: string, i: nat, j: nat)
    requires i <= j <= |s|
    ensures s == s[0..i] + s[i..j] + s[j..|s|]
  {}

  lemma {:induction false} TrimFixed(s: string, cut: Cut)
    requires Bare(s, cut)
    ensures Trim(s, cut) == s
  {
    TrimUnique("", s, "", cut);
    assert "" + s + "" == s;
  }

  lemma {:induction false} TrimPad(a: string, s: string, b: string, cut: Cut)
    requires AllCut(a, cut) && AllCut(b, cut)
    ensures Trim(a + s + b, cut) == Trim(s, cut)
  {
    var x, y := TrimParts(s, cut);
    var m := Trim(s, cut);
    Regroup(a, x, m, y, b);
    TrimUnique(a + x, m, y + b, cut);
  }

  lemma {:induction false} Regroup(a: string, x: string, m: string, y: string, b: string)
    ensures a + (x + m + y) + b == (a + x) + m + (y + b)
  {}

  lemma {:induction false} TrimEmpty(s: string, cut: Cut)
    ensures Trim(s, cut) == "" <==> AllCut(s, cut)
  {
    var a, b := TrimParts(s, cut);
    var m := Trim(s, cut);
    if m != "" { assert s[|a|] == m[0]; }
  }

  // ---------------------------------------------------------------- lines

  lemma {:induction false} LinesOneLine(s: string)
    ensures AllOneLine(Lines(s))
  {
    if s != "" {
      LinesOneLine(s[1..]);
      if s[0] != '\n' { PrefixedOneLine(s[0], Lines(s[1..])); }
    }
  }

  lemma {:induction false} PrefixedOneLine(c: char, ls: seq<string>)
    requires ls != [] && AllOneLine(ls) && c != '\n'
    ensures AllOneLine(Prefixed(c, ls))
  {}

  lemma {:induction false} JoinLines(s: string)
    ensures Join(Lines(s)) == s
  {
    if s != "" {
      JoinLines(s[1..]);
      var r := Lines(s[1..]);
      if s[0] == '\n' {
        assert ([""] + r)[1..] == r;
      } else {
        assert ([[s[0]] + r[0]] + r[1..])[1..] == r[1..];
      }
    }
  }

  /** Splitting distributes over concatenation, gluing the two lines at the seam. */
  lemma {:induction false} LinesConcat(a: string, b: string)
    ensures Lines(a + b) == Glue(Lines(a), Lines(b))
  {
    if a == "" {
      assert a + b == b;
      assert "" + Lines(b)[0] == Lines(b)[0];
    } else {
      LinesConcat(a[1..], b);
      assert (a + b)[1..] == a[1..] + b;
      GlueStep(a[0], Lines(a[1..]), Lines(b));
    }
  }

  lemma {:induction false} GlueStep(c: char, r: seq<string>, lb: seq<string>)
    requires r != [] && lb != []
    ensures Glue([""] + r, lb) == [""] + Glue(r, lb)
    ensures Glue(Prefixed(c, r), lb) == Prefixed(c, Glue(r, lb))
  {
    GlueEmpty(r, lb);
    GluePrefixed(c, r, lb);
  }

  lemma {:induction false} GlueEmpty(r: seq<string>, lb: seq<string>)
    requires r != [] && lb != []
    ensures Glue([""] + r, lb) == [""] + Glue(r, lb)
  {
    var g := [""] + r;
    assert g[..|g| - 1] == [""] + r[..|r| - 1];
  }

  lemma {:induction false} GluePrefixed(c: char, r: seq<string>, lb: seq<string>)
    requires r != [] && lb != []
    ensures Glue(Prefixed(c, r), lb) == Prefixed(c, Glue(r, lb))
  {
    GlueFirst(c, r, lb);
    var p, g := Prefixed(c, r), Prefixed(c, Glue(r, lb));
    forall i | 0 < i < |g| ensures Glue(p, lb)[i] == g[i] {
      PrefixedAt(c, Glue(r, lb), i);
      if i < |r| { PrefixedAt(c, r, i); }
    }
  }

  lemma {:induction false} PrefixedAt(c: char, ls: seq<string>, i: nat)
    requires 0 < i < |ls|
    ensures Prefixed(c, ls)[i] == ls[i]
  {}

  lemma {:induction false} GlueFirst(c: char, r: seq<string>, lb: seq<string>)
    requires r != [] && lb != []
    ensures Glue(Prefixed(c, r), lb)[0] == Prefixed(c, Glue(r, lb))[0]
  {
    if |r| == 1 { Assoc([c], r[0], lb[0]); }
  }

  /** Text put in front of the first line. */
  lemma {:induction false} LinesPrefix(a: string, s: string)
    requires OneLine(a)
    ensures Lines(a + s) == [a + Lines(s)[0]] + Lines(s)[1..]
  {
    LinesConcat(a, s);
    LinesOfOneLine(a);
    var g := Glue([a], Lines(s));
    assert forall i | 1 <= i < |g| :: g[i] == Lines(s)[i];
  }

  lemma {:induction false} LinesOfOneLine(l: string)
    requires OneLine(l)
    ensures Lines(l) == [l]
  {
    if l != "" {
      LinesOfOneLine(l[1..]);
      assert [l[0]] + l[1..] == l;
    }
  }

  lemma {:induction false} LinesCons(l: string, s: string)
    requires OneLine(l)
    ensures Lines(l + "\n" + s) == [l] + Lines(s)
  {
    LinesConcat(l, "\n" + s);
    LinesOfOneLine(l);
    assert l + "\n" + s == l + ("\n" + s);
    assert ("\n" + s)[1..] == s;
    assert l + "" == l;
  }

  lemma {:induction false} LinesJoin(ls: seq<string>)
    requires ls != [] && AllOneLine(ls)
    ensures Lines(Join(ls)) == ls
  {
    if |ls| == 1 {
      LinesOfOneLine(ls[0]);
    } else {
      LinesJoin(ls[1..]);
      LinesCons(ls[0], Join(ls[1..]));
    }
  }

  lemma {:induction false} LinesUnlines(ls: seq<string>)
    requires AllOneLine(ls)
    ensures Lines(Unlines(ls)) == ls + [""]
  {
    if ls != [] {
      LinesUnlines(ls[1..]);
      LinesCons(ls[0], Unlines(ls[1..]));
    }
  }

  lemma {:induction false} UnlinesAppend(a: seq<string>, b: seq<string>)
    ensures Unlines(a + b) == Unlines(a) + Unlines(b)
  {
    if a == [] {
      assert a + b == b;
    } else {
      UnlinesAppend(a[1..], b);
      assert (a + b)[1..] == a[1..] + b;
    }
  }

  lemma {:induction false} UnlinesStep(ls: seq<string>, i: nat)
    requires i < |ls|
    ensures Unlines(ls[..i + 1]) == Unlines(ls[..i]) + (ls[i] + "\n")
  {
    assert ls[..i + 1] == ls[..i] + [ls[i]];
    UnlinesAppend(ls[..i], [ls[i]]);
    assert Unlines([ls[i]]) == ls[i] + "\n" + Unlines([]);
  }

  lemma {:induction false} UnlinesJoin(ls: seq<string>)
    requires ls != []
    ensures Unlines(ls) == Join(ls) + "\n"
  {
    if |ls| > 1 {
      UnlinesJoin(ls[1..]);
      assert ls[0] + "\n" + (Join(ls[1..]) + "\n") == ls[0] + "\n" + Join(ls[1..]) + "\n";
    } else {
      assert Unlines(ls[1..]) == "";
    }
  }

  /** Trimming newlines keeps a run of the lines of s. */
  lemma {:induction false} TrimNLLines(s: string) returns (i: nat, j: nat)
    ensures i < j <= |Lines(s)|
    ensures Lines(TrimNL(s)) == Lines(s)[i..j]
    ensures forall k | 0 <= k < |Lines(s)| && !(i <= k < j) :: Lines(s)[k] == ""
  {
    hide Lines, Trim;
    var a, b := TrimParts(s, Newlines);
    var m := TrimNL(s);
    LinesConcat(a + m, b);
    LinesConcat(a, m);
    NewlineLines(a);
    NewlineLines(b);
    i, j := |Lines(a)| - 1, |Lines(a)| - 1 + |Lines(m)|;
    GlueRun(Lines(a), Lines(m), Lines(b));
  }

  lemma {:induction false} GlueRun(a: seq<string>, m: seq<string>, b: seq<string>)
    requires a != [] && m != [] && b != []
    requires (forall k | 0 <= k < |a| :: a[k] == "") && forall k | 0 <= k < |b| :: b[k] == ""
    ensures var g := Glue(Glue(a, m), b);
            && g[|a| - 1..|a| - 1 + |m|] == m
            && forall k | 0 <= k < |g| && !(|a| - 1 <= k < |a| - 1 + |m|) :: g[k] == ""
  {
    var am := Glue(a, m);
    assert am[|a| - 1] == "" + m[0] == m[0];
    assert am[|am| - 1] + "" == am[|am| - 1];
  }

  lemma {:induction false} NewlineLines(s: string)
    requires AllCut(s, Newlines)
    ensures forall i | 0 <= i < |Lines(s)| :: Lines(s)[i] == ""
  {
    if s != "" { NewlineLines(s[1..]); }
  }

  // ---------------------------------------------------------------- CRLF

  /** Folding CRLF in newline-terminated text drops one return from each line. */
  lemma {:induction false} FoldUnlines(ls: seq<string>)
    requires AllOneLine(ls)
    ensures FoldCRLF(Unlines(ls)) == Unlines(DropCRs(ls))
  {
    if ls != [] {
      FoldUnlines(ls[1..]);
      FoldCons(ls[0], Unlines(ls[1..]));
      assert DropCRs(ls)[1..] == DropCRs(ls[1..]);
    }
  }

  lemma {:induction false} FoldCons(l: string, s: string)
    requires OneLine(l)
    ensures FoldCRLF(l + "\n" + s) == DropCR(l) + "\n" + FoldCRLF(s)
  {
    if l == "" {
      assert l + "\n" + s == "\n" + s;
      FoldStep('\n', s);
    } else {
      hide FoldCRLF, DropCR;
      var c, r := l[0], l[1..];
      assert l == [c] + r;
      FoldCons(r, s);
      assert l + "\n" + s == [c] + (r + "\n" + s);
      FoldStep(c, r + "\n" + s);
      DropStep(c, r);
      assert (r + "\n" + s)[0] == if r == "" then '\n' else r[0];
      assert [c] + (DropCR(r) + "\n" + FoldCRLF(s)) == ([c] + DropCR(r)) + "\n" + FoldCRLF(s);
    }
  }

  lemma {:induction false} DropStep(c: char, r: string)
    ensures DropCR([c] + r) == if c == '\r' && r == "" then "" else [c] + DropCR(r)
  {}

  lemma {:induction false} FoldStep(c: char, s: string)
    ensures FoldCRLF([c] + s) ==
            if c == '\r' && s != "" && s[0] == '\n' then FoldCRLF(s) else [c] + FoldCRLF(s)
  {
    assert ([c] + s)[1..] == s;
  }

  lemma {:induction false} FoldNoReturns(s: string)
    requires '\r' !in s
    ensures FoldCRLF(s) == s
  {
    if s != "" { FoldNoReturns(s[1..]); }
  }

  lemma {:induction false} ReturnsConcat(a: string, b: string)
    ensures Returns(a + b) == Returns(a) + Returns(b)
  {}

  /** No return ends a line of s, the last line included. */
  predicate NoReturnEnds(s: string) {
    forall i | 0 <= i < |s| && s[i] == '\r' :: i + 1 < |s| && s[i + 1] != '\n'
  }

  predicate HasCRLF(s: string, i: nat) { i + 1 < |s| && s[i] == '\r' && s[i + 1] == '\n' }

  /** The fold either leaves a text alone or loses returns. */
  lemma {:induction false} FoldReturns(s: string)
    ensures if exists i: nat :: HasCRLF(s, i) then Returns(FoldCRLF(s)) < Returns(s) else FoldCRLF(s) == s
    ensures Returns(FoldCRLF(s)) <= Returns(s)
  {
    if s != "" {
      var r := s[1..];
      FoldReturns(r);
      assert s == [s[0]] + r;
      ReturnsConcat([s[0]], r);
      ReturnsConcat([s[0]], FoldCRLF(r));
      if i: nat :| HasCRLF(r, i) {
        assert HasCRLF(s, i + 1);
      } else if i: nat :| HasCRLF(s, i) {
        assert i == 0 || HasCRLF(r, i - 1);
      } else {
        assert !HasCRLF(s, 0);
      }
    }
  }

  /** What one printed and re-read text becomes: its line-end returns dropped, its outer newlines trimmed. */
  function Clean(s: string): string { TrimNL(FoldCRLF(s + "\n")) }

  lemma {:induction false} CleanLines(s: string)
    ensures TrimNL(Join(DropCRs(Lines(s)))) == Clean(s)
  {
    var ls := Lines(s);
    UnlinesJoin(ls);
    JoinLines(s);
    LinesOneLine(s);
    FoldUnlines(ls);
    UnlinesJoin(DropCRs(ls));
    var t := Join(DropCRs(ls));
    TrimPad("", t, "\n", Newlines);
    assert "" + t + "\n" == t + "\n";
  }

  lemma {:induction false} NoReturnEndsFold(s: string)
    ensures NoReturnEnds(s) <==> FoldCRLF(s + "\n") == s + "\n"
    ensures !NoReturnEnds(s) ==> Returns(FoldCRLF(s + "\n")) < Returns(s)
  {
    var u := s + "\n";
    FoldReturns(u);
    ReturnsConcat(s, "\n");
    if i: nat :| HasCRLF(u, i) {
      assert s[i] == '\r';
    } else {
      forall i | 0 <= i < |s| && s[i] == '\r' ensures i + 1 < |s| && s[i + 1] != '\n' {
        assert !HasCRLF(u, i);
        assert u[i + 1] == if i + 1 < |s| then s[i + 1] else '\n';
      }
    }
  }

  lemma {:induction false} CleanReturns(s: string)
    ensures !NoReturnEnds(s) ==> Returns(Clean(s)) < Returns(s)
    ensures NoReturnEnds(s) ==> Clean(s) == TrimNL(s)
  {
    hide FoldCRLF, Returns, Trim, NoReturnEnds;
    NoReturnEndsFold(s);
    TrimReturns(FoldCRLF(s + "\n"), Newlines);
    TrimPad("", s, "\n", Newlines);
    assert "" + s + "\n" == s + "\n";
  }

  /** A text comes back as it was exactly when no line of it ends in a return. */
  lemma {:induction false} CleanFixed(s: string)
    requires TrimNL(s) == s
    ensures Clean(s) == s <==> NoReturnEnds(s)
  {
    CleanReturns(s);
  }

  lemma {:induction false} TrimReturns(s: string, cut: Cut)
    ensures Returns(Trim(s, cut)) <= Returns(s)
  {
    var a, b := TrimParts(s, cut);
    ReturnsConcat(a + Trim(s, cut), b);
    ReturnsConcat(a, Trim(s, cut));
  }

  // ---------------------------------------------------------------- first and last lines

  lemma {:induction false} LastLine(s: string)
    ensures var l := Lines(s)[|Lines(s)| - 1]; |l| <= |s| && s[|s| - |l|..] == l
  {
    if s != "" {
      LastLine(s[1..]);
      var r := Lines(s[1..]);
      var l := r[|r| - 1];
      if s[0] == '\n' || |r| > 1 {
        assert s[0] == '\n' || Prefixed(s[0], r)[1..] == r[1..];
        assert Lines(s)[|Lines(s)| - 1] == l;
        assert s[|s| - |l|..] == s[1..][|s| - 1 - |l|..];
      } else {
        JoinLines(s[1..]);
        assert s == [s[0]] + r[0];
      }
    }
  }
}
