/** The laws of the codec: which documents survive printing and parsing, exactly. */
module CodecLaws {
  import opened Text
  import opened Schema
  import opened Codec
  import opened CodecShape
  import opened CodecPrint

  // ---------------------------------------------------------------- canonical documents

  predicate NoAt(s: string, from: nat) { forall i | from <= i < |s| :: s[i] != '@' }

  /** A parent reference that its "ref@version" text determines. */
  predicate InheritOk(e: ExtendRef) {
    if e.version == "" then Bare(e.ref, Spaces) && NoAt(e.ref, 1)
    else e.ref != "" && !IsSpace(e.ref[0]) && !IsSpace(e.version[|e.version| - 1]) && NoAt(e.version, 0)
  }

  predicate CanonicalItem(s: string) { ItemShape(s) && NoReturnEnds(s) }

  predicate CanonicalProse(s: string) { ProseShape(s) && NoReturnEnds(s) && (s == "" || !Blank(s)) }

  predicate CanonicalTerm(t: Term) {
    TermShape(t) && t.term != "" && NoReturnEnds(t.term) && NoReturnEnds(t.definition)
  }

  predicate CanonicalItems(items: seq<string>) { forall i | 0 <= i < |items| :: CanonicalItem(items[i]) }

  predicate CanonicalTerms(ts: seq<Term>) { forall i | 0 <= i < |ts| :: CanonicalTerm(ts[i]) }

  predicate CanonicalSlots(s: Slots) {
    && CanonicalTerms(s.terminology)
    && CanonicalItems(s.rules) && CanonicalItems(s.skills) && CanonicalItems(s.prompts)
    && CanonicalProse(s.toolSpecs) && CanonicalProse(s.goals) && CanonicalProse(s.style)
    && CanonicalProse(s.norms) && CanonicalProse(s.architecture) && CanonicalProse(s.businessProcess)
  }

  predicate TitleOk(name: string) { name == "" || !Blank(name) }

  predicate Canonical(doc: Doc) {
    && doc.visibility != ""
    && TitleOk(doc.name)
    && (forall i | 0 <= i < |doc.extends_| :: InheritOk(doc.extends_[i]))
    && CanonicalSlots(doc.slots)
  }

  /** What the codec asks of the YAML library for one frontmatter: its text ends its last line,
      no line of it is a fence or ends in a return, and decoding gives the frontmatter back. */
  ghost predicate Framed(y: Yaml, fm: Frontmatter) {
    var h := y.encode(fm);
    && h != "" && h[|h| - 1] == '\n'
    && (forall l | l in Lines(h[..|h| - 1]) :: TrimSpace(l) != FENCE && DropCR(l) == l)
    && y.decode(h[..|h| - 1]) == Some(fm)
  }

  // ---------------------------------------------------------------- inherits

  lemma {:induction false} LastAtFacts(s: string, n: nat)
    requires n <= |s|
    ensures forall i | (match LastAt(s, n) case Some(k) => k + 1 case None => 0) <= i < n :: s[i] != '@'
  {
    if n > 0 && s[n - 1] != '@' { LastAtFacts(s, n - 1); }
  }

  lemma {:induction false} LastAtIs(s: string, n: nat, k: nat)
    requires k < n <= |s| && s[k] == '@' && forall i | k < i < n :: s[i] != '@'
    ensures LastAt(s, n) == Some(k)
  {
    if k < n - 1 { LastAtIs(s, n - 1, k); }
  }

  /** A reference comes back from its text exactly when it is well formed. */
  lemma {:induction false} InheritRoundTrip(e: ExtendRef)
    ensures ParseInherit(InheritText(e)) == e <==> InheritOk(e)
  {
    if InheritOk(e) { InheritBack(e); }
    if ParseInherit(InheritText(e)) == e { InheritOnly(e); }
  }

  lemma {:induction false} InheritBack(e: ExtendRef)
    requires InheritOk(e)
    ensures ParseInherit(InheritText(e)) == e
  {
    var t := InheritText(e);
    if e.version == "" {
      TrimFixed(t, Spaces);
      LastAtFacts(t, |t|);
    } else {
      assert t[0] == e.ref[0] && t[|t| - 1] == e.version[|e.version| - 1];
      TrimFixed(t, Spaces);
      assert forall i | |e.ref| < i < |t| :: t[i] == e.version[i - |e.ref| - 1];
      LastAtIs(t, |t|, |e.ref|);
      assert t[..|e.ref|] == e.ref && t[|e.ref| + 1..] == e.version;
    }
  }

  lemma {:induction false} TrimSame(s: string)
    requires |TrimSpace(s)| == |s|
    ensures TrimSpace(s) == s && Bare(s, Spaces)
  {
    var a, b := TrimParts(s, Spaces);
    assert a == "" && b == "";
  }

  lemma {:induction false} TrimShorter(s: string)
    ensures |TrimSpace(s)| <= |s|
  {
    var a, b := TrimParts(s, Spaces);
  }

  lemma {:induction false} InheritOnly(e: ExtendRef)
    requires ParseInherit(InheritText(e)) == e
    ensures InheritOk(e)
  {
    var t := InheritText(e);
    var r := TrimSpace(t);
    TrimShorter(t);
    LastAtFacts(r, |r|);
    if e.version != "" {
      PinnedOnly(e, r, LastAt(r, |r|).value);
    }
    TrimSame(t);
  }

  lemma {:induction false} PinnedOnly(e: ExtendRef, r: string, k: nat)
    requires 0 < k < |r| && e == ExtendRef(r[..k], r[k + 1..]) && e.version != ""
    requires forall i | k < i < |r| :: r[i] != '@'
    ensures |r| == |InheritText(e)| && NoAt(e.version, 0) && e.ref != ""
    ensures InheritText(e)[0] == e.ref[0]
    ensures InheritText(e)[|r| - 1] == e.version[|e.version| - 1]
  {
    forall i | 0 <= i < |e.version| ensures e.version[i] != '@' { assert e.version[i] == r[k + 1 + i]; }
  }

  /** A pinned reference read from any text is well formed. */
  lemma {:induction false} ParsedInheritOk(text: string)
    ensures var e := ParseInherit(text); e.version != "" ==> InheritOk(e)
  {
    var r := TrimSpace(text);
    var a, b := TrimParts(text, Spaces);
    LastAtFacts(r, |r|);
    var e := ParseInherit(text);
    if e.version != "" {
      var k := LastAt(r, |r|).value;
      assert e.ref[0] == r[0] && e.version[|e.version| - 1] == r[|r| - 1];
      forall i | 0 <= i < |e.version| ensures e.version[i] != '@' { assert e.version[i] == r[k + 1 + i]; }
    }
  }

  // ---------------------------------------------------------------- slots

  /** Text after s that does not start a line hides nothing of s but its last character. */
  lemma {:induction false} NoReturnConcat(a: string, b: string)
    requires b != "" && b[0] != '\n' && (a != "" ==> a[|a| - 1] != '\r')
    ensures NoReturnEnds(a + b) <==> NoReturnEnds(a) && NoReturnEnds(b)
  {
    var s := a + b;
    if NoReturnEnds(s) {
      forall i | 0 <= i < |a| && a[i] == '\r' ensures i + 1 < |a| && a[i + 1] != '\n' {
        assert s[i] == '\r' && s[i + 1] == a[i + 1];
      }
      forall i | 0 <= i < |b| && b[i] == '\r' ensures i + 1 < |b| && b[i + 1] != '\n' {
        assert s[|a| + i] == '\r' && (i + 1 < |b| ==> s[|a| + i + 1] == b[i + 1]);
      }
    }
    if NoReturnEnds(a) && NoReturnEnds(b) {
      forall i | 0 <= i < |s| && s[i] == '\r' ensures i + 1 < |s| && s[i + 1] != '\n' {
        if i < |a| {
          assert a[i] == '\r' && s[i + 1] == a[i + 1];
        } else {
          assert b[i - |a|] == '\r' && s[i + 1] == b[i - |a| + 1];
        }
      }
    }
  }

  lemma {:induction false} MarkReturns(mark: string, s: string)
    requires mark in {"**", "**: "}
    ensures NoReturnEnds(mark + s) <==> NoReturnEnds(s)
    ensures Returns(mark + s) == Returns(s)
  {
    ReturnsConcat(mark, s);
    assert NoReturnEnds(mark);
    if s != "" && s[0] != '\n' {
      NoReturnConcat(mark, s);
    } else if s != "" {
      var t := mark + s;
      assert forall i | 0 <= i < |s| :: t[|mark| + i] == s[i];
      assert forall i | 0 <= i < |mark| :: t[i] != '\r';
      assert NoReturnEnds(s) ==> NoReturnEnds(t);
      forall i | 0 <= i < |s| && s[i] == '\r' && NoReturnEnds(t) ensures i + 1 < |s| && s[i + 1] != '\n' {
        assert t[|mark| + i] == '\r';
      }
    } else {
      assert mark + s == mark;
    }
  }

  lemma {:induction false} TermTextSeam(t: Term)
    requires Bare(t.term, Spaces)
    ensures var a, b := "**" + t.term, "**: " + t.definition;
            && TermText(t) == a + b && a[|a| - 1] != '\r' && b[0] == '*'
  {
    var a := "**" + t.term;
    assert a[|a| - 1] == if t.term == "" then '*' else t.term[|t.term| - 1];
  }

  lemma {:induction false} TermTextReturns(t: Term)
    requires Bare(t.term, Spaces)
    ensures NoReturnEnds(TermText(t)) <==> NoReturnEnds(t.term) && NoReturnEnds(t.definition)
    ensures Returns(TermText(t)) == Returns(t.term) + Returns(t.definition)
  {
    TermTextSeam(t);
    MarkReturns("**", t.term);
    MarkReturns("**: ", t.definition);
    NoReturnConcat("**" + t.term, "**: " + t.definition);
    ReturnsConcat("**" + t.term, "**: " + t.definition);
  }

  /** Matching loses no returns it did not see. */
  lemma {:induction false} MatchReturns(item: string, t: Term)
    requires MatchTerm(item) == Some(t)
    ensures Returns(t.term) + Returns(t.definition) <= Returns(item)
  {
    var group, gap, def := MatchGroups(item);
    ReturnsConcat("**" + group, "**:" + gap + def);
    ReturnsConcat("**", group);
    ReturnsConcat("**:" + gap, def);
    TrimReturns(group, Spaces);
    TrimReturns(def, Spaces);
  }

  lemma {:induction false} FindCloseIs(s: string, k: nat, n: nat)
    requires k <= n && ClosesAt(s, n) && forall i | k <= i < n :: !ClosesAt(s, i)
    ensures FindClose(s, k) == Some(n)
    decreases n - k
  {
    if k < n { FindCloseIs(s, k + 1, n); }
  }

  lemma {:induction false} CloseOfTerm(t: Term)
    requires t.term != "" && NoInnerClose(t.term)
    ensures FindClose(t.term + "**: " + t.definition, 1) == Some(|t.term|)
  {
    var n, s := |t.term|, t.term + "**: " + t.definition;
    assert s[n] == '*' && s[n + 1] == '*' && s[n + 2] == ':';
    forall i | 1 <= i < n ensures !ClosesAt(s, i) {
      assert s[i] == t.term[i];
      assert !ClosesAt(t.term, i);
      assert i + 1 < n ==> s[i + 1] == t.term[i + 1];
      assert i + 2 < n ==> s[i + 2] == t.term[i + 2];
    }
    FindCloseIs(s, 1, n);
  }

  lemma {:induction false} TermTextParts(t: Term)
    ensures var n, s := |t.term|, TermText(t)[2..];
            && "**" <= TermText(t) && s == t.term + "**: " + t.definition
            && s[..n] == t.term && s[n + 3..] == " " + t.definition
  {
    assert TermText(t) == "**" + (t.term + "**: " + t.definition);
  }

  lemma {:induction false} TermMatches(t: Term)
    requires TermShape(t) && t.term != ""
    ensures MatchTerm(TermText(t)) == Some(t)
  {
    TermTextParts(t);
    CloseOfTerm(t);
    var rest := " " + t.definition;
    assert rest[0] == ' ' && rest[1..] == t.definition;
    TrimFixed(t.term, Spaces);
    TrimFixed(t.definition, Spaces);
  }

  /** An empty term is printed as text that no match reads as an empty term. */
  lemma {:induction false} EmptyTermLost(t: Term)
    requires t.term == ""
    ensures MatchTerm(TermText(t)).Some? ==> MatchTerm(TermText(t)).value.term != ""
  {
    var item := TermText(t);
    if MatchTerm(item).Some? {
      var group, gap, def := MatchGroups(item);
      assert group[0] == item[2] == '*';
      TrimEmpty(group, Spaces);
    }
  }

  /** A printed term reads back as itself exactly when it is canonical. */
  lemma {:induction false} TermRoundTrip(t: Term)
    requires TermShape(t)
    ensures MatchTerm(Clean(TermText(t))) == Some(t) <==> CanonicalTerm(t)
  {
    var item := TermText(t);
    TermTextReturns(t);
    TermTextTrim(t);
    CleanReturns(item);
    if NoReturnEnds(item) {
      if t.term == "" { EmptyTermLost(t); } else { TermMatches(t); }
    } else if MatchTerm(Clean(item)) == Some(t) {
      MatchReturns(Clean(item), t);
    }
  }

  // ---------------------------------------------------------------- which printed terms still match

  /** "**:" occurs in s. */
  predicate Marked(s: string) { s != "" && (ClosesAt(s, 0) || Marked(s[1..])) }

  /** A term that its own text is still read as some term: only the empty term may not be. */
  predicate TermReads(t: Term) { t.term != "" || Marked(t.definition) }

  lemma {:induction false} FindCloseMarked(s: string, k: nat)
    requires k <= |s|
    ensures FindClose(s, k).Some? <==> Marked(s[k..])
    decreases |s| - k
  {
    var r := s[k..];
    assert ClosesAt(r, 0) <==> ClosesAt(s, k);
    if k < |s| {
      assert r[1..] == s[k + 1..];
      FindCloseMarked(s, k + 1);
    }
    if |r| == 1 || |r| == 2 { ShortUnmarked(r); }
  }

  lemma {:induction false} ShortUnmarked(s: string)
    requires |s| < 3
    ensures !Marked(s)
  {
    if s != "" { ShortUnmarked(s[1..]); }
  }

  /** Folding line ends makes and breaks no "**:". */
  lemma {:induction false} FoldMarked(s: string)
    ensures Marked(FoldCRLF(s)) <==> Marked(s)
    ensures ClosesAt(FoldCRLF(s), 0) <==> ClosesAt(s, 0)
  {
    if s != "" {
      var c, r := s[0], s[1..];
      assert s == [c] + r;
      FoldMarked(r);
      FoldStep(c, r);
      if r != "" && r[0] != '\r' { FoldHead(r); }
    }
  }

  lemma {:induction false} FoldHead(s: string)
    requires s != "" && s[0] != '\r'
    ensures FoldCRLF(s) == [s[0]] + FoldCRLF(s[1..])
  {}

  lemma {:induction false} FoldAppend(a: string, b: string)
    requires a == "" || b == "" || a[|a| - 1] != '\r' || b[0] != '\n'
    ensures FoldCRLF(a + b) == FoldCRLF(a) + FoldCRLF(b)
  {
    if a == "" {
      assert a + b == b;
    } else {
      hide FoldCRLF;
      var c, r := a[0], a[1..];
      assert a == [c] + r && a + b == [c] + (r + b);
      FoldAppend(r, b);
      FoldStep(c, r);
      FoldStep(c, r + b);
      if r == "" { assert r + b == b; } else { assert (r + b)[0] == r[0]; }
      EmptyFold();
    }
  }

  lemma {:induction false} EmptyFold()
    ensures FoldCRLF("") == ""
  {}

  lemma {:induction false} FoldOne(c: char)
    ensures FoldCRLF([c]) == [c]
  {}

  /** A text with visible ends is cleaned by folding alone. */
  lemma {:induction false} CleanFolds(s: string)
    requires s != "" && s[0] != '\r' && s[0] != '\n' && s[|s| - 1] != '\r' && s[|s| - 1] != '\n'
    ensures Clean(s) == FoldCRLF(s)
  {
    hide FoldCRLF, Trim;
    var n := |s| - 1;
    var z, f := s[n], FoldCRLF(s);
    FoldAppend(s, "\n");
    FoldOne('\n');
    assert s == s[..n] + [z];
    FoldAppend(s[..n], [z]);
    FoldOne(z);
    assert f[|f| - 1] == z;
    FoldHead(s);
    TrimPad("", f, "\n", Newlines);
    assert "" + f + "\n" == f + "\n";
    TrimFixed(f, Newlines);
  }

  lemma {:induction false} FoldAfterMark(mark: string, s: string)
    requires forall i | 0 <= i < |mark| :: mark[i] != '\r'
    ensures FoldCRLF(mark + s) == mark + FoldCRLF(s)
  {
    if mark != "" { FoldNoReturns(mark); }
    FoldAppend(mark, s);
  }

  lemma {:induction false} MarkedFrom(s: string)
    ensures s != "" ==> (Marked(s) <==> ClosesAt(s, 0) || Marked(s[1..]))
  {}

  lemma {:induction false} MarkedAfterMark(s: string)
    ensures Marked(("**: " + s)[1..]) <==> Marked(s)
  {
    var u := "**: " + s;
    assert u[1..][1..] == u[2..] && u[2..][1..] == u[3..] && u[3..][1..] == u[4..] == s;
    MarkedFrom(u[1..]);
    MarkedFrom(u[2..]);
    MarkedFrom(u[3..]);
  }

  lemma {:induction false} MarkedAfterTerm(a: string, b: string)
    ensures Marked(a + "**: " + b)
  {
    var s := a + "**: " + b;
    if a == "" {
      assert s[0] == '*' && s[1] == '*' && s[2] == ':';
    } else {
      assert s[1..] == a[1..] + "**: " + b;
      MarkedAfterTerm(a[1..], b);
    }
  }

  /** A printed term still matches exactly when it has a term or its definition can pass for one. */
  lemma {:induction false} TermMatchesIff(t: Term)
    requires TermShape(t)
    ensures MatchTerm(Clean(TermText(t))).Some? <==> TermReads(t)
  {
    hide Clean, FoldCRLF, Marked;
    var item, u := TermText(t), t.term + "**: " + t.definition;
    assert item == "**" + u;
    assert item[|item| - 1] == if t.definition == "" then ' ' else t.definition[|t.definition| - 1];
    CleanFolds(item);
    FoldAfterMark("**", u);
    var f := FoldCRLF(u);
    assert ("**" + f)[2..] == f;
    if t.term == "" {
      assert u == "**: " + t.definition;
      FoldAfterMark("**: ", t.definition);
      MarkedAfterMark(FoldCRLF(t.definition));
      FoldMarked(t.definition);
    } else {
      FoldHead(u);
      assert f[1..] == FoldCRLF(u[1..]);
      assert u[1..] == t.term[1..] + "**: " + t.definition;
      MarkedAfterTerm(t.term[1..], t.definition);
      FoldMarked(u[1..]);
    }
    FindCloseMarked(f, 1);
  }

  lemma {:induction false} TermsRoundTrip(ts: seq<Term>, items: seq<string>, n: nat)
    requires n <= |ts| == |items|
    ensures |ParsedTerms(items, n)| <= |items| - n
    ensures ParsedTerms(items, n) == ts[n..] <==> forall i | n <= i < |ts| :: MatchTerm(items[i]) == Some(ts[i])
    decreases |ts| - n
  {
    if n < |ts| {
      TermsRoundTrip(ts, items, n + 1);
      assert ts[n..] == [ts[n]] + ts[n + 1..];
      TermsStep(ts, items, n);
    }
  }

  lemma {:induction false} TermsStep(ts: seq<Term>, items: seq<string>, n: nat)
    requires n < |ts| == |items| && |ParsedTerms(items, n + 1)| <= |items| - n - 1
    ensures |ParsedTerms(items, n)| <= |items| - n
    ensures ParsedTerms(items, n) == [ts[n]] + ts[n + 1..] <==>
            MatchTerm(items[n]) == Some(ts[n]) && ParsedTerms(items, n + 1) == ts[n + 1..]
  {
    var m, p, q := MatchTerm(items[n]), ParsedTerms(items, n + 1), ts[n + 1..];
    if m.Some? {
      assert ParsedTerms(items, n) == [m.value] + p;
      assert ([m.value] + p)[1..] == p && ([ts[n]] + q)[1..] == q;
      assert ([m.value] + p)[0] == m.value && ([ts[n]] + q)[0] == ts[n];
    } else {
      assert |ParsedTerms(items, n)| < |[ts[n]] + q|;
    }
  }

  lemma {:induction false} TermsCanonical(ts: seq<Term>)
    requires AllTerms(ts)
    ensures ParsedTerms(Cleans(TermTexts(ts)), 0) == ts <==> CanonicalTerms(ts)
  {
    var items := Cleans(TermTexts(ts));
    TermsRoundTrip(ts, items, 0);
    assert ts[0..] == ts;
    forall i | 0 <= i < |ts| ensures MatchTerm(items[i]) == Some(ts[i]) <==> CanonicalTerm(ts[i]) {
      TermRoundTrip(ts[i]);
    }
  }

  lemma {:induction false} ItemsCanonical(items: seq<string>)
    requires AllItems(items)
    ensures Cleans(items) == items <==> CanonicalItems(items)
  {
    forall i | 0 <= i < |items| ensures Clean(items[i]) == items[i] <==> CanonicalItem(items[i]) {
      CleanFixed(items[i]);
    }
    if Cleans(items) == items {
      forall i | 0 <= i < |items| ensures CanonicalItem(items[i]) { assert Cleans(items)[i] == items[i]; }
    }
  }

  /** A prose slot as it is read back: a blank one is not printed at all. */
  function EchoProse(s: string): string { if Blank(s) then "" else Clean(s) }

  lemma {:induction false} ProseCanonical(s: string)
    requires ProseShape(s)
    ensures EchoProse(s) == s <==> CanonicalProse(s)
  {
    CleanFixed(s);
  }

  function EchoSlots(s: Slots): Slots {
    Slots(ParsedTerms(Cleans(TermTexts(s.terminology)), 0),
          Cleans(s.rules), Cleans(s.skills), Cleans(s.prompts),
          EchoProse(s.toolSpecs), EchoProse(s.goals), EchoProse(s.style),
          EchoProse(s.norms), EchoProse(s.architecture), EchoProse(s.businessProcess))
  }

  lemma {:induction false} SlotsCanonical(s: Slots)
    requires Shaped(s)
    ensures EchoSlots(s) == s <==> CanonicalSlots(s)
  {
    TermsCanonical(s.terminology);
    ItemsCanonical(s.rules); ItemsCanonical(s.skills); ItemsCanonical(s.prompts);
    ProseCanonical(s.toolSpecs); ProseCanonical(s.goals); ProseCanonical(s.style);
    ProseCanonical(s.norms); ProseCanonical(s.architecture); ProseCanonical(s.businessProcess);
  }
}
