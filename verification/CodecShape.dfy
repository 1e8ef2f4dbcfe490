/** The shape of what the parser can produce.

    Every document that parsing yields is shaped; the laws in CodecLaws take it from there. */
module CodecShape {
  import opened Text
  import opened Schema
  import opened Codec

  /** Every line after the first is empty or has content. */
  predicate Continuous(s: string) { ContinuousLines(Lines(s)) }

  predicate ContinuousLines(ls: seq<string>) { forall i | 1 <= i < |ls| :: ls[i] == "" || !Blank(ls[i]) }

  predicate ItemShape(s: string) { TrimNL(s) == s && Continuous(s) }

  predicate NoHead(ls: seq<string>) { forall i | 0 <= i < |ls| :: !IsHead(ls[i]) }

  predicate ProseShape(s: string) { TrimNL(s) == s && NoHead(Lines(s)) }

  /** "**:" does not occur in s after its first character. */
  predicate NoInnerClose(s: string) { forall i | 1 <= i < |s| :: !ClosesAt(s, i) }

  predicate TermShape(t: Term) {
    && Bare(t.term, Spaces) && Bare(t.definition, Spaces)
    && NoInnerClose(t.term)
    && Continuous(t.term) && Continuous(t.definition)
  }

  predicate AllItems(items: seq<string>) { forall i | 0 <= i < |items| :: ItemShape(items[i]) }

  predicate AllTerms(ts: seq<Term>) { forall i | 0 <= i < |ts| :: TermShape(ts[i]) }

  predicate Shaped(s: Slots) {
    && AllTerms(s.terminology)
    && AllItems(s.rules) && AllItems(s.skills) && AllItems(s.prompts)
    && ProseShape(s.toolSpecs) && ProseShape(s.goals) && ProseShape(s.style)
    && ProseShape(s.norms) && ProseShape(s.architecture) && ProseShape(s.businessProcess)
  }

  /** The section body a parser reads: no line is a heading. */
  predicate PlainLines(ls: seq<string>) { AllOneLine(ls) && NoHead(ls) }

  lemma {:induction false} JoinedShape(ls: seq<string>)
    requires ls != [] && AllOneLine(ls)
    ensures var t := TrimNL(Join(ls));
            && TrimNL(t) == t
            && (ContinuousLines(ls) ==> Continuous(t))
            && (NoHead(ls) ==> NoHead(Lines(t)))
  {
    var s := Join(ls);
    var a, b := TrimParts(s, Newlines);
    TrimFixed(TrimNL(s), Newlines);
    LinesJoin(ls);
    var i, j := TrimNLLines(s);
    assert forall k | 0 <= k < j - i :: Lines(TrimNL(s))[k] == ls[i + k];
  }

  predicate ContentLines(ls: seq<string>) {
    forall k | 0 <= k < |ls| :: OneLine(ls[k]) && (ls[k] == "" || !Blank(ls[k]))
  }

  lemma {:induction false} ContinuationShape(l: string)
    requires OneLine(l)
    ensures ContentLines(Continuation(l))
  {
    if "  " <= l { IndentBlank(l); }
  }

  lemma {:induction false} ContentConcat(a: seq<string>, b: seq<string>)
    requires ContentLines(a) && ContentLines(b)
    ensures ContentLines(a + b)
  {}

  lemma {:induction false} ContinuationsShape(content: seq<string>, i: nat, n: nat)
    requires i <= n <= |content| && AllOneLine(content)
    ensures ContentLines(Continuations(content, i, n))
    decreases n - i
  {
    if i < n {
      ContinuationsShape(content, i + 1, n);
      ContinuationShape(content[i]);
      ContentConcat(Continuation(content[i]), Continuations(content, i + 1, n));
    }
  }

  lemma {:induction false} BulletShape(first: string, conts: seq<string>)
    requires OneLine(first) && ContentLines(conts)
    ensures ItemShape(TrimNL(Join([first] + conts)))
  {
    JoinedShape([first] + conts);
  }

  lemma {:induction false} ItemsShape(content: seq<string>, i: nat)
    requires i <= |content| && (i < |content| ==> IsDash(content[i])) && AllOneLine(content)
    ensures AllItems(Items(content, i))
    decreases |content| - i
  {
    if i < |content| {
      var n := NextDash(content, i + 1);
      ItemsShape(content, n);
      ContinuationsShape(content, i + 1, n);
      BulletShape(content[i][2..], Continuations(content, i + 1, n));
    }
  }

  lemma {:induction false} IndentBlank(l: string)
    requires "  " <= l
    ensures Blank(l[2..]) ==> Blank(l)
  {
    assert l[0] == ' ' && l[1] == ' ';
    if Blank(l[2..]) {
      forall i | 0 <= i < |l| ensures IsSpace(l[i]) {
        assert i >= 2 ==> l[i] == l[2..][i - 2];
      }
    }
  }

  lemma {:induction false} GlueMiddle(a: seq<string>, m: seq<string>, b: seq<string>, k: nat)
    requires a != [] && b != [] && 1 <= k < |m| - 1
    ensures Glue(Glue(a, m), b)[|a| - 1 + k] == m[k]
  {}

  /** A piece of a continuous text that is bare of spaces at both ends is continuous. */
  lemma {:induction false} ContinuousPart(a: string, m: string, b: string)
    requires Continuous(a + m + b) && Bare(m, Spaces)
    ensures Continuous(m)
  {
    hide Lines, Blank, Glue, IsSpace;
    LinesConcat(a + m, b);
    LinesConcat(a, m);
    var lm := Lines(m);
    InnerLines(Lines(a), lm, Lines(b));
    LastLine(m);
    LastNotBlank(m, lm[|lm| - 1]);
  }

  lemma {:induction false} InnerLines(la: seq<string>, lm: seq<string>, lb: seq<string>)
    requires la != [] && lm != [] && lb != [] && ContinuousLines(Glue(Glue(la, lm), lb))
    ensures forall k | 1 <= k < |lm| - 1 :: lm[k] == "" || !Blank(lm[k])
  {
    hide Blank;
    forall k | 1 <= k < |lm| - 1 ensures lm[k] == "" || !Blank(lm[k]) { GlueMiddle(la, lm, lb, k); }
  }

  lemma {:induction false} LastNotBlank(m: string, l: string)
    requires Bare(m, Spaces) && |l| <= |m| && m[|m| - |l|..] == l
    ensures l == "" || !Blank(l)
  {
    if l != "" { assert l[|l| - 1] == m[|m| - 1]; }
  }

  lemma {:induction false} FindCloseFirst(s: string, k: nat, i: nat)
    requires k <= i && !(FindClose(s, k).Some? && FindClose(s, k).value <= i)
    ensures !ClosesAt(s, i)
    decreases |s| - k
  {
    if k + 3 <= |s| && k < i { FindCloseFirst(s, k + 1, i); }
  }

  lemma {:induction false} TrimmedPart(front: string, s: string, back: string)
    requires Continuous(front + s + back)
    ensures Continuous(TrimSpace(s)) && Bare(TrimSpace(s), Spaces)
  {
    var a, b := TrimParts(s, Spaces);
    Regroup(front, a, TrimSpace(s), b, back);
    ContinuousPart(front + a, TrimSpace(s), b + back);
  }

  /** The two groups of a match: item reads "**" + group + "**:" + gap + definition. */
  lemma {:induction false} MatchGroups(item: string) returns (group: string, gap: string, def: string)
    requires MatchTerm(item).Some?
    ensures item == "**" + group + ("**:" + gap + def)
    ensures MatchTerm(item) == Some(Term(TrimSpace(group), TrimSpace(def)))
    ensures group != "" && FindClose(item[2..], 1) == Some(|group|) && item[2..][..|group|] == group
  {
    hide *;
    var k := MatchFound(item);
    MatchOf(item, k);
    var s := item[2..];
    var rest := s[k + 3..];
    group := s[..k];
    gap, def := GapOf(rest);
    ItemWhole(item, k);
    Assoc("**:", gap, def);
  }

  lemma {:induction false} MatchFound(item: string) returns (k: nat)
    requires MatchTerm(item).Some?
    ensures "**" <= item && FindClose(item[2..], 1) == Some(k)
  {
    hide FindClose, Trim;
    k := FindClose(item[2..], 1).value;
  }

  lemma {:induction false} GapOf(rest: string) returns (gap: string, def: string)
    ensures gap + def == rest
    ensures def == if rest != "" && rest[0] in " \t" then rest[1..] else rest
  {
    if rest != "" && rest[0] in " \t" { gap, def := rest[..1], rest[1..]; } else { gap, def := "", rest; }
  }

  lemma {:induction false} ItemWhole(item: string, k: nat)
    requires "**" <= item && ClosesAt(item[2..], k)
    ensures var s := item[2..]; item == "**" + s[..k] + ("**:" + s[k + 3..])
  {
    var s := item[2..];
    CloseParts(s, k);
    assert item == "**" + s;
    Assoc("**", s[..k], "**:" + s[k + 3..]);
  }

  lemma {:induction false} MatchOf(item: string, k: nat)
    requires "**" <= item && FindClose(item[2..], 1) == Some(k)
    ensures k >= 1 && k + 3 <= |item[2..]| && ClosesAt(item[2..], k)
    ensures var s := item[2..];
            var rest := s[k + 3..];
            MatchTerm(item) ==
            Some(Term(TrimSpace(s[..k]), TrimSpace(if rest != "" && rest[0] in " \t" then rest[1..] else rest)))
  {
    hide Trim;
  }

  lemma {:induction false} CloseParts(s: string, k: nat)
    requires ClosesAt(s, k)
    ensures s == s[..k] + ("**:" + s[k + 3..])
  {
    assert s[k..k + 3] == "**:";
  }

  lemma {:induction false} MatchShape(item: string)
    requires Continuous(item) && MatchTerm(item).Some?
    ensures TermShape(MatchTerm(item).value)
  {
    var group, gap, def := MatchGroups(item);
    TrimmedPart("**", group, "**:" + gap + def);
    var front := "**" + group + ("**:" + gap);
    assert item == front + def + "";
    TrimmedPart(front, def, "");
    var a, b := TrimParts(group, Spaces);
    InnerClose(item[2..], |group|, a, TrimSpace(group), b);
  }

  lemma {:induction false} InnerClose(s: string, k: nat, a: string, t: string, b: string)
    requires FindClose(s, 1) == Some(k) && s[..k] == a + t + b
    ensures NoInnerClose(t)
  {
    forall i | 1 <= i < |t| ensures !ClosesAt(t, i) {
      if ClosesAt(t, i) {
        var j := |a| + i;
        assert s[..k][j] == t[i] && s[..k][j + 1] == t[i + 1] && s[..k][j + 2] == t[i + 2];
        FindCloseFirst(s, 1, j);
      }
    }
  }

  lemma {:induction false} MatchItemShape(item: string)
    requires ItemShape(item)
    ensures MatchTerm(item).Some? ==> TermShape(MatchTerm(item).value)
  {
    if MatchTerm(item).Some? { MatchShape(item); }
  }

  lemma {:induction false} ParsedTermsShape(items: seq<string>, n: nat)
    requires n <= |items| && AllItems(items)
    ensures AllTerms(ParsedTerms(items, n))
    decreases |items| - n
  {
    if n < |items| {
      ParsedTermsShape(items, n + 1);
      MatchItemShape(items[n]);
      ParsedTermsStep(items, n);
    }
  }

  lemma {:induction false} ParsedTermsStep(items: seq<string>, n: nat)
    requires n < |items| && AllTerms(ParsedTerms(items, n + 1))
    requires MatchTerm(items[n]).Some? ==> TermShape(MatchTerm(items[n]).value)
    ensures AllTerms(ParsedTerms(items, n))
  {
    var m := MatchTerm(items[n]);
    if m.Some? { TermsConcat([m.value], ParsedTerms(items, n + 1)); }
  }

  lemma {:induction false} TermsConcat(a: seq<Term>, b: seq<Term>)
    requires AllTerms(a) && AllTerms(b)
    ensures AllTerms(a + b)
  {
    var ab := a + b;
    forall i | 0 <= i < |ab| ensures TermShape(ab[i]) {
      assert ab[i] == if i < |a| then a[i] else b[i - |a|];
    }
  }

  lemma {:induction false} SetListShape(s: Slots, key: SlotKey, items: seq<string>)
    requires Shaped(s) && AllItems(items)
    ensures Shaped(s.SetList(key, items))
  {}

  lemma {:induction false} SetProseShape(s: Slots, key: SlotKey, body: string)
    requires Shaped(s) && ProseShape(body)
    ensures Shaped(s.SetProse(key, body))
  {}

  lemma {:induction false} ContentShape(content: seq<string>)
    requires PlainLines(content)
    ensures ProseShape(TrimNL(Join(content)))
  {
    if content == [] { EmptyProse(); } else { JoinedShape(content); }
  }

  lemma {:induction false} FillSlotShape(st: ParseState, d: SlotDescriptor, content: seq<string>, line: nat)
    requires Shaped(st.slots) && PlainLines(content)
    ensures Shaped(FillSlot(st, d, content, line).slots)
  {
    ItemsShape(content, NextDash(content, 0));
    var items := ScanBullets(content, line + 1).items;
    match d.kind {
      case TermKind =>
        ParsedTermsShape(items, 0);
        TermsConcat(st.slots.terminology, ParsedTerms(items, 0));
      case ListKind =>
        SetListShape(st.slots, d.key, items);
      case ProseKind =>
        ContentShape(content);
        SetProseShape(st.slots, d.key, TrimNL(Join(content)));
    }
  }

  lemma {:induction false} ParseSectionShape(table: seq<SlotDescriptor>, st: ParseState, sec: Section)
    requires Shaped(st.slots) && PlainLines(sec.content)
    ensures Shaped(ParseSection(table, st, sec).slots)
  {
    var d := FindHeading(table, sec.heading, 0);
    if d.Some? && d.value.key !in st.seen {
      FillSlotShape(st.(seen := st.seen + {d.value.key}), d.value, sec.content, sec.line);
    }
  }

  lemma {:induction false} EmptyProse()
    ensures Join([]) == "" && TrimNL("") == "" && ProseShape("")
  {
    TrimFixed("", Newlines);
    assert Lines("") == [""];
  }

  lemma {:induction false} ParseSectionsShape(table: seq<SlotDescriptor>, st: ParseState, secs: seq<Section>, h: nat)
    requires h <= |secs| && Shaped(st.slots)
    requires forall i | 0 <= i < |secs| :: PlainLines(secs[i].content)
    ensures Shaped(ParseSections(table, st, secs, h).slots)
    decreases |secs| - h
  {
    if h < |secs| {
      ParseSectionShape(table, st, secs[h]);
      ParseSectionsShape(table, ParseSection(table, st, secs[h]), secs, h + 1);
    }
  }

  lemma {:induction false} HeadAtFirst(ls: seq<string>, i: nat)
    requires i <= |ls|
    ensures forall k | i <= k < HeadAt(ls, i) :: !IsHead(ls[k])
    decreases |ls| - i
  {
    if i < |ls| && !IsHead(ls[i]) { HeadAtFirst(ls, i + 1); }
  }

  lemma {:induction false} SectionsPlain(body: seq<string>, i: nat, line: nat)
    requires AllOneLine(body) && i <= |body| && (i < |body| ==> IsHead(body[i]))
    ensures forall k | 0 <= k < |Sections(body, i, line)| :: PlainLines(Sections(body, i, line)[k].content)
    decreases |body| - i
  {
    if i < |body| {
      var n := HeadAt(body, i + 1);
      SectionsPlain(body, n, line);
      HeadAtFirst(body, i + 1);
    }
  }

  /** Whatever text it is given, the parser only ever yields shaped slots. */
  lemma {:induction false} ParsedShape(table: seq<SlotDescriptor>, y: Yaml, text: string)
    requires Parsed(table, y, text).Ok?
    ensures Shaped(Parsed(table, y, text).value.slots)
  {
    var ls := Lines(FoldCRLF(text));
    var f := CutFile(ls).value;
    var fm := y.decode(f.head).value;
    var errs := TypeErrors(fm.kind, f.headLine);
    var n := HeadAt(f.body, 0);
    EmptyProse();
    LinesOneLine(FoldCRLF(text));
    SectionsPlain(f.body, n, f.line);
    ParseSectionsShape(table,
                       ParseState(EMPTY_SLOTS, {}, errs + PreambleErrors(f.body, 0, n, f.line, false)),
                       Sections(f.body, n, f.line), 0);
  }
}
