/** One print brings every parsed, valid document to a fixed point. */
module NormalForm {
  import opened Text
  import opened Schema
  import opened Codec
  import opened CodecShape
  import opened CodecLaws
  import opened CodecRoundTrip
  import opened Validate

  // ---------------------------------------------------------------- parsing adds no character

  predicate LinesLack(c: char, ls: seq<string>) { forall i | 0 <= i < |ls| :: c !in ls[i] }

  predicate TermLacks(c: char, t: Term) { c !in t.term && c !in t.definition }

  predicate TermsLack(c: char, ts: seq<Term>) { forall i | 0 <= i < |ts| :: TermLacks(c, ts[i]) }

  /** The character c occurs in no text of the slots. */
  predicate SlotsLack(c: char, s: Slots) {
    && TermsLack(c, s.terminology)
    && forall key: SlotKey :: LinesLack(c, s.List(key)) && c !in s.Prose(key)
  }

  lemma {:induction false} LinesLackAll(c: char, s: string)
    requires c !in s
    ensures LinesLack(c, Lines(s))
  {
    if s != "" {
      LinesLackAll(c, s[1..]);
      var r := Lines(s[1..]);
      assert c != s[0];
      assert c !in [s[0]] + r[0];
    }
  }

  lemma {:induction false} JoinLacks(c: char, ls: seq<string>)
    requires c != '\n' && LinesLack(c, ls)
    ensures c !in Join(ls)
  {
    if |ls| > 1 { JoinLacks(c, ls[1..]); }
  }

  lemma {:induction false} TrimLacks(c: char, s: string, cut: Cut)
    requires c !in s
    ensures c !in Trim(s, cut)
  {
    var i, j := TrimSlice(s, cut);
  }

  lemma {:induction false} ContinuationsLack(c: char, content: seq<string>, i: nat, n: nat)
    requires i <= n <= |content| && LinesLack(c, content)
    ensures LinesLack(c, Continuations(content, i, n))
    decreases n - i
  {
    if i < n {
      ContinuationsLack(c, content, i + 1, n);
      assert "  " <= content[i] ==> c !in content[i][2..];
    }
  }

  lemma {:induction false} ItemLacks(c: char, content: seq<string>, i: nat, n: nat)
    requires c != '\n' && i < n <= |content| && IsDash(content[i]) && LinesLack(c, content)
    ensures c !in ItemAt(content, i, n)
  {
    var parts := [content[i][2..]] + Continuations(content, i + 1, n);
    ContinuationsLack(c, content, i + 1, n);
    JoinLacks(c, parts);
    TrimLacks(c, Join(parts), Newlines);
  }

  lemma {:induction false} ItemsLack(c: char, content: seq<string>, i: nat)
    requires c != '\n' && i <= |content| && (i < |content| ==> IsDash(content[i])) && LinesLack(c, content)
    ensures LinesLack(c, Items(content, i))
    decreases |content| - i
  {
    hide ItemAt, IsDash;
    if i < |content| {
      var n := NextDash(content, i + 1);
      ItemsLack(c, content, n);
      ItemLacks(c, content, i, n);
    }
  }

  lemma {:induction false} MatchLacks(c: char, item: string)
    requires c !in item && MatchTerm(item).Some?
    ensures TermLacks(c, MatchTerm(item).value)
  {
    hide MatchTerm;
    var group, gap, def := MatchGroups(item);
    assert forall x | x in group || x in def :: x in item;
    TrimLacks(c, group, Spaces);
    TrimLacks(c, def, Spaces);
  }

  lemma {:induction false} ParsedTermsLack(c: char, items: seq<string>, n: nat)
    requires n <= |items| && LinesLack(c, items)
    ensures TermsLack(c, ParsedTerms(items, n))
    decreases |items| - n
  {
    hide MatchTerm;
    if n < |items| {
      ParsedTermsLack(c, items, n + 1);
      if MatchTerm(items[n]).Some? { MatchLacks(c, items[n]); }
    }
  }

  lemma {:induction false} TermsLackConcat(c: char, a: seq<Term>, b: seq<Term>)
    requires TermsLack(c, a) && TermsLack(c, b)
    ensures TermsLack(c, a + b)
  {}

  lemma {:induction false} SetTermsLacks(c: char, s: Slots, ts: seq<Term>)
    requires SlotsLack(c, s) && TermsLack(c, ts)
    ensures SlotsLack(c, s.(terminology := ts))
  {
    hide LinesLack, TermsLack;
    var next := s.(terminology := ts);
    forall key: SlotKey ensures LinesLack(c, next.List(key)) && c !in next.Prose(key) {
      assert next.List(key) == s.List(key) && next.Prose(key) == s.Prose(key);
    }
  }

  lemma {:induction false} SetListLacks(c: char, s: Slots, at: SlotKey, items: seq<string>)
    requires SlotsLack(c, s) && LinesLack(c, items)
    ensures SlotsLack(c, s.SetList(at, items))
  {
    hide TermsLack;
    var next := s.SetList(at, items);
    forall key: SlotKey ensures LinesLack(c, next.List(key)) && c !in next.Prose(key) {
      assert next.List(key) == s.List(key) || next.List(key) == items;
      assert next.Prose(key) == s.Prose(key);
    }
  }

  lemma {:induction false} SetProseLacks(c: char, s: Slots, at: SlotKey, body: string)
    requires SlotsLack(c, s) && c !in body
    ensures SlotsLack(c, s.SetProse(at, body))
  {
    hide TermsLack, LinesLack;
    var next := s.SetProse(at, body);
    forall key: SlotKey ensures LinesLack(c, next.List(key)) && c !in next.Prose(key) {
      assert next.List(key) == s.List(key);
      assert next.Prose(key) == s.Prose(key) || next.Prose(key) == body;
    }
  }

  lemma {:induction false} FillLacks(c: char, st: ParseState, d: SlotDescriptor, content: seq<string>, line: nat)
    requires c != '\n' && SlotsLack(c, st.slots) && LinesLack(c, content)
    ensures SlotsLack(c, FillSlot(st, d, content, line).slots)
  {
    hide SlotsLack, LinesLack, TermsLack;
    var items := ScanBullets(content, line + 1).items;
    ItemsLack(c, content, NextDash(content, 0));
    match d.kind {
      case TermKind =>
        ParsedTermsLack(c, items, 0);
        assert TermsLack(c, st.slots.terminology) by { SlotTermsLack(c, st.slots); }
        TermsLackConcat(c, st.slots.terminology, ParsedTerms(items, 0));
        SetTermsLacks(c, st.slots, st.slots.terminology + ParsedTerms(items, 0));
      case ListKind =>
        SetListLacks(c, st.slots, d.key, items);
      case ProseKind =>
        JoinLacks(c, content);
        TrimLacks(c, Join(content), Newlines);
        SetProseLacks(c, st.slots, d.key, TrimNL(Join(content)));
    }
  }

  lemma {:induction false} SlotTermsLack(c: char, s: Slots)
    requires SlotsLack(c, s)
    ensures TermsLack(c, s.terminology)
  {}

  lemma {:induction false} SectionLacks(c: char, table: seq<SlotDescriptor>, st: ParseState, sec: Section)
    requires c != '\n' && SlotsLack(c, st.slots) && LinesLack(c, sec.content)
    ensures SlotsLack(c, ParseSection(table, st, sec).slots)
  {
    hide SlotsLack, FillSlot;
    var d := FindHeading(table, sec.heading, 0);
    if d.Some? && d.value.key !in st.seen {
      FillLacks(c, st.(seen := st.seen + {d.value.key}), d.value, sec.content, sec.line);
    }
  }

  lemma {:induction false} SectionsLack(c: char, table: seq<SlotDescriptor>, st: ParseState, secs: seq<Section>, h: nat)
    requires c != '\n' && h <= |secs| && SlotsLack(c, st.slots)
    requires forall i | 0 <= i < |secs| :: LinesLack(c, secs[i].content)
    ensures SlotsLack(c, ParseSections(table, st, secs, h).slots)
    decreases |secs| - h
  {
    hide SlotsLack, ParseSection;
    if h < |secs| {
      SectionLacks(c, table, st, secs[h]);
      SectionsLack(c, table, ParseSection(table, st, secs[h]), secs, h + 1);
    }
  }

  lemma {:induction false} CutLacks(c: char, body: seq<string>, i: nat, line: nat)
    requires LinesLack(c, body) && i <= |body| && (i < |body| ==> IsHead(body[i]))
    ensures forall k | 0 <= k < |Sections(body, i, line)| :: LinesLack(c, Sections(body, i, line)[k].content)
    decreases |body| - i
  {
    hide IsHead;
    if i < |body| { CutLacks(c, body, HeadAt(body, i + 1), line); }
  }

  /** Parsing puts no character into a slot that the text does not have. */
  lemma {:induction false} ParsedLacks(c: char, table: seq<SlotDescriptor>, y: Yaml, text: string)
    requires c != '\n' && c !in text && Parsed(table, y, text).Ok?
    ensures SlotsLack(c, Parsed(table, y, text).value.slots)
  {
    hide LinesLack, SlotsLack, PreambleErrors, TypeErrors, FirstFence, TrimSpace;
    FoldLacks(c, text);
    var ls := Lines(FoldCRLF(text));
    LinesLackAll(c, FoldCRLF(text));
    var f := CutFile(ls).value;
    BodyLacks(c, ls);
    var fm := y.decode(f.head).value;
    var errs := TypeErrors(fm.kind, f.headLine);
    var n := HeadAt(f.body, 0);
    CutLacks(c, f.body, n, f.line);
    EmptyLacks(c);
    SectionsLack(c, table,
                 ParseState(EMPTY_SLOTS, {}, errs + PreambleErrors(f.body, 0, n, f.line, false)),
                 Sections(f.body, n, f.line), 0);
  }

  lemma {:induction false} EmptyLacks(c: char)
    ensures SlotsLack(c, EMPTY_SLOTS)
  {}

  lemma {:induction false} BodyLacks(c: char, ls: seq<string>)
    requires LinesLack(c, ls)
    ensures CutFile(ls).Ok? ==> LinesLack(c, CutFile(ls).value.body)
  {}

  lemma {:induction false} FoldLacks(c: char, s: string)
    requires c !in s
    ensures c !in FoldCRLF(s)
  {
    if s != "" { FoldLacks(c, s[1..]); }
  }

  // ---------------------------------------------------------------- the fixed point

  function Filled(s: string): string { if Blank(s) then "" else s }

  /** The slots with whitespace-only prose cleared. */
  function Settled(s: Slots): Slots {
    s.(toolSpecs := Filled(s.toolSpecs), goals := Filled(s.goals), style := Filled(s.style),
       norms := Filled(s.norms), architecture := Filled(s.architecture),
       businessProcess := Filled(s.businessProcess))
  }

  /** Blank prose is not printed, so clearing it changes nothing in print. */
  lemma {:induction false} SettledPrints(table: seq<SlotDescriptor>, k: nat, s: Slots)
    requires k <= |table|
    ensures SlotsLines(table, k, Settled(s)) == SlotsLines(table, k, s)
    decreases |table| - k
  {
    hide SlotLines, Settled;
    if k < |table| {
      SettledPrints(table, k + 1, s);
      SettledSlot(table[k], s);
    }
  }

  lemma {:induction false} SettledSlot(d: SlotDescriptor, s: Slots)
    ensures SlotLines(d, Settled(s)) == SlotLines(d, s)
  {
    hide SectionLines;
    assert Settled(s).List(d.key) == s.List(d.key);
    assert Settled(s).Prose(d.key) == Filled(s.Prose(d.key));
  }

  lemma {:induction false} SettledItems(items: seq<string>)
    requires AllItems(items) && LinesLack('\r', items)
    ensures CanonicalItems(items)
  {}

  lemma {:induction false} SettledTerms(ts: seq<Term>)
    requires AllTerms(ts) && TermsLack('\r', ts) && FilledTerms(ts)
    ensures CanonicalTerms(ts)
  {}

  lemma {:induction false} SettledProse(s: string)
    requires ProseShape(s) && '\r' !in s
    ensures CanonicalProse(Filled(s))
  {
    EmptyProse();
  }

  lemma {:induction false} SettledCanonical(s: Slots)
    requires Shaped(s) && SlotsLack('\r', s) && SlotsOk(s)
    ensures CanonicalSlots(Settled(s))
  {
    hide AllItems, AllTerms, ProseShape, CanonicalItems, CanonicalTerms, CanonicalProse, Filled, FilledItems,
      TermsLack, LinesLack, DistinctTerms, FilledTerms;
    assert LinesLack('\r', s.List(Rules)) && LinesLack('\r', s.List(Skills)) && LinesLack('\r', s.List(Prompts));
    SettledItems(s.rules); SettledItems(s.skills); SettledItems(s.prompts);
    SettledTerms(s.terminology);
    assert '\r' !in s.Prose(ToolSpecs) && '\r' !in s.Prose(Goals) && '\r' !in s.Prose(Style);
    assert '\r' !in s.Prose(Norms) && '\r' !in s.Prose(Architecture) && '\r' !in s.Prose(BusinessProcess);
    SettledProse(s.toolSpecs); SettledProse(s.goals); SettledProse(s.style);
    SettledProse(s.norms); SettledProse(s.architecture); SettledProse(s.businessProcess);
  }

  lemma {:induction false} ParsedParents(table: seq<SlotDescriptor>, y: Yaml, text: string)
    requires Parsed(table, y, text).Ok? && ParentsOk(Parsed(table, y, text).value.extends_)
    ensures var es := Parsed(table, y, text).value.extends_; forall i | 0 <= i < |es| :: InheritOk(es[i])
  {
    hide ParseInherit, InheritOk, ParseBody, TypeErrors;
    var fm := y.decode(CutFile(Lines(FoldCRLF(text))).value.head).value;
    var es := Parsed(table, y, text).value.extends_;
    forall i | 0 <= i < |es| ensures InheritOk(es[i]) {
      assert es[i] == ParseInherit(fm.inherits[i]);
      ParsedInheritOk(fm.inherits[i]);
      assert ParentOk(es[i]);
    }
  }

  lemma {:induction false} NameOneLine(name: string)
    requires NameOk(name)
    ensures OneLine(name) && TitleOk(name)
  {
    assert !IsSpace(name[0]);
    forall i | 0 <= i < |name| ensures name[i] != '\n' { assert NameChar(name[i]) || name[i] == '-'; }
  }

  /** A return-free text that parses to a valid document with a visibility: one print of it is a
      fixed point, and differs from the document only in cleared blank prose. */
  lemma {:induction false} PrintOnce(table: seq<SlotDescriptor>, y: Yaml, text: string, doc: Doc)
    requires GoodTable(table) && '\r' !in text && Valid(doc) && doc.visibility != "" && Framed(y, FrontOf(doc))
    ensures var once, out := doc.(slots := Settled(doc.slots)), Markdown(table, y, doc);
            Parsed(table, y, text) == Ok(doc) ==>
              Parsed(table, y, out) == Ok(once) && Markdown(table, y, once) == out
  {
    if Parsed(table, y, text) == Ok(doc) {
      hide GoodTable, Valid, Framed, Markdown, Settled, FrontOf, Parsed;
      assert ParentsOk(doc.extends_) by { ValidParents(doc); }
      ParsedLacks('\r', table, y, text);
      ParsedShape(table, y, text);
      ParsedParents(table, y, text);
      CanonicalOnce(doc);
      SamePrint(table, y, doc);
      RoundTrip(table, y, doc.(slots := Settled(doc.slots)));
    }
  }

  lemma {:induction false} ValidParents(doc: Doc)
    requires Valid(doc)
    ensures ParentsOk(doc.extends_)
  {}

  lemma {:induction false} CanonicalOnce(doc: Doc)
    requires Valid(doc) && doc.visibility != "" && Shaped(doc.slots) && SlotsLack('\r', doc.slots)
    requires forall i | 0 <= i < |doc.extends_| :: InheritOk(doc.extends_[i])
    ensures Canonical(doc.(slots := Settled(doc.slots))) && OneLine(doc.name)
  {
    hide Shaped, SlotsLack, SlotsOk, CanonicalSlots, Settled, InheritOk, NameOk, ParentsOk;
    NameOneLine(doc.name);
    SettledCanonical(doc.slots);
  }

  lemma {:induction false} SamePrint(table: seq<SlotDescriptor>, y: Yaml, doc: Doc)
    ensures Markdown(table, y, doc.(slots := Settled(doc.slots))) == Markdown(table, y, doc)
    ensures FrontOf(doc.(slots := Settled(doc.slots))) == FrontOf(doc)
  {
    hide Settled;
    SettledPrints(table, 0, doc.slots);
  }
}
