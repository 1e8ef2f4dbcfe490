/** Whole files: printing then parsing, and parsing then printing. */
module CodecRoundTrip {
  import opened Text
  import opened Schema
  import opened Codec
  import opened CodecShape
  import opened CodecPrint
  import opened CodecLaws

  // ---------------------------------------------------------------- the lines of a printed file

  function HeadLines(y: Yaml, doc: Doc): seq<string> {
    var h := y.encode(FrontOf(doc));
    if h == "" then [] else Lines(h[..|h| - 1])
  }

  function TitleLines(name: string): seq<string> { if name == "" then [] else ["# " + name, ""] }

  function BodyLines(name: string, slots: seq<string>): seq<string> { [""] + TitleLines(name) + slots }

  function Assembled(head: seq<string>, name: string, slots: seq<string>): seq<string> {
    ["---"] + head + ["---"] + BodyLines(name, slots)
  }

  function PrintedSlots(table: seq<SlotDescriptor>, doc: Doc): seq<string> {
    SlotsLines(table, 0, doc.slots)
  }

  function FileLines(table: seq<SlotDescriptor>, y: Yaml, doc: Doc): seq<string> {
    Assembled(HeadLines(y, doc), doc.name, PrintedSlots(table, doc))
  }

  /** The last line is blank and the one before it is not. */
  predicate EndsWell(ls: seq<string>) { |ls| >= 2 && ls[|ls| - 1] == "" && ls[|ls| - 2] != "" }

  lemma {:induction false} EndsWellConcat(a: seq<string>, b: seq<string>)
    requires EndsWell(a) && (b == [] || EndsWell(b))
    ensures EndsWell(a + b)
  {
    if b == [] { assert a + b == a; }
  }

  lemma {:induction false} LastFull(s: string)
    requires s != "" && TrimNL(s) == s
    ensures Lines(s)[|Lines(s)| - 1] != ""
  {
    var ls := Lines(s);
    var a, b := TrimParts(s, Newlines);
    JoinLines(s);
    if |ls| > 1 { LastJoin(ls); }
  }

  lemma {:induction false} LastJoin(ls: seq<string>)
    requires |ls| > 1
    ensures ls[|ls| - 1] == "" ==> Join(ls) != "" && Join(ls)[|Join(ls)| - 1] == '\n'
  {
    var t := ls[..|ls| - 1];
    JoinBlank(t);
    assert ls[|ls| - 1] == "" ==> ls == t + [""];
  }

  lemma {:induction false} OneLineOnly()
    ensures Lines("") == [""]
  {}

  lemma {:induction false} BulletEnds(item: string)
    requires ItemShape(item)
    ensures BulletLines(item)[|BulletLines(item)| - 1] != ""
  {
    hide Lines;
    var ls := Lines(item);
    assert BulletLines(item) == ["- " + ls[0]] + IndentedAll(ls[1..]);
    if |ls| == 1 { assert BulletLines(item)[0] == "- " + ls[0]; }
    if |ls| > 1 {
      assert item != "" by { OneLineOnly(); }
      LastFull(item);
      assert BulletLines(item)[|ls| - 1] == Indented(ls[|ls| - 1]);
    }
  }

  lemma {:induction false} ListEnds(items: seq<string>)
    requires items != [] && AllItems(items)
    ensures ListLines(items) != [] && ListLines(items)[|ListLines(items)| - 1] != ""
  {
    BulletEnds(items[0]);
    if |items| > 1 { ListEnds(items[1..]); }
  }

  lemma {:induction false} BodyEnds(d: SlotDescriptor, s: Slots)
    requires Shaped(s) && Filled(d, s)
    ensures SlotBody(d, s) != [] && SlotBody(d, s)[|SlotBody(d, s)| - 1] != ""
  {
    ListShape(s, d.key);
    match d.kind {
      case TermKind =>
        TermTextsShape(s.terminology);
        ListEnds(TermTexts(s.terminology));
      case ListKind => ListEnds(s.List(d.key));
      case ProseKind => LastFull(s.Prose(d.key));
    }
  }

  lemma {:induction false} SectionEnds(heading: string, body: seq<string>)
    requires body != [] && body[|body| - 1] != ""
    ensures EndsWell(SectionLines(heading, body))
  {}

  lemma {:induction false} SlotEnds(d: SlotDescriptor, s: Slots)
    requires Shaped(s)
    ensures SlotLines(d, s) == [] || EndsWell(SlotLines(d, s))
  {
    FilledLines(d, s);
    if Filled(d, s) {
      BodyEnds(d, s);
      SectionEnds(d.heading, SlotBody(d, s));
    }
  }

  lemma {:induction false} EndsConcat(a: seq<string>, b: seq<string>)
    requires (a == [] || EndsWell(a)) && (b == [] || EndsWell(b))
    ensures a + b == [] || EndsWell(a + b)
  {
    if a == [] { assert a + b == b; } else { EndsWellConcat(a, b); }
  }

  lemma {:induction false} SlotsEnd(table: seq<SlotDescriptor>, k: nat, s: Slots)
    requires Shaped(s) && k <= |table|
    ensures SlotsLines(table, k, s) == [] || EndsWell(SlotsLines(table, k, s))
    decreases |table| - k
  {
    hide SlotLines, EndsWell, Shaped;
    if k < |table| {
      SlotsEnd(table, k + 1, s);
      SlotEnds(table[k], s);
      EndsConcat(SlotLines(table[k], s), SlotsLines(table, k + 1, s));
    }
  }

  lemma {:induction false} AssembledEnds(head: seq<string>, name: string, slots: seq<string>)
    requires slots == [] || EndsWell(slots)
    ensures EndsWell(Assembled(head, name, slots))
  {
    var a, t := ["---"] + head + ["---"], TitleLines(name);
    EndsWellConcat(a + [""], t);
    EndsWellConcat(a + [""] + t, slots);
    assert Assembled(head, name, slots) == a + [""] + t + slots;
  }

  // ---------------------------------------------------------------- every printed line is one line

  lemma {:induction false} IndentedOneLine(ls: seq<string>)
    requires AllOneLine(ls)
    ensures AllOneLine(IndentedAll(ls))
  {
    forall i | 0 <= i < |ls| ensures OneLine(IndentedAll(ls)[i]) {
      assert OneLine(ls[i]) && OneLine("  ");
    }
  }

  lemma {:induction false} OneLineConcat(a: seq<string>, b: seq<string>)
    requires AllOneLine(a) && AllOneLine(b)
    ensures AllOneLine(a + b)
  {
    forall i | 0 <= i < |a + b| ensures OneLine((a + b)[i]) {
      assert (a + b)[i] == if i < |a| then a[i] else b[i - |a|];
    }
  }

  lemma {:induction false} ListOneLine(items: seq<string>)
    ensures AllOneLine(ListLines(items))
  {
    if items != [] {
      ListOneLine(items[1..]);
      var ls := Lines(TrimNL(items[0]));
      LinesOneLine(TrimNL(items[0]));
      IndentedOneLine(ls[1..]);
      assert OneLine("- " + ls[0]);
      OneLineConcat(["- " + ls[0]], IndentedAll(ls[1..]));
      OneLineConcat(BulletLines(items[0]), ListLines(items[1..]));
    }
  }

  lemma {:induction false} SectionOneLine(heading: string, body: seq<string>)
    requires OneLine(heading) && AllOneLine(body)
    ensures AllOneLine(SectionLines(heading, body))
  {
    assert OneLine("## " + heading) && OneLine("");
    OneLineConcat(["## " + heading, ""], body);
    OneLineConcat(["## " + heading, ""] + body, [""]);
  }

  lemma {:induction false} SlotOneLine(d: SlotDescriptor, s: Slots)
    requires HeadingOk(d.heading)
    ensures AllOneLine(SlotLines(d, s))
  {
    FilledLines(d, s);
    match d.kind {
      case TermKind => ListOneLine(TermTexts(s.terminology));
      case ListKind => ListOneLine(s.List(d.key));
      case ProseKind => LinesOneLine(TrimNL(s.Prose(d.key)));
    }
    SectionOneLine(d.heading, SlotBody(d, s));
  }

  lemma {:induction false} SlotsOneLine(table: seq<SlotDescriptor>, k: nat, s: Slots)
    requires k <= |table| && forall i | k <= i < |table| :: HeadingOk(table[i].heading)
    ensures AllOneLine(SlotsLines(table, k, s))
    decreases |table| - k
  {
    if k < |table| {
      SlotsOneLine(table, k + 1, s);
      SlotOneLine(table[k], s);
      OneLineConcat(SlotLines(table[k], s), SlotsLines(table, k + 1, s));
    }
  }

  lemma {:induction false} AssembledOneLine(head: seq<string>, name: string, slots: seq<string>)
    requires AllOneLine(head) && OneLine(name) && AllOneLine(slots)
    ensures AllOneLine(Assembled(head, name, slots))
  {
    var fence, t := ["---"], TitleLines(name);
    assert OneLine("---") && OneLine("") && OneLine("# " + name);
    OneLineConcat(fence, head);
    OneLineConcat(fence + head, fence);
    OneLineConcat([""], t);
    OneLineConcat([""] + t, slots);
    OneLineConcat(fence + head + fence, BodyLines(name, slots));
  }

  /** A printed file is a run of whole lines that ends with one blank line. */
  lemma {:induction false} FileShape(table: seq<SlotDescriptor>, y: Yaml, doc: Doc)
    requires WellFormedTable(table) && OneLine(doc.name) && Shaped(doc.slots)
    ensures AllOneLine(FileLines(table, y, doc)) && EndsWell(FileLines(table, y, doc))
  {
    SlotsOneLine(table, 0, doc.slots);
    SlotsEnd(table, 0, doc.slots);
    var h := y.encode(FrontOf(doc));
    if h != "" { LinesOneLine(h[..|h| - 1]); }
    AssembledOneLine(HeadLines(y, doc), doc.name, PrintedSlots(table, doc));
    AssembledEnds(HeadLines(y, doc), doc.name, PrintedSlots(table, doc));
  }

  // ---------------------------------------------------------------- the printed text

  lemma {:induction false} TitleUnlines(name: string)
    ensures Unlines(TitleLines(name)) == TitleText(name)
  {
    if name != "" {
      var t := TitleLines(name);
      assert t[1..] == [""] && [""][1..] == [];
      assert Unlines([""]) == "\n";
      Assoc("# " + name, "\n", "\n");
      assert "\n" + "\n" == "\n\n";
    }
  }

  lemma {:induction false} AssembledText(head: seq<string>, name: string, slots: seq<string>)
    ensures Unlines(Assembled(head, name, slots)) ==
            "---\n" + Unlines(head) + "---\n\n" + TitleText(name) + Unlines(slots)
  {
    var t := TitleLines(name);
    TitleUnlines(name);
    UnlinesAppend(["---"] + head + ["---"], BodyLines(name, slots));
    UnlinesAppend(["---"] + head, ["---"]);
    UnlinesAppend(["---"], head);
    UnlinesAppend([""] + t, slots);
    UnlinesAppend([""], t);
    assert Unlines(["---"]) == "---\n" && Unlines([""]) == "\n";
    DraftText(Unlines(head), TitleText(name), Unlines(slots));
  }

  lemma {:induction false} DraftLines(table: seq<SlotDescriptor>, y: Yaml, doc: Doc)
    requires Framed(y, FrontOf(doc))
    ensures Draft(table, y, doc) == Unlines(FileLines(table, y, doc))
  {
    var h := y.encode(FrontOf(doc));
    var body := h[..|h| - 1];
    JoinLines(body);
    UnlinesJoin(HeadLines(y, doc));
    assert h == body + "\n";
    AssembledText(HeadLines(y, doc), doc.name, PrintedSlots(table, doc));
  }

  lemma {:induction false} DraftText(h: string, t: string, s: string)
    ensures ("---\n" + h + "---\n") + ("\n" + t + s) == "---\n" + h + "---\n\n" + t + s
  {}

  /** Trimming the draft's newlines and ending the last line removes exactly one blank line. */
  lemma {:induction false} TrimUnlines(ls: seq<string>)
    requires AllOneLine(ls) && EndsWell(ls)
    ensures TrimEnd(Unlines(ls), Newlines) + "\n" == Unlines(ls[..|ls| - 1])
  {
    var n := |ls|;
    var l := ls[n - 2];
    var t := Unlines(ls[..n - 2]) + l;
    UnlinesStep(ls, n - 2);
    UnlinesStep(ls, n - 1);
    assert ls[..n] == ls;
    assert Unlines(ls[..n - 1]) == t + "\n";
    assert Unlines(ls) == t + "\n\n" by { assert "" + "\n" == "\n"; }
    var u := t + "\n\n";
    assert u[|t| - 1] == l[|l| - 1] != '\n';
    KeepIs(u, Newlines, 0, |u|, |t|);
    assert u[..|t|] == t;
  }

  lemma {:induction false} FoldFile(ls: seq<string>)
    requires AllOneLine(ls) && EndsWell(ls)
    ensures Lines(FoldCRLF(TrimEnd(Unlines(ls), Newlines) + "\n")) == DropCRs(ls)
  {
    var t := ls[..|ls| - 1];
    TrimUnlines(ls);
    FoldUnlines(t);
    DropOneLine(t);
    LinesUnlines(DropCRs(t));
    DropLast(ls);
  }

  lemma {:induction false} DropLast(ls: seq<string>)
    requires ls != [] && ls[|ls| - 1] == ""
    ensures DropCRs(ls) == DropCRs(ls[..|ls| - 1]) + [""]
  {}

  lemma {:induction false} DropOneLine(ls: seq<string>)
    requires AllOneLine(ls)
    ensures AllOneLine(DropCRs(ls))
  {
    forall i | 0 <= i < |ls| ensures OneLine(DropCRs(ls)[i]) { assert OneLine(ls[i]); }
  }

  /** The lines the parser sees are the lines that were printed, each less one trailing return. */
  lemma {:induction false} PrintedLines(table: seq<SlotDescriptor>, y: Yaml, doc: Doc)
    requires WellFormedTable(table) && Framed(y, FrontOf(doc)) && OneLine(doc.name) && Shaped(doc.slots)
    ensures Lines(FoldCRLF(Markdown(table, y, doc))) == DropCRs(FileLines(table, y, doc))
  {
    FileShape(table, y, doc);
    FoldFile(FileLines(table, y, doc));
    DraftLines(table, y, doc);
  }

  // ---------------------------------------------------------------- the frontmatter

  lemma {:induction false} FirstFenceIs(ls: seq<string>, i: nat, n: nat)
    requires i <= n <= |ls| && (n < |ls| ==> TrimSpace(ls[n]) == FENCE)
    requires forall k | i <= k < n :: TrimSpace(ls[k]) != FENCE
    ensures FirstFence(ls, i) == n
    decreases n - i
  {
    if i < n { FirstFenceIs(ls, i + 1, n); }
  }

  lemma {:induction false} FenceTrim()
    ensures TrimSpace("---") == FENCE && DropCR("---") == "---"
  {
    TrimFixed("---", Spaces);
  }

  lemma {:induction false} CutPrinted(hl: seq<string>, body: seq<string>)
    requires hl != [] && forall l | l in hl :: TrimSpace(l) != FENCE && DropCR(l) == l
    ensures var ls := DropCRs(["---"] + hl + ["---"] + body);
            CutFile(ls) == Ok(File(Join(hl), DropCRs(body), 2, |hl| + 3))
  {
    hide TrimSpace, DropCR, Join;
    var ls := DropCRs(["---"] + hl + ["---"] + body);
    var n := |hl| + 1;
    FenceTrim();
    assert ls[0] == "---" && ls[n] == "---";
    forall k | 1 <= k < n ensures ls[k] == hl[k - 1] { assert hl[k - 1] in hl; }
    forall k | 1 <= k < n ensures TrimSpace(ls[k]) != FENCE { assert hl[k - 1] in hl; }
    FirstFenceIs(ls, 1, n);
    assert ls[1..n] == hl;
    assert ls[n + 1..] == DropCRs(body);
    FenceFirst(ls);
  }

  lemma {:induction false} FenceFirst(ls: seq<string>)
    requires ls != [] && TrimSpace(ls[0]) == FENCE
    ensures FirstNonBlank(ls, 0) == 0
  {
    hide TrimSpace;
    assert FENCE != "";
  }

  lemma {:induction false} TypeFine(line: nat)
    ensures TypeErrors(MARKDOWN_TYPE, line) == []
  {
    var s := MARKDOWN_TYPE;
    TrimFixed(s, Spaces);
    var v := s[7..|s| - 1];
    assert v == "0.2";
    assert v[1..][0] == '.' && Digits(v[1..]) == 0 && Digits(v) == 1;
    assert v[2..] == "2" && Digits("2") == 1 + Digits("2"[1..]) == 1;
  }

  // ---------------------------------------------------------------- the preamble

  lemma {:induction false} TitleTrim(name: string)
    requires OneLine(name) && name != ""
    ensures var t := TrimSpace(DropCR("# " + name)); t != "" && ("# " <= t <==> !Blank(name))
  {
    var l := "# " + name;
    var p := DropCR(l);
    var i, j := TrimSlice(p, Spaces);
    assert l[|l| - 1] == name[|name| - 1];
    assert p == "# " + DropCR(name);
    assert p[0] == '#' && !Cuts(Spaces, p[0]);
    assert i == 0 && j > 0;
    if Blank(name) {
      forall k | 1 <= k < |p| ensures Cuts(Spaces, p[k]) { assert k >= 2 ==> p[k] == name[k - 2]; }
      assert j == 1;
    } else {
      var k :| 0 <= k < |name| && !IsSpace(name[k]);
      assert DropCR(name)[k] == name[k] && p[k + 2] == name[k];
      assert j > k + 2;
      assert p[0..j][..2] == p[..2] == "# ";
    }
  }

  lemma {:induction false} Preamble(doc: Doc, body: seq<string>, n: nat, line: nat)
    requires OneLine(doc.name) && n == 1 + |TitleLines(doc.name)| <= |body|
    requires body[..n] == DropCRs([""] + TitleLines(doc.name))
    ensures PreambleErrors(body, 0, n, line, false) == [] <==> TitleOk(doc.name)
    ensures forall k | 0 <= k < n :: !IsHead(body[k])
  {
    TrimEmpty("", Spaces);
    assert body[0] == body[..n][0] == "";
    if doc.name != "" {
      TitleTrim(doc.name);
      var l := "# " + doc.name;
      assert body[1] == body[..n][1] == DropCR(l);
      assert body[2] == body[..n][2] == "";
      assert l[0] == '#' && l[1] == ' ' && "## "[1] == '#';
      assert |DropCR(l)| >= 2 ==> DropCR(l)[1] == ' ';
      assert PreambleErrors(body, 3, n, line, true) == [];
    }
  }

  // ---------------------------------------------------------------- the table

  lemma {:induction false} EchoOne(cur: Slots, d: SlotDescriptor, s: Slots)
    requires d.kind == TermKind ==> cur.terminology == []
    requires d.kind == ListKind ==> cur.List(d.key) == []
    requires d.kind == ProseKind ==> cur.Prose(d.key) == ""
    ensures EchoSlot(cur, d, s) == match d.kind
                                   case TermKind => cur.(terminology := EchoSlots(s).terminology)
                                   case ListKind => cur.SetList(d.key, Cleans(s.List(d.key)))
                                   case ProseKind => cur.SetProse(d.key, EchoProse(s.Prose(d.key)))
  {
    if !Filled(d, s) {
      assert d.kind == TermKind ==> Cleans(TermTexts(s.terminology)) == [];
      assert d.kind == ListKind ==> Cleans(s.List(d.key)) == [];
    }
  }

  /** The first k slots of the table read back, the others still empty. */
  function Partial(k: nat, e: Slots): Slots {
    Slots(if k > 0 then e.terminology else [], if k > 1 then e.rules else [],
          if k > 2 then e.skills else [], if k > 3 then e.prompts else [],
          if k > 4 then e.toolSpecs else "", if k > 5 then e.goals else "",
          if k > 6 then e.style else "", if k > 7 then e.norms else "",
          if k > 8 then e.architecture else "", if k > 9 then e.businessProcess else "")
  }

  lemma {:induction false} PartialStep(k: nat, d: SlotDescriptor, s: Slots)
    requires k < 10 && d.key == KeyAt(k)
    requires d.kind == if k == 0 then TermKind else if k < 4 then ListKind else ProseKind
    ensures EchoSlot(Partial(k, EchoSlots(s)), d, s) == Partial(k + 1, EchoSlots(s))
  {
    hide EchoSlot, EchoSlots, Partial, Cleans, EchoProse;
    var e := EchoSlots(s);
    PartialEmpty(k, e);
    EchoOne(Partial(k, e), d, s);
    PartialNext(k, e);
    EchoAt(d.key, s);
  }

  lemma {:induction false} EchoAt(key: SlotKey, s: Slots)
    ensures EchoSlots(s).List(key) == Cleans(s.List(key))
    ensures EchoSlots(s).Prose(key) == EchoProse(s.Prose(key))
  {
    hide ParsedTerms, TermTexts, TrimNL, Clean;
  }

  lemma {:induction false} PartialEmpty(k: nat, e: Slots)
    requires k < 10
    ensures k == 0 ==> Partial(k, e).terminology == []
    ensures Partial(k, e).List(KeyAt(k)) == [] && Partial(k, e).Prose(KeyAt(k)) == ""
  {}

  lemma {:induction false} PartialNext(k: nat, e: Slots)
    requires k < 10
    ensures Partial(k + 1, e) == if k == 0 then Partial(k, e).(terminology := e.terminology)
                                 else if k < 4 then Partial(k, e).SetList(KeyAt(k), e.List(KeyAt(k)))
                                 else Partial(k, e).SetProse(KeyAt(k), e.Prose(KeyAt(k)))
  {}

  lemma {:induction false} EchoRest(table: seq<SlotDescriptor>, k: nat, s: Slots)
    requires GoodTable(table) && k <= 10
    ensures EchoFrom(table, k, Partial(k, EchoSlots(s)), s) == EchoSlots(s)
    ensures EchoesOk(table, k, s) <==> k > 0 || AllMatch(Cleans(TermTexts(s.terminology)))
    decreases 10 - k
  {
    if k < 10 {
      EchoRest(table, k + 1, s);
      PartialStep(k, table[k], s);
      EchoStep(table, k, Partial(k, EchoSlots(s)), s);
    }
  }

  /** The whole table read back, slot by slot. */
  lemma {:induction false} EchoTable(table: seq<SlotDescriptor>, s: Slots)
    requires GoodTable(table)
    ensures EchoFrom(table, 0, EMPTY_SLOTS, s) == EchoSlots(s)
    ensures EchoesOk(table, 0, s) <==> AllMatch(Cleans(TermTexts(s.terminology)))
  {
    EchoRest(table, 0, s);
    assert Partial(0, EchoSlots(s)) == EMPTY_SLOTS;
  }

  // ---------------------------------------------------------------- print, then parse

  lemma {:induction false} BodySplit(name: string, slots: seq<string>)
    ensures var n, body := 1 + |TitleLines(name)|, DropCRs(BodyLines(name, slots));
            && n <= |body| && body[..n] == DropCRs([""] + TitleLines(name)) && body[n..] == DropCRs(slots)
  {
    DropConcat([""] + TitleLines(name), slots);
  }

  lemma {:induction false} ParsePrintedBody(table: seq<SlotDescriptor>, doc: Doc, line: nat)
    requires GoodTable(table) && OneLine(doc.name) && Shaped(doc.slots)
    ensures var st := ParseBody(table, DropCRs(BodyLines(doc.name, PrintedSlots(table, doc))), line, []);
            && st.slots == EchoSlots(doc.slots)
            && (st.errs == [] <==> StillReads(doc))
  {
    hide Shaped, GoodTable, WellFormedTable, DropCRs, BodyLines, SlotsLines, ParseSections, Sections, PreambleErrors,
      EchoSlots, EchoesOk, EchoFrom, TitleLines, IsHead, StillReads, Lines, OneLine;
    var body, n := DropCRs(BodyLines(doc.name, PrintedSlots(table, doc))), 1 + |TitleLines(doc.name)|;
    BodySplit(doc.name, PrintedSlots(table, doc));
    Preamble(doc, body, n, line);
    assert WellFormedTable(table) by { GoodIsWellFormed(table); }
    FirstHead(table, 0, body, n, doc.slots);
    HeadAtIs(body, 0, n);
    var st := ParseState(EMPTY_SLOTS, {}, [] + PreambleErrors(body, 0, n, line, false));
    ParsePrinted(table, 0, body, n, line, st, doc.slots);
    EchoTable(table, doc.slots);
    StillReadsIs(doc);
  }

  lemma {:induction false} GoodIsWellFormed(table: seq<SlotDescriptor>)
    requires GoodTable(table)
    ensures WellFormedTable(table)
  {}

  lemma {:induction false} StillReadsIs(doc: Doc)
    requires Shaped(doc.slots)
    ensures StillReads(doc) <==> TitleOk(doc.name) && AllMatch(Cleans(TermTexts(doc.slots.terminology)))
  {
    hide TermShape, TermReads, MatchTerm, TermText, ParsedTerms;
    var ts := doc.slots.terminology;
    var items := Cleans(TermTexts(ts));
    MatchedCount(items, 0);
    forall i | 0 <= i < |ts| ensures MatchTerm(items[i]).Some? <==> TermReads(ts[i]) { TermMatchesIff(ts[i]); }
  }

  lemma {:induction false} MatchedCount(items: seq<string>, n: nat)
    requires n <= |items|
    ensures |ParsedTerms(items, n)| <= |items| - n
    ensures |ParsedTerms(items, n)| == |items| - n <==> forall i | n <= i < |items| :: MatchTerm(items[i]).Some?
    decreases |items| - n
  {
    hide MatchTerm;
    if n < |items| { MatchedCount(items, n + 1); }
  }

  lemma {:induction false} ParsedFileIs(table: seq<SlotDescriptor>, y: Yaml, ls: seq<string>, f: File, fm: Frontmatter)
    requires CutFile(ls) == Ok(f) && y.decode(f.head) == Some(fm) && TypeErrors(fm.kind, f.headLine) == []
    ensures ParsedFile(table, y, ls) == Finished(fm, ParseBody(table, f.body, f.line, []))
  {}

  lemma {:induction false} FramedHead(y: Yaml, fm: Frontmatter, head: seq<string>)
    requires Framed(y, fm) && head == Lines(y.encode(fm)[..|y.encode(fm)| - 1])
    ensures head != [] && y.decode(Join(head)) == Some(fm)
    ensures forall l | l in head :: TrimSpace(l) != FENCE && DropCR(l) == l
  {
    JoinLines(y.encode(fm)[..|y.encode(fm)| - 1]);
  }

  lemma {:induction false} PrintedFrame(table: seq<SlotDescriptor>, y: Yaml, fm: Frontmatter, head: seq<string>,
                                        body: seq<string>)
    requires fm.kind == MARKDOWN_TYPE && head != [] && y.decode(Join(head)) == Some(fm)
    requires forall l | l in head :: TrimSpace(l) != FENCE && DropCR(l) == l
    ensures ParsedFile(table, y, DropCRs(["---"] + head + ["---"] + body)) ==
            Finished(fm, ParseBody(table, DropCRs(body), |head| + 3, []))
  {
    CutPrinted(head, body);
    TypeFine(2);
    ParsedFileIs(table, y, DropCRs(["---"] + head + ["---"] + body),
                 File(Join(head), DropCRs(body), 2, |head| + 3), fm);
  }

  lemma {:induction false} ParsedLines(table: seq<SlotDescriptor>, y: Yaml, doc: Doc)
    requires GoodTable(table) && Framed(y, FrontOf(doc)) && OneLine(doc.name) && Shaped(doc.slots)
    ensures Parsed(table, y, Markdown(table, y, doc)) == ParsedFile(table, y, DropCRs(FileLines(table, y, doc)))
  {
    PrintedLines(table, y, doc);
  }

  lemma {:induction false} PrintedFile(table: seq<SlotDescriptor>, y: Yaml, doc: Doc) returns (st: ParseState)
    requires GoodTable(table) && Framed(y, FrontOf(doc)) && OneLine(doc.name) && Shaped(doc.slots)
    ensures Parsed(table, y, Markdown(table, y, doc)) == Finished(FrontOf(doc), st)
    ensures st == ParseBody(table, DropCRs(BodyLines(doc.name, PrintedSlots(table, doc))), |HeadLines(y, doc)| + 3, [])
  {
    var head, body := HeadLines(y, doc), BodyLines(doc.name, PrintedSlots(table, doc));
    hide Shaped, GoodTable, PrintedSlots, Parsed, Markdown, Draft, ParsedFile, TitleText, DropCRs, ParseBody, Lines;
    ParsedLines(table, y, doc);
    FramedHead(y, FrontOf(doc), head);
    PrintedFrame(table, y, FrontOf(doc), head, body);
    st := ParseBody(table, DropCRs(body), |head| + 3, []);
  }

  predicate AllRead(ts: seq<Term>) { forall i | 0 <= i < |ts| :: TermReads(ts[i]) }

  predicate StillReads(doc: Doc) { TitleOk(doc.name) && AllRead(doc.slots.terminology) }

  lemma {:induction false} FinishedIs(doc: Doc, st: ParseState) returns (r: Result<Doc, seq<ParseError>>)
    requires st.slots == EchoSlots(doc.slots) && (st.errs == [] <==> StillReads(doc))
    ensures r == Finished(FrontOf(doc), st)
    ensures r.Ok? <==> StillReads(doc)
    ensures r.Ok? ==> r.value == DocOf(FrontOf(doc), EchoSlots(doc.slots))
  {
    r := Finished(FrontOf(doc), st);
  }

  /** What parsing makes of a printed shaped document: its slots echoed, unless its title is
      blank or an empty term's definition holds no "**:" to pass for the term's end. */
  lemma {:induction false} PrintThenParse(table: seq<SlotDescriptor>, y: Yaml, doc: Doc)
    returns (r: Result<Doc, seq<ParseError>>)
    requires GoodTable(table) && Framed(y, FrontOf(doc)) && OneLine(doc.name) && Shaped(doc.slots)
    ensures r == Parsed(table, y, Markdown(table, y, doc))
    ensures r.Ok? <==> StillReads(doc)
    ensures r.Ok? ==> r.value == DocOf(FrontOf(doc), EchoSlots(doc.slots))
  {
    hide *;
    var st := PrintedFile(table, y, doc);
    ParsePrintedBody(table, doc, |HeadLines(y, doc)| + 3);
    r := FinishedIs(doc, st);
  }

  lemma {:induction false} InheritsRoundTrip(es: seq<ExtendRef>)
    ensures ParseInherits(InheritTexts(es)) == es <==> forall i | 0 <= i < |es| :: InheritOk(es[i])
  {
    var r := ParseInherits(InheritTexts(es));
    forall i | 0 <= i < |es| ensures r[i] == es[i] <==> InheritOk(es[i]) { InheritRoundTrip(es[i]); }
    if r == es { forall i | 0 <= i < |es| ensures InheritOk(es[i]) { assert r[i] == es[i]; } }
  }

  /** d has the metadata of doc, field by field, but that an empty visibility is "internal" and a parent
      reference is the same only when it is well formed. */
  ghost predicate KeepsMetadata(doc: Doc, d: Doc) {
    && d.name == doc.name && d.description == doc.description && d.version == doc.version
    && d.visibility == (if doc.visibility == "" then "internal" else doc.visibility)
    && d.scope == doc.scope && d.maintainer == doc.maintainer && d.excludes == doc.excludes
    && |d.extends_| == |doc.extends_|
    && forall i | 0 <= i < |doc.extends_| :: d.extends_[i] == doc.extends_[i] <==> InheritOk(doc.extends_[i])
  }

  /** A document that is printed and parsed keeps its metadata. */
  lemma {:induction false} PrintedMetadata(table: seq<SlotDescriptor>, y: Yaml, doc: Doc)
    requires GoodTable(table) && Framed(y, FrontOf(doc)) && OneLine(doc.name) && Shaped(doc.slots)
    ensures var r := Parsed(table, y, Markdown(table, y, doc)); r.Ok? ==> KeepsMetadata(doc, r.value)
  {
    hide Parsed, Markdown, EchoSlots, StillReads, Shaped, InheritOk, GoodTable, Framed;
    var r := PrintThenParse(table, y, doc);
    forall i | 0 <= i < |doc.extends_|
      ensures ParseInherit(InheritText(doc.extends_[i])) == doc.extends_[i] <==> InheritOk(doc.extends_[i])
    {
      InheritRoundTrip(doc.extends_[i]);
    }
  }

  /** A shaped document is its own echo exactly when it is canonical. */
  lemma {:induction false} EchoCanonical(doc: Doc)
    requires Shaped(doc.slots)
    ensures Canonical(doc) <==>
            DocOf(FrontOf(doc), EchoSlots(doc.slots)) == doc && StillReads(doc)
  {
    SlotsCanonical(doc.slots);
    InheritsRoundTrip(doc.extends_);
  }

  lemma {:induction false} CanonicalShaped(s: Slots)
    requires CanonicalSlots(s)
    ensures Shaped(s)
  {}

  /** The codec is lossless on exactly the canonical documents. */
  lemma {:induction false} RoundTrip(table: seq<SlotDescriptor>, y: Yaml, doc: Doc)
    requires GoodTable(table) && Framed(y, FrontOf(doc)) && OneLine(doc.name)
    ensures Parsed(table, y, Markdown(table, y, doc)) == Ok(doc) <==> Canonical(doc)
  {
    if Canonical(doc) {
      CanonicalShaped(doc.slots);
    } else if Parsed(table, y, Markdown(table, y, doc)) == Ok(doc) {
      ParsedShape(table, y, Markdown(table, y, doc));
    }
    if Shaped(doc.slots) {
      var r := PrintThenParse(table, y, doc);
      EchoCanonical(doc);
    }
  }
}
