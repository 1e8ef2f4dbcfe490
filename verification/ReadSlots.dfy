/** What an accepted text is read as: its metadata, and under each heading the slot it fills. */
module ReadSlots {
  import opened Text
  import opened Schema
  import opened Codec
  import opened CodecShape
  import opened CodecPrint
  import opened BulletLaws
  import opened Acceptance

  // ---------------------------------------------------------------- one section fills one slot

  /** The lines under the heading at h. */
  function ContentAt(body: seq<string>, h: nat): seq<string>
    requires h < |body|
  {
    body[h + 1..HeadAt(body, h + 1)]
  }

  /** The slot of d holds what the section at h reads as. */
  predicate Holds(d: SlotDescriptor, s: Slots, body: seq<string>, h: nat)
    requires h < |body|
  {
    match d.kind
    case TermKind => s.terminology == ParsedTerms(ScanBullets(ContentAt(body, h), 0).items, 0)
    case ListKind => s.List(d.key) == ScanBullets(ContentAt(body, h), 0).items
    case ProseKind => s.Prose(d.key) == TrimNL(Join(ContentAt(body, h)))
  }

  predicate IsEmpty(d: SlotDescriptor, s: Slots) {
    match d.kind
    case TermKind => s.terminology == []
    case ListKind => s.List(d.key) == []
    case ProseKind => s.Prose(d.key) == ""
  }

  /** The slot of d is the same in both. */
  predicate Alike(d: SlotDescriptor, a: Slots, b: Slots) {
    match d.kind
    case TermKind => a.terminology == b.terminology
    case ListKind => a.List(d.key) == b.List(d.key)
    case ProseKind => a.Prose(d.key) == b.Prose(d.key)
  }

  lemma {:induction false} FillsOwn(table: seq<SlotDescriptor>, k: nat, st: ParseState, body: seq<string>, h: nat,
                                    line: nat)
    requires GoodTable(table) && k < 10 && h < |body| && IsEmpty(table[k], st.slots)
    ensures Holds(table[k], FillSlot(st, table[k], ContentAt(body, h), line).slots, body, h)
  {
    hide IsHead, NextDash, ParsedTerms, TrimNL, Join, HeadAt, Items;
    assert table[k].key == KeyAt(k);
    assert [] + ParsedTerms(ScanBullets(ContentAt(body, h), 0).items, 0) ==
           ParsedTerms(ScanBullets(ContentAt(body, h), 0).items, 0);
  }

  lemma {:induction false} FillsNoOther(table: seq<SlotDescriptor>, k: nat, j: nat, st: ParseState,
                                        content: seq<string>, line: nat)
    requires GoodTable(table) && k < 10 && j < 10 && k != j
    ensures Alike(table[k], FillSlot(st, table[j], content, line).slots, st.slots)
  {
    hide ScanBullets, ParsedTerms, TrimNL, Join, WellFormedTable;
    assert table[k].key == KeyAt(k) && table[j].key == KeyAt(j);
  }

  lemma {:induction false} HoldsAlike(d: SlotDescriptor, a: Slots, b: Slots, body: seq<string>, h: nat)
    requires h < |body| && Alike(d, a, b)
    ensures Holds(d, a, body, h) <==> Holds(d, b, body, h)
    ensures IsEmpty(d, a) <==> IsEmpty(d, b)
  {
    hide ScanBullets, ParsedTerms, TrimNL, Join, HeadAt;
  }

  lemma {:induction false} AlikeTwice(d: SlotDescriptor, a: Slots, b: Slots, c: Slots)
    requires Alike(d, a, b) && Alike(d, b, c)
    ensures Alike(d, a, c)
  {}

  // ---------------------------------------------------------------- all sections

  /** The first heading from line i on that names d. */
  predicate FirstHeading(d: SlotDescriptor, body: seq<string>, i: nat, h: nat) {
    && i <= h < |body| && IsHead(body[h]) && HeadText(body[h]) == d.heading
    && forall g | i <= g < h && IsHead(body[g]) :: HeadText(body[g]) != d.heading
  }

  predicate NoHeading(d: SlotDescriptor, body: seq<string>, i: nat) {
    forall g | i <= g < |body| && IsHead(body[g]) :: HeadText(body[g]) != d.heading
  }

  /** One section leaves the slots of other headings and of seen keys alone. */
  lemma {:induction false} OtherSection(table: seq<SlotDescriptor>, k: nat, st: ParseState, sec: Section)
    requires GoodTable(table) && k < 10 && (sec.heading != table[k].heading || table[k].key in st.seen)
    ensures var next := ParseSection(table, st, sec);
            && Alike(table[k], next.slots, st.slots)
            && (table[k].key in next.seen <==> table[k].key in st.seen)
  {
    hide FillSlot, FindHeading, WellFormedTable, Alike;
    Itself(table[k], st.slots);
    FoundIs(table, sec.heading, 0);
    assert table[0..] == table;
    var r := FindHeading(table, sec.heading, 0);
    if r.Some? {
      var j :| 0 <= j < |table| && table[j] == r.value;
      SeenFill(st.(seen := st.seen + {r.value.key}), r.value, sec.content, sec.line);
      if j != k {
        KeysDiffer(table, j, k);
        FillsNoOther(table, k, j, st.(seen := st.seen + {r.value.key}), sec.content, sec.line);
      }
    }
  }

  lemma {:induction false} Itself(d: SlotDescriptor, s: Slots)
    ensures Alike(d, s, s)
  {}

  lemma {:induction false} SeenFill(st: ParseState, d: SlotDescriptor, content: seq<string>, line: nat)
    ensures FillSlot(st, d, content, line).seen == st.seen
  {
    hide ScanBullets;
  }

  lemma {:induction false} TenEntries(table: seq<SlotDescriptor>)
    requires GoodTable(table)
    ensures |table| == 10 && WellFormedTable(table)
  {}

  lemma {:induction false} KeysDiffer(table: seq<SlotDescriptor>, j: nat, k: nat)
    requires WellFormedTable(table) && j < |table| && k < |table| && j != k
    ensures table[j].key != table[k].key && table[j].heading != table[k].heading
  {
    hide HeadingOk;
  }

  /** Sections under other headings leave a slot alone. */
  lemma {:induction false} SlotStays(table: seq<SlotDescriptor>, k: nat, body: seq<string>, i: nat, line: nat,
                                     st: ParseState)
    requires GoodTable(table) && k < 10 && i <= |body| && (i < |body| ==> IsHead(body[i]))
    requires table[k].key in st.seen || NoHeading(table[k], body, i)
    ensures Alike(table[k], ParseSections(table, st, Sections(body, i, line), 0).slots, st.slots)
    decreases |body| - i
  {
    hide GoodTable, IsHead, ParseSection, Alike, TrimSpace;
    TenEntries(table);
    Itself(table[k], st.slots);
    if i < |body| {
      var n := HeadAt(body, i + 1);
      var sec, rest := SectionAt(body, i, n, line), Sections(body, n, line);
      var next := ParseSection(table, st, sec);
      ParseCons(table, st, sec, rest);
      OtherSection(table, k, st, sec);
      SlotStays(table, k, body, n, line, next);
      AlikeTwice(table[k], ParseSections(table, next, rest, 0).slots, next.slots, st.slots);
    }
  }

  /** The first section under its heading fills a slot. */
  lemma {:induction false} SlotFills(table: seq<SlotDescriptor>, k: nat, body: seq<string>, i: nat, line: nat,
                                     st: ParseState, h: nat)
    requires GoodTable(table) && k < 10 && i <= |body| && (i < |body| ==> IsHead(body[i]))
    requires table[k].key !in st.seen && IsEmpty(table[k], st.slots) && FirstHeading(table[k], body, i, h)
    ensures Holds(table[k], ParseSections(table, st, Sections(body, i, line), 0).slots, body, h)
    decreases |body| - i
  {
    hide GoodTable, IsHead, ParseSection, Alike, TrimSpace, Holds, IsEmpty;
    TenEntries(table);
    var n := HeadAt(body, i + 1);
    var sec, rest := SectionAt(body, i, n, line), Sections(body, n, line);
    var next := ParseSection(table, st, sec);
    ParseCons(table, st, sec, rest);
    HeadAtFirst(body, i + 1);
    if i == h {
      OwnSection(table, k, st, body, h, line);
      SlotStays(table, k, body, n, line, next);
      HoldsAlike(table[k], ParseSections(table, next, rest, 0).slots, next.slots, body, h);
    } else {
      OtherSection(table, k, st, sec);
      HoldsAlike(table[k], next.slots, st.slots, body, h);
      SlotFills(table, k, body, n, line, next, h);
    }
  }

  lemma {:induction false} OwnSection(table: seq<SlotDescriptor>, k: nat, st: ParseState, body: seq<string>, h: nat,
                                      line: nat)
    requires GoodTable(table) && k < 10 && h < |body| && IsHead(body[h]) && HeadText(body[h]) == table[k].heading
    requires table[k].key !in st.seen && IsEmpty(table[k], st.slots)
    ensures var next := ParseSection(table, st, SectionAt(body, h, HeadAt(body, h + 1), line));
            Holds(table[k], next.slots, body, h) && table[k].key in next.seen
  {
    hide IsHead, TrimSpace, Holds, IsEmpty, FillSlot, FindHeading;
    HeadingFound(table, k, 0);
    var st' := st.(seen := st.seen + {table[k].key});
    FillsOwn(table, k, st', body, h, line + h);
    SeenFill(st', table[k], ContentAt(body, h), line + h);
  }

  // ---------------------------------------------------------------- the items of a section

  predicate BulletUnder(body: seq<string>, h: nat, i: nat) { Under(body, h, i) && "- " <= body[i] }

  /** The lines under the heading at h are those before line stop. */
  ghost predicate UnderUntil(body: seq<string>, h: nat, stop: nat) {
    h < stop <= |body| && forall i: nat :: Under(body, h, i) <==> h < i < stop
  }

  /** The items are what the bullets under the heading at h read as, in their order. */
  ghost predicate ReadsAs(body: seq<string>, h: nat, items: seq<string>) {
    exists starts: seq<nat> ::
      && |starts| == |items| && Increasing(starts)
      && (forall i: nat :: i in starts <==> BulletUnder(body, h, i))
      && forall n | 0 <= n < |items| :: BulletAt(body, starts[n], items[n])
  }

  lemma {:induction false} ScannedReadsAs(body: seq<string>, h: nat)
    requires h < |body| && IsHead(body[h])
    ensures ReadsAs(body, h, ScanBullets(ContentAt(body, h), 0).items)
  {
    hide IsHead, BulletAt, Under, Increasing, ScanBullets;
    var stop := HeadAt(body, h + 1);
    var content := body[h + 1..stop];
    var b := ScanBullets(content, h + 1);
    SameItems(content, h + 1);
    ScanPairs(content, h + 1);
    StartsAll(content, h + 1);
    forall i: nat ensures i in b.starts <==> BulletUnder(body, h, i) {
      UnderIs(body, h, i);
      if h < i < stop { assert content[i - (h + 1)] == body[i]; }
    }
    forall n | 0 <= n < |b.items| ensures BulletAt(body, b.starts[n], b.items[n]) { ItemInBody(body, h, 0, n); }
  }

  lemma {:induction false} SameItems(content: seq<string>, base: nat)
    ensures ScanBullets(content, base).items == ScanBullets(content, 0).items
  {}

  /** One way to read a section. */
  lemma {:induction false} ReadsOneWay(body: seq<string>, h: nat, a: seq<string>, b: seq<string>)
    requires ReadsAs(body, h, a) && ReadsAs(body, h, b)
    ensures a == b
  {
    hide BulletAt, Under;
    var xs: seq<nat> :| |xs| == |a| && Increasing(xs) && (forall i: nat :: i in xs <==> BulletUnder(body, h, i))
                        && forall n | 0 <= n < |a| :: BulletAt(body, xs[n], a[n]);
    var ys: seq<nat> :| |ys| == |b| && Increasing(ys) && (forall i: nat :: i in ys <==> BulletUnder(body, h, i))
                        && forall n | 0 <= n < |b| :: BulletAt(body, ys[n], b[n]);
    SameIncreasing(xs, ys);
    forall n | 0 <= n < |a| ensures a[n] == b[n] { OneBullet(body, xs[n], a[n], b[n]); }
  }

  lemma {:induction false} SameIncreasing(xs: seq<nat>, ys: seq<nat>)
    requires Increasing(xs) && Increasing(ys) && forall i :: i in xs <==> i in ys
    ensures xs == ys
  {
    if xs == [] {
      NoneIn(ys);
    } else if ys == [] {
      NoneIn(xs);
    } else {
      assert xs[0] in xs && xs[0] in ys && ys[0] in ys && ys[0] in xs;
      TailIs(xs);
      TailIs(ys);
      SameIncreasing(xs[1..], ys[1..]);
      assert xs == [xs[0]] + xs[1..] && ys == [ys[0]] + ys[1..];
    }
  }

  lemma {:induction false} NoneIn(xs: seq<nat>)
    ensures xs != [] ==> exists i :: i in xs
  {
    if xs != [] { assert xs[0] in xs; }
  }

  lemma {:induction false} TailIs(xs: seq<nat>)
    requires Increasing(xs) && xs != []
    ensures Increasing(xs[1..]) && forall i :: i in xs[1..] <==> i in xs && i != xs[0]
    ensures forall i | i in xs :: xs[0] <= i
  {
    assert xs == [xs[0]] + xs[1..];
    forall i | i in xs[1..] ensures i != xs[0] { var k :| 1 <= k < |xs| && xs[k] == i; }
  }

  lemma {:induction false} ParsedTermsAre(items: seq<string>, n: nat)
    requires n <= |items| && forall k | n <= k < |items| :: MatchTerm(items[k]).Some?
    ensures var ts := ParsedTerms(items, n);
            |ts| == |items| - n && forall k | n <= k < |items| :: MatchTerm(items[k]) == Some(ts[k - n])
    decreases |items| - n
  {
    hide MatchTerm;
    if n < |items| {
      var rest := ParsedTerms(items, n + 1);
      ParsedTermsAre(items, n + 1);
      assert ParsedTerms(items, n) == [MatchTerm(items[n]).value] + rest;
      hide ParsedTerms;
    }
  }

  // ---------------------------------------------------------------- the accepted document

  /** The slot of d, read from the section at h: its bullets one by one, for terms each matched, or its
      lines with outer newlines trimmed. */
  ghost predicate ReadFrom(d: SlotDescriptor, s: Slots, body: seq<string>, h: nat) {
    match d.kind
    case TermKind =>
      exists items :: ReadsAs(body, h, items) && |items| == |s.terminology| &&
                      forall n | 0 <= n < |items| :: MatchTerm(items[n]) == Some(s.terminology[n])
    case ListKind => ReadsAs(body, h, s.List(d.key))
    case ProseKind =>
      exists stop: nat | UnderUntil(body, h, stop) :: s.Prose(d.key) == TrimNL(Join(body[h + 1..stop]))
  }

  lemma {:induction false} HoldsReads(table: seq<SlotDescriptor>, k: nat, s: Slots, body: seq<string>, h: nat)
    requires GoodTable(table) && k < 10 && h < |body| && IsHead(body[h]) && HeadText(body[h]) == table[k].heading
    requires BodyOk(table, body) && Holds(table[k], s, body, h)
    ensures ReadFrom(table[k], s, body, h)
  {
    hide IsHead, TrimSpace, ScanBullets, ReadsAs, HeadAt, GoodTable, Join, TrimNL, MatchTerm, TermForm;
    TenEntries(table);
    ScannedReadsAs(body, h);
    var items := ScanBullets(ContentAt(body, h), 0).items;
    match table[k].kind {
      case TermKind =>
        TermsMatch(table, k, body, h);
        ParsedTermsAre(items, 0);
      case ListKind =>
      case ProseKind =>
        var stop := HeadAt(body, h + 1);
        forall i: nat ensures Under(body, h, i) <==> h < i < stop { UnderIs(body, h, i); }
        assert UnderUntil(body, h, stop);
    }
  }

  lemma {:induction false} TermsMatch(table: seq<SlotDescriptor>, k: nat, body: seq<string>, h: nat)
    requires k < |table| && h < |body| && IsHead(body[h]) && HeadText(body[h]) == table[k].heading
    requires table[k].kind == TermKind && BodyOk(table, body)
    ensures var items := ScanBullets(ContentAt(body, h), 0).items;
            forall n | 0 <= n < |items| :: MatchTerm(items[n]).Some?
  {
    hide IsHead, TrimSpace, ScanBullets, BulletAt, Under, MatchTerm, TermForm, StrayAt, Unplaced, InTable, FirstOfName;
    var items := ScanBullets(ContentAt(body, h), 0).items;
    ScannedReadsAs(body, h);
    var starts: seq<nat> :| |starts| == |items| && (forall i: nat :: i in starts <==> BulletUnder(body, h, i))
                            && forall n | 0 <= n < |items| :: BulletAt(body, starts[n], items[n]);
    forall n | 0 <= n < |items| ensures MatchTerm(items[n]).Some? {
      assert starts[n] in starts;
      assert OfKind(table, HeadText(body[h]), TermKind);
      MatchIff(items[n]);
    }
  }

  /** The metadata is the frontmatter's, field by field. */
  predicate MetadataFrom(fm: Frontmatter, d: Doc) {
    && d.name == fm.name && d.description == fm.description && d.version == fm.version
    && d.visibility == fm.visibility && d.scope == fm.scope && d.maintainer == fm.maintainer
    && d.excludes == fm.excludes && |d.extends_| == |fm.inherits|
    && forall n | 0 <= n < |fm.inherits| :: d.extends_[n] == ParseInherit(fm.inherits[n])
  }

  /** A slot whose heading stands in the body is read from the lines under it; every other slot is empty. */
  ghost predicate SlotsFrom(table: seq<SlotDescriptor>, body: seq<string>, s: Slots) {
    forall k | 0 <= k < |table| ::
      (forall h: nat | FirstHeading(table[k], body, 0, h) :: ReadFrom(table[k], s, body, h)) &&
      (NoHeading(table[k], body, 0) ==> IsEmpty(table[k], s))
  }

  lemma {:induction false} AllSlotsFrom(table: seq<SlotDescriptor>, body: seq<string>, line: nat, errs: seq<ParseError>)
    requires GoodTable(table) && BodyOk(table, body)
    ensures SlotsFrom(table, body, ParseBody(table, body, line, errs).slots)
  {
    hide GoodTable, BodyOk, ReadFrom, IsEmpty, ParseBody, FirstHeading, NoHeading;
    var s := ParseBody(table, body, line, errs).slots;
    forall k | 0 <= k < |table|
      ensures forall h: nat | FirstHeading(table[k], body, 0, h) :: ReadFrom(table[k], s, body, h)
      ensures NoHeading(table[k], body, 0) ==> IsEmpty(table[k], s)
    {
      SlotIs(table, k, body, line, errs);
    }
  }

  lemma {:induction false} MetadataIs(fm: Frontmatter, s: Slots)
    ensures MetadataFrom(fm, DocOf(fm, s)) && DocOf(fm, s).slots == s
  {
    hide ParseInherit;
  }

  lemma {:induction false} AcceptedParts(table: seq<SlotDescriptor>, y: Yaml, ls: seq<string>, i: nat, j: nat,
                                         fm: Frontmatter)
    requires Acceptable(table, y, ls, i, j, fm)
    ensures i < j < |ls| && FencesAt(ls, i, j) && y.decode(Join(ls[i + 1..j])) == Some(fm) && BodyOk(table, ls[j + 1..])
  {
    hide BodyOk, TypeFine, Join;
  }

  /** The parts of an accepted text. */
  lemma {:induction false} AcceptedDoc(table: seq<SlotDescriptor>, y: Yaml, content: string, i: nat, j: nat,
                                       fm: Frontmatter) returns (s: Slots)
    requires GoodTable(table) && Acceptable(table, y, Lines(FoldCRLF(content)), i, j, fm)
    ensures Parsed(table, y, content) == Ok(DocOf(fm, s))
    ensures SlotsFrom(table, Lines(FoldCRLF(content))[j + 1..], s)
  {
    hide GoodTable, WellFormedTable, Lines, FoldCRLF, Acceptable, Parsed, ParseBody, TypeErrors, SlotsFrom, BodyOk,
      DocOf, FencesAt, Join;
    TenEntries(table);
    var ls := Lines(FoldCRLF(content));
    AcceptedParts(table, y, ls, i, j, fm);
    AcceptedIff(table, y, content);
    FinishedFrom(table, y, content, i, j, fm);
    var errs := TypeErrors(fm.kind, i + 2);
    AllSlotsFrom(table, ls[j + 1..], j + 2, errs);
    s := ParseBody(table, ls[j + 1..], j + 2, errs).slots;
  }

  /** The document read from an accepted text. */
  lemma {:induction false} AcceptedIs(table: seq<SlotDescriptor>, y: Yaml, content: string, i: nat, j: nat,
                                      fm: Frontmatter)
    requires GoodTable(table) && Acceptable(table, y, Lines(FoldCRLF(content)), i, j, fm)
    ensures var r := Parsed(table, y, content);
            && r.Ok? && MetadataFrom(fm, r.value)
            && SlotsFrom(table, Lines(FoldCRLF(content))[j + 1..], r.value.slots)
  {
    var s := AcceptedDoc(table, y, content, i, j, fm);
    MetadataIs(fm, s);
    hide *;
  }

  lemma {:induction false} FinishedFrom(table: seq<SlotDescriptor>, y: Yaml, content: string, i: nat, j: nat,
                                        fm: Frontmatter)
    requires FencesAt(Lines(FoldCRLF(content)), i, j) && Parsed(table, y, content).Ok?
    requires y.decode(Join(Lines(FoldCRLF(content))[i + 1..j])) == Some(fm)
    ensures var body := Lines(FoldCRLF(content))[j + 1..];
            Parsed(table, y, content).value ==
            DocOf(fm, ParseBody(table, body, j + 2, TypeErrors(fm.kind, i + 2)).slots)
  {
    hide Lines, FoldCRLF, ParseBody, TypeErrors, Join, FencesAt, CutFile, DocOf;
    CutIff(Lines(FoldCRLF(content)));
  }

  lemma {:induction false} SlotIs(table: seq<SlotDescriptor>, k: nat, body: seq<string>, line: nat,
                                  errs: seq<ParseError>)
    requires GoodTable(table) && k < |table| && BodyOk(table, body)
    ensures var s := ParseBody(table, body, line, errs).slots;
            && (forall h: nat | FirstHeading(table[k], body, 0, h) :: ReadFrom(table[k], s, body, h))
            && (NoHeading(table[k], body, 0) ==> IsEmpty(table[k], s))
  {
    hide GoodTable, BodyOk, ReadFrom, IsHead, TrimSpace, Holds, Alike, PreambleErrors;
    TenEntries(table);
    var n := HeadAt(body, 0);
    var st := ParseState(EMPTY_SLOTS, {}, errs + PreambleErrors(body, 0, n, line, false));
    var s := ParseBody(table, body, line, errs).slots;
    HeadAtFirst(body, 0);
    NothingHeld(table[k]);
    forall h: nat | FirstHeading(table[k], body, 0, h) ensures ReadFrom(table[k], s, body, h) {
      SlotFills(table, k, body, n, line, st, h);
      HoldsReads(table, k, s, body, h);
    }
    if NoHeading(table[k], body, 0) {
      SlotStays(table, k, body, n, line, st);
      if n < |body| { HoldsAlike(table[k], s, EMPTY_SLOTS, body, n); } else { EmptyAlike(table[k], s, EMPTY_SLOTS); }
    }
  }

  lemma {:induction false} EmptyAlike(d: SlotDescriptor, a: Slots, b: Slots)
    requires Alike(d, a, b)
    ensures IsEmpty(d, a) <==> IsEmpty(d, b)
  {}

  lemma {:induction false} NothingHeld(d: SlotDescriptor)
    ensures IsEmpty(d, EMPTY_SLOTS)
  {}
}
