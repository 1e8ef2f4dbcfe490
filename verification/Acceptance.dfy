/** Which texts the parser accepts and which errors it reports, said on the lines of the file. */
module Acceptance {
  import opened Text
  import opened Schema
  import opened Codec
  import opened CodecShape
  import opened CodecPrint
  import opened BulletLaws

  // ---------------------------------------------------------------- where a line of the body stands

  /** The heading that a "## " line names. */
  function HeadText(l: string): string
    requires IsHead(l)
  {
    TrimSpace(l[3..])
  }

  /** Line i stands under the heading at line h, with no other heading between. */
  predicate Under(body: seq<string>, h: nat, i: nat) {
    h < i < |body| && IsHead(body[h]) && forall j | h < j <= i :: !IsHead(body[j])
  }

  /** No earlier heading is the same. */
  predicate FirstOfName(body: seq<string>, h: nat)
    requires h < |body| && IsHead(body[h])
  {
    forall g | 0 <= g < h && IsHead(body[g]) :: HeadText(body[g]) != HeadText(body[h])
  }

  predicate InTable(table: seq<SlotDescriptor>, heading: string) {
    exists k | 0 <= k < |table| :: table[k].heading == heading
  }

  /** The heading of an entry of this kind. */
  predicate OfKind(table: seq<SlotDescriptor>, heading: string, kind: SlotKind) {
    exists k | 0 <= k < |table| :: table[k].heading == heading && table[k].kind == kind
  }

  predicate OfBullets(table: seq<SlotDescriptor>, heading: string) {
    OfKind(table, heading, TermKind) || OfKind(table, heading, ListKind)
  }

  /** A line under the heading at h that opens no bullet and continues none. */
  predicate StrayAt(body: seq<string>, h: nat, i: nat)
    requires h < i < |body|
  {
    && !Blank(body[i]) && !("- " <= body[i])
    && !("  " <= body[i] && exists j | h < j < i :: "- " <= body[j])
  }

  /** The bullet at line i goes on to line m: up to the next bullet, the next heading or the end. */
  predicate BulletEnds(body: seq<string>, i: nat, m: nat) {
    && i < m <= |body| && (forall j | i < j < m :: !("- " <= body[j]) && !IsHead(body[j]))
    && (m == |body| || "- " <= body[m] || IsHead(body[m]))
  }

  /** The bullet at line i and the lines after it read as this item. */
  ghost predicate BulletAt(body: seq<string>, i: nat, item: string) {
    && i < |body| && "- " <= body[i]
    && exists m: nat | BulletEnds(body, i, m) :: item == ItemAt(body, i, m)
  }

  /** "**", at least one character, "**:" and anything. */
  predicate TermForm(item: string) { "**" <= item && exists k | 3 <= k < |item| :: ClosesAt(item, k) }

  // ---------------------------------------------------------------- one item

  lemma {:induction false} MatchIff(item: string)
    ensures MatchTerm(item).Some? <==> TermForm(item)
  {
    hide ClosesAt;
    if "**" <= item {
      var s := item[2..];
      forall k: nat ensures ClosesAt(s, k) <==> ClosesAt(item, k + 2) && k + 2 < |item| { CloseShift(item, k); }
      CloseFound(s, 1);
      if k: nat :| 3 <= k < |item| && ClosesAt(item, k) { assert ClosesAt(s, k - 2); }
      if FindClose(s, 1).Some? { assert ClosesAt(item, FindClose(s, 1).value + 2); }
    }
  }

  lemma {:induction false} CloseShift(item: string, k: nat)
    requires |item| >= 2
    ensures ClosesAt(item[2..], k) <==> ClosesAt(item, k + 2)
    ensures ClosesAt(item, k + 2) ==> k + 2 < |item|
  {}

  lemma {:induction false} CloseFound(s: string, k: nat)
    ensures FindClose(s, k).Some? <==> exists i | k <= i < |s| :: ClosesAt(s, i)
    decreases |s| - k
  {
    if k + 3 <= |s| && !ClosesAt(s, k) { CloseFound(s, k + 1); }
    if FindClose(s, k).Some? { assert ClosesAt(s, FindClose(s, k).value); }
  }

  lemma {:induction false} ContinuationsShift(body: seq<string>, a: nat, b: nat, i: nat, n: nat)
    requires a <= b <= |body| && i <= n <= b - a
    ensures Continuations(body[a..b], i, n) == Continuations(body, a + i, a + n)
    decreases n - i
  {
    hide Continuation;
    if i < n {
      assert body[a..b][i] == body[a + i];
      ContinuationsShift(body, a, b, i + 1, n);
    }
  }

  lemma {:induction false} ItemShift(body: seq<string>, a: nat, b: nat, i: nat, n: nat)
    requires a <= b <= |body| && i < n <= b - a && IsDash(body[a + i])
    ensures ItemAt(body[a..b], i, n) == ItemAt(body, a + i, a + n)
  {
    hide Continuations, Join, TrimNL;
    assert body[a..b][i] == body[a + i];
    ContinuationsShift(body, a, b, i + 1, n);
  }

  /** Item n of a scanned section is its bullet's line and those up to the next bullet. */
  lemma {:induction false} ItemsAre(content: seq<string>, i: nat, base: nat, n: nat)
    requires i <= |content| && (i < |content| ==> IsDash(content[i]))
    requires n < |Items(content, i)| == |Starts(content, i, base)|
    ensures var at := Starts(content, i, base)[n] - base;
            && 0 <= at < |content| && IsDash(content[at])
            && Items(content, i)[n] == ItemAt(content, at, NextDash(content, at + 1))
    decreases |content| - i
  {
    hide ItemAt, IsDash;
    if n > 0 {
      var next := NextDash(content, i + 1);
      BulletsPair(content, next, base);
      ItemsAre(content, next, base, n - 1);
    }
  }

  // ---------------------------------------------------------------- one section

  /** What is wrong with the lines under a recognized heading that no earlier heading repeats. */
  ghost predicate SectionFault(d: SlotDescriptor, body: seq<string>, h: nat, line: nat, e: ParseError) {
    match e
    case StrayContent(n) =>
      d.kind != ProseKind && exists i: nat | Under(body, h, i) :: n == line + i && StrayAt(body, h, i)
    case MalformedTerm(n) =>
      d.kind == TermKind &&
      exists i: nat, item | Under(body, h, i) && BulletAt(body, i, item) :: n == line + i && !TermForm(item)
    case _ => false
  }

  lemma {:induction false} StrayErrorsAre(stray: seq<nat>, n: nat, e: ParseError)
    requires n <= |stray|
    ensures e in StrayErrors(stray, n) <==> e.StrayContent? && e.line in stray[n..]
    decreases |stray| - n
  {
    if n < |stray| {
      StrayErrorsAre(stray, n + 1, e);
      assert stray[n..] == [stray[n]] + stray[n + 1..];
    }
  }

  lemma {:induction false} TermErrorsAre(items: seq<string>, starts: seq<nat>, n: nat, e: ParseError)
    requires n <= |items| == |starts|
    ensures e in TermErrors(items, starts, n) <==>
            exists k | n <= k < |items| :: MatchTerm(items[k]) == None && e == MalformedTerm(starts[k])
    decreases |items| - n
  {
    hide MatchTerm;
    if n < |items| { TermErrorsAre(items, starts, n + 1, e); }
  }

  /** The lines under a heading are those up to the next one. */
  lemma {:induction false} UnderIs(body: seq<string>, h: nat, i: nat)
    requires h < |body| && IsHead(body[h])
    ensures Under(body, h, i) <==> h < i < HeadAt(body, h + 1)
  {
    hide IsHead;
    HeadAtFirst(body, h + 1);
  }

  lemma {:induction false} StraysAre(body: seq<string>, h: nat, line: nat, n: nat)
    requires h < |body| && IsHead(body[h])
    ensures var stop := HeadAt(body, h + 1);
            n in ScanBullets(body[h + 1..stop], line + h + 1).stray <==>
            exists i: nat | Under(body, h, i) :: n == line + i && StrayAt(body, h, i)
  {
    hide ScanBullets, IsHead, Blank, Under;
    var stop := HeadAt(body, h + 1);
    var content, base := body[h + 1..stop], line + h + 1;
    StrayAll(content, base);
    forall i: nat | h < i < stop ensures StrayAt(body, h, i) <==> IsStray(content, i - h - 1) {
      StrayShift(body, h, stop, i);
    }
    forall i: nat ensures Under(body, h, i) <==> h < i < stop { UnderIs(body, h, i); }
    if n in ScanBullets(content, base).stray {
      var i := n - line;
      assert IsStray(content, n - base);
      assert Under(body, h, i) && StrayAt(body, h, i);
    }
    if i: nat :| Under(body, h, i) && n == line + i && StrayAt(body, h, i) { assert IsStray(content, n - base); }
  }

  lemma {:induction false} StrayShift(body: seq<string>, h: nat, stop: nat, i: nat)
    requires h < i < stop <= |body|
    ensures StrayAt(body, h, i) <==> IsStray(body[h + 1..stop], i - h - 1)
  {
    hide Blank;
    var content := body[h + 1..stop];
    assert content[i - h - 1] == body[i];
    forall j | h < j < i ensures IsDash(content[j - h - 1]) <==> "- " <= body[j] {}
    if j :| h < j < i && "- " <= body[j] { assert IsDash(content[j - h - 1]); }
    if j :| 0 <= j < i - h - 1 && IsDash(content[j]) { assert "- " <= body[j + h + 1]; }
  }

  lemma {:induction false} OneEnd(body: seq<string>, i: nat, m: nat, n: nat)
    requires BulletEnds(body, i, m) && BulletEnds(body, i, n)
    ensures m == n
  {}

  lemma {:induction false} EndIs(body: seq<string>, h: nat, i: nat)
    requires h < |body| && IsHead(body[h]) && h < i < HeadAt(body, h + 1)
    ensures BulletEnds(body, i, h + 1 + NextDash(body[h + 1..HeadAt(body, h + 1)], i - h))
  {
    hide IsHead;
    var stop := HeadAt(body, h + 1);
    var content := body[h + 1..stop];
    var m := NextDash(content, i - h);
    HeadAtFirst(body, h + 1);
    NextDashFirst(content, i - h);
    forall j | i < j < h + 1 + m ensures !("- " <= body[j]) && !IsHead(body[j]) {
      assert content[j - h - 1] == body[j];
      assert !IsDash(content[j - h - 1]);
    }
    if m < |content| { assert content[m] == body[h + 1 + m]; }
  }

  lemma {:induction false} OneBullet(body: seq<string>, i: nat, a: string, b: string)
    requires BulletAt(body, i, a) && BulletAt(body, i, b)
    ensures a == b
  {
    hide ItemAt;
    var m: nat :| BulletEnds(body, i, m) && a == ItemAt(body, i, m);
    var n: nat :| BulletEnds(body, i, n) && b == ItemAt(body, i, n);
    OneEnd(body, i, m, n);
  }

  /** The k-th item of a scanned section is read from its bullet on. */
  lemma {:induction false} ItemInBody(body: seq<string>, h: nat, line: nat, k: nat)
    requires h < |body| && IsHead(body[h])
    requires var b := ScanBullets(body[h + 1..HeadAt(body, h + 1)], line + h + 1); k < |b.items| == |b.starts|
    ensures var b := ScanBullets(body[h + 1..HeadAt(body, h + 1)], line + h + 1);
            var i := b.starts[k] - line;
            h < i < HeadAt(body, h + 1) && BulletAt(body, i, b.items[k])
  {
    hide ItemAt, IsHead, BulletEnds, Items, Starts, Stray, NextDash;
    var stop := HeadAt(body, h + 1);
    var content, base := body[h + 1..stop], line + h + 1;
    ItemsAre(content, NextDash(content, 0), base, k);
    var at := ScanBullets(content, base).starts[k] - base;
    var i := at + h + 1;
    assert content[at] == body[i];
    EndIs(body, h, i);
    ItemShift(body, h + 1, stop, at, NextDash(content, at + 1));
  }

  /** Which bullets of a term section are reported. */
  lemma {:induction false} TermFaultsAre(body: seq<string>, h: nat, line: nat, n: nat)
    requires h < |body| && IsHead(body[h])
    ensures var b := ScanBullets(body[h + 1..HeadAt(body, h + 1)], line + h + 1);
            MalformedTerm(n) in TermErrors(b.items, b.starts, 0) <==>
            exists i: nat, item | Under(body, h, i) && BulletAt(body, i, item) :: n == line + i && !TermForm(item)
  {
    hide IsHead, BulletAt, Under, TermForm, MatchTerm, Increasing, ScanBullets, TermErrors;
    var stop := HeadAt(body, h + 1);
    var content, base := body[h + 1..stop], line + h + 1;
    var b := ScanBullets(content, base);
    ScanPairs(content, base);
    TermErrorsAre(b.items, b.starts, 0, MalformedTerm(n));
    StartsAll(content, base);
    forall i: nat ensures Under(body, h, i) <==> h < i < stop { UnderIs(body, h, i); }
    forall k | 0 <= k < |b.items|
      ensures h < b.starts[k] - line < stop && BulletAt(body, b.starts[k] - line, b.items[k])
      ensures MatchTerm(b.items[k]).Some? <==> TermForm(b.items[k])
    {
      ItemInBody(body, h, line, k);
      MatchIff(b.items[k]);
    }
    if k :| 0 <= k < |b.items| && MatchTerm(b.items[k]) == None && b.starts[k] == n {
      assert Under(body, h, n - line) && BulletAt(body, n - line, b.items[k]);
    }
    if i: nat, item :| Under(body, h, i) && BulletAt(body, i, item) && n == line + i && !TermForm(item) {
      assert content[i - h - 1] == body[i] && n - base == i - h - 1;
      BulletIsDash(body, i, item);
      assert n in b.starts;
      var k :| 0 <= k < |b.starts| && b.starts[k] == n;
      OneBullet(body, i, item, b.items[k]);
    }
  }

  lemma {:induction false} BulletIsDash(body: seq<string>, i: nat, item: string)
    requires BulletAt(body, i, item)
    ensures i < |body| && IsDash(body[i])
  {}

  lemma {:induction false} ScanPairs(content: seq<string>, base: nat)
    ensures var b := ScanBullets(content, base); |b.items| == |b.starts|
  {
    BulletsPair(content, NextDash(content, 0), base);
  }

  /** The errors of one recognized section. */
  lemma {:induction false} FillErrorsAre(d: SlotDescriptor, st: ParseState, body: seq<string>, h: nat, line: nat,
                                         e: ParseError)
    requires h < |body| && IsHead(body[h])
    ensures e in FillSlot(st, d, body[h + 1..HeadAt(body, h + 1)], line + h).errs <==>
            e in st.errs || SectionFault(d, body, h, line, e)
  {
    hide ScanBullets, IsHead, Under, StrayAt, BulletAt, TermForm, TermErrors, StrayErrors;
    var content, base := body[h + 1..HeadAt(body, h + 1)], line + h + 1;
    var b := ScanBullets(content, base);
    StrayErrorsAre(b.stray, 0, e);
    ScanPairs(content, base);
    TermErrorsAre(b.items, b.starts, 0, e);
    if e.StrayContent? { StraysAre(body, h, line, e.line); }
    if e.MalformedTerm? { TermFaultsAre(body, h, line, e.line); }
  }

  // ---------------------------------------------------------------- the sections

  /** A heading from line i on, before line h, is the same as the one there. */
  predicate Repeated(body: seq<string>, i: nat, h: nat)
    requires h < |body| && IsHead(body[h])
  {
    exists g | i <= g < h && IsHead(body[g]) :: HeadText(body[g]) == HeadText(body[h])
  }

  /** What is wrong at the heading at line h, given the keys already seen and the first heading that counts. */
  ghost predicate HeadFault(table: seq<SlotDescriptor>, body: seq<string>, line: nat, seen: set<SlotKey>,
                            i: nat, h: nat, e: ParseError)
    requires h < |body| && IsHead(body[h])
  {
    match FindHeading(table, HeadText(body[h]), 0)
    case None => e == UnknownSection(line + h)
    case Some(d) =>
      if d.key in seen || Repeated(body, i, h) then e == DuplicateSection(line + h)
      else SectionFault(d, body, h, line, e)
  }

  lemma {:induction false} FoundIs(table: seq<SlotDescriptor>, heading: string, k: nat)
    requires k <= |table|
    ensures var r := FindHeading(table, heading, k);
            && (r == None <==> forall j | k <= j < |table| :: table[j].heading != heading)
            && (r.Some? ==> r.value in table[k..] && r.value.heading == heading)
    decreases |table| - k
  {
    if k < |table| && table[k].heading != heading { FoundIs(table, heading, k + 1); }
  }

  /** In a well-formed table two headings find one key only when they are the same. */
  lemma {:induction false} KeyTellsHeading(table: seq<SlotDescriptor>, a: string, b: string)
    requires WellFormedTable(table) && FindHeading(table, a, 0).Some? && FindHeading(table, b, 0).Some?
    ensures FindHeading(table, a, 0).value.key == FindHeading(table, b, 0).value.key <==> a == b
  {
    FoundIs(table, a, 0);
    FoundIs(table, b, 0);
    assert table[0..] == table;
    var x, y := FindHeading(table, a, 0).value, FindHeading(table, b, 0).value;
    var i :| 0 <= i < |table| && table[i] == x;
    var j :| 0 <= j < |table| && table[j] == y;
  }

  /** The errors of all sections from the heading at line i on. */
  lemma {:induction false} SectionErrorsAre(table: seq<SlotDescriptor>, body: seq<string>, i: nat, line: nat,
                                            st: ParseState, e: ParseError)
    requires WellFormedTable(table) && i <= |body| && (i < |body| ==> IsHead(body[i]))
    ensures e in ParseSections(table, st, Sections(body, i, line), 0).errs <==>
            || e in st.errs
            || exists h | i <= h < |body| && IsHead(body[h]) :: HeadFault(table, body, line, st.seen, i, h, e)
    decreases |body| - i
  {
    hide WellFormedTable, IsHead, HeadFault, FillSlot, FindHeading;
    if i < |body| {
      var n := HeadAt(body, i + 1);
      var sec, rest := SectionAt(body, i, n, line), Sections(body, n, line);
      var next := ParseSection(table, st, sec);
      ParseCons(table, st, sec, rest);
      SectionErrorsAre(table, body, n, line, next, e);
      HeadAtFirst(body, i + 1);
      FirstSection(table, body, i, line, st, e);
      forall h | n <= h < |body| && IsHead(body[h])
        ensures HeadFault(table, body, line, next.seen, n, h, e) <==> HeadFault(table, body, line, st.seen, i, h, e)
      {
        LaterSection(table, body, i, line, st, h, e);
      }
    }
  }

  lemma {:induction false} FirstSection(table: seq<SlotDescriptor>, body: seq<string>, i: nat, line: nat,
                                        st: ParseState, e: ParseError)
    requires i < |body| && IsHead(body[i])
    ensures e in ParseSection(table, st, SectionAt(body, i, HeadAt(body, i + 1), line)).errs <==>
            e in st.errs || HeadFault(table, body, line, st.seen, i, i, e)
  {
    hide IsHead, FillSlot, FindHeading, SectionFault;
    var d := FindHeading(table, HeadText(body[i]), 0);
    if d.Some? { FillErrorsAre(d.value, st.(seen := st.seen + {d.value.key}), body, i, line, e); }
  }

  lemma {:induction false} LaterSection(table: seq<SlotDescriptor>, body: seq<string>, i: nat, line: nat,
                                        st: ParseState, h: nat, e: ParseError)
    requires WellFormedTable(table) && i < |body| && IsHead(body[i])
    requires HeadAt(body, i + 1) <= h < |body| && IsHead(body[h])
    ensures var n := HeadAt(body, i + 1);
            var next := ParseSection(table, st, SectionAt(body, i, n, line));
            HeadFault(table, body, line, next.seen, n, h, e) <==> HeadFault(table, body, line, st.seen, i, h, e)
  {
    hide IsHead, FindHeading, SectionFault, WellFormedTable;
    var n := HeadAt(body, i + 1);
    HeadAtFirst(body, i + 1);
    var a, b := FindHeading(table, HeadText(body[i]), 0), FindHeading(table, HeadText(body[h]), 0);
    if a.Some? && b.Some? { KeyTellsHeading(table, HeadText(body[i]), HeadText(body[h])); }
    SeenNext(table, st, SectionAt(body, i, n, line));
    SameBetween(body, i, n, h);
    hide HeadAt, ParseSection, Repeated;
  }

  lemma {:induction false} SameBetween(body: seq<string>, i: nat, n: nat, h: nat)
    requires i < n <= h < |body| && IsHead(body[i]) && IsHead(body[h])
    requires forall g | i < g < n :: !IsHead(body[g])
    ensures Repeated(body, i, h) <==> Repeated(body, n, h) || HeadText(body[i]) == HeadText(body[h])
  {
    hide IsHead, TrimSpace;
  }

  lemma {:induction false} SeenNext(table: seq<SlotDescriptor>, st: ParseState, sec: Section)
    ensures ParseSection(table, st, sec).seen ==
            match FindHeading(table, sec.heading, 0)
            case None => st.seen
            case Some(d) => st.seen + {d.key}
  {
    hide FindHeading, ScanBullets;
  }

  // ---------------------------------------------------------------- before the first heading

  predicate TitleLike(l: string) { "# " <= TrimSpace(l) }

  /** A line that is neither blank nor the first title. */
  predicate Unplaced(body: seq<string>, i: nat)
    requires i < |body|
  {
    !Blank(body[i]) && !(TitleLike(body[i]) && forall j | 0 <= j < i :: !TitleLike(body[j]))
  }

  predicate FirstUnplaced(body: seq<string>, i: nat)
    requires i < |body|
  {
    Unplaced(body, i) && forall j | 0 <= j < i :: !Unplaced(body, j)
  }

  lemma {:induction false} PreambleErrorsAre(body: seq<string>, i: nat, stop: nat, line: nat, titled: bool,
                                             e: ParseError)
    requires i <= stop <= |body| && (titled <==> exists j | 0 <= j < i :: TitleLike(body[j]))
    requires forall j | 0 <= j < i :: !Unplaced(body, j)
    ensures e in PreambleErrors(body, i, stop, line, titled) <==>
            exists k | i <= k < stop :: FirstUnplaced(body, k) && e == ContentBeforeSection(line + k)
    decreases stop - i
  {
    if i < stop {
      TrimEmpty(body[i], Spaces);
      var t := TrimSpace(body[i]);
      assert Unplaced(body, i) <==> t != "" && (titled || !("# " <= t));
      hide Unplaced, Blank, TrimSpace;
      if t == "" {
        assert !TitleLike(body[i]);
        PreambleErrorsAre(body, i + 1, stop, line, titled, e);
      } else if !titled && "# " <= t {
        PreambleErrorsAre(body, i + 1, stop, line, true, e);
      } else {
        assert FirstUnplaced(body, i);
      }
    }
  }

  // ---------------------------------------------------------------- the whole body

  /** What is wrong at the heading at line h. */
  ghost predicate FaultAt(table: seq<SlotDescriptor>, body: seq<string>, line: nat, h: nat, e: ParseError)
    requires h < |body| && IsHead(body[h])
  {
    var heading := HeadText(body[h]);
    if !InTable(table, heading) then e == UnknownSection(line + h)
    else if !FirstOfName(body, h) then e == DuplicateSection(line + h)
    else
      match e
      case StrayContent(n) =>
        OfBullets(table, heading) && exists i: nat | Under(body, h, i) :: n == line + i && StrayAt(body, h, i)
      case MalformedTerm(n) =>
        OfKind(table, heading, TermKind) &&
        exists i: nat, item | Under(body, h, i) && BulletAt(body, i, item) :: n == line + i && !TermForm(item)
      case _ => false
  }

  /** What is wrong with the body of a file whose first line after the frontmatter is the given one. */
  ghost predicate BodyFault(table: seq<SlotDescriptor>, body: seq<string>, line: nat, e: ParseError) {
    || (exists k | 0 <= k < HeadAt(body, 0) :: FirstUnplaced(body, k) && e == ContentBeforeSection(line + k))
    || (exists h | 0 <= h < |body| && IsHead(body[h]) :: FaultAt(table, body, line, h, e))
  }

  lemma {:induction false} KindFound(table: seq<SlotDescriptor>, heading: string)
    requires WellFormedTable(table)
    ensures var r := FindHeading(table, heading, 0);
            && (r.Some? <==> InTable(table, heading))
            && (r.Some? ==> forall kind :: OfKind(table, heading, kind) <==> r.value.kind == kind)
  {
    hide HeadingOk;
    FoundIs(table, heading, 0);
    assert table[0..] == table;
    var r := FindHeading(table, heading, 0);
    if r.Some? {
      var i :| 0 <= i < |table| && table[i] == r.value;
      forall kind ensures OfKind(table, heading, kind) <==> r.value.kind == kind {
        if k :| 0 <= k < |table| && table[k].heading == heading && table[k].kind == kind { assert k == i; }
      }
    }
  }

  lemma {:induction false} FaultAtIs(table: seq<SlotDescriptor>, body: seq<string>, line: nat, i: nat, h: nat,
                                     e: ParseError)
    requires WellFormedTable(table) && i <= h < |body| && IsHead(body[h])
    requires forall k | 0 <= k < i :: !IsHead(body[k])
    ensures HeadFault(table, body, line, {}, i, h, e) <==> FaultAt(table, body, line, h, e)
  {
    hide WellFormedTable, IsHead, FindHeading, InTable, OfKind, Under, StrayAt, BulletAt, TermForm, TrimSpace;
    KindFound(table, HeadText(body[h]));
    assert Repeated(body, i, h) <==> !FirstOfName(body, h);
    hide Repeated, FirstOfName;
  }

  /** Parsing a body reports exactly its faults. */
  lemma {:induction false} ErrorsAre(table: seq<SlotDescriptor>, body: seq<string>, line: nat, errs: seq<ParseError>,
                                     e: ParseError)
    requires WellFormedTable(table)
    ensures e in ParseBody(table, body, line, errs).errs <==> e in errs || BodyFault(table, body, line, e)
  {
    hide WellFormedTable, IsHead, HeadFault, FaultAt, FirstUnplaced;
    var n := HeadAt(body, 0);
    var st := ParseState(EMPTY_SLOTS, {}, errs + PreambleErrors(body, 0, n, line, false));
    PreambleErrorsAre(body, 0, n, line, false, e);
    SectionErrorsAre(table, body, n, line, st, e);
    HeadAtFirst(body, 0);
    forall h | n <= h < |body| && IsHead(body[h])
      ensures HeadFault(table, body, line, {}, n, h, e) <==> FaultAt(table, body, line, h, e)
    {
      FaultAtIs(table, body, line, n, h, e);
    }
  }

  // ---------------------------------------------------------------- the body that is accepted

  /** Only blank lines and one title precede the first heading; every heading is one of the table and comes
      once; under a heading of bullets no line is stray, and under one of terms every bullet has the form of
      a term. */
  ghost predicate BodyOk(table: seq<SlotDescriptor>, body: seq<string>) {
    && (forall i | 0 <= i < |body| && (forall j | 0 <= j <= i :: !IsHead(body[j])) :: !Unplaced(body, i))
    && (forall h | 0 <= h < |body| && IsHead(body[h]) :: InTable(table, HeadText(body[h])) && FirstOfName(body, h))
    && (forall h: nat, i: nat | Under(body, h, i) && OfBullets(table, HeadText(body[h])) :: !StrayAt(body, h, i))
    && (forall h: nat, i: nat, item | Under(body, h, i) && OfKind(table, HeadText(body[h]), TermKind) &&
                                      BulletAt(body, i, item) :: TermForm(item))
  }

  lemma {:induction false} FirstOne(body: seq<string>, i: nat) returns (k: nat)
    requires i < |body| && Unplaced(body, i)
    ensures k <= i && FirstUnplaced(body, k)
  {
    hide Unplaced;
    if j :| 0 <= j < i && Unplaced(body, j) { k := FirstOne(body, j); } else { k := i; }
  }

  lemma {:induction false} BeforeHeads(body: seq<string>, i: nat)
    requires i < |body|
    ensures i < HeadAt(body, 0) <==> forall j | 0 <= j <= i :: !IsHead(body[j])
  {
    hide IsHead;
    HeadAtFirst(body, 0);
  }

  lemma {:induction false} UnplacedFaults(table: seq<SlotDescriptor>, body: seq<string>, line: nat, i: nat)
    requires i < HeadAt(body, 0) && Unplaced(body, i)
    ensures exists e :: BodyFault(table, body, line, e)
  {
    hide IsHead, Unplaced;
    var k := FirstOne(body, i);
    assert BodyFault(table, body, line, ContentBeforeSection(line + k));
  }

  lemma {:induction false} FaultlessIsOk(table: seq<SlotDescriptor>, body: seq<string>, line: nat)
    requires forall e :: !BodyFault(table, body, line, e)
    ensures BodyOk(table, body)
  {
    hide IsHead, InTable, FirstOfName, OfBullets, StrayAt, OfKind, BulletAt, TermForm, Unplaced, TrimSpace;
    forall i | 0 <= i < |body| && (forall j | 0 <= j <= i :: !IsHead(body[j])) ensures !Unplaced(body, i) {
      BeforeHeads(body, i);
      if Unplaced(body, i) { UnplacedFaults(table, body, line, i); }
    }
    forall h | 0 <= h < |body| && IsHead(body[h]) ensures InTable(table, HeadText(body[h])) && FirstOfName(body, h) {
      assert !BodyFault(table, body, line, UnknownSection(line + h));
      assert !FaultAt(table, body, line, h, UnknownSection(line + h));
      assert !BodyFault(table, body, line, DuplicateSection(line + h));
      assert !FaultAt(table, body, line, h, DuplicateSection(line + h));
    }
    forall h: nat, i: nat | Under(body, h, i) && OfBullets(table, HeadText(body[h])) ensures !StrayAt(body, h, i) {
      assert !BodyFault(table, body, line, StrayContent(line + i));
      assert !FaultAt(table, body, line, h, StrayContent(line + i));
    }
    forall h: nat, i: nat, item | Under(body, h, i) && OfKind(table, HeadText(body[h]), TermKind) &&
                                  BulletAt(body, i, item) ensures TermForm(item)
    {
      assert !BodyFault(table, body, line, MalformedTerm(line + i));
      assert !FaultAt(table, body, line, h, MalformedTerm(line + i));
    }
  }

  lemma {:induction false} OkIsFaultless(table: seq<SlotDescriptor>, body: seq<string>, line: nat, e: ParseError)
    requires BodyOk(table, body)
    ensures !BodyFault(table, body, line, e)
  {
    hide IsHead, InTable, FirstOfName, OfBullets, StrayAt, OfKind, BulletAt, TermForm, Unplaced, TrimSpace;
    forall k | 0 <= k < HeadAt(body, 0) ensures !Unplaced(body, k) { BeforeHeads(body, k); }
  }

  // ---------------------------------------------------------------- the whole file

  /** The first line that is not blank is a fence, at i, and the next fence is at j. */
  predicate FencesAt(ls: seq<string>, i: nat, j: nat) {
    && i < j < |ls| && (forall k | 0 <= k < i :: Blank(ls[k]))
    && TrimSpace(ls[i]) == "---" && TrimSpace(ls[j]) == "---"
    && forall k | i < k < j :: TrimSpace(ls[k]) != "---"
  }

  lemma {:induction false} FirstNonBlankAt(ls: seq<string>, i: nat)
    requires i <= |ls|
    ensures var n := FirstNonBlank(ls, i);
            (forall k | i <= k < n :: Blank(ls[k])) && (n < |ls| ==> !Blank(ls[n]))
    decreases |ls| - i
  {
    if i < |ls| {
      TrimEmpty(ls[i], Spaces);
      hide TrimSpace;
      if TrimSpace(ls[i]) == "" { FirstNonBlankAt(ls, i + 1); }
    }
  }

  lemma {:induction false} FirstFenceAt(ls: seq<string>, i: nat)
    requires i <= |ls|
    ensures var n := FirstFence(ls, i);
            (forall k | i <= k < n :: TrimSpace(ls[k]) != "---") && (n < |ls| ==> TrimSpace(ls[n]) == "---")
    decreases |ls| - i
  {
    hide TrimSpace;
    if i < |ls| && TrimSpace(ls[i]) != FENCE { FirstFenceAt(ls, i + 1); }
  }

  lemma {:induction false} FenceShows(l: string)
    requires TrimSpace(l) == "---"
    ensures !Blank(l)
  {
    TrimEmpty(l, Spaces);
  }

  /** A file is cut at its first two fences, if it begins with one. */
  lemma {:induction false} CutIff(ls: seq<string>)
    ensures CutFile(ls).Ok? <==> exists i: nat, j: nat :: FencesAt(ls, i, j)
    ensures forall i: nat, j: nat | FencesAt(ls, i, j) ::
              CutFile(ls) == Ok(File(Join(ls[i + 1..j]), ls[j + 1..], i + 2, j + 2))
  {
    hide TrimSpace, Blank, Join;
    var n := FirstNonBlank(ls, 0);
    FirstNonBlankAt(ls, 0);
    if n < |ls| { FirstFenceAt(ls, n + 1); }
    if CutFile(ls).Ok? { assert FencesAt(ls, n, FirstFence(ls, n + 1)); }
    forall i: nat, j: nat | FencesAt(ls, i, j)
      ensures CutFile(ls) == Ok(File(Join(ls[i + 1..j]), ls[j + 1..], i + 2, j + 2))
    {
      FenceShows(ls[i]);
      assert i == n;
      assert FirstFence(ls, n + 1) == j;
    }
  }

  predicate Number(s: string) { s != "" && forall i | 0 <= i < |s| :: '0' <= s[i] <= '9' }

  /** "frame", or "frame" with two numbers in brackets, a dot between them. */
  ghost predicate TypeFine(kind: string) {
    kind == "frame" || exists a, b | Number(a) && Number(b) :: kind == "frame [" + a + "." + b + "]"
  }

  lemma {:induction false} DigitsAre(s: string)
    ensures var n := Digits(s);
            (forall i | 0 <= i < n :: '0' <= s[i] <= '9') && (n < |s| ==> !('0' <= s[n] <= '9'))
  {
    if s != "" && IsDigit(s[0]) { DigitsAre(s[1..]); }
  }

  lemma {:induction false} DigitsOf(a: string, rest: string)
    requires (forall i | 0 <= i < |a| :: '0' <= a[i] <= '9') && (rest == "" || !('0' <= rest[0] <= '9'))
    ensures Digits(a + rest) == |a|
  {
    if a == "" {
      assert a + rest == rest;
    } else {
      assert (a + rest)[1..] == a[1..] + rest;
      DigitsOf(a[1..], rest);
    }
  }

  lemma {:induction false} NumberedType(a: string, b: string)
    requires Number(a) && Number(b)
    ensures TypeOk("frame [" + a + "." + b + "]")
  {
    var s := "frame [" + a + "." + b + "]";
    assert s[7..|s| - 1] == a + "." + b && s[|s| - 1] == ']' && "frame [" <= s;
    DigitsOf(a, "." + b);
    assert a + "." + b == a + ("." + b);
    assert (a + "." + b)[|a| + 1..] == b;
    DigitsOf(b, "");
    assert b + "" == b;
  }

  lemma {:induction false} BracketParts(s: string)
    requires |s| >= 8 && "frame [" <= s && s[|s| - 1] == ']'
    ensures s == "frame [" + s[7..|s| - 1] + "]"
  {
    assert s == s[..7] + s[7..|s| - 1] + [s[|s| - 1]];
  }

  lemma {:induction false} DotParts(v: string, n: nat)
    requires n < |v| && v[n] == '.'
    ensures v == v[..n] + "." + v[n + 1..]
  {}

  lemma {:induction false} NumberDigits(s: string)
    requires s != "" && Digits(s) == |s|
    ensures Number(s)
  {
    DigitsAre(s);
  }

  lemma {:induction false} LeadingNumber(v: string)
    requires Digits(v) > 0
    ensures Number(v[..Digits(v)])
  {
    DigitsAre(v);
  }

  lemma {:induction false} TypeParts(s: string)
    requires TypeOk(s) && s != "frame"
    ensures TypeFine(s)
  {
    hide Digits, Number;
    var v := s[7..|s| - 1];
    var n := Digits(v);
    var a, b := v[..n], v[n + 1..];
    BracketParts(s);
    DotParts(v, n);
    LeadingNumber(v);
    NumberDigits(b);
    hide *;
    assert "frame [" + (a + "." + b) + "]" == "frame [" + a + "." + b + "]";
    NumbersFine(s, a, b);
  }

  lemma {:induction false} NumbersFine(s: string, a: string, b: string)
    requires Number(a) && Number(b) && s == "frame [" + a + "." + b + "]"
    ensures TypeFine(s)
  {}

  lemma {:induction false} TypeIff(kind: string, line: nat)
    ensures TypeErrors(kind, line) == [] <==> TypeFine(kind)
  {
    if TypeFine(kind) {
      if a, b :| Number(a) && Number(b) && kind == "frame [" + a + "." + b + "]" { NumberedType(a, b); }
      assert kind[0] == 'f';
      assert !Blank(kind);
    } else if TypeOk(kind) {
      TypeParts(kind);
    }
    TrimEmpty(kind, Spaces);
  }

  /** A text is accepted exactly when it is cut by its two fences, the first of them its first line that is
      not blank; what stands between them decodes to a frontmatter of a known type; and the lines after
      them are an acceptable body. */
  ghost predicate Acceptable(table: seq<SlotDescriptor>, y: Yaml, ls: seq<string>, i: nat, j: nat, fm: Frontmatter) {
    && FencesAt(ls, i, j) && y.decode(Join(ls[i + 1..j])) == Some(fm) && TypeFine(fm.kind)
    && BodyOk(table, ls[j + 1..])
  }

  lemma {:induction false} AcceptedIff(table: seq<SlotDescriptor>, y: Yaml, content: string)
    requires WellFormedTable(table)
    ensures Parsed(table, y, content).Ok? <==>
            exists i: nat, j: nat, fm :: Acceptable(table, y, Lines(FoldCRLF(content)), i, j, fm)
  {
    hide WellFormedTable, Lines, FoldCRLF, Parsed, BodyOk, TypeFine, Join, FencesAt;
    var ls := Lines(FoldCRLF(content));
    Fenced(table, y, content);
    if Parsed(table, y, content).Ok? {
      var i: nat, j: nat :| FencesAt(ls, i, j);
      FencedAccepted(table, y, content, i, j);
      FenceOrder(ls, i, j);
      assert Acceptable(table, y, ls, i, j, y.decode(Join(ls[i + 1..j])).value);
    }
    if i: nat, j: nat, fm :| Acceptable(table, y, ls, i, j, fm) {
      FencedAccepted(table, y, content, i, j);
    }
  }

  lemma {:induction false} FenceOrder(ls: seq<string>, i: nat, j: nat)
    requires FencesAt(ls, i, j)
    ensures i < j < |ls|
  {}

  lemma {:induction false} Fenced(table: seq<SlotDescriptor>, y: Yaml, content: string)
    ensures Parsed(table, y, content).Ok? ==> exists i: nat, j: nat :: FencesAt(Lines(FoldCRLF(content)), i, j)
  {
    hide Lines, FoldCRLF, FencesAt, ParsedParts, CutFile;
    CutIff(Lines(FoldCRLF(content)));
  }

  lemma {:induction false} FencedAccepted(table: seq<SlotDescriptor>, y: Yaml, content: string, i: nat, j: nat)
    requires WellFormedTable(table) && FencesAt(Lines(FoldCRLF(content)), i, j)
    ensures var ls := Lines(FoldCRLF(content));
            var fm := y.decode(Join(ls[i + 1..j]));
            Parsed(table, y, content).Ok? <==> fm.Some? && TypeFine(fm.value.kind) && BodyOk(table, ls[j + 1..])
  {
    hide WellFormedTable, Lines, FoldCRLF, BodyOk, TypeFine, CutFile, ParseBody, TypeErrors, Join, TrimSpace, Blank;
    var ls := Lines(FoldCRLF(content));
    CutIff(ls);
    var fm := y.decode(Join(ls[i + 1..j]));
    if fm.Some? { PartsAccepted(table, fm.value, ls[j + 1..], i + 2, j + 2); }
  }

  lemma {:induction false} SomeError(errs: seq<ParseError>)
    ensures errs != [] ==> exists e :: e in errs
  {
    if errs != [] { assert errs[0] in errs; }
  }

  lemma {:induction false} PartsAccepted(table: seq<SlotDescriptor>, fm: Frontmatter, body: seq<string>,
                                         headLine: nat, line: nat)
    requires WellFormedTable(table)
    ensures ParseBody(table, body, line, TypeErrors(fm.kind, headLine)).errs == [] <==>
            TypeFine(fm.kind) && BodyOk(table, body)
  {
    hide WellFormedTable, BodyOk, BodyFault, TypeFine, ParseBody, TypeErrors;
    var errs := TypeErrors(fm.kind, headLine);
    var all := ParseBody(table, body, line, errs).errs;
    TypeIff(fm.kind, headLine);
    forall e ensures e in all <==> e in errs || BodyFault(table, body, line, e) {
      ErrorsAre(table, body, line, errs, e);
    }
    if all == [] {
      SomeError(errs);
      FaultlessIsOk(table, body, line);
    } else if errs == [] && BodyOk(table, body) {
      forall e ensures !BodyFault(table, body, line, e) { OkIsFaultless(table, body, line, e); }
      SomeError(all);
    }
  }

  /** What is wrong with a file cut at lines i and j whose head decodes to fm; lines are counted from 1. */
  ghost predicate FileFault(table: seq<SlotDescriptor>, ls: seq<string>, i: nat, j: nat, fm: Frontmatter, e: ParseError)
    requires j < |ls|
  {
    || (Blank(fm.kind) && e == MissingType(i + 2))
    || (!Blank(fm.kind) && !TypeFine(fm.kind) && e == BadType(i + 2))
    || BodyFault(table, ls[j + 1..], j + 2, e)
  }

  /** A refused file that is cut and decoded reports exactly its faults. */
  lemma {:induction false} ReportedAre(table: seq<SlotDescriptor>, y: Yaml, content: string, i: nat, j: nat,
                                       fm: Frontmatter)
    requires WellFormedTable(table) && FencesAt(Lines(FoldCRLF(content)), i, j)
    requires y.decode(Join(Lines(FoldCRLF(content))[i + 1..j])) == Some(fm)
    ensures var r := Parsed(table, y, content);
            r.Err? ==> forall e :: e in r.error <==> FileFault(table, Lines(FoldCRLF(content)), i, j, fm, e)
  {
    hide WellFormedTable, Lines, FoldCRLF, BodyFault, CutFile, ParseBody, TypeErrors, Join, TypeFine, Blank, TrimSpace;
    var ls := Lines(FoldCRLF(content));
    CutIff(ls);
    var errs := TypeErrors(fm.kind, i + 2);
    var st := ParseBody(table, ls[j + 1..], j + 2, errs);
    assert Parsed(table, y, content) == Finished(fm, st);
    forall e ensures e in st.errs <==> FileFault(table, ls, i, j, fm, e) {
      TypeFault(fm.kind, i + 2, e);
      ErrorsAre(table, ls[j + 1..], j + 2, errs, e);
    }
  }

  lemma {:induction false} TypeFault(kind: string, line: nat, e: ParseError)
    ensures e in TypeErrors(kind, line) <==>
            (Blank(kind) && e == MissingType(line)) || (!Blank(kind) && !TypeFine(kind) && e == BadType(line))
  {
    hide TypeOk, TypeFine;
    TypeIff(kind, line);
    TrimEmpty(kind, Spaces);
  }

  /** Line n is the first that is not blank, or the end. */
  predicate FirstShown(ls: seq<string>, n: nat) {
    n <= |ls| && (forall k | 0 <= k < n :: Blank(ls[k])) && (n < |ls| ==> !Blank(ls[n]))
  }

  /** A file that is not cut reports that alone: no fence where the first shown line is, or no second one. */
  lemma {:induction false} NotCut(table: seq<SlotDescriptor>, y: Yaml, content: string, n: nat)
    requires FirstShown(Lines(FoldCRLF(content)), n)
    requires forall i: nat, j: nat :: !FencesAt(Lines(FoldCRLF(content)), i, j)
    ensures var ls := Lines(FoldCRLF(content));
            Parsed(table, y, content) ==
            Err([if n < |ls| && TrimSpace(ls[n]) == "---" then UnclosedFrontmatter(n + 1) else NoFrontmatter(n + 1)])
  {
    hide Lines, FoldCRLF, ParsedParts, TrimSpace, Blank, FirstFence, FencesAt;
    var ls := Lines(FoldCRLF(content));
    CutIff(ls);
    FirstNonBlankAt(ls, 0);
    OneShown(ls, n, FirstNonBlank(ls, 0));
  }

  lemma {:induction false} OneShown(ls: seq<string>, n: nat, m: nat)
    requires FirstShown(ls, n) && FirstShown(ls, m)
    ensures n == m
  {
    hide Blank;
  }

  /** A head that does not decode reports that alone. */
  lemma {:induction false} NotDecoded(table: seq<SlotDescriptor>, y: Yaml, content: string, i: nat, j: nat)
    requires FencesAt(Lines(FoldCRLF(content)), i, j)
    requires y.decode(Join(Lines(FoldCRLF(content))[i + 1..j])) == None
    ensures Parsed(table, y, content) == Err([BadFrontmatter])
  {
    hide Lines, FoldCRLF, ParseBody, Join, TrimSpace, Blank, CutFile;
    CutIff(Lines(FoldCRLF(content)));
  }
}
