/** Template requirements: what a template misses is what an export does not show. */
module Templates {
  import opened Text
  import opened Schema
  import opened Codec
  import opened CodecShape
  import opened Validate

  datatype Requirement = Optional | Recommended | Required

  /** What an author would call content. */
  predicate HasContent(d: SlotDescriptor, s: Slots) {
    match d.kind
    case TermKind => exists i | 0 <= i < |s.terminology| :: FilledTerm(s.terminology[i])
    case ListKind => exists i | 0 <= i < |s.List(d.key)| :: !Blank(s.List(d.key)[i])
    case ProseKind => !Blank(s.Prose(d.key))
  }

  method SlotHasContent(d: SlotDescriptor, s: Slots) returns (found: bool)
    ensures found <==> HasContent(d, s)
  {
    match d.kind {
      case TermKind =>
        for i := 0 to |s.terminology|
          invariant forall k | 0 <= k < i :: !FilledTerm(s.terminology[k])
        {
          var t := s.terminology[i];
          TrimEmpty(t.term, Spaces);
          TrimEmpty(t.definition, Spaces);
          if TrimSpace(t.term) != "" && TrimSpace(t.definition) != "" { return true; }
        }
        return false;
      case ListKind =>
        var items := s.List(d.key);
        for i := 0 to |items|
          invariant forall k | 0 <= k < i :: Blank(items[k])
        {
          TrimEmpty(items[i], Spaces);
          if TrimSpace(items[i]) != "" { return true; }
        }
        return false;
      case ProseKind =>
        TrimEmpty(s.Prose(d.key), Spaces);
        return TrimSpace(s.Prose(d.key)) != "";
    }
  }

  type Rules = map<SlotKey, Requirement>

  predicate Requires(rules: Rules, key: SlotKey) { key in rules && rules[key] == Required }

  /** The entries from k on that the template requires and the slots leave empty. */
  function Missing(table: seq<SlotDescriptor>, k: nat, rules: Rules, s: Slots): seq<SlotKey>
    requires k <= |table|
    decreases |table| - k
  {
    if k == |table| then []
    else (if Requires(rules, table[k].key) && !HasContent(table[k], s) then [table[k].key] else []) +
         Missing(table, k + 1, rules, s)
  }

  /** Check: the missing slots in schema order. */
  method Check(table: seq<SlotDescriptor>, rules: Rules, s: Slots) returns (missing: seq<SlotKey>)
    ensures missing == Missing(table, 0, rules, s)
  {
    hide HasContent, Requires;
    missing := [];
    if |rules| == 0 {
      NoRules(table, 0, rules, s);
      return;
    }
    for k := 0 to |table|
      invariant missing + Missing(table, k, rules, s) == Missing(table, 0, rules, s)
    {
      var d := table[k];
      ghost var rest := Missing(table, k + 1, rules, s);
      ghost var here := if Requires(rules, d.key) && !HasContent(d, s) then [d.key] else [];
      assert Missing(table, k, rules, s) == here + rest;
      Assoc(missing, [d.key], rest);
      if Requires(rules, d.key) {
        var found := SlotHasContent(d, s);
        if !found { missing := missing + [d.key]; }
      }
    }
  }

  lemma {:induction false} NoRules(table: seq<SlotDescriptor>, k: nat, rules: Rules, s: Slots)
    requires k <= |table| && |rules| == 0
    ensures Missing(table, k, rules, s) == []
    decreases |table| - k
  {
    if k < |table| { NoRules(table, k + 1, rules, s); }
  }

  /** A slot has content when something that is not all blanks is left in it: a term with a definition, an
      item, or prose. */
  lemma {:induction false} ContentIff(d: SlotDescriptor, s: Slots)
    ensures HasContent(d, s) <==>
            match d.kind
            case TermKind => exists t | t in s.terminology :: TrimSpace(t.term) != "" && TrimSpace(t.definition) != ""
            case ListKind => exists x | x in s.List(d.key) :: TrimSpace(x) != ""
            case ProseKind => TrimSpace(s.Prose(d.key)) != ""
  {
    hide Trim;
    forall x ensures TrimSpace(x) != "" <==> !Blank(x) { TrimEmpty(x, Spaces); }
    hide Blank;
    match d.kind {
      case TermKind =>
        if t :| t in s.terminology && TrimSpace(t.term) != "" && TrimSpace(t.definition) != "" {
          var i :| 0 <= i < |s.terminology| && s.terminology[i] == t;
        }
      case ListKind =>
        if x :| x in s.List(d.key) && TrimSpace(x) != "" {
          var i :| 0 <= i < |s.List(d.key)| && s.List(d.key)[i] == x;
        }
      case ProseKind =>
    }
  }

  // ---------------------------------------------------------------- against the export

  /** A slot of error-free content gets a section exactly when it has content. */
  lemma {:induction false} SectionWhenFilled(d: SlotDescriptor, s: Slots)
    requires SlotsOk(s)
    ensures SlotLines(d, s) != [] <==> HasContent(d, s)
  {
    if d.kind == TermKind && s.terminology != [] { assert FilledTerm(s.terminology[0]); }
    if d.kind == ListKind && s.List(d.key) != [] { assert !Blank(s.List(d.key)[0]); }
  }

  /** The section headings among the lines, as the parser reads them. */
  function Headings(ls: seq<string>): seq<string> {
    if ls == [] then [] else HeadingOf(ls[0]) + Headings(ls[1..])
  }

  function HeadingOf(l: string): seq<string> { if IsHead(l) then [TrimSpace(l[3..])] else [] }

  lemma {:induction false} HeadingsCons(ls: seq<string>)
    requires ls != []
    ensures Headings(ls) == HeadingOf(ls[0]) + Headings(ls[1..])
  {}

  /** The headings of the entries from k on that have content. */
  function FilledHeadings(table: seq<SlotDescriptor>, k: nat, s: Slots): seq<string>
    requires k <= |table|
    decreases |table| - k
  {
    if k == |table| then []
    else (if HasContent(table[k], s) then [table[k].heading] else []) + FilledHeadings(table, k + 1, s)
  }

  /** The headings that the text of a printed prose slot itself reads as. */
  function ProseHeadings(d: SlotDescriptor, s: Slots): seq<string> {
    if d.kind == ProseKind && !Blank(s.Prose(d.key)) then Headings(Lines(TrimNL(s.Prose(d.key)))) else []
  }

  lemma {:induction false} HeadingsConcat(a: seq<string>, b: seq<string>)
    ensures Headings(a + b) == Headings(a) + Headings(b)
  {
    hide HeadingOf;
    if a == [] {
      assert a + b == b;
    } else {
      HeadingsConcat(a[1..], b);
      assert (a + b)[1..] == a[1..] + b;
      HeadingsCons(a);
      HeadingsCons(a + b);
      Assoc(HeadingOf(a[0]), Headings(a[1..]), Headings(b));
    }
  }

  lemma {:induction false} NoHeadings(ls: seq<string>)
    ensures Headings(ls) == [] <==> NoHead(ls)
  {
    hide IsHead;
    if ls != [] {
      NoHeadings(ls[1..]);
      assert forall i | 1 <= i < |ls| :: ls[i] == ls[1..][i - 1];
      if NoHead(ls[1..]) && !IsHead(ls[0]) { assert NoHead(ls); }
    }
  }

  lemma {:induction false} SectionHeadings(heading: string, body: seq<string>)
    requires HeadingOk(heading)
    ensures Headings(SectionLines(heading, body)) == [heading] + Headings(body)
  {
    hide HeadingOf, Lines;
    HeadingLines(heading);
    NoHeadings([""]);
    HeadingsConcat(["## " + heading, ""] + body, [""]);
    HeadingsConcat(["## " + heading, ""], body);
    HeadingsConcat(["## " + heading], [""]);
    assert ["## " + heading] + [""] == ["## " + heading, ""];
    assert ["## " + heading][1..] == [];
  }

  lemma {:induction false} HeadingLines(heading: string)
    requires HeadingOk(heading)
    ensures HeadingOf("## " + heading) == [heading]
  {
    assert ("## " + heading)[3..] == heading;
    TrimFixed(heading, Spaces);
  }

  /** Prose that is one heading line reads as that heading. */
  lemma {:induction false} OneHeading(heading: string)
    requires HeadingOk(heading)
    ensures Headings(Lines(TrimNL("## " + heading))) == [heading]
  {
    hide HeadingOf, Trim, Lines;
    var l := "## " + heading;
    assert l[0] == '#' && l[|l| - 1] == heading[|heading| - 1];
    TrimFixed(l, Newlines);
    LinesOfOneLine(l);
    HeadingLines(heading);
    assert [l][1..] == [];
  }

  lemma {:induction false} BulletNoHead(item: string)
    ensures NoHead(BulletLines(item))
  {
    var ls := Lines(TrimNL(item));
    forall k | 0 <= k < |BulletLines(item)| ensures !IsHead(BulletLines(item)[k]) {
      var l := BulletLines(item)[k];
      assert "## "[0] == '#';
      assert l == "" || l[0] == (if k == 0 then '-' else ' ');
    }
  }

  lemma {:induction false} ListNoHeading(items: seq<string>)
    ensures NoHead(ListLines(items))
  {
    hide IsHead, BulletLines;
    if items != [] {
      BulletNoHead(items[0]);
      ListNoHeading(items[1..]);
    }
  }

  /** The headings of one printed slot: its own, and whatever its prose reads as. */
  lemma {:induction false} SlotHeadings(d: SlotDescriptor, s: Slots)
    requires SlotsOk(s) && HeadingOk(d.heading)
    ensures Headings(SlotLines(d, s)) == (if HasContent(d, s) then [d.heading] else []) + ProseHeadings(d, s)
    ensures !HasContent(d, s) ==> ProseHeadings(d, s) == []
  {
    hide HasContent, SectionLines, ListLines, SlotsOk, HeadingOk, IsHead;
    SectionWhenFilled(d, s);
    match d.kind {
      case TermKind =>
        ListNoHeading(TermTexts(s.terminology));
        NoHeadings(ListLines(TermTexts(s.terminology)));
        SectionHeadings(d.heading, ListLines(TermTexts(s.terminology)));
      case ListKind =>
        ListNoHeading(s.List(d.key));
        NoHeadings(ListLines(s.List(d.key)));
        SectionHeadings(d.heading, ListLines(s.List(d.key)));
      case ProseKind =>
        SectionHeadings(d.heading, Lines(TrimNL(s.Prose(d.key))));
    }
    assert SlotLines(d, s) == [] ==> Headings(SlotLines(d, s)) == [];
  }

  /** No line that a prose slot from k on prints starts a section. */
  predicate PlainProse(table: seq<SlotDescriptor>, k: nat, s: Slots)
    requires k <= |table|
  {
    forall i | k <= i < |table| && table[i].kind == ProseKind && !Blank(s.Prose(table[i].key)) ::
      NoHead(Lines(TrimNL(s.Prose(table[i].key))))
  }

  lemma {:induction false} PlainEntry(table: seq<SlotDescriptor>, i: nat, s: Slots)
    requires i < |table| && ProseHeadings(table[i], s) != []
    ensures !PlainProse(table, 0, s)
  {
    NoHeadings(Lines(TrimNL(s.Prose(table[i].key))));
  }

  lemma {:induction false} PlainStep(table: seq<SlotDescriptor>, k: nat, s: Slots)
    requires k < |table|
    ensures PlainProse(table, k, s) <==> ProseHeadings(table[k], s) == [] && PlainProse(table, k + 1, s)
  {
    hide NoHead, Headings;
    NoHeadings(Lines(TrimNL(s.Prose(table[k].key))));
  }

  /** Concatenations of pieces that are at least as long are equal only piece by piece. */
  lemma {:induction false} EqualPieces(a: seq<string>, x: seq<string>, b: seq<string>, c: seq<string>)
    requires |b| >= |c|
    ensures (a + x) + b == a + c <==> x == [] && b == c
  {
    if (a + x) + b == a + c {
      assert |x| == 0;
      assert ((a + x) + b)[|a|..] == b && (a + c)[|a|..] == c;
    } else {
      assert a + [] == a;
    }
  }

  lemma {:induction false} ExportHeadings(table: seq<SlotDescriptor>, k: nat, s: Slots)
    requires WellFormedTable(table) && k <= |table| && SlotsOk(s)
    ensures |Headings(SlotsLines(table, k, s))| >= |FilledHeadings(table, k, s)|
    ensures Headings(SlotsLines(table, k, s)) == FilledHeadings(table, k, s) <==> PlainProse(table, k, s)
    decreases |table| - k
  {
    hide HasContent, SlotLines, SlotsOk, HeadingOk, IsHead, ProseHeadings, PlainProse;
    if k < |table| {
      ExportHeadings(table, k + 1, s);
      SlotHeadings(table[k], s);
      HeadingsConcat(SlotLines(table[k], s), SlotsLines(table, k + 1, s));
      PlainStep(table, k, s);
      EqualPieces(if HasContent(table[k], s) then [table[k].heading] else [], ProseHeadings(table[k], s),
                  Headings(SlotsLines(table, k + 1, s)), FilledHeadings(table, k + 1, s));
    } else {
      assert PlainProse(table, k, s) by { NothingPlain(table, s); }
    }
  }

  lemma {:induction false} NothingPlain(table: seq<SlotDescriptor>, s: Slots)
    ensures PlainProse(table, |table|, s)
  {}

  /** An export of error-free content shows exactly the filled slots, in table order, if and only if
      no printed line of prose itself reads as a section heading. */
  lemma {:induction false} ExportShowsFilled(table: seq<SlotDescriptor>, s: Slots)
    requires WellFormedTable(table) && SlotsOk(s)
    ensures Headings(SlotsLines(table, 0, s)) == FilledHeadings(table, 0, s) <==> PlainProse(table, 0, s)
  {
    hide *;
    ExportHeadings(table, 0, s);
  }

  /** h is the heading of a printed section, or a line of printed prose reads as it. */
  predicate Shown(table: seq<SlotDescriptor>, k: nat, s: Slots, h: string)
    requires k <= |table|
  {
    exists i | k <= i < |table| ::
      (HasContent(table[i], s) && table[i].heading == h) || h in ProseHeadings(table[i], s)
  }

  lemma {:induction false} ShownStep(table: seq<SlotDescriptor>, k: nat, s: Slots, h: string)
    requires k < |table|
    ensures Shown(table, k, s, h) <==>
            (HasContent(table[k], s) && table[k].heading == h) || h in ProseHeadings(table[k], s) ||
            Shown(table, k + 1, s, h)
  {
    hide HasContent, ProseHeadings;
  }

  lemma {:induction false} NothingShown(table: seq<SlotDescriptor>, s: Slots, h: string)
    ensures !Shown(table, |table|, s, h)
  {}

  /** Which headings an export of error-free content shows, whatever its prose. */
  lemma {:induction false} ExportShows(table: seq<SlotDescriptor>, k: nat, s: Slots, h: string)
    requires WellFormedTable(table) && k <= |table| && SlotsOk(s)
    ensures h in Headings(SlotsLines(table, k, s)) <==> Shown(table, k, s, h)
    decreases |table| - k
  {
    hide HasContent, SlotLines, SlotsOk, HeadingOk, IsHead, ProseHeadings, Shown, HeadingOf;
    if k < |table| {
      ExportShows(table, k + 1, s, h);
      SlotShows(table[k], s, h);
      HeadingsConcat(SlotLines(table[k], s), SlotsLines(table, k + 1, s));
      InEither(h, Headings(SlotLines(table[k], s)), Headings(SlotsLines(table, k + 1, s)));
      ShownStep(table, k, s, h);
    } else {
      NothingShown(table, s, h);
    }
  }

  lemma {:induction false} SlotShows(d: SlotDescriptor, s: Slots, h: string)
    requires SlotsOk(s) && HeadingOk(d.heading)
    ensures h in Headings(SlotLines(d, s)) <==> (HasContent(d, s) && d.heading == h) || h in ProseHeadings(d, s)
  {
    hide HasContent, SlotLines, SlotsOk, HeadingOk, ProseHeadings, Headings;
    SlotHeadings(d, s);
    InEither(h, if HasContent(d, s) then [d.heading] else [], ProseHeadings(d, s));
  }

  lemma {:induction false} InEither(h: string, a: seq<string>, b: seq<string>)
    ensures h in a + b <==> h in a || h in b
  {}

  lemma {:induction false} MissingAmong(table: seq<SlotDescriptor>, k: nat, i: nat, rules: Rules, s: Slots)
    requires WellFormedTable(table) && k <= i < |table|
    ensures table[i].key in Missing(table, k, rules, s) <==>
            Requires(rules, table[i].key) && !HasContent(table[i], s)
    decreases |table| - k
  {
    hide HasContent;
    if k == i {
      LaterMissing(table, k + 1, i, rules, s);
    } else {
      MissingAmong(table, k + 1, i, rules, s);
    }
  }

  lemma {:induction false} LaterMissing(table: seq<SlotDescriptor>, k: nat, i: nat, rules: Rules, s: Slots)
    requires WellFormedTable(table) && i < k <= |table|
    ensures table[i].key !in Missing(table, k, rules, s)
    decreases |table| - k
  {
    hide HasContent;
    if k < |table| { LaterMissing(table, k + 1, i, rules, s); }
  }

  /** Some printed line of prose reads as the heading h. */
  predicate Faked(table: seq<SlotDescriptor>, s: Slots, h: string) {
    exists i | 0 <= i < |table| :: h in ProseHeadings(table[i], s)
  }

  /** For any error-free content, a slot is reported missing exactly when it is required and printing
      writes no section for it. Reading the printed lines gives the same answer unless the slot is
      missing and a line of prose reads as its heading. */
  lemma {:induction false} MissingFromExport(table: seq<SlotDescriptor>, i: nat, rules: Rules, s: Slots)
    requires WellFormedTable(table) && i < |table| && SlotsOk(s)
    ensures var missing := table[i].key in Missing(table, 0, rules, s);
            var required := Requires(rules, table[i].key);
            var shown := table[i].heading in Headings(SlotsLines(table, 0, s));
            && (missing <==> required && SlotLines(table[i], s) == [])
            && ((missing <==> required && !shown) <==> !(missing && Faked(table, s, table[i].heading)))
  {
    hide HasContent, SlotsOk, Requires, IsHead, ProseHeadings, Headings, SlotLines, Missing, HeadingOk;
    SectionWhenFilled(table[i], s);
    MissingAmong(table, 0, i, rules, s);
    ExportShows(table, 0, s, table[i].heading);
  }
}
