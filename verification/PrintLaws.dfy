/** What the printer writes, line by line. */
module PrintLaws {
  import opened Text
  import opened Schema
  import opened Codec
  import opened CodecShape
  import opened CodecLaws
  import opened CodecRoundTrip

  /** A bullet opens with "- " and the item's first line; each further line is indented by two spaces, or is
      empty when it holds nothing but blanks; outer newlines of the item are not printed. */
  lemma {:induction false} BulletIs(item: string)
    ensures var ls, out := Lines(TrimNL(item)), BulletLines(item);
            && |out| == |ls| && out[0] == "- " + ls[0]
            && forall k | 1 <= k < |ls| :: if Blank(ls[k]) then out[k] == "" else out[k] == "  " + ls[k]
    ensures BulletLines(item) == BulletLines(TrimNL(item))
  {
    hide Lines, TrimNL, Blank;
    var ls := Lines(TrimNL(item));
    forall k | 1 <= k < |ls| ensures BulletLines(item)[k] == Indented(ls[k]) {
      assert BulletLines(item)[k] == IndentedAll(ls[1..])[k - 1];
    }
    TrimTwice(item);
  }

  lemma {:induction false} TrimTwice(s: string)
    ensures TrimNL(TrimNL(s)) == TrimNL(s)
  {
    var a, b := TrimParts(s, Newlines);
    TrimFixed(TrimNL(s), Newlines);
  }

  lemma {:induction false} TrimBlankness(s: string)
    ensures Blank(TrimNL(s)) <==> Blank(s)
  {
    var a, b := TrimParts(s, Newlines);
    var m := TrimNL(s);
    forall i | 0 <= i < |s| ensures IsSpace(s[i]) <==> i < |a| || i >= |a| + |m| || IsSpace(m[i - |a|]) {
      if i < |a| {
        assert s[i] == a[i];
      } else if i < |a| + |m| {
        assert s[i] == m[i - |a|];
      } else {
        assert s[i] == b[i - |a| - |m|];
      }
    }
    if Blank(s) { forall i | 0 <= i < |m| ensures IsSpace(m[i]) { assert s[i + |a|] == m[i]; } }
  }

  function AllTrimmed(items: seq<string>): (r: seq<string>)
    ensures |r| == |items| && forall i | 0 <= i < |items| :: r[i] == TrimNL(items[i])
  {
    seq(|items|, i requires 0 <= i < |items| => TrimNL(items[i]))
  }

  /** The slots with the outer newlines of every item and of all prose cut off. */
  function Trimmed(s: Slots): Slots {
    Slots(s.terminology, AllTrimmed(s.rules), AllTrimmed(s.skills), AllTrimmed(s.prompts), TrimNL(s.toolSpecs),
          TrimNL(s.goals), TrimNL(s.style), TrimNL(s.norms), TrimNL(s.architecture), TrimNL(s.businessProcess))
  }

  lemma {:induction false} ListTrimmed(items: seq<string>)
    ensures ListLines(AllTrimmed(items)) == ListLines(items)
  {
    hide BulletLines, TrimNL;
    if items != [] {
      BulletIs(items[0]);
      ListTrimmed(items[1..]);
      assert AllTrimmed(items)[1..] == AllTrimmed(items[1..]);
    }
  }

  lemma {:induction false} EmptyProseTrim()
    ensures TrimNL("") == ""
  {
    TrimFixed("", Newlines);
  }

  lemma {:induction false} TrimmedAt(s: Slots, key: SlotKey)
    ensures Trimmed(s).List(key) == AllTrimmed(s.List(key)) && Trimmed(s).Prose(key) == TrimNL(s.Prose(key))
  {
    hide Trim;
    EmptyProseTrim();
  }

  /** Outer newlines of items and prose are never printed, whatever the slots. */
  lemma {:induction false} OuterNewlinesGo(d: SlotDescriptor, s: Slots)
    ensures SlotLines(d, Trimmed(s)) == SlotLines(d, s)
  {
    hide Trimmed, Lines, TrimNL, SectionLines, ListLines, Blank;
    TrimmedAt(s, d.key);
    TermsKept(s);
    match d.kind {
      case TermKind =>
      case ListKind => ListTrimmed(s.List(d.key));
      case ProseKind =>
        TrimTwice(s.Prose(d.key));
        TrimBlankness(s.Prose(d.key));
    }
  }

  lemma {:induction false} TermsKept(s: Slots)
    ensures Trimmed(s).terminology == s.terminology
  {}

  /** The printed file opens with its fence and shows the name as its title. */
  lemma {:induction false} TitleShown(table: seq<SlotDescriptor>, y: Yaml, doc: Doc)
    requires WellFormedTable(table) && Framed(y, FrontOf(doc)) && OneLine(doc.name) && Shaped(doc.slots)
    ensures var ls := Lines(FoldCRLF(Markdown(table, y, doc)));
            && ls[0] == "---"
            && (doc.name != "" ==> DropCR("# " + doc.name) in ls)
  {
    hide WellFormedTable, Framed, Shaped, Lines, FoldCRLF, Markdown, HeadLines, SlotsLines, OneLine;
    PrintedLines(table, y, doc);
    var file := FileLines(table, y, doc);
    var ls := DropCRs(file);
    assert file[0] == "---" && ls[0] == DropCR("---") == "---";
    if doc.name != "" {
      var n := 3 + |HeadLines(y, doc)|;
      assert file[n] == "# " + doc.name;
      assert ls[n] == DropCR("# " + doc.name);
    }
  }
}
