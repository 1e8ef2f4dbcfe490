/** What the parser makes of a printed document, line by line and slot by slot. */
module CodecPrint {
  import opened Text
  import opened Schema
  import opened Codec
  import opened CodecShape

  function Cleans(items: seq<string>): (r: seq<string>)
    ensures |r| == |items|
    ensures forall i | 0 <= i < |items| :: r[i] == Clean(items[i])
  {
    seq(|items|, i requires 0 <= i < |items| => Clean(items[i]))
  }

  lemma {:induction false} DropConcat(a: seq<string>, b: seq<string>)
    ensures DropCRs(a + b) == DropCRs(a) + DropCRs(b)
  {}

  lemma {:induction false} DropCons(ls: seq<string>)
    requires ls != []
    ensures [DropCR(ls[0])] + DropCRs(ls[1..]) == DropCRs(ls)
  {}

  // ---------------------------------------------------------------- bullets

  lemma {:induction false} IndentedLine(l: string)
    requires l == "" || !Blank(l)
    ensures var p := DropCR(Indented(l));
            if l == "" then p == "" && DropCR(l) == ""
            else "  " <= p && p[2..] == DropCR(l) && !Blank(p) && !("- " <= p)
  {
    if l != "" {
      var q := "  " + l;
      assert q[|q| - 1] == l[|l| - 1];
      var p := DropCR(q);
      assert p == "  " + DropCR(l);
      var i :| 0 <= i < |l| && !IsSpace(l[i]);
      assert p[i + 2] == l[i];
      assert p[0] == ' ' && ("- ")[0] == '-';
    }
  }

  predicate AllContent(ls: seq<string>) { forall k | 0 <= k < |ls| :: ls[k] == "" || !Blank(ls[k]) }

  /** A printed continuation line reads back as the line it carries. */
  lemma {:induction false} ContinuationPrinted(l: string)
    requires l == "" || !Blank(l)
    ensures Continuation(DropCR(Indented(l))) == [DropCR(l)] && !IsDash(DropCR(Indented(l)))
  {
    IndentedLine(l);
  }

  lemma {:induction false} TailSlice(content: seq<string>, i: nat, n: nat, ls: seq<string>)
    requires i < n <= |content| && content[i..n] == ls
    ensures ls != [] && content[i] == ls[0] && content[i + 1..n] == ls[1..]
  {
    assert content[i] == content[i..n][0];
  }

  lemma {:induction false} ContsStep(content: seq<string>, i: nat, n: nat, ls: seq<string>)
    requires i < n <= |content| && ls != []
    requires Continuation(content[i]) == [DropCR(ls[0])] && Continuations(content, i + 1, n) == DropCRs(ls[1..])
    ensures Continuations(content, i, n) == DropCRs(ls)
  {
    DropCons(ls);
  }

  lemma {:induction false} IndentedTail(ls: seq<string>)
    requires ls != []
    ensures DropCRs(IndentedAll(ls))[0] == DropCR(Indented(ls[0]))
    ensures DropCRs(IndentedAll(ls))[1..] == DropCRs(IndentedAll(ls[1..]))
  {}

  lemma {:induction false} ContsPrinted(content: seq<string>, i: nat, n: nat, ls: seq<string>)
    requires n == i + |ls| <= |content| && AllContent(ls)
    requires content[i..n] == DropCRs(IndentedAll(ls))
    ensures Continuations(content, i, n) == DropCRs(ls)
    ensures forall k | i <= k < n :: !IsDash(content[k])
    decreases |ls|
  {
    hide Continuation, Indented, DropCR, Blank, DropCRs, IndentedAll;
    if ls != [] {
      IndentedTail(ls);
      TailSlice(content, i, n, DropCRs(IndentedAll(ls)));
      ContinuationPrinted(ls[0]);
      ContsPrinted(content, i + 1, n, ls[1..]);
      ContsStep(content, i, n, ls);
    }
  }

  lemma {:induction false} ContsBlank(content: seq<string>, i: nat, m: nat)
    requires i <= m < |content| && content[m] == ""
    ensures Continuations(content, i, m + 1) == Continuations(content, i, m) + [""]
    decreases m - i
  {
    if i < m {
      ContsBlank(content, i + 1, m);
      Assoc(Continuation(content[i]), Continuations(content, i + 1, m), [""]);
    } else {
      assert Continuations(content, m + 1, m + 1) == [];
    }
  }

  lemma {:induction false} JoinBlank(ls: seq<string>)
    requires ls != []
    ensures Join(ls + [""]) == Join(ls) + "\n"
    ensures Join([""] + ls) == "\n" + Join(ls)
  {
    if |ls| == 1 {
      assert (ls + [""])[1..] == [""];
      assert Join([""]) == "";
    } else {
      JoinBlank(ls[1..]);
      assert (ls + [""])[1..] == ls[1..] + [""];
      Assoc(ls[0] + "\n", Join(ls[1..]), "\n");
    }
    assert ([""] + ls)[1..] == ls;
  }

  lemma {:induction false} TrimBlank(ls: seq<string>)
    requires ls != []
    ensures TrimNL(Join(ls + [""])) == TrimNL(Join(ls))
  {
    JoinBlank(ls);
    TrimPad("", Join(ls), "\n", Newlines);
    assert "" + Join(ls) + "\n" == Join(ls) + "\n";
  }

  lemma {:induction false} DashedLine(l: string)
    ensures DropCR("- " + l) == "- " + DropCR(l) && IsDash(DropCR("- " + l))
    ensures DropCR("- " + l)[2..] == DropCR(l)
  {
    var q := "- " + l;
    if l != "" { assert q[|q| - 1] == l[|l| - 1]; }
  }

  lemma {:induction false} ItemAtIs(content: seq<string>, i: nat, n: nat, parts: seq<string>)
    requires i < n <= |content| && IsDash(content[i])
    requires parts == [content[i][2..]] + Continuations(content, i + 1, n)
    ensures ItemAt(content, i, n) == TrimNL(Join(parts))
  {}

  /** The lines of one printed bullet read back as its item, cleaned. */
  lemma {:induction false} ItemPrinted(content: seq<string>, i: nat, n: nat, item: string)
    requires ItemShape(item) && n == i + |Lines(item)| <= |content|
    requires content[i..n] == DropCRs(BulletLines(item))
    ensures IsDash(content[i])
    ensures forall k | i + 1 <= k < n :: !IsDash(content[k])
    ensures ItemAt(content, i, n) == Clean(item)
    ensures n < |content| && content[n] == "" ==> ItemAt(content, i, n + 1) == Clean(item)
  {
    var ls := Lines(item);
    var rest := ls[1..];
    TailSlice(content, i, n, DropCRs(BulletLines(item)));
    assert DropCRs(BulletLines(item))[1..] == DropCRs(IndentedAll(rest));
    DashedLine(ls[0]);
    ContsPrinted(content, i + 1, n, rest);
    ItemCleaned(content, i, n, item);
  }

  lemma {:induction false} PartsCleaned(content: seq<string>, i: nat, n: nat, item: string)
    requires i < n <= |content| && IsDash(content[i])
    requires content[i][2..] == DropCR(Lines(item)[0])
    requires Continuations(content, i + 1, n) == DropCRs(Lines(item)[1..])
    ensures [content[i][2..]] + Continuations(content, i + 1, n) == DropCRs(Lines(item))
  {
    DropCons(Lines(item));
  }

  lemma {:induction false} ItemCleaned(content: seq<string>, i: nat, n: nat, item: string)
    requires i < n <= |content| && IsDash(content[i])
    requires content[i][2..] == DropCR(Lines(item)[0])
    requires Continuations(content, i + 1, n) == DropCRs(Lines(item)[1..])
    ensures ItemAt(content, i, n) == Clean(item)
    ensures n < |content| && content[n] == "" ==> ItemAt(content, i, n + 1) == Clean(item)
  {
    PartsCleaned(content, i, n, item);
    ItemAtIs(content, i, n, DropCRs(Lines(item)));
    CleanLines(item);
    if n < |content| && content[n] == "" { ItemBlank(content, i, n, DropCRs(Lines(item)), Clean(item)); }
  }

  /** A blank line after an item does not change it. */
  lemma {:induction false} ItemBlank(content: seq<string>, i: nat, n: nat, parts: seq<string>, item: string)
    requires i < n < |content| && IsDash(content[i]) && content[n] == ""
    requires [content[i][2..]] + Continuations(content, i + 1, n) == parts
    requires TrimNL(Join(parts)) == item
    ensures ItemAt(content, i, n + 1) == item
  {
    PartsBlank(content, i, n, parts);
    ItemAtIs(content, i, n + 1, parts + [""]);
    TrimBlank(parts);
  }

  lemma {:induction false} PartsBlank(content: seq<string>, i: nat, n: nat, parts: seq<string>)
    requires i < n < |content| && content[n] == "" && IsDash(content[i])
    requires [content[i][2..]] + Continuations(content, i + 1, n) == parts
    ensures [content[i][2..]] + Continuations(content, i + 1, n + 1) == parts + [""]
  {
    var head, conts := [content[i][2..]], Continuations(content, i + 1, n);
    ContsBlank(content, i + 1, n);
    Assoc(head, conts, [""]);
  }

  lemma {:induction false} NextDashIs(content: seq<string>, i: nat, n: nat)
    requires i <= n <= |content| && (n < |content| ==> IsDash(content[n]))
    requires forall k | i <= k < n :: !IsDash(content[k])
    ensures NextDash(content, i) == n
    decreases n - i
  {
    if i < n { NextDashIs(content, i + 1, n); }
  }

  lemma {:induction false} SplitList(content: seq<string>, i: nat, items: seq<string>)
    requires items != [] && ItemShape(items[0]) && i <= |content|
    requires content[i..] == DropCRs(ListLines(items)) + [""]
    ensures var n := |Lines(items[0])|;
            && i + n <= |content|
            && content[i..i + n] == DropCRs(BulletLines(items[0]))
            && content[i + n..] == DropCRs(ListLines(items[1..])) + [""]
  {
    var n := |Lines(items[0])|;
    var block, rest := BulletLines(items[0]), ListLines(items[1..]);
    DropConcat(block, rest);
    var all := content[i..];
    assert all == DropCRs(block) + (DropCRs(rest) + [""]);
    assert all[..n] == content[i..i + n];
    assert all[n..] == content[i + n..];
  }

  lemma {:induction false} ItemsStep(content: seq<string>, i: nat, n: nat, items: seq<string>)
    requires i < n <= |content| && IsDash(content[i]) && (n < |content| ==> IsDash(content[n]))
    requires NextDash(content, i + 1) == n && items != []
    requires ItemAt(content, i, n) == Clean(items[0]) && Items(content, n) == Cleans(items[1..])
    ensures Items(content, i) == Cleans(items)
  {
    CleansCons(items);
  }

  lemma {:induction false} LastBlank(content: seq<string>, n: nat)
    requires n <= |content| && content[n..] == DropCRs([]) + [""]
    ensures n + 1 == |content| && content[n] == ""
    ensures Items(content, n + 1) == Cleans([])
  {
    assert content[n] == content[n..][0];
  }

  /** The first printed bullet, and where the rest of the list starts. */
  lemma {:induction false} FirstItem(content: seq<string>, i: nat, items: seq<string>) returns (n: nat)
    requires items != [] && AllItems(items) && i <= |content|
    requires content[i..] == DropCRs(ListLines(items)) + [""]
    ensures i < n <= |content| && content[n..] == DropCRs(ListLines(items[1..])) + [""]
    ensures IsDash(content[i]) && forall k | i + 1 <= k < n :: !IsDash(content[k])
    ensures ItemAt(content, i, n) == Clean(items[0])
    ensures n < |content| && content[n] == "" ==> ItemAt(content, i, n + 1) == Clean(items[0])
  {
    hide ItemShape, DropCRs, ListLines, BulletLines, ItemAt, Clean, IsDash, Lines;
    n := i + |Lines(items[0])|;
    SplitList(content, i, items);
    ItemPrinted(content, i, n, items[0]);
  }

  lemma {:induction false} LastItem(content: seq<string>, i: nat, n: nat, items: seq<string>)
    requires |items| == 1 && i < n <= |content| && content[n..] == DropCRs(ListLines([])) + [""]
    requires IsDash(content[i]) && forall k | i + 1 <= k < n :: !IsDash(content[k])
    requires n < |content| && content[n] == "" ==> ItemAt(content, i, n + 1) == Clean(items[0])
    ensures Items(content, i) == Cleans(items)
  {
    hide ItemAt, Items, NextDash, Cleans;
    LastBlank(content, n);
    NextDashIs(content, i + 1, n + 1);
    ItemsStep(content, i, n + 1, items);
  }

  /** A printed list is read back item by item, each one cleaned. */
  lemma {:induction false} ItemsPrinted(content: seq<string>, i: nat, items: seq<string>)
    requires items != [] && AllItems(items) && i <= |content|
    requires content[i..] == DropCRs(ListLines(items)) + [""]
    ensures i < |content| && IsDash(content[i])
    ensures Items(content, i) == Cleans(items)
    decreases |items|
  {
    hide Items, ItemAt, ItemShape, ListLines, DropCRs, Cleans, IsDash, NextDash;
    var n := FirstItem(content, i, items);
    if |items| == 1 {
      assert items[1..] == [];
      LastItem(content, i, n, items);
    } else {
      ItemsPrinted(content, n, items[1..]);
      NextDashIs(content, i + 1, n);
      ItemsStep(content, i, n, items);
    }
  }

  lemma {:induction false} CleansCons(items: seq<string>)
    requires items != []
    ensures Cleans(items) == [Clean(items[0])] + Cleans(items[1..])
  {}

  /** A line that a printed list may contain. */
  predicate Tidy(l: string) { IsDash(l) || Blank(l) || "  " <= l }

  lemma {:induction false} ListTidy(items: seq<string>)
    requires AllItems(items)
    ensures forall k | 0 <= k < |ListLines(items)| :: Tidy(DropCR(ListLines(items)[k]))
  {
    hide Tidy, DropCR, BulletLines;
    if items != [] {
      ListTidy(items[1..]);
      BulletTidy(items[0]);
    }
  }

  lemma {:induction false} BulletTidy(item: string)
    requires ItemShape(item)
    ensures forall k | 0 <= k < |BulletLines(item)| :: Tidy(DropCR(BulletLines(item)[k]))
  {
    hide DropCR, Blank, Tidy, Indented, Lines, TrimNL;
    var ls, block := Lines(item), BulletLines(item);
    forall k | 0 <= k < |block| ensures Tidy(DropCR(block[k])) {
      if k == 0 {
        DashTidy(ls[0]);
      } else {
        assert block[k] == Indented(ls[k]);
        LineTidy(ls[k]);
      }
    }
  }

  lemma {:induction false} DashTidy(l: string)
    ensures Tidy(DropCR("- " + l))
  {
    DashedLine(l);
  }

  lemma {:induction false} LineTidy(l: string)
    requires l == "" || !Blank(l)
    ensures Tidy(DropCR(Indented(l)))
  {
    IndentedLine(l);
  }

  lemma {:induction false} StrayNone(content: seq<string>, i: nat, base: nat, open: bool)
    requires i <= |content| && (open || (i < |content| && IsDash(content[i])))
    requires forall k | i <= k < |content| :: Tidy(content[k])
    ensures Stray(content, i, base, open) == []
    decreases |content| - i
  {
    if i < |content| { StrayNone(content, i + 1, base, true); }
  }

  lemma {:induction false} ListNoHead(items: seq<string>)
    requires AllItems(items)
    ensures NoHead(DropCRs(ListLines(items)))
  {
    hide IsHead, DropCRs, BulletLines, DropCR;
    if items == [] {
      assert DropCRs([]) == [];
    } else {
      ListNoHead(items[1..]);
      BulletPrintedNoHead(items[0]);
      DropConcat(BulletLines(items[0]), ListLines(items[1..]));
    }
  }

  lemma {:induction false} BulletPrintedNoHead(item: string)
    requires ItemShape(item)
    ensures NoHead(DropCRs(BulletLines(item)))
  {
    hide IsHead, DropCR, Blank, Indented, Lines, TrimNL;
    var ls, block := Lines(item), BulletLines(item);
    forall k | 0 <= k < |block| ensures !IsHead(DropCR(block[k])) {
      if k == 0 {
        MarkNoHead(ls[0]);
      } else {
        assert block[k] == Indented(ls[k]);
        LineNoHead(ls[k]);
      }
    }
  }

  lemma {:induction false} MarkNoHead(l: string)
    ensures !IsHead(DropCR("- " + l))
  {
    DashedLine(l);
    assert DropCR("- " + l)[0] == '-' && "## "[0] == '#';
  }

  lemma {:induction false} LineNoHead(l: string)
    requires l == "" || !Blank(l)
    ensures !IsHead(DropCR(Indented(l)))
  {
    IndentedLine(l);
    assert "## "[0] == '#';
  }

  // ---------------------------------------------------------------- terms

  lemma {:induction false} GlueContinuous(p: seq<string>, q: seq<string>)
    requires p != [] && q != [] && ContinuousLines(p) && ContinuousLines(q)
    requires !Blank(p[|p| - 1] + q[0])
    ensures ContinuousLines(Glue(p, q))
  {
    var g := Glue(p, q);
    forall k | 1 <= k < |g| ensures g[k] == "" || !Blank(g[k]) {
      if k >= |p| { assert g[k] == q[k - |p| + 1]; }
    }
  }

  lemma {:induction false} ContinuousPrefix(a: string, s: string)
    requires OneLine(a) && Continuous(s)
    ensures Continuous(a + s) && Lines(a + s)[0] == a + Lines(s)[0]
  {
    LinesPrefix(a, s);
  }

  lemma {:induction false} TermTextTrim(t: Term)
    requires Bare(t.definition, Spaces)
    ensures TrimNL(TermText(t)) == TermText(t)
  {
    var s := TermText(t);
    assert s[0] == '*';
    assert s[|s| - 1] == if t.definition == "" then ' ' else t.definition[|t.definition| - 1];
    TrimFixed(s, Newlines);
  }

  lemma {:induction false} TermTextContinuous(t: Term)
    requires Continuous(t.term) && Continuous(t.definition)
    ensures Continuous(TermText(t))
  {
    var front, back := "**" + t.term, "**: " + t.definition;
    ContinuousPrefix("**", t.term);
    ContinuousPrefix("**: ", t.definition);
    var p, q := Lines(front), Lines(back);
    SeamNotBlank(p[|p| - 1], Lines(t.definition)[0]);
    GlueContinuous(p, q);
    LinesConcat(front, back);
    assert TermText(t) == front + back;
  }

  lemma {:induction false} TermTextShape(t: Term)
    requires TermShape(t)
    ensures ItemShape(TermText(t))
  {
    TermTextTrim(t);
    TermTextContinuous(t);
  }

  lemma {:induction false} SeamNotBlank(a: string, b: string)
    ensures !Blank(a + ("**: " + b))
  {
    var s := a + ("**: " + b);
    assert s[|a|] == '*';
  }

  lemma {:induction false} TermTextsShape(ts: seq<Term>)
    requires AllTerms(ts)
    ensures AllItems(TermTexts(ts))
  {
    forall i | 0 <= i < |ts| ensures ItemShape(TermTexts(ts)[i]) { TermTextShape(ts[i]); }
  }

  /** Every item reads as a term: none is skipped. */
  predicate AllMatch(items: seq<string>) { |ParsedTerms(items, 0)| == |items| }

  lemma {:induction false} TermErrorsMatch(items: seq<string>, starts: seq<nat>, n: nat)
    requires n <= |items| == |starts|
    ensures |ParsedTerms(items, n)| <= |items| - n
    ensures TermErrors(items, starts, n) == [] <==> |ParsedTerms(items, n)| == |items| - n
    decreases |items| - n
  {
    if n < |items| { TermErrorsMatch(items, starts, n + 1); }
  }

  // ---------------------------------------------------------------- one section

  predicate Filled(d: SlotDescriptor, s: Slots) {
    match d.kind
    case TermKind => s.terminology != []
    case ListKind => s.List(d.key) != []
    case ProseKind => !Blank(s.Prose(d.key))
  }

  /** The lines a filled slot prints under its heading, between the two blank ones. */
  function SlotBody(d: SlotDescriptor, s: Slots): seq<string> {
    match d.kind
    case TermKind => ListLines(TermTexts(s.terminology))
    case ListKind => ListLines(s.List(d.key))
    case ProseKind => Lines(TrimNL(s.Prose(d.key)))
  }

  lemma {:induction false} FilledLines(d: SlotDescriptor, s: Slots)
    ensures SlotLines(d, s) == if Filled(d, s) then SectionLines(d.heading, SlotBody(d, s)) else []
  {}

  /** The slot of s that d names, as it is read back. */
  function EchoSlot(cur: Slots, d: SlotDescriptor, s: Slots): Slots {
    if !Filled(d, s) then cur
    else match d.kind
      case TermKind =>
        cur.(terminology := cur.terminology + ParsedTerms(Cleans(TermTexts(s.terminology)), 0))
      case ListKind => cur.SetList(d.key, Cleans(s.List(d.key)))
      case ProseKind => cur.SetProse(d.key, Clean(s.Prose(d.key)))
  }

  predicate EchoOk(d: SlotDescriptor, s: Slots) {
    d.kind == TermKind ==> AllMatch(Cleans(TermTexts(s.terminology)))
  }

  lemma {:induction false} ListShape(s: Slots, key: SlotKey)
    requires Shaped(s)
    ensures AllItems(s.List(key)) && ProseShape(s.Prose(key))
  {
    EmptyProse();
  }

  lemma {:induction false} BodyNoHead(d: SlotDescriptor, s: Slots)
    requires Shaped(s)
    ensures NoHead(DropCRs(SlotBody(d, s)))
  {
    ListShape(s, d.key);
    match d.kind {
      case TermKind => TermTextsShape(s.terminology); ListNoHead(TermTexts(s.terminology));
      case ListKind => ListNoHead(s.List(d.key));
      case ProseKind =>
        var ls := Lines(s.Prose(d.key));
        forall k | 0 <= k < |ls| ensures !IsHead(DropCR(ls[k])) { DropNoHead(ls[k]); }
    }
  }

  lemma {:induction false} DropNoHead(l: string)
    requires !IsHead(l)
    ensures !IsHead(DropCR(l))
  {
    assert IsHead(DropCR(l)) ==> DropCR(l) <= l;
  }

  lemma {:induction false} ScanSection(items: seq<string>, base: nat)
    requires items != [] && AllItems(items)
    ensures var b := ScanBullets([""] + DropCRs(ListLines(items)) + [""], base);
            b.items == Cleans(items) && b.stray == [] && |b.starts| == |items|
  {
    var lines := DropCRs(ListLines(items));
    var content := [""] + lines + [""];
    assert content[1..] == lines + [""];
    ItemsPrinted(content, 1, items);
    NextDashIs(content, 0, 1);
    BulletsPair(content, 1, base);
    ListTidy(items);
    forall k | 1 <= k < |content| ensures Tidy(content[k]) {
      assert k <= |lines| ==> content[k] == lines[k - 1];
    }
    StrayNone(content, 1, base, false);
  }

  lemma {:induction false} ProseSection(p: string)
    ensures TrimNL(Join([""] + DropCRs(Lines(p)) + [""])) == Clean(p)
  {
    var ls := DropCRs(Lines(p));
    JoinBlank(ls);
    JoinBlank([""] + ls);
    TrimPad("\n", Join(ls), "\n", Newlines);
    CleanLines(p);
  }

  /** Reading the printed section of a filled slot. */
  lemma {:induction false} FillPrinted(st: ParseState, d: SlotDescriptor, s: Slots, line: nat)
    requires Shaped(s) && Filled(d, s)
    ensures var r := FillSlot(st, d, PrintedContent(d, s), line);
            && r.slots == EchoSlot(st.slots, d, s) && r.seen == st.seen
            && (r.errs == [] <==> st.errs == [] && EchoOk(d, s))
  {
    ListShape(s, d.key);
    match d.kind {
      case TermKind =>
        var items := TermTexts(s.terminology);
        TermTextsShape(s.terminology);
        ScanSection(items, line + 1);
        var b := ScanBullets([""] + DropCRs(ListLines(items)) + [""], line + 1);
        TermErrorsMatch(b.items, b.starts, 0);
      case ListKind => ScanSection(s.List(d.key), line + 1);
      case ProseKind => ProseSection(s.Prose(d.key));
    }
  }

  // ---------------------------------------------------------------- all sections

  function EchoFrom(table: seq<SlotDescriptor>, k: nat, cur: Slots, s: Slots): Slots
    requires k <= |table|
    decreases |table| - k
  {
    if k == |table| then cur else EchoFrom(table, k + 1, EchoSlot(cur, table[k], s), s)
  }

  predicate EchoesOk(table: seq<SlotDescriptor>, k: nat, s: Slots)
    requires k <= |table|
    decreases |table| - k
  {
    k == |table| || (EchoOk(table[k], s) && EchoesOk(table, k + 1, s))
  }

  lemma {:induction false} HeadAtIs(ls: seq<string>, i: nat, n: nat)
    requires i <= n <= |ls| && (n < |ls| ==> IsHead(ls[n]))
    requires forall k | i <= k < n :: !IsHead(ls[k])
    ensures HeadAt(ls, i) == n
    decreases n - i
  {
    if i < n { HeadAtIs(ls, i + 1, n); }
  }

  lemma {:induction false} ParseShift(table: seq<SlotDescriptor>, st: ParseState, sec: Section, rest: seq<Section>,
                                      h: nat)
    requires h <= |rest|
    ensures ParseSections(table, st, [sec] + rest, h + 1) == ParseSections(table, st, rest, h)
    decreases |rest| - h
  {
    if h < |rest| {
      assert ([sec] + rest)[h + 1] == rest[h];
      ParseShift(table, ParseSection(table, st, rest[h]), sec, rest, h + 1);
    }
  }

  lemma {:induction false} ParseCons(table: seq<SlotDescriptor>, st: ParseState, sec: Section, rest: seq<Section>)
    ensures ParseSections(table, st, [sec] + rest, 0) ==
            ParseSections(table, ParseSection(table, st, sec), rest, 0)
  {
    ParseShift(table, ParseSection(table, st, sec), sec, rest, 0);
  }

  lemma {:induction false} HeadingLine(h: string)
    requires HeadingOk(h)
    ensures IsHead("## " + h) && DropCR("## " + h) == "## " + h && TrimSpace(("## " + h)[3..]) == h
  {
    var l := "## " + h;
    assert l[..3] == "## " && l[3..] == h;
    assert l[|l| - 1] == h[|h| - 1];
    TrimFixed(h, Spaces);
  }

  lemma {:induction false} ParseOne(table: seq<SlotDescriptor>, k: nat, st: ParseState, s: Slots, sec: Section)
    returns (next: ParseState)
    requires WellFormedTable(table) && k < |table| && Shaped(s) && Filled(table[k], s)
    requires table[k].key !in st.seen
    requires sec.heading == table[k].heading && sec.content == PrintedContent(table[k], s)
    ensures next == ParseSection(table, st, sec)
    ensures next.slots == EchoSlot(st.slots, table[k], s) && next.seen == st.seen + {table[k].key}
    ensures next.errs == [] <==> st.errs == [] && EchoOk(table[k], s)
  {
    var d := table[k];
    HeadingFound(table, k, 0);
    next := FillSlot(st.(seen := st.seen + {d.key}), d, sec.content, sec.line);
    FillPrinted(st.(seen := st.seen + {d.key}), d, s, sec.line);
  }

  lemma {:induction false} DropSection(heading: string, body: seq<string>)
    requires HeadingOk(heading)
    ensures DropCRs(SectionLines(heading, body)) == ["## " + heading] + ([""] + DropCRs(body) + [""])
  {
    HeadingLine(heading);
  }

  /** Where a printed section sits in the body, its section record is the one printed. */
  lemma {:induction false} SectionsOne(body: seq<string>, i: nat, n: nat, line: nat, heading: string,
                                       content: seq<string>)
    requires HeadingOk(heading) && NoHead(content)
    requires i < n <= |body| && body[i..n] == ["## " + heading] + content
    requires n < |body| ==> IsHead(body[n])
    ensures IsHead(body[i])
    ensures Sections(body, i, line) == [Section(heading, content, line + i)] + Sections(body, n, line)
  {
    HeadingLine(heading);
    TailSlice(body, i, n, ["## " + heading] + content);
    forall k | i + 1 <= k < n ensures !IsHead(body[k]) { assert body[k] == body[i + 1..n][k - i - 1]; }
    HeadAtIs(body, i + 1, n);
  }

  lemma {:induction false} EchoStep(table: seq<SlotDescriptor>, k: nat, cur: Slots, s: Slots)
    requires k < |table|
    ensures EchoFrom(table, k, cur, s) == EchoFrom(table, k + 1, EchoSlot(cur, table[k], s), s)
    ensures EchoesOk(table, k, s) <==> EchoOk(table[k], s) && EchoesOk(table, k + 1, s)
  {}

  function PrintedContent(d: SlotDescriptor, s: Slots): seq<string> {
    [""] + DropCRs(SlotBody(d, s)) + [""]
  }

  lemma {:induction false} BlockLines(d: SlotDescriptor, s: Slots)
    requires HeadingOk(d.heading) && Filled(d, s)
    ensures DropCRs(SlotLines(d, s)) == ["## " + d.heading] + PrintedContent(d, s)
  {
    FilledLines(d, s);
    DropSection(d.heading, SlotBody(d, s));
  }

  lemma {:induction false} ContentNoHead(d: SlotDescriptor, s: Slots)
    requires Shaped(s)
    ensures NoHead(PrintedContent(d, s))
  {
    BodyNoHead(d, s);
  }

  lemma {:induction false} BlockSections(body: seq<string>, i: nat, n: nat, line: nat, d: SlotDescriptor, s: Slots)
    requires HeadingOk(d.heading) && Shaped(s) && Filled(d, s)
    requires i < n <= |body| && body[i..n] == DropCRs(SlotLines(d, s))
    requires n < |body| ==> IsHead(body[n])
    ensures IsHead(body[i])
    ensures Sections(body, i, line) ==
            [Section(d.heading, PrintedContent(d, s), line + i)] + Sections(body, n, line)
  {
    BlockLines(d, s);
    ContentNoHead(d, s);
    SectionsOne(body, i, n, line, d.heading, PrintedContent(d, s));
  }

  /** The printed section at i is read into its slot, and reading goes on after it. */
  lemma {:induction false} ParseBlock(table: seq<SlotDescriptor>, k: nat, body: seq<string>, i: nat, n: nat, line: nat,
                                      st: ParseState, s: Slots)
    returns (next: ParseState)
    requires WellFormedTable(table) && k < |table| && Shaped(s) && Filled(table[k], s)
    requires table[k].key !in st.seen
    requires i < n <= |body| && body[i..n] == DropCRs(SlotLines(table[k], s))
    requires n < |body| ==> IsHead(body[n])
    ensures IsHead(body[i])
    ensures ParseSections(table, st, Sections(body, i, line), 0) ==
            ParseSections(table, next, Sections(body, n, line), 0)
    ensures next.slots == EchoSlot(st.slots, table[k], s) && next.seen == st.seen + {table[k].key}
    ensures next.errs == [] <==> st.errs == [] && EchoOk(table[k], s)
  {
    var sec := Section(table[k].heading, PrintedContent(table[k], s), line + i);
    BlockSections(body, i, n, line, table[k], s);
    ParseCons(table, st, sec, Sections(body, n, line));
    next := ParseOne(table, k, st, s, sec);
  }

  /** What ParsePrinted concludes for the slots from entry k on, printed at line i. */
  ghost predicate ReadsBack(table: seq<SlotDescriptor>, k: nat, body: seq<string>, i: nat, line: nat,
                            st: ParseState, s: Slots)
    requires k <= |table| && i <= |body| && (i < |body| ==> IsHead(body[i]))
  {
    var r := ParseSections(table, st, Sections(body, i, line), 0);
    r.slots == EchoFrom(table, k, st.slots, s) && (r.errs == [] <==> st.errs == [] && EchoesOk(table, k, s))
  }

  lemma {:induction false} ReadsNone(table: seq<SlotDescriptor>, body: seq<string>, i: nat, line: nat,
                                     st: ParseState, s: Slots)
    requires Prints(table, |table|, body, i, s)
    ensures i == |body| && ReadsBack(table, |table|, body, i, line, st, s)
  {
    assert |body[i..]| == 0;
  }

  lemma {:induction false} ReadsEmpty(table: seq<SlotDescriptor>, k: nat, body: seq<string>, i: nat, line: nat,
                                      st: ParseState, s: Slots)
    requires k < |table| && i <= |body| && (i < |body| ==> IsHead(body[i])) && !Filled(table[k], s)
    requires ReadsBack(table, k + 1, body, i, line, st, s)
    ensures ReadsBack(table, k, body, i, line, st, s)
  {
    EchoStep(table, k, st.slots, s);
    EmptyEchoOk(table[k], s);
  }

  lemma {:induction false} ReadsBlock(table: seq<SlotDescriptor>, k: nat, body: seq<string>, i: nat, n: nat, line: nat,
                                      st: ParseState, next: ParseState, s: Slots)
    requires k < |table| && i < n <= |body| && IsHead(body[i]) && (n < |body| ==> IsHead(body[n]))
    requires ParseSections(table, st, Sections(body, i, line), 0) ==
             ParseSections(table, next, Sections(body, n, line), 0)
    requires next.slots == EchoSlot(st.slots, table[k], s)
    requires next.errs == [] <==> st.errs == [] && EchoOk(table[k], s)
    requires ReadsBack(table, k + 1, body, n, line, next, s)
    ensures ReadsBack(table, k, body, i, line, st, s)
  {
    EchoStep(table, k, st.slots, s);
  }

  /** body from line i on is what the slots from entry k on print. */
  ghost predicate Prints(table: seq<SlotDescriptor>, k: nat, body: seq<string>, i: nat, s: Slots) {
    k <= |table| && i <= |body| && body[i..] == DropCRs(SlotsLines(table, k, s))
  }

  lemma {:induction false} SplitTable(table: seq<SlotDescriptor>, k: nat, body: seq<string>, i: nat, s: Slots)
    requires k < |table| && Prints(table, k, body, i, s)
    ensures var n := i + |SlotLines(table[k], s)|;
            && n <= |body| && body[i..n] == DropCRs(SlotLines(table[k], s))
            && Prints(table, k + 1, body, n, s)
  {
    hide SlotLines, DropCRs;
    SplitBlock(body, i, SlotLines(table[k], s), SlotsLines(table, k + 1, s));
  }

  lemma {:induction false} FilledLength(d: SlotDescriptor, s: Slots)
    ensures Filled(d, s) <==> |SlotLines(d, s)| > 0
  {
    FilledLines(d, s);
  }

  ghost predicate Unseen(table: seq<SlotDescriptor>, k: nat, seen: set<SlotKey>) {
    forall j | k <= j < |table| :: table[j].key !in seen
  }

  lemma {:induction false} UnseenNext(table: seq<SlotDescriptor>, k: nat, seen: set<SlotKey>)
    requires WellFormedTable(table) && k < |table| && Unseen(table, k, seen)
    ensures table[k].key !in seen && Unseen(table, k + 1, seen + {table[k].key})
  {}

  lemma {:induction false} SkipSlot(table: seq<SlotDescriptor>, k: nat, body: seq<string>, i: nat, s: Slots)
    requires k < |table| && Prints(table, k, body, i, s) && !Filled(table[k], s)
    ensures Prints(table, k + 1, body, i, s)
  {
    SplitTable(table, k, body, i, s);
    FilledLength(table[k], s);
  }

  lemma {:induction false} TakeSlot(table: seq<SlotDescriptor>, k: nat, body: seq<string>, i: nat, s: Slots)
    returns (n: nat)
    requires WellFormedTable(table) && k < |table| && Prints(table, k, body, i, s) && Filled(table[k], s)
    ensures i < n <= |body| && body[i..n] == DropCRs(SlotLines(table[k], s))
    ensures Prints(table, k + 1, body, n, s) && (n < |body| ==> IsHead(body[n]))
  {
    hide SlotLines, SlotsLines, DropCRs, Prints, Filled, WellFormedTable, IsHead;
    n := i + |SlotLines(table[k], s)|;
    SplitTable(table, k, body, i, s);
    FilledLength(table[k], s);
    FirstHead(table, k + 1, body, n, s);
  }

  /** A printed body is read back slot by slot, in table order. */
  lemma {:induction false} ParsePrinted(table: seq<SlotDescriptor>, k: nat, body: seq<string>, i: nat, line: nat,
                                        st: ParseState, s: Slots)
    requires WellFormedTable(table) && Shaped(s)
    requires Prints(table, k, body, i, s) && Unseen(table, k, st.seen)
    ensures i < |body| ==> IsHead(body[i])
    ensures ReadsBack(table, k, body, i, line, st, s)
    decreases |table| - k
  {
    if k == |table| {
      ReadsNone(table, body, i, line, st, s);
    } else if !Filled(table[k], s) {
      SkipSlot(table, k, body, i, s);
      ParsePrinted(table, k + 1, body, i, line, st, s);
      ReadsEmpty(table, k, body, i, line, st, s);
    } else {
      UnseenNext(table, k, st.seen);
      var n := TakeSlot(table, k, body, i, s);
      var next := ParseBlock(table, k, body, i, n, line, st, s);
      ParsePrinted(table, k + 1, body, n, line, next, s);
      ReadsBlock(table, k, body, i, n, line, st, next, s);
    }
  }

  lemma {:induction false} FirstHead(table: seq<SlotDescriptor>, k: nat, body: seq<string>, i: nat, s: Slots)
    requires WellFormedTable(table) && Prints(table, k, body, i, s)
    ensures i < |body| ==> IsHead(body[i])
    decreases |table| - k
  {
    if k < |table| {
      SplitTable(table, k, body, i, s);
      FilledLength(table[k], s);
      if Filled(table[k], s) {
        BlockHead(table[k], s);
        assert body[i] == body[i..i + |SlotLines(table[k], s)|][0];
      } else {
        FirstHead(table, k + 1, body, i, s);
      }
    }
  }

  lemma {:induction false} BlockHead(d: SlotDescriptor, s: Slots)
    requires HeadingOk(d.heading) && Filled(d, s)
    ensures |SlotLines(d, s)| > 0 && IsHead(DropCRs(SlotLines(d, s))[0])
  {
    FilledLines(d, s);
    HeadingLine(d.heading);
  }

  lemma {:induction false} EmptyEchoOk(d: SlotDescriptor, s: Slots)
    requires !Filled(d, s)
    ensures EchoOk(d, s)
  {}

  lemma {:induction false} SplitBlock(body: seq<string>, i: nat, block: seq<string>, rest: seq<string>)
    requires i <= |body| && body[i..] == DropCRs(block + rest)
    ensures i + |block| <= |body|
    ensures body[i..i + |block|] == DropCRs(block)
    ensures body[i + |block|..] == DropCRs(rest)
  {
    DropConcat(block, rest);
    assert body[i..][..|block|] == body[i..i + |block|];
    assert body[i..][|block|..] == body[i + |block|..];
  }
}
