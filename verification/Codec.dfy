/** The .frame.md codec: what printing writes and what parsing reads, line by line.

    Each method below works as the Go code does, with loops over lines and a text
    builder, and is tied to the function of the same shape above it. */
module Codec {
  import opened Text
  import opened Schema

  const MARKDOWN_TYPE := "frame [0.2]"
  const DEFAULT_VISIBILITY := "internal"
  const FENCE := "---"

  datatype Frontmatter = Frontmatter(
    kind: string, name: string, description: string, visibility: string, version: string,
    scope: string, maintainer: string, inherits: seq<string>, excludes: seq<string>)

  /** The YAML library, reduced to the two calls the codec makes. */
  datatype Yaml = Yaml(encode: Frontmatter -> string, decode: string -> Option<Frontmatter>)

  datatype ParseError =
    | NoFrontmatter(line: nat) | UnclosedFrontmatter(line: nat) | BadFrontmatter
    | MissingType(line: nat) | BadType(line: nat)
    | ContentBeforeSection(line: nat) | UnknownSection(line: nat) | DuplicateSection(line: nat)
    | StrayContent(line: nat) | MalformedTerm(line: nat)

  // ---------------------------------------------------------------- printing

  function InheritText(e: ExtendRef): string {
    if e.version != "" then e.ref + "@" + e.version else e.ref
  }

  function InheritTexts(es: seq<ExtendRef>): (r: seq<string>)
    ensures |r| == |es|
    ensures forall i | 0 <= i < |es| :: r[i] == InheritText(es[i])
  {
    seq(|es|, i requires 0 <= i < |es| => InheritText(es[i]))
  }

  function FrontOf(doc: Doc): Frontmatter {
    Frontmatter(MARKDOWN_TYPE, doc.name, doc.description,
                if doc.visibility == "" then DEFAULT_VISIBILITY else doc.visibility,
                doc.version, doc.scope, doc.maintainer, InheritTexts(doc.extends_), doc.excludes)
  }

  /** A continuation line, indented so that it stays inside its bullet. */
  function Indented(l: string): string { if Blank(l) then "" else "  " + l }

  function IndentedAll(ls: seq<string>): (r: seq<string>)
    ensures |r| == |ls|
    ensures forall i | 0 <= i < |ls| :: r[i] == Indented(ls[i])
  {
    seq(|ls|, i requires 0 <= i < |ls| => Indented(ls[i]))
  }

  function BulletLines(item: string): seq<string> {
    var ls := Lines(TrimNL(item));
    ["- " + ls[0]] + IndentedAll(ls[1..])
  }

  function ListLines(items: seq<string>): seq<string> {
    if items == [] then [] else BulletLines(items[0]) + ListLines(items[1..])
  }

  function TermText(t: Term): string { "**" + t.term + "**: " + t.definition }

  function TermTexts(ts: seq<Term>): (r: seq<string>)
    ensures |r| == |ts|
    ensures forall i | 0 <= i < |ts| :: r[i] == TermText(ts[i])
  {
    seq(|ts|, i requires 0 <= i < |ts| => TermText(ts[i]))
  }

  function SectionLines(heading: string, body: seq<string>): seq<string> {
    ["## " + heading, ""] + body + [""]
  }

  function SlotLines(d: SlotDescriptor, s: Slots): seq<string> {
    match d.kind
    case TermKind =>
      if s.terminology == [] then [] else SectionLines(d.heading, ListLines(TermTexts(s.terminology)))
    case ListKind =>
      if s.List(d.key) == [] then [] else SectionLines(d.heading, ListLines(s.List(d.key)))
    case ProseKind =>
      if Blank(s.Prose(d.key)) then [] else SectionLines(d.heading, Lines(TrimNL(s.Prose(d.key))))
  }

  /** The sections printed for a slot table from entry k on. */
  function SlotsLines(table: seq<SlotDescriptor>, k: nat, s: Slots): seq<string>
    requires k <= |table|
    decreases |table| - k
  {
    if k == |table| then [] else SlotLines(table[k], s) + SlotsLines(table, k + 1, s)
  }

  function TitleText(name: string): string { if name == "" then "" else "# " + name + "\n\n" }

  function Draft(table: seq<SlotDescriptor>, y: Yaml, doc: Doc): string {
    "---\n" + y.encode(FrontOf(doc)) + "---\n\n" + TitleText(doc.name) + Unlines(SlotsLines(table, 0, doc.slots))
  }

  /** The text that printing doc produces. */
  function Markdown(table: seq<SlotDescriptor>, y: Yaml, doc: Doc): string {
    TrimEnd(Draft(table, y, doc), Newlines) + "\n"
  }

  // ---------------------------------------------------------------- parsing

  predicate IsHead(l: string) { "## " <= l }

  /** The number of leading digits. */
  function Digits(s: string): (n: nat)
    ensures n <= |s|
  {
    if s != "" && IsDigit(s[0]) then 1 + Digits(s[1..]) else 0
  }

  /** ^frame(?: \[\d+\.\d+\])?$ */
  predicate TypeOk(s: string) {
    s == "frame" ||
    (|s| >= 8 && "frame [" <= s && s[|s| - 1] == ']' &&
     var v := s[7..|s| - 1];
     var major := Digits(v);
     0 < major < |v| && v[major] == '.' &&
     var minor := v[major + 1..];
     minor != "" && Digits(minor) == |minor|)
  }

  function TypeErrors(kind: string, line: nat): seq<ParseError> {
    if TrimSpace(kind) == "" then [MissingType(line)] else if !TypeOk(kind) then [BadType(line)] else []
  }

  /** strings.LastIndex(s[..n], "@"). */
  function LastAt(s: string, n: nat): (r: Option<nat>)
    requires n <= |s|
    ensures r.Some? ==> r.value < n && s[r.value] == '@'
  {
    if n == 0 then None else if s[n - 1] == '@' then Some(n - 1) else LastAt(s, n - 1)
  }

  function ParseInherit(text: string): ExtendRef {
    var r := TrimSpace(text);
    match LastAt(r, |r|)
    case Some(at) => if at > 0 then ExtendRef(r[..at], r[at + 1..]) else ExtendRef(r, "")
    case None => ExtendRef(r, "")
  }

  function ParseInherits(texts: seq<string>): (r: seq<ExtendRef>)
    ensures |r| == |texts|
    ensures forall i | 0 <= i < |texts| :: r[i] == ParseInherit(texts[i])
  {
    seq(|texts|, i requires 0 <= i < |texts| => ParseInherit(texts[i]))
  }

  /** s reads "**:" at index i. */
  predicate ClosesAt(s: string, i: nat) {
    i + 3 <= |s| && s[i] == '*' && s[i + 1] == '*' && s[i + 2] == ':'
  }

  /** The first index at or after k where s reads "**:". */
  function FindClose(s: string, k: nat): (r: Option<nat>)
    ensures r.Some? ==> k <= r.value && ClosesAt(s, r.value)
    decreases |s| - k
  {
    if k + 3 > |s| then None
    else if ClosesAt(s, k) then Some(k)
    else FindClose(s, k + 1)
  }

  /** (?s)^\*\*(.+?)\*\*:[ \t]?(.*)$ with both groups trimmed. */
  function MatchTerm(item: string): Option<Term> {
    if !("**" <= item) then None
    else
      var s := item[2..];
      match FindClose(s, 1)
      case None => None
      case Some(k) =>
        var rest := s[k + 3..];
        var def := if rest != "" && rest[0] in " \t" then rest[1..] else rest;
        Some(Term(TrimSpace(s[..k]), TrimSpace(def)))
  }

  predicate IsDash(l: string) { "- " <= l }

  /** The first bullet from line i on. */
  function NextDash(content: seq<string>, i: nat): (n: nat)
    requires i <= |content|
    ensures i <= n <= |content|
    ensures n < |content| ==> IsDash(content[n])
    decreases |content| - i
  {
    if i < |content| && !IsDash(content[i]) then NextDash(content, i + 1) else i
  }

  /** What a line that is not a bullet adds to the bullet above it. */
  function Continuation(l: string): seq<string> {
    if Blank(l) then [""] else if "  " <= l then [l[2..]] else []
  }

  function Continuations(content: seq<string>, i: nat, n: nat): seq<string>
    requires i <= n <= |content|
    decreases n - i
  {
    if i == n then [] else Continuation(content[i]) + Continuations(content, i + 1, n)
  }

  /** The item whose bullet is line i and which ends before line n. */
  function ItemAt(content: seq<string>, i: nat, n: nat): string
    requires i < n <= |content| && IsDash(content[i])
  {
    TrimNL(Join([content[i][2..]] + Continuations(content, i + 1, n)))
  }

  /** The items from the bullet at line i on. */
  function Items(content: seq<string>, i: nat): seq<string>
    requires i <= |content| && (i < |content| ==> IsDash(content[i]))
    decreases |content| - i
  {
    if i == |content| then []
    else
      var n := NextDash(content, i + 1);
      [ItemAt(content, i, n)] + Items(content, n)
  }

  /** The file lines of those bullets. */
  function Starts(content: seq<string>, i: nat, base: nat): seq<nat>
    requires i <= |content| && (i < |content| ==> IsDash(content[i]))
    decreases |content| - i
  {
    if i == |content| then [] else [base + i] + Starts(content, NextDash(content, i + 1), base)
  }

  /** The file lines from line i on that belong to no item; open says whether a bullet is above. */
  function Stray(content: seq<string>, i: nat, base: nat, open: bool): seq<nat>
    requires i <= |content|
    decreases |content| - i
  {
    if i == |content| then []
    else if IsDash(content[i]) then Stray(content, i + 1, base, true)
    else if Blank(content[i]) || (open && "  " <= content[i]) then Stray(content, i + 1, base, open)
    else [base + i] + Stray(content, i + 1, base, open)
  }

  datatype Bullets = Bullets(items: seq<string>, starts: seq<nat>, stray: seq<nat>)

  /** A section body read as a list; base is the file line of content[0]. */
  function ScanBullets(content: seq<string>, base: nat): Bullets {
    var n := NextDash(content, 0);
    Bullets(Items(content, n), Starts(content, n, base), Stray(content, 0, base, false))
  }

  function StrayErrors(stray: seq<nat>, n: nat): seq<ParseError>
    requires n <= |stray|
    decreases |stray| - n
  {
    if n == |stray| then [] else [StrayContent(stray[n])] + StrayErrors(stray, n + 1)
  }

  /** The terms among the items from index n on; malformed ones are skipped. */
  function ParsedTerms(items: seq<string>, n: nat): seq<Term>
    requires n <= |items|
    decreases |items| - n
  {
    if n == |items| then []
    else match MatchTerm(items[n])
      case None => ParsedTerms(items, n + 1)
      case Some(t) => [t] + ParsedTerms(items, n + 1)
  }

  /** One error, at its bullet's line, for each malformed term from index n on. */
  function TermErrors(items: seq<string>, starts: seq<nat>, n: nat): seq<ParseError>
    requires n <= |items|
    decreases |items| - n
  {
    if n == |items| || n >= |starts| then []
    else if MatchTerm(items[n]) == None then [MalformedTerm(starts[n])] + TermErrors(items, starts, n + 1)
    else TermErrors(items, starts, n + 1)
  }

  datatype ParseState = ParseState(slots: Slots, seen: set<SlotKey>, errs: seq<ParseError>)

  /** Every item has its bullet's line. */
  lemma {:induction false} BulletsPair(content: seq<string>, i: nat, base: nat)
    requires i <= |content| && (i < |content| ==> IsDash(content[i]))
    ensures |Items(content, i)| == |Starts(content, i, base)|
    decreases |content| - i
  {
    if i < |content| { BulletsPair(content, NextDash(content, i + 1), base); }
  }

  /** A recognized section, read into its slot. */
  function FillSlot(st: ParseState, d: SlotDescriptor, content: seq<string>, line: nat): ParseState {
    match d.kind
    case TermKind =>
      var b := ScanBullets(content, line + 1);
      st.(slots := st.slots.(terminology := st.slots.terminology + ParsedTerms(b.items, 0)),
          errs := st.errs + StrayErrors(b.stray, 0) + TermErrors(b.items, b.starts, 0))
    case ListKind =>
      var b := ScanBullets(content, line + 1);
      st.(slots := st.slots.SetList(d.key, b.items), errs := st.errs + StrayErrors(b.stray, 0))
    case ProseKind =>
      st.(slots := st.slots.SetProse(d.key, TrimNL(Join(content))))
  }

  /** One section of the body: its heading text, the lines under it, its heading's line number. */
  datatype Section = Section(heading: string, content: seq<string>, line: nat)

  function ParseSection(table: seq<SlotDescriptor>, st: ParseState, sec: Section): ParseState {
    match FindHeading(table, sec.heading, 0)
    case None => st.(errs := st.errs + [UnknownSection(sec.line)])
    case Some(d) =>
      if d.key in st.seen then st.(errs := st.errs + [DuplicateSection(sec.line)])
      else FillSlot(st.(seen := st.seen + {d.key}), d, sec.content, sec.line)
  }

  /** The sections from index h on. */
  function ParseSections(table: seq<SlotDescriptor>, st: ParseState, secs: seq<Section>, h: nat): ParseState
    requires h <= |secs|
    decreases |secs| - h
  {
    if h == |secs| then st else ParseSections(table, ParseSection(table, st, secs[h]), secs, h + 1)
  }

  /** The first section heading from line i on. */
  function HeadAt(ls: seq<string>, i: nat): (n: nat)
    requires i <= |ls|
    ensures i <= n <= |ls|
    ensures n < |ls| ==> IsHead(ls[n])
    decreases |ls| - i
  {
    if i < |ls| && !IsHead(ls[i]) then HeadAt(ls, i + 1) else i
  }

  /** The sections from the heading at index i on; line is the file line of body[0]. */
  function Sections(body: seq<string>, i: nat, line: nat): seq<Section>
    requires i <= |body| && (i < |body| ==> IsHead(body[i]))
    decreases |body| - i
  {
    if i == |body| then []
    else
      var n := HeadAt(body, i + 1);
      [SectionAt(body, i, n, line)] + Sections(body, n, line)
  }

  /** Only blank lines and one title may come before the first section. */
  function PreambleErrors(body: seq<string>, i: nat, stop: nat, line: nat, titled: bool): seq<ParseError>
    requires i <= stop <= |body|
    decreases stop - i
  {
    if i == stop then []
    else
      var t := TrimSpace(body[i]);
      if t == "" then PreambleErrors(body, i + 1, stop, line, titled)
      else if !titled && "# " <= t then PreambleErrors(body, i + 1, stop, line, true)
      else [ContentBeforeSection(line + i)]
  }

  function ParseBody(table: seq<SlotDescriptor>, body: seq<string>, line: nat, errs: seq<ParseError>): ParseState {
    var n := HeadAt(body, 0);
    ParseSections(table, ParseState(EMPTY_SLOTS, {}, errs + PreambleErrors(body, 0, n, line, false)),
                  Sections(body, n, line), 0)
  }

  function FirstNonBlank(ls: seq<string>, i: nat): (n: nat)
    requires i <= |ls|
    ensures i <= n <= |ls|
    decreases |ls| - i
  {
    if i < |ls| && TrimSpace(ls[i]) == "" then FirstNonBlank(ls, i + 1) else i
  }

  function FirstFence(ls: seq<string>, i: nat): (n: nat)
    requires i <= |ls|
    ensures i <= n <= |ls|
    decreases |ls| - i
  {
    if i < |ls| && TrimSpace(ls[i]) != FENCE then FirstFence(ls, i + 1) else i
  }

  function DocOf(fm: Frontmatter, slots: Slots): Doc {
    Doc(fm.name, fm.description, fm.version, fm.visibility, fm.scope, fm.maintainer,
        ParseInherits(fm.inherits), fm.excludes, slots)
  }

  /** The document that parsing content yields, or every structural error found. */
  function Parsed(table: seq<SlotDescriptor>, y: Yaml, content: string): Result<Doc, seq<ParseError>> {
    ParsedFile(table, y, Lines(FoldCRLF(content)))
  }

  /** A file cut at its frontmatter fences, with the file lines the two parts start on. */
  datatype File = File(head: string, body: seq<string>, headLine: nat, line: nat)

  function CutFile(ls: seq<string>): Result<File, ParseError> {
    var i := FirstNonBlank(ls, 0);
    if i >= |ls| || TrimSpace(ls[i]) != FENCE then Err(NoFrontmatter(i + 1))
    else
      var end := FirstFence(ls, i + 1);
      if end >= |ls| then Err(UnclosedFrontmatter(i + 1))
      else Ok(File(Join(ls[i + 1..end]), ls[end + 1..], i + 2, end + 2))
  }

  function ParsedFile(table: seq<SlotDescriptor>, y: Yaml, ls: seq<string>): Result<Doc, seq<ParseError>> {
    match CutFile(ls)
    case Err(e) => Err([e])
    case Ok(f) => ParsedParts(table, y, f)
  }

  function ParsedParts(table: seq<SlotDescriptor>, y: Yaml, f: File): Result<Doc, seq<ParseError>> {
    match y.decode(f.head)
    case None => Err([BadFrontmatter])
    case Some(fm) => Finished(fm, ParseBody(table, f.body, f.line, TypeErrors(fm.kind, f.headLine)))
  }

  function Finished(fm: Frontmatter, st: ParseState): Result<Doc, seq<ParseError>> {
    if st.errs == [] then Ok(DocOf(fm, st.slots)) else Err(st.errs)
  }

  // ---------------------------------------------------------------- the printer

  /** strings.Builder. */
  class Builder {
    var text: string

    constructor ()
      ensures text == ""
    { text := ""; }

    method Write(s: string)
      modifies this
      ensures text == old(text) + s
    { text := text + s; }
  }

  method WriteBullet(b: Builder, item: string)
    modifies b
    ensures b.text == old(b.text) + Unlines(BulletLines(item))
  {
    var ls := Lines(TrimNL(item));
    ghost var before, out := old(b.text), BulletLines(item);
    var first := "- " + ls[0] + "\n";
    b.Write(first);
    UnlinesStep(out, 0);
    assert Unlines(out[..1]) == first;
    for i := 1 to |ls|
      invariant b.text == before + Unlines(out[..i])
    {
      UnlinesStep(out, i);
      assert out[i] == Indented(ls[i]);
      var l := if Blank(ls[i]) then "\n" else "  " + ls[i] + "\n";
      b.Write(l);
      Assoc(before, Unlines(out[..i]), l);
    }
    assert out[..|ls|] == out;
  }

  method WriteList(b: Builder, heading: string, items: seq<string>)
    modifies b
    ensures b.text == old(b.text) + Unlines(SectionLines(heading, ListLines(items)))
  {
    ghost var before, all := old(b.text), Unlines(ListLines(items));
    SectionText(heading, ListLines(items));
    var head := "## " + heading + "\n\n";
    b.Write(head);
    WriteItems(b, items);
    b.Write("\n");
    Assoc(before, head, all);
    Assoc(before, head + all, "\n");
  }

  method WriteItems(b: Builder, items: seq<string>)
    modifies b
    ensures b.text == old(b.text) + Unlines(ListLines(items))
  {
    ghost var before, written := old(b.text), "";
    for i := 0 to |items|
      invariant b.text == before + written
      invariant written + Unlines(ListLines(items[i..])) == Unlines(ListLines(items))
    {
      WriteBullet(b, items[i]);
      ListStep(items, i);
      ghost var bullet := Unlines(BulletLines(items[i]));
      Assoc(written, bullet, Unlines(ListLines(items[i + 1..])));
      Assoc(before, written, bullet);
      written := written + bullet;
    }
  }

  lemma {:induction false} ListStep(items: seq<string>, i: nat)
    requires i < |items|
    ensures Unlines(ListLines(items[i..])) == Unlines(BulletLines(items[i])) + Unlines(ListLines(items[i + 1..]))
  {
    assert items[i..][1..] == items[i + 1..];
    UnlinesAppend(BulletLines(items[i]), ListLines(items[i + 1..]));
  }

  lemma {:induction false} SectionText(heading: string, body: seq<string>)
    ensures Unlines(SectionLines(heading, body)) == ("## " + heading + "\n\n") + Unlines(body) + "\n"
  {
    var h := ["## " + heading, ""];
    UnlinesAppend(h + body, [""]);
    UnlinesAppend(h, body);
    assert h[1..] == [""];
    assert Unlines([""]) == "\n";
    assert Unlines(h) == "## " + heading + "\n" + "\n";
  }

  method WriteSlot(b: Builder, d: SlotDescriptor, s: Slots)
    modifies b
    ensures b.text == old(b.text) + Unlines(SlotLines(d, s))
  {
    match d.kind {
      case TermKind =>
        if s.terminology != [] { WriteList(b, d.heading, TermTexts(s.terminology)); }
      case ListKind =>
        var items := s.List(d.key);
        if items != [] { WriteList(b, d.heading, items); }
      case ProseKind =>
        var body := s.Prose(d.key);
        if !Blank(body) {
          b.Write("## " + d.heading + "\n\n" + TrimNL(body) + "\n\n");
          SectionText(d.heading, Lines(TrimNL(body)));
          UnlinesJoin(Lines(TrimNL(body)));
          JoinLines(TrimNL(body));
        }
    }
  }

  method MarshalMarkdown(y: Yaml, doc: Doc) returns (text: string)
    ensures text == Markdown(SLOT_TABLE, y, doc)
  {
    var visibility := doc.visibility;
    if visibility == "" { visibility := DEFAULT_VISIBILITY; }
    var inherits := [];
    for i := 0 to |doc.extends_|
      invariant |inherits| == i
      invariant forall k | 0 <= k < i :: inherits[k] == InheritText(doc.extends_[k])
    {
      var ref := doc.extends_[i].ref;
      if doc.extends_[i].version != "" { ref := ref + "@" + doc.extends_[i].version; }
      inherits := inherits + [ref];
    }
    var fm := Frontmatter(MARKDOWN_TYPE, doc.name, doc.description, visibility, doc.version,
                          doc.scope, doc.maintainer, inherits, doc.excludes);
    assert fm == FrontOf(doc);
    var b := new Builder();
    b.Write("---\n");
    b.Write(y.encode(fm));
    b.Write("---\n\n");
    if doc.name != "" { b.Write("# " + doc.name + "\n\n"); }
    ghost var head := "---\n" + y.encode(fm) + "---\n\n";
    assert b.text == head + TitleText(doc.name);
    WriteSlots(b, SLOT_TABLE, doc.slots);
    assert b.text == Draft(SLOT_TABLE, y, doc);
    return TrimEnd(b.text, Newlines) + "\n";
  }

  lemma {:induction false} SlotsStep(table: seq<SlotDescriptor>, k: nat, s: Slots, written: string)
    requires k < |table|
    ensures written + Unlines(SlotsLines(table, k, s)) ==
            (written + Unlines(SlotLines(table[k], s))) + Unlines(SlotsLines(table, k + 1, s))
  {
    var slot, rest := SlotLines(table[k], s), SlotsLines(table, k + 1, s);
    UnlinesAppend(slot, rest);
    Assoc(written, Unlines(slot), Unlines(rest));
  }

  lemma {:induction false} NoLines()
    ensures Unlines([]) == ""
  {}

  method WriteSlots(b: Builder, table: seq<SlotDescriptor>, s: Slots)
    modifies b
    ensures b.text == old(b.text) + Unlines(SlotsLines(table, 0, s))
  {
    hide SlotLines, Unlines;
    ghost var before, written, goal := old(b.text), "", Unlines(SlotsLines(table, 0, s));
    assert before + "" == before && "" + goal == goal;
    for k := 0 to |table|
      invariant b.text == before + written
      invariant written + Unlines(SlotsLines(table, k, s)) == goal
    {
      WriteSlot(b, table[k], s);
      SlotsStep(table, k, s, written);
      Assoc(before, written, Unlines(SlotLines(table[k], s)));
      written := written + Unlines(SlotLines(table[k], s));
    }
    NoLines();
    assert SlotsLines(table, |table|, s) == [];
    assert written + "" == written;
  }

  // ---------------------------------------------------------------- the parser

  /** The items still to come when line i is next and bullet cur is open (none when empty). */
  ghost function Pending(content: seq<string>, i: nat, cur: seq<string>): seq<string>
    requires i <= |content|
  {
    var n := NextDash(content, i);
    (if cur == [] then [] else [TrimNL(Join(cur + Continuations(content, i, n)))]) + Items(content, n)
  }

  /** The open bullet, if any, closed into an item. */
  function Flush(cur: seq<string>): seq<string> { if cur == [] then [] else [TrimNL(Join(cur))] }

  /** What ParseBullets still has to find when line i is next and bullet cur is open. */
  ghost function Rest(content: seq<string>, i: nat, base: nat, cur: seq<string>): Bullets
    requires i <= |content|
  {
    Bullets(Pending(content, i, cur), Starts(content, NextDash(content, i), base),
            Stray(content, i, base, cur != []))
  }

  lemma {:induction false} RestDash(content: seq<string>, i: nat, base: nat, cur: seq<string>)
    requires i < |content| && IsDash(content[i])
    ensures var a, b := Rest(content, i, base, cur), Rest(content, i + 1, base, [content[i][2..]]);
            a == Bullets(Flush(cur) + b.items, [base + i] + b.starts, b.stray)
  {
    hide Pending, Flush, Blank;
    PendingDash(content, i, cur);
  }

  lemma {:induction false} PendingDash(content: seq<string>, i: nat, cur: seq<string>)
    requires i < |content| && IsDash(content[i])
    ensures Pending(content, i, cur) == Flush(cur) + Pending(content, i + 1, [content[i][2..]])
  {
    hide ItemAt, Join, TrimNL, IsDash;
    PendingOpen(content, i);
    assert NextDash(content, i) == i;
    assert cur + Continuations(content, i, i) == cur;
  }

  lemma {:induction false} PendingOpen(content: seq<string>, i: nat)
    requires i < |content| && IsDash(content[i])
    ensures Pending(content, i + 1, [content[i][2..]]) == Items(content, i)
  {}

  lemma {:induction false} RestLine(content: seq<string>, i: nat, base: nat, cur: seq<string>)
    requires i < |content| && !IsDash(content[i])
    ensures var a := Rest(content, i, base, cur);
            if Blank(content[i]) then
              a == Rest(content, i + 1, base, if cur == [] then [] else cur + [""])
            else if "  " <= content[i] && cur != [] then
              a == Rest(content, i + 1, base, cur + [content[i][2..]])
            else
              var b := Rest(content, i + 1, base, cur);
              a == b.(stray := [base + i] + b.stray)
  {
    var n := NextDash(content, i + 1);
    assert NextDash(content, i) == n;
    var c, r := Continuation(content[i]), Continuations(content, i + 1, n);
    assert Continuations(content, i, n) == c + r;
    Assoc(cur, c, r);
    assert cur + [] == cur;
  }

  function Plus(a: Bullets, b: Bullets): Bullets {
    Bullets(a.items + b.items, a.starts + b.starts, a.stray + b.stray)
  }

  lemma {:induction false} PlusAssoc(a: Bullets, b: Bullets, c: Bullets)
    ensures Plus(Plus(a, b), c) == Plus(a, Plus(b, c))
  {
    Assoc(a.items, b.items, c.items);
    Assoc(a.starts, b.starts, c.starts);
    Assoc(a.stray, b.stray, c.stray);
  }

  method ParseBullets(content: seq<string>, base: nat)
    returns (items: seq<string>, starts: seq<nat>, stray: seq<nat>)
    ensures Bullets(items, starts, stray) == ScanBullets(content, base)
  {
    hide Rest, ScanBullets, Flush, Blank;
    items, starts, stray := [], [], [];
    var cur: seq<string> := [];
    RestAll(content, base);
    for i := 0 to |content|
      invariant Plus(Bullets(items, starts, stray), Rest(content, i, base, cur)) == ScanBullets(content, base)
    {
      var l := content[i];
      ghost var before := Bullets(items, starts, stray);
      if "- " <= l {
        RestDash(content, i, base, cur);
        PlusAssoc(before, Bullets(Flush(cur), [base + i], []), Rest(content, i + 1, base, [l[2..]]));
        items := items + Flush(cur);
        starts := starts + [base + i];
        cur := [l[2..]];
      } else {
        RestLine(content, i, base, cur);
        if Blank(l) {
          if cur != [] { cur := cur + [""]; }
        } else if "  " <= l && cur != [] {
          cur := cur + [l[2..]];
        } else {
          PlusAssoc(before, Bullets([], [], [base + i]), Rest(content, i + 1, base, cur));
          stray := stray + [base + i];
        }
      }
    }
    FlushEnd(content, base, cur);
    items := items + Flush(cur);
  }

  lemma {:induction false} RestAll(content: seq<string>, base: nat)
    ensures Plus(Bullets([], [], []), Rest(content, 0, base, [])) == ScanBullets(content, base)
  {}

  lemma {:induction false} FlushEnd(content: seq<string>, base: nat, cur: seq<string>)
    ensures Rest(content, |content|, base, cur) == Bullets(Flush(cur), [], [])
  {
    assert cur + [] == cur;
  }

  method ReadTerms(items: seq<string>, starts: seq<nat>) returns (terms: seq<Term>, errs: seq<ParseError>)
    requires |items| == |starts|
    ensures terms == ParsedTerms(items, 0)
    ensures errs == TermErrors(items, starts, 0)
  {
    terms, errs := [], [];
    for n := 0 to |items|
      invariant terms + ParsedTerms(items, n) == ParsedTerms(items, 0)
      invariant errs + TermErrors(items, starts, n) == TermErrors(items, starts, 0)
    {
      var m := MatchTerm(items[n]);
      if m == None {
        Assoc(errs, [MalformedTerm(starts[n])], TermErrors(items, starts, n + 1));
        errs := errs + [MalformedTerm(starts[n])];
      } else {
        Assoc(terms, [m.value], ParsedTerms(items, n + 1));
        terms := terms + [m.value];
      }
    }
  }

  method ReadSection(table: seq<SlotDescriptor>, st: ParseState, sec: Section) returns (next: ParseState)
    ensures next == ParseSection(table, st, sec)
  {
    var found := SlotByHeading(table, sec.heading);
    if found == None { return st.(errs := st.errs + [UnknownSection(sec.line)]); }
    var d := found.value;
    if d.key in st.seen { return st.(errs := st.errs + [DuplicateSection(sec.line)]); }
    var slots, errs := st.slots, st.errs;
    match d.kind {
      case TermKind =>
        var items, starts, stray := ParseBullets(sec.content, sec.line + 1);
        BulletsPair(sec.content, NextDash(sec.content, 0), sec.line + 1);
        var terms, termErrs := ReadTerms(items, starts);
        slots := slots.(terminology := slots.terminology + terms);
        errs := errs + StrayErrors(stray, 0) + termErrs;
      case ListKind =>
        var items, _, stray := ParseBullets(sec.content, sec.line + 1);
        slots := slots.SetList(d.key, items);
        errs := errs + StrayErrors(stray, 0);
      case ProseKind =>
        slots := slots.SetProse(d.key, TrimNL(Join(sec.content)));
    }
    return ParseState(slots, st.seen + {d.key}, errs);
  }

  method ReadSections(table: seq<SlotDescriptor>, start: ParseState, secs: seq<Section>) returns (st: ParseState)
    ensures st == ParseSections(table, start, secs, 0)
  {
    st := start;
    for h := 0 to |secs|
      invariant ParseSections(table, st, secs, h) == ParseSections(table, start, secs, 0)
    {
      st := ReadSection(table, st, secs[h]);
    }
  }

  method CheckPreamble(body: seq<string>, stop: nat, line: nat) returns (errs: seq<ParseError>)
    requires stop <= |body|
    ensures errs == PreambleErrors(body, 0, stop, line, false)
  {
    var titled := false;
    for i := 0 to stop
      invariant PreambleErrors(body, 0, stop, line, false) == PreambleErrors(body, i, stop, line, titled)
    {
      var t := TrimSpace(body[i]);
      if t != "" {
        if !titled && "# " <= t {
          titled := true;
        } else {
          return [ContentBeforeSection(line + i)];
        }
      }
    }
    return [];
  }

  /** From index h on, heads lists the section headings of body from position at on. */
  ghost predicate HeadsFrom(body: seq<string>, at: nat, heads: seq<nat>, h: nat)
    requires at <= |body| && h <= |heads|
    decreases |heads| - h
  {
    var n := HeadAt(body, at);
    if h == |heads| then n == |body|
    else n < |body| && heads[h] == n && HeadsFrom(body, n + 1, heads, h + 1)
  }

  /** Reading one more line extends the list by that line, if it is a heading. */
  lemma {:induction false} HeadsSnoc(body: seq<string>, at: nat, heads: seq<nat>, h: nat, i: nat)
    requires at <= i < |body| && h <= |heads| && HeadsFrom(body[..i], at, heads, h)
    ensures HeadsFrom(body[..i + 1], at, if IsHead(body[i]) then heads + [i] else heads, h)
    decreases |heads| - h
  {
    HeadPrefix(body, at, i);
    if h < |heads| { HeadsSnoc(body, heads[h] + 1, heads, h + 1, i); }
  }

  lemma {:induction false} HeadPrefix(body: seq<string>, at: nat, i: nat)
    requires at <= i < |body|
    ensures var n := HeadAt(body[..i], at);
            HeadAt(body[..i + 1], at) == if n < i then n else if IsHead(body[i]) then i else i + 1
    decreases i - at
  {
    if at < i { HeadPrefix(body, at + 1, i); }
  }

  /** The positions of all section headings. */
  method FindHeads(body: seq<string>) returns (heads: seq<nat>)
    ensures HeadsFrom(body, 0, heads, 0)
  {
    heads := [];
    for i := 0 to |body|
      invariant HeadsFrom(body[..i], 0, heads, 0)
    {
      HeadsSnoc(body, 0, heads, 0, i);
      if IsHead(body[i]) { heads := heads + [i]; }
    }
    assert body[..|body|] == body;
  }

  /** The section whose heading is at index at. */
  function SectionAt(body: seq<string>, at: nat, next: nat, line: nat): Section
    requires at < next <= |body| && IsHead(body[at])
  {
    Section(TrimSpace(body[at][3..]), body[at + 1..next], line + at)
  }

  /** One turn of the section loop: heads[h] is the heading to cut at, the next entry ends it. */
  lemma {:induction false} CutStep(secs: seq<Section>, body: seq<string>, from: nat, heads: seq<nat>, h: nat,
                                   line: nat, goal: seq<Section>)
    requires from <= |body| && h < |heads| && HeadsFrom(body, from, heads, h)
    requires secs + Sections(body, HeadAt(body, from), line) == goal
    ensures var at := heads[h];
            var next := if h + 1 < |heads| then heads[h + 1] else |body|;
            && at < next <= |body| && IsHead(body[at])
            && HeadsFrom(body, at + 1, heads, h + 1) && next == HeadAt(body, at + 1)
            && (secs + [SectionAt(body, at, next, line)]) + Sections(body, next, line) == goal
  {
    var at := heads[h];
    assert HeadsFrom(body, at + 1, heads, h + 1);
    var next := HeadAt(body, at + 1);
    Assoc(secs, [SectionAt(body, at, next, line)], Sections(body, next, line));
  }

  /** The body cut at its headings. */
  method CutSections(body: seq<string>, heads: seq<nat>, line: nat) returns (secs: seq<Section>)
    requires HeadsFrom(body, 0, heads, 0)
    ensures secs == Sections(body, HeadAt(body, 0), line)
  {
    hide SectionAt, IsHead;
    secs := [];
    ghost var from: nat := 0;
    ghost var goal := Sections(body, HeadAt(body, 0), line);
    for h := 0 to |heads|
      invariant from <= |body| && HeadsFrom(body, from, heads, h)
      invariant secs + Sections(body, HeadAt(body, from), line) == goal
    {
      CutStep(secs, body, from, heads, h, line, goal);
      var next := if h + 1 < |heads| then heads[h + 1] else |body|;
      secs := secs + [SectionAt(body, heads[h], next, line)];
      from := heads[h] + 1;
    }
  }

  method ReadBody(table: seq<SlotDescriptor>, body: seq<string>, line: nat, typeErrs: seq<ParseError>)
    returns (st: ParseState)
    ensures st == ParseBody(table, body, line, typeErrs)
  {
    var heads := FindHeads(body);
    var stop := if heads == [] then |body| else heads[0];
    var errs := CheckPreamble(body, stop, line);
    var secs := CutSections(body, heads, line);
    st := ReadSections(table, ParseState(EMPTY_SLOTS, {}, typeErrs + errs), secs);
  }

  method ReadFences(ls: seq<string>) returns (r: Result<File, ParseError>)
    ensures r == CutFile(ls)
  {
    hide TrimSpace, Join;
    var i := 0;
    while i < |ls| && TrimSpace(ls[i]) == ""
      invariant i <= |ls|
      invariant FirstNonBlank(ls, 0) == FirstNonBlank(ls, i)
    {
      i := i + 1;
    }
    if i >= |ls| || TrimSpace(ls[i]) != FENCE { return Err(NoFrontmatter(i + 1)); }
    var end := FindFence(ls, i + 1);
    if end >= |ls| { return Err(UnclosedFrontmatter(i + 1)); }
    return Ok(File(Join(ls[i + 1..end]), ls[end + 1..], i + 2, end + 2));
  }

  method FindFence(ls: seq<string>, i: nat) returns (end: nat)
    requires i <= |ls|
    ensures end == FirstFence(ls, i)
  {
    end := i;
    while end < |ls| && TrimSpace(ls[end]) != FENCE
      invariant i <= end <= |ls|
      invariant FirstFence(ls, i) == FirstFence(ls, end)
    {
      end := end + 1;
    }
  }

  method ReadParts(table: seq<SlotDescriptor>, y: Yaml, f: File) returns (r: Result<Doc, seq<ParseError>>)
    ensures r == ParsedParts(table, y, f)
  {
    var fm := y.decode(f.head);
    if fm == None { return Err([BadFrontmatter]); }
    var st := ReadBody(table, f.body, f.line, TypeErrors(fm.value.kind, f.headLine));
    return Finished(fm.value, st);
  }

  method ReadFile(table: seq<SlotDescriptor>, y: Yaml, ls: seq<string>) returns (r: Result<Doc, seq<ParseError>>)
    ensures r == ParsedFile(table, y, ls)
  {
    var f := ReadFences(ls);
    match f {
      case Err(e) => r := Err([e]);
      case Ok(f) => r := ReadParts(table, y, f);
    }
  }

  method UnmarshalMarkdown(y: Yaml, content: string) returns (r: Result<Doc, seq<ParseError>>)
    ensures r == Parsed(SLOT_TABLE, y, content)
  {
    r := ReadFile(SLOT_TABLE, y, Lines(FoldCRLF(content)));
  }
}
