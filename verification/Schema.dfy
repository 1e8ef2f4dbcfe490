/** The fixed frame schema: documents, their ten slots, and the slot table. */
module Schema {
  import opened Text

  datatype Option<+T> = None | Some(value: T)

  datatype Result<+T, +E> = Ok(value: T) | Err(error: E)

  datatype ExtendRef = ExtendRef(ref: string, version: string)

  datatype Term = Term(term: string, definition: string)

  datatype SlotKey =
    | Terminology | Rules | Skills | Prompts
    | ToolSpecs | Goals | Style | Norms | Architecture | BusinessProcess

  datatype SlotKind = TermKind | ListKind | ProseKind

  datatype SlotDescriptor = SlotDescriptor(key: SlotKey, heading: string, kind: SlotKind)

  /** The ten slots with their Markdown headings; the codec prints and reads them in this order. */
  const SLOT_TABLE: seq<SlotDescriptor> := [
    SlotDescriptor(Terminology, "Terminology", TermKind),
    SlotDescriptor(Rules, "Rules", ListKind),
    SlotDescriptor(Skills, "Skills", ListKind),
    SlotDescriptor(Prompts, "Prompts", ListKind),
    SlotDescriptor(ToolSpecs, "Tool Specifications", ProseKind),
    SlotDescriptor(Goals, "Goals", ProseKind),
    SlotDescriptor(Style, "Style", ProseKind),
    SlotDescriptor(Norms, "Norms", ProseKind),
    SlotDescriptor(Architecture, "Architecture", ProseKind),
    SlotDescriptor(BusinessProcess, "Business Process", ProseKind)
  ]

  datatype Slots = Slots(
    terminology: seq<Term>, rules: seq<string>, skills: seq<string>, prompts: seq<string>,
    toolSpecs: string, goals: string, style: string, norms: string,
    architecture: string, businessProcess: string)
  {
    /** A list slot by key; empty for any other key. */
    function List(key: SlotKey): seq<string> {
      match key
      case Rules => rules
      case Skills => skills
      case Prompts => prompts
      case _ => []
    }

    function SetList(key: SlotKey, items: seq<string>): Slots {
      match key
      case Rules => this.(rules := items)
      case Skills => this.(skills := items)
      case Prompts => this.(prompts := items)
      case _ => this
    }

    /** A prose slot by key; empty for any other key. */
    function Prose(key: SlotKey): string {
      match key
      case ToolSpecs => toolSpecs
      case Goals => goals
      case Style => style
      case Norms => norms
      case Architecture => architecture
      case BusinessProcess => businessProcess
      case _ => ""
    }

    function SetProse(key: SlotKey, body: string): Slots {
      match key
      case ToolSpecs => this.(toolSpecs := body)
      case Goals => this.(goals := body)
      case Style => this.(style := body)
      case Norms => this.(norms := body)
      case Architecture => this.(architecture := body)
      case BusinessProcess => this.(businessProcess := body)
      case _ => this
    }
  }

  const EMPTY_SLOTS := Slots([], [], [], [], "", "", "", "", "", "")

  datatype Doc = Doc(
    name: string, description: string, version: string,
    visibility: string, scope: string, maintainer: string,
    extends_: seq<ExtendRef>, excludes: seq<string>, slots: Slots)

  /** The first entry of the table, from index k on, with this heading. */
  function FindHeading(table: seq<SlotDescriptor>, heading: string, k: nat): Option<SlotDescriptor>
    requires k <= |table|
    decreases |table| - k
  {
    if k == |table| then None
    else if table[k].heading == heading then Some(table[k])
    else FindHeading(table, heading, k + 1)
  }

  method SlotByHeading(table: seq<SlotDescriptor>, heading: string) returns (d: Option<SlotDescriptor>)
    ensures d == FindHeading(table, heading, 0)
  {
    for k := 0 to |table|
      invariant FindHeading(table, heading, 0) == FindHeading(table, heading, k)
    {
      if table[k].heading == heading { return Some(table[k]); }
    }
    return None;
  }

  /** Keys and headings both identify the entry, and a heading survives its own line. */
  ghost predicate WellFormedTable(table: seq<SlotDescriptor>) {
    && (forall i, j | 0 <= i < j < |table| ::
          table[i].key != table[j].key && table[i].heading != table[j].heading)
    && (forall i | 0 <= i < |table| :: HeadingOk(table[i].heading))
  }

  function KeyAt(k: nat): SlotKey
    requires k < 10
  {
    if k == 0 then Terminology else if k == 1 then Rules else if k == 2 then Skills
    else if k == 3 then Prompts else if k == 4 then ToolSpecs else if k == 5 then Goals
    else if k == 6 then Style else if k == 7 then Norms else if k == 8 then Architecture
    else BusinessProcess
  }

  /** A table of all ten slots in schema order; SLOT_TABLE is one. */
  ghost predicate GoodTable(table: seq<SlotDescriptor>) {
    && WellFormedTable(table) && |table| == 10
    && forall k: nat | k < 10 ::
         table[k].key == KeyAt(k) &&
         table[k].kind == if k == 0 then TermKind else if k < 4 then ListKind else ProseKind
  }

  predicate HeadingOk(h: string) {
    OneLine(h) && h != "" && !IsSpace(h[0]) && !IsSpace(h[|h| - 1])
  }

  lemma {:induction false} SlotTableWellFormed()
    ensures WellFormedTable(SLOT_TABLE)
  {
    var t := SLOT_TABLE;
    forall i, j | 0 <= i < j < |t| ensures t[i].key != t[j].key && t[i].heading != t[j].heading {
      EntriesDiffer(i, j);
    }
    forall i | 0 <= i < |t| ensures HeadingOk(t[i].heading) { EntryOk(i); }
  }

  lemma {:induction false} TableAt(k: nat)
    requires k < 10
    ensures |SLOT_TABLE| == 10 && SLOT_TABLE[k].key == KeyAt(k)
    ensures SLOT_TABLE[k].kind == if k == 0 then TermKind else if k < 4 then ListKind else ProseKind
  {}

  lemma {:induction false} SlotTableGood()
    ensures GoodTable(SLOT_TABLE)
  {
    var t := SLOT_TABLE;
    SlotTableWellFormed();
    forall k: nat | k < 10
      ensures t[k].key == KeyAt(k)
      ensures t[k].kind == if k == 0 then TermKind else if k < 4 then ListKind else ProseKind
    {
      TableAt(k);
    }
  }

  lemma {:induction false} EntryOk(i: nat)
    requires i < |SLOT_TABLE|
    ensures HeadingOk(SLOT_TABLE[i].heading)
  {
    var h := SLOT_TABLE[i].heading;
    if i < 4 {
      assert h in ["Terminology", "Rules", "Skills", "Prompts"];
    } else if i < 7 {
      assert h in ["Tool Specifications", "Goals", "Style"];
    } else {
      assert h in ["Norms", "Architecture", "Business Process"];
    }
    hide *;
    WordsOk(h);
  }

  /** A line that starts and ends in a letter. */
  lemma {:induction false} WordsOk(h: string)
    requires h != "" && 'A' <= h[0] <= 'Z' && 'a' <= h[|h| - 1] <= 'z' && '\n' !in h
    ensures HeadingOk(h)
  {}

  lemma {:induction false} EntriesDiffer(i: nat, j: nat)
    requires i < j < |SLOT_TABLE|
    ensures SLOT_TABLE[i].key != SLOT_TABLE[j].key && SLOT_TABLE[i].heading != SLOT_TABLE[j].heading
  {
    var a, b := SLOT_TABLE[i].heading, SLOT_TABLE[j].heading;
    assert a[0] != b[0] || a[1] != b[1] || |a| != |b|;
  }

  /** Looking up an entry's own heading finds that entry. */
  lemma {:induction false} HeadingFound(table: seq<SlotDescriptor>, k: nat, i: nat)
    requires WellFormedTable(table) && i <= k < |table|
    ensures FindHeading(table, table[k].heading, i) == Some(table[k])
    decreases k - i
  {
    if i < k { HeadingFound(table, k, i + 1); }
  }
}
