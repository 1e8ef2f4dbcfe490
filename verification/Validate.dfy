/** Schema validation and template requirements, against what each reported error means. */
module Validate {
  import opened Text
  import opened Schema

  datatype FieldError =
    | BadName | NoDescription | LongDescription | NoVersion | BadVisibility
    | EmptyTerm(index: nat) | DuplicateTerm(index: nat) | EmptyDefinition(index: nat)
    | EmptyItem(key: SlotKey, index: nat)
    | BadParent(index: nat) | UnpinnedParent(index: nat)

  const VISIBILITY_VALUES: set<string> := {"private", "internal", "shared", "public"}
  const MAX_DESCRIPTION := 280

  predicate NameChar(c: char) { 'a' <= c <= 'z' || '0' <= c <= '9' }

  /** ^[a-z0-9][a-z0-9-]{0,63}$ */
  predicate NameOk(name: string) {
    && 1 <= |name| <= 64 && NameChar(name[0])
    && forall i | 1 <= i < |name| :: NameChar(name[i]) || name[i] == '-'
  }

  // ---------------------------------------------------------------- what each error means

  predicate Named(ts: seq<Term>, n: nat, name: string)
    requires n <= |ts|
  {
    exists j | 0 <= j < n :: ts[j].term == name
  }

  /** e is true of one of the first n terms. */
  predicate TermFault(ts: seq<Term>, n: nat, e: FieldError)
    requires n <= |ts|
  {
    match e
    case EmptyTerm(i) => i < n && Blank(ts[i].term)
    case DuplicateTerm(i) => i < n && !Blank(ts[i].term) && Named(ts, i, ts[i].term)
    case EmptyDefinition(i) => i < n && Blank(ts[i].definition)
    case _ => false
  }

  /** e is true of one of the first n items of a list slot. */
  predicate ItemFault(key: SlotKey, items: seq<string>, n: nat, e: FieldError)
    requires n <= |items|
  {
    e.EmptyItem? && e.key == key && e.index < n && Blank(items[e.index])
  }

  /** e is true of one of the first n parents. */
  predicate ParentFault(parents: seq<ExtendRef>, n: nat, e: FieldError)
    requires n <= |parents|
  {
    match e
    case BadParent(i) => i < n && '/' !in parents[i].ref
    case UnpinnedParent(i) => i < n && Blank(parents[i].version)
    case _ => false
  }

  predicate ContentFault(s: Slots, parents: seq<ExtendRef>, e: FieldError) {
    || TermFault(s.terminology, |s.terminology|, e)
    || ItemFault(Rules, s.rules, |s.rules|, e)
    || ItemFault(Skills, s.skills, |s.skills|, e)
    || ItemFault(Prompts, s.prompts, |s.prompts|, e)
    || ParentFault(parents, |parents|, e)
  }

  predicate HeaderFault(doc: Doc, e: FieldError) {
    match e
    case BadName => !NameOk(doc.name)
    case NoDescription => doc.description == ""
    case LongDescription => |doc.description| > MAX_DESCRIPTION
    case NoVersion => Blank(doc.version)
    case BadVisibility => doc.visibility != "" && doc.visibility !in VISIBILITY_VALUES
    case _ => false
  }

  predicate Distinct(errs: seq<FieldError>) { forall i, j | 0 <= i < j < |errs| :: errs[i] != errs[j] }

  lemma {:induction false} DistinctPlus(a: seq<FieldError>, b: seq<FieldError>)
    requires Distinct(a) && Distinct(b) && forall e | e in a :: e !in b
    ensures Distinct(a + b)
  {
    var ab := a + b;
    forall i, j | 0 <= i < j < |ab| ensures ab[i] != ab[j] {
      if i < |a| <= j { assert a[i] in a && b[j - |a|] in b; }
    }
  }

  predicate FilledTerm(t: Term) { !Blank(t.term) && !Blank(t.definition) }

  predicate FilledTerms(ts: seq<Term>) { forall i | 0 <= i < |ts| :: FilledTerm(ts[i]) }

  predicate DistinctTerms(ts: seq<Term>) { forall i, j | 0 <= i < j < |ts| :: ts[i].term != ts[j].term }

  predicate FilledItems(items: seq<string>) { forall i | 0 <= i < |items| :: !Blank(items[i]) }

  /** Error-free slots: filled terms with distinct names, and no blank item. */
  predicate SlotsOk(s: Slots) {
    && FilledTerms(s.terminology) && DistinctTerms(s.terminology)
    && FilledItems(s.rules) && FilledItems(s.skills) && FilledItems(s.prompts)
  }

  predicate ParentOk(p: ExtendRef) { '/' in p.ref && !Blank(p.version) }

  predicate ParentsOk(parents: seq<ExtendRef>) { forall i | 0 <= i < |parents| :: ParentOk(parents[i]) }

  predicate HeaderOk(doc: Doc) {
    && NameOk(doc.name)
    && 0 < |doc.description| <= MAX_DESCRIPTION
    && !Blank(doc.version)
    && (doc.visibility == "" || doc.visibility in VISIBILITY_VALUES)
  }

  predicate Valid(doc: Doc) { HeaderOk(doc) && SlotsOk(doc.slots) && ParentsOk(doc.extends_) }

  // ---------------------------------------------------------------- the checks

  method CheckTerms(ts: seq<Term>) returns (errs: seq<FieldError>)
    ensures forall e :: e in errs <==> TermFault(ts, |ts|, e)
    ensures Distinct(errs)
  {
    errs := [];
    var seen: set<string> := {};
    for i := 0 to |ts|
      invariant forall x :: x in seen <==> Named(ts, i, x)
      invariant forall e :: e in errs <==> TermFault(ts, i, e)
      invariant Distinct(errs)
    {
      var t := ts[i];
      TrimEmpty(t.term, Spaces);
      TrimEmpty(t.definition, Spaces);
      if TrimSpace(t.term) == "" {
        DistinctPlus(errs, [EmptyTerm(i)]);
        errs := errs + [EmptyTerm(i)];
      } else if t.term in seen {
        DistinctPlus(errs, [DuplicateTerm(i)]);
        errs := errs + [DuplicateTerm(i)];
      }
      seen := seen + {t.term};
      if TrimSpace(t.definition) == "" {
        DistinctPlus(errs, [EmptyDefinition(i)]);
        errs := errs + [EmptyDefinition(i)];
      }
    }
  }

  method CheckList(key: SlotKey, items: seq<string>) returns (errs: seq<FieldError>)
    ensures forall e :: e in errs <==> ItemFault(key, items, |items|, e)
    ensures Distinct(errs)
  {
    errs := [];
    for i := 0 to |items|
      invariant forall e :: e in errs <==> ItemFault(key, items, i, e)
      invariant Distinct(errs)
    {
      TrimEmpty(items[i], Spaces);
      if TrimSpace(items[i]) == "" {
        DistinctPlus(errs, [EmptyItem(key, i)]);
        errs := errs + [EmptyItem(key, i)];
      }
    }
  }

  method CheckParents(parents: seq<ExtendRef>) returns (errs: seq<FieldError>)
    ensures forall e :: e in errs <==> ParentFault(parents, |parents|, e)
    ensures Distinct(errs)
  {
    errs := [];
    for i := 0 to |parents|
      invariant forall e :: e in errs <==> ParentFault(parents, i, e)
      invariant Distinct(errs)
    {
      TrimEmpty(parents[i].version, Spaces);
      if '/' !in parents[i].ref {
        DistinctPlus(errs, [BadParent(i)]);
        errs := errs + [BadParent(i)];
      }
      if TrimSpace(parents[i].version) == "" {
        DistinctPlus(errs, [UnpinnedParent(i)]);
        errs := errs + [UnpinnedParent(i)];
      }
    }
  }

  /** contentErrors: every fault of the slots and the parents, each reported once. */
  method ContentErrors(s: Slots, parents: seq<ExtendRef>) returns (errs: seq<FieldError>)
    ensures forall e :: e in errs <==> ContentFault(s, parents, e)
    ensures Distinct(errs)
    ensures errs == [] <==> SlotsOk(s) && ParentsOk(parents)
  {
    var terms := CheckTerms(s.terminology);
    var rules := CheckList(Rules, s.rules);
    var skills := CheckList(Skills, s.skills);
    var prompts := CheckList(Prompts, s.prompts);
    var refs := CheckParents(parents);
    hide SlotsOk, ParentsOk;
    DistinctPlus(terms, rules);
    DistinctPlus(terms + rules, skills);
    DistinctPlus(terms + rules + skills, prompts);
    DistinctPlus(terms + rules + skills + prompts, refs);
    errs := terms + rules + skills + prompts + refs;
    NoContentFault(s, parents);
    if errs != [] { assert errs[0] in errs; }
  }

  /** Validate: every fault of the document, each reported once. */
  method Validate(doc: Doc) returns (errs: seq<FieldError>)
    ensures forall e :: e in errs <==> HeaderFault(doc, e) || ContentFault(doc.slots, doc.extends_, e)
    ensures Distinct(errs)
    ensures errs == [] <==> Valid(doc)
  {
    var header := CheckHeader(doc);
    var content := ContentErrors(doc.slots, doc.extends_);
    hide HeaderOk, SlotsOk, ParentsOk;
    DistinctPlus(header, content);
    errs := header + content;
  }

  lemma {:induction false} BlankIff(s: string)
    ensures TrimSpace(s) == "" <==> Blank(s)
  {
    TrimEmpty(s, Spaces);
  }

  method CheckHeader(doc: Doc) returns (errs: seq<FieldError>)
    ensures forall e :: e in errs <==> HeaderFault(doc, e)
    ensures Distinct(errs)
    ensures errs == [] <==> HeaderOk(doc)
  {
    hide NameOk, Blank, Trim;
    errs := [];
    if !NameOk(doc.name) { errs := errs + [BadName]; }
    if doc.description == "" {
      errs := errs + [NoDescription];
    } else if |doc.description| > MAX_DESCRIPTION {
      errs := errs + [LongDescription];
    }
    BlankIff(doc.version);
    if TrimSpace(doc.version) == "" { errs := errs + [NoVersion]; }
    if doc.visibility != "" && doc.visibility !in VISIBILITY_VALUES { errs := errs + [BadVisibility]; }
  }

  // ---------------------------------------------------------------- no faults

  lemma {:induction false} NoTermFault(ts: seq<Term>)
    ensures (forall e :: !TermFault(ts, |ts|, e)) <==> FilledTerms(ts) && DistinctTerms(ts)
  {
    if forall e :: !TermFault(ts, |ts|, e) {
      forall i | 0 <= i < |ts| ensures FilledTerm(ts[i]) {
        assert !TermFault(ts, |ts|, EmptyTerm(i)) && !TermFault(ts, |ts|, EmptyDefinition(i));
      }
      forall i, j | 0 <= i < j < |ts| ensures ts[i].term != ts[j].term {
        assert !TermFault(ts, |ts|, EmptyTerm(j)) && !TermFault(ts, |ts|, DuplicateTerm(j));
      }
    }
  }

  lemma {:induction false} NoItemFault(key: SlotKey, items: seq<string>)
    ensures (forall e :: !ItemFault(key, items, |items|, e)) <==> FilledItems(items)
  {
    if forall e :: !ItemFault(key, items, |items|, e) {
      forall i | 0 <= i < |items| ensures !Blank(items[i]) {
        assert !ItemFault(key, items, |items|, EmptyItem(key, i));
      }
    }
  }

  lemma {:induction false} NoParentFault(parents: seq<ExtendRef>)
    ensures (forall e :: !ParentFault(parents, |parents|, e)) <==> ParentsOk(parents)
  {
    if forall e :: !ParentFault(parents, |parents|, e) {
      forall i | 0 <= i < |parents| ensures ParentOk(parents[i]) {
        assert !ParentFault(parents, |parents|, BadParent(i));
        assert !ParentFault(parents, |parents|, UnpinnedParent(i));
      }
    }
  }

  /** The faults of the content are none exactly when the content is error-free. */
  lemma {:induction false} NoContentFault(s: Slots, parents: seq<ExtendRef>)
    ensures (forall e :: !ContentFault(s, parents, e)) <==> SlotsOk(s) && ParentsOk(parents)
  {
    hide TermFault, ItemFault, ParentFault, FilledTerms, DistinctTerms, FilledItems, ParentsOk;
    NoTermFault(s.terminology);
    NoItemFault(Rules, s.rules);
    NoItemFault(Skills, s.skills);
    NoItemFault(Prompts, s.prompts);
    NoParentFault(parents);
    if forall e :: !ContentFault(s, parents, e) {
      forall e ensures !TermFault(s.terminology, |s.terminology|, e) { assert !ContentFault(s, parents, e); }
      forall e ensures !ItemFault(Rules, s.rules, |s.rules|, e) { assert !ContentFault(s, parents, e); }
      forall e ensures !ItemFault(Skills, s.skills, |s.skills|, e) { assert !ContentFault(s, parents, e); }
      forall e ensures !ItemFault(Prompts, s.prompts, |s.prompts|, e) { assert !ContentFault(s, parents, e); }
      forall e ensures !ParentFault(parents, |parents|, e) { assert !ContentFault(s, parents, e); }
    }
  }

  // ---------------------------------------------------------------- what validity asks for

  /** Lower-case letters, digits and dashes, at most 64 of them, the first no dash. */
  predicate PlainName(name: string) {
    && 0 < |name| < 65 && name[0] != '-'
    && forall c | c in name :: 'a' <= c <= 'z' || '0' <= c <= '9' || c == '-'
  }

  lemma {:induction false} NameIff(name: string)
    ensures NameOk(name) <==> PlainName(name)
  {
    forall i | 0 <= i < |name| ensures name[i] in name {}
    if NameOk(name) {
      forall c | c in name ensures NameChar(c) || c == '-' { var i :| 0 <= i < |name| && name[i] == c; }
    }
  }

  /** A document is valid exactly when its name is plain, its description has 1 to 280 characters, its version
      is not blank, its visibility is one of the four or left out, no term, definition or item is blank, no two
      terms are the same, and every parent names its org and a version. */
  lemma {:induction false} ValidIff(doc: Doc)
    ensures Valid(doc) <==>
            && PlainName(doc.name) && 1 <= |doc.description| <= 280 && TrimSpace(doc.version) != ""
            && doc.visibility in ["", "private", "internal", "shared", "public"]
            && (forall t | t in doc.slots.terminology :: TrimSpace(t.term) != "" && TrimSpace(t.definition) != "")
            && (forall i, j | 0 <= i < j < |doc.slots.terminology| ::
                  doc.slots.terminology[i].term != doc.slots.terminology[j].term)
            && (forall x | x in doc.slots.rules + doc.slots.skills + doc.slots.prompts :: TrimSpace(x) != "")
            && forall p | p in doc.extends_ :: '/' in p.ref && TrimSpace(p.version) != ""
  {
    hide NameOk, PlainName, Trim;
    NameIff(doc.name);
    forall x ensures TrimSpace(x) != "" <==> !Blank(x) { TrimEmpty(x, Spaces); }
    hide Blank;
    VisibilityIff(doc.visibility);
    hide VISIBILITY_VALUES;
    FilledIff(doc.slots.rules);
    FilledIff(doc.slots.skills);
    FilledIff(doc.slots.prompts);
    hide FilledItems;
    var ts, ps := doc.slots.terminology, doc.extends_;
    assert FilledTerms(ts) <==> forall t | t in ts :: FilledTerm(t);
    assert ParentsOk(ps) <==> forall p | p in ps :: ParentOk(p);
  }

  lemma {:induction false} VisibilityIff(v: string)
    ensures v == "" || v in VISIBILITY_VALUES <==> v in ["", "private", "internal", "shared", "public"]
  {}

  lemma {:induction false} FilledIff(items: seq<string>)
    ensures FilledItems(items) <==> forall x | x in items :: !Blank(x)
  {
    hide Blank;
  }

  /** What each error that validation reports says of the document. */
  lemma {:induction false} FaultMeans(doc: Doc, e: FieldError)
    ensures HeaderFault(doc, e) || ContentFault(doc.slots, doc.extends_, e) <==>
            var ts := doc.slots.terminology;
            match e
            case BadName => !PlainName(doc.name)
            case NoDescription => |doc.description| == 0
            case LongDescription => |doc.description| > 280
            case NoVersion => TrimSpace(doc.version) == ""
            case BadVisibility => doc.visibility !in ["", "private", "internal", "shared", "public"]
            case EmptyTerm(i) => i < |ts| && TrimSpace(ts[i].term) == ""
            case DuplicateTerm(i) =>
              i < |ts| && TrimSpace(ts[i].term) != "" && exists j | 0 <= j < i :: ts[j].term == ts[i].term
            case EmptyDefinition(i) => i < |ts| && TrimSpace(ts[i].definition) == ""
            case EmptyItem(key, i) =>
              key in {Rules, Skills, Prompts} && i < |doc.slots.List(key)| && TrimSpace(doc.slots.List(key)[i]) == ""
            case BadParent(i) => i < |doc.extends_| && '/' !in doc.extends_[i].ref
            case UnpinnedParent(i) => i < |doc.extends_| && TrimSpace(doc.extends_[i].version) == ""
  {
    hide NameOk, PlainName, Trim;
    NameIff(doc.name);
    VisibilityIff(doc.visibility);
    forall x ensures TrimSpace(x) == "" <==> Blank(x) { TrimEmpty(x, Spaces); }
    hide Blank, VISIBILITY_VALUES;
  }
}
