/** The codec's and the resolver's laws for the registry's own slot table. */
module Guarantees {
  import opened Text
  import opened Schema
  import opened Codec
  import opened CodecLaws
  import opened CodecRoundTrip
  import opened CodecShape
  import opened NormalForm
  import opened Validate
  import Resolver
  import ResolverLaws
  import Templates

  /** A valid document survives printing and parsing exactly when it is canonical. */
  lemma {:induction false} ValidRoundTrip(y: Yaml, doc: Doc)
    requires Valid(doc) && Framed(y, FrontOf(doc))
    ensures Parsed(SLOT_TABLE, y, Markdown(SLOT_TABLE, y, doc)) == Ok(doc) <==> Canonical(doc)
  {
    hide *;
    assert OneLine(doc.name) by { ValidName(doc); }
    SlotTableGood();
    RoundTrip(SLOT_TABLE, y, doc);
  }

  /** A document without a visibility, one whose prose ends a line with a return, one with blank prose. */
  const UNSEEN := Doc("a", "d", "1.0.0", "", "", "", [], [], EMPTY_SLOTS)
  const RETURNED := Doc("a", "d", "1.0.0", "public", "", "", [], [], EMPTY_SLOTS.(goals := "x\r"))
  const BLANKED := Doc("a", "d", "1.0.0", "public", "", "", [], [], EMPTY_SLOTS.(goals := " "))

  /** Three valid documents that the codec does not give back, whatever the YAML library. */
  lemma {:induction false} CodecLoses(y: Yaml)
    requires Framed(y, FrontOf(UNSEEN)) && Framed(y, FrontOf(RETURNED)) && Framed(y, FrontOf(BLANKED))
    ensures Valid(UNSEEN) && Parsed(SLOT_TABLE, y, Markdown(SLOT_TABLE, y, UNSEEN)) != Ok(UNSEEN)
    ensures Valid(RETURNED) && Parsed(SLOT_TABLE, y, Markdown(SLOT_TABLE, y, RETURNED)) != Ok(RETURNED)
    ensures Valid(BLANKED) && Parsed(SLOT_TABLE, y, Markdown(SLOT_TABLE, y, BLANKED)) != Ok(BLANKED)
  {
    hide *;
    LossyOnes();
    ValidRoundTrip(y, UNSEEN);
    ValidRoundTrip(y, RETURNED);
    ValidRoundTrip(y, BLANKED);
  }

  lemma {:induction false} LossyOnes()
    ensures Valid(UNSEEN) && !Canonical(UNSEEN) && Valid(RETURNED) && !Canonical(RETURNED)
    ensures Valid(BLANKED) && !Canonical(BLANKED)
  {
    hide ProseShape, ItemShape, TermShape;
    assert NameChar("a"[0]) && !IsSpace("1.0.0"[0]);
    assert "public" in VISIBILITY_VALUES;
    assert RETURNED.slots.goals[1] == '\r' && !NoReturnEnds(RETURNED.slots.goals);
    assert !CanonicalProse(RETURNED.slots.goals);
    assert BLANKED.slots.goals != "" && Blank(BLANKED.slots.goals) && !CanonicalProse(BLANKED.slots.goals);
  }

  lemma {:induction false} ValidName(doc: Doc)
    requires Valid(doc)
    ensures OneLine(doc.name)
  {
    hide SlotsOk, ParentsOk;
    NameOneLine(doc.name);
  }

  /** Printing what was parsed from return-free text, once, is a normal form. */
  lemma {:induction false} ParsedSettles(y: Yaml, text: string, doc: Doc)
    requires '\r' !in text && Valid(doc) && doc.visibility != "" && Framed(y, FrontOf(doc))
    ensures var once, out := doc.(slots := Settled(doc.slots)), Markdown(SLOT_TABLE, y, doc);
            Parsed(SLOT_TABLE, y, text) == Ok(doc) ==>
              Parsed(SLOT_TABLE, y, out) == Ok(once) && Markdown(SLOT_TABLE, y, once) == out
  {
    hide *;
    SlotTableGood();
    PrintOnce(SLOT_TABLE, y, text, doc);
  }

  /** A resolved document over canonical frames survives the Markdown codec. */
  lemma {:induction false} ResolvedRoundTrips(y: Yaml, g: Resolver.Graph, doc: Doc, parents: seq<ExtendRef>,
                                              excludes: seq<string>)
    requires CanonicalSlots(doc.slots)
    requires doc.visibility != "" && TitleOk(doc.name) && OneLine(doc.name)
    requires forall chain | chain != [] && ResolverLaws.Chain(g, parents, Resolver.Elements(excludes), chain) &&
                            chain[|chain| - 1] in g :: CanonicalSlots(g[chain[|chain| - 1]].slots)
    ensures var r := Resolver.Resolved(g, doc, parents, excludes);
            r.Ok? && Framed(y, FrontOf(r.value)) ==>
              Parsed(SLOT_TABLE, y, Markdown(SLOT_TABLE, y, r.value)) == Ok(r.value)
  {
    hide *;
    var r := Resolver.Resolved(g, doc, parents, excludes);
    if r.Ok? && Framed(y, FrontOf(r.value)) {
      ResolverLaws.ResolvedCanonical(g, doc, parents, excludes);
      assert r.value.name == doc.name by { SameName(g, doc, parents, excludes); }
      SlotTableGood();
      RoundTrip(SLOT_TABLE, y, r.value);
    }
  }

  lemma {:induction false} SameName(g: Resolver.Graph, doc: Doc, parents: seq<ExtendRef>, excludes: seq<string>)
    requires Resolver.Resolved(g, doc, parents, excludes).Ok?
    ensures Resolver.Resolved(g, doc, parents, excludes).value.name == doc.name
  {
    hide Resolver.Walk;
  }

  /** For any error-free content, a template's check reports slot i exactly when it is required and
      the export writes no section for it; when no line of prose reads as the slot's heading, exactly
      when it is required and the export shows no such heading. */
  lemma {:induction false} CheckReadsExport(i: nat, rules: Templates.Rules, s: Slots)
    requires i < |SLOT_TABLE| && SlotsOk(s)
    ensures var missing := SLOT_TABLE[i].key in Templates.Missing(SLOT_TABLE, 0, rules, s);
            var required := Templates.Requires(rules, SLOT_TABLE[i].key);
            var shown := SLOT_TABLE[i].heading in Templates.Headings(SlotsLines(SLOT_TABLE, 0, s));
            && (missing <==> required && SlotLines(SLOT_TABLE[i], s) == [])
            && (!Templates.Faked(SLOT_TABLE, s, SLOT_TABLE[i].heading) ==> (missing <==> required && !shown))
  {
    hide Templates.Missing, Templates.Headings, SlotsLines, SlotLines, SlotsOk, Templates.Requires, Templates.Faked;
    SlotTableWellFormed();
    Templates.MissingFromExport(SLOT_TABLE, i, rules, s);
  }

  const FAKING := EMPTY_SLOTS.(goals := "## Rules")

  /** Goals prose that reads as the Rules section: an export of it shows a heading that no filled slot
      has, and a reader of its headings does not see that the rules are missing. */
  lemma {:induction false} ProseFakesHeading()
    ensures var shown := Templates.Headings(SlotsLines(SLOT_TABLE, 0, FAKING));
            && SlotsOk(FAKING) && FAKING.rules == [] && "Rules" in shown
            && shown != Templates.FilledHeadings(SLOT_TABLE, 0, FAKING)
  {
    hide SlotsLines, Templates.Headings, Templates.FilledHeadings, SlotsOk;
    GoalsEntry();
    GoalsFine(FAKING.goals);
    FakedRules();
    SlotTableWellFormed();
    hide Templates.ProseHeadings, Templates.HasContent;
    Templates.ExportShowsFilled(SLOT_TABLE, FAKING);
    Templates.ExportShows(SLOT_TABLE, 0, FAKING, "Rules");
    Templates.PlainEntry(SLOT_TABLE, 5, FAKING);
  }

  lemma {:induction false} GoalsEntry()
    ensures |SLOT_TABLE| == 10 && SLOT_TABLE[5] == SlotDescriptor(Goals, "Goals", ProseKind)
  {}

  lemma {:induction false} GoalsFine(goals: string)
    ensures SlotsOk(EMPTY_SLOTS.(goals := goals))
  {}

  lemma {:induction false} FakedRules()
    ensures Templates.ProseHeadings(SlotDescriptor(Goals, "Goals", ProseKind), FAKING) == ["Rules"]
  {
    hide Templates.Headings, Lines, TrimNL, HeadingOk;
    WordsOk("Rules");
    assert "## " + "Rules" == FAKING.goals && !IsSpace(FAKING.goals[0]);
    Templates.OneHeading("Rules");
  }
}
