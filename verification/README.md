# Frames registry: a verified model

A frame is a versioned document of ten slots. The registry stores frames, resolves
their inheritance, exchanges them as `.frame.md` files, draws their hierarchy, and
lets members of an organization publish, update and delete them. This project models
those parts of the registry and proves what they promise. `dafny verify dfyconfig.toml`
checks all of it.

The source is one program in Go with a TypeScript client. What it does step by step is
a method here, with loops over the same variables or a class with the same fields, and
each such method is tied to a function of the old state or of its inputs. The laws are
lemmas about those functions.

| files | what they hold |
|---|---|
| `Text`, `Schema` | trimming, lines and CRLF folding; documents and the slot table |
| `Codec`, `CodecShape`, `CodecPrint`, `CodecLaws`, `CodecRoundTrip`, `PrintLaws`, `NormalForm`, `Bullets`, `Acceptance`, `ReadSlots` | the Markdown codec: printer and parser, which texts are accepted and as what, what is printed, when nothing is lost |
| `Validate`, `Templates` | schema validation and template requirements |
| `Merge`, `Resolver`, `ResolverLaws` | the three merges and the inheritance walk |
| `Hierarchy`, `BackEdges`, `RowOrder`, `HierarchyBuild`, `LayoutLaws`, `Lineage` | levels, back edges, sorted rows, the drawing, and the lineage of one frame |
| `Versions`, `VersionLaws`, `Registry`, `RequestLaws`, `RegistryLaws`, `LatestLaws`, `Reading`, `DeleteLaws`, `EdgeLaws`, `RegistryRuns` | publish, update, delete, which requests are accepted and what they write, runs of them, reads over time, and runs that break a promise |
| `Members`, `MemberRequests`, `MemberLaws` | memberships, caller resolution, admin handlers, seeding |
| `Guarantees` | the main laws for the registry's own slot table |

Assumptions, all visible as hypotheses or parameters:

- YAML is a pair of functions (`Codec.Yaml`). `CodecLaws.Framed` says what the codec
  needs of it for one frontmatter: the encoded text ends in a newline, no line of it
  trims to `---` or ends in a return, and decoding gives the frontmatter back.
- `CodecLaws.Canonical` spells out the documents the codec is lossless on: a visibility;
  a title that is empty or not blank; well-formed parent references; items and prose
  trimmed of newlines with no line ending in a return; no whitespace-only continuation
  line in items and terms; no prose line starting `## ` and no blank prose; non-empty
  trimmed terms with no `**:` after their first character.
- A request is one atomic step; a run is any sequence of requests by any callers, so
  clients' reads and writes interleave freely between requests. New ids and the encoded
  size of a document are parameters of the request.
- Sorting a row is a stable sort, as the language guarantees; the locale's comparison of
  ids is a parameter that is total and transitive (`RowOrder.Collates`).
- Everything a resolution can fetch for one caller is a finite map from pinned
  references to documents.

Where the code and its own words differ, the model follows the code:

- The codec calls itself lossless (backend/internal/frames/framemd.go:14-15). It is on
  canonical documents and on no others (`Guarantees.ValidRoundTrip`): blank prose, an
  empty visibility or returns at line ends do not come back (`Guarantees.CodecLoses`).
- A back edge is said to contribute nothing (web/src/lib/frame-hierarchy.ts:45-47); it
  counts as a parent at level 0 (line 58). `BackEdges.BackEdgesQuietIff` says exactly when
  that shows in one visit, `BackEdges.AlwaysQuietIff` exactly on which graphs it can. A
  frame may extend an earlier version of itself (`RegistryRuns.SelfExtends`), so the
  self-loop of `BackEdges.SelfLoopCounts` can be published.
- Only edges with a known child are said to be kept (web/src/lib/frame-hierarchy.ts:83-84);
  a placeholder made by an earlier edge counts as known, so the outcome depends on edge
  order (`HierarchyBuild.KeptAreFrameChildren`, `HierarchyBuild.OrderDecides`). The app
  always sets an edge's child to a listed frame's id
  (web/src/pages/useFrameHierarchy.ts:37), so only a direct caller of `buildHierarchy`
  meets this.
- The lineage is said to be all ancestors and all descendants
  (web/src/lib/frame-hierarchy.ts:149-152); on a cycle a descendant can be missed
  (`Lineage.CycleMisses`), and `Lineage.CompleteIff` says exactly when none is.
- Validation is said to enforce the shape of versions
  (backend/internal/frames/service.go:789-793); it only refuses blank ones
  (`RegistryRuns.DraftValidates`). Over a latest version that does not parse any version
  is accepted, so the latest can move backwards (`RegistryRuns.LatestGoesBack`);
  `LatestLaws.PublishKeepsHighest` and `LatestLaws.LatestAlwaysMax` say exactly when it
  does not.
- The delete guard looks for edges (backend/internal/frames/admin.go:89-112), while
  resolution follows names. After a forced delete and a publish under the same name the
  guard lets the new frame go although a child resolves through it
  (`RegistryRuns.ForcedDeleteDisarmsGuard`). `DeleteLaws.DeleteKeepsReadIff` says exactly
  which reads a delete breaks; without forced deletes an unforced one breaks none
  (`EdgeLaws.AlwaysWired`, `EdgeLaws.UnforcedDeleteKeepsReads`).

## Model

| member | source | states |
|---|---|---|
| `Codec.MarshalMarkdown` | backend/internal/frames/framemd.go:115-153 | builds the text frontmatter, title and sections in table order with one builder; the text is the one the round-trip theorems below are about |
| `Codec.WriteBullet` | backend/internal/frames/framemd.go:188-198 | appends one bullet: first line after "- ", continuations indented by two spaces, blank ones emptied |
| `Codec.WriteSlot` | backend/internal/frames/framemd.go:155-183 | appends the section of one slot, and nothing for an empty slot or blank prose |
| `PrintLaws.BulletIs` | backend/internal/frames/framemd.go:188-198 | for any item, line by line: "- " and the first line, two spaces and each further one, blank ones emptied, outer newlines not printed |
| `PrintLaws.OuterNewlinesGo` | backend/internal/frames/framemd.go:155-183 | whatever the slots, cutting the outer newlines of items and prose changes no printed line |
| `PrintLaws.TitleShown` | backend/internal/frames/framemd.go:142-148 | the printed file opens with a fence and shows a non-empty name as its title |
| `Codec.ParseBullets` | backend/internal/frames/framemd.go:366-392 | splits a section body into items, bullet lines and stray lines, as BulletLaws.BulletsPartition accounts for them |
| `BulletLaws.BulletsPartition` | backend/internal/frames/framemd.go:321-341 | starts are exactly the bullet lines and strays exactly the lines that belong to no bullet, both increasing; item n is the bullet at starts[n] and holds exactly what the lines from there to the next bullet carry; a line before the first bullet is blank or stray; with no stray line only blanks are lost |
| `Codec.ReadSection` | backend/internal/frames/framemd.go:301-345 | one section into its slot, with errors for an unknown or repeated heading, stray lines and malformed terms |
| `Codec.CutSections` | backend/internal/frames/framemd.go:275-320 | the body cut at its "## " lines, each section ending where the next heading starts |
| `Codec.UnmarshalMarkdown` | backend/internal/frames/framemd.go:204-351 | the document, or every structural error in order |
| `Acceptance.AcceptedIff` | backend/internal/frames/framemd.go:204-351 | a text is accepted exactly when its first shown line and a later one are fences, what stands between decodes to a frontmatter of a known type, only blank lines and one title precede the first heading, every heading is one of the table and stands once, no line under a heading of bullets is stray, and every bullet under one of terms has the form of a term |
| `Acceptance.ReportedAre` | backend/internal/frames/framemd.go:249-345 | a refused file that is cut and decoded reports exactly its faults, each at its line: type, misplaced content, unknown and repeated headings, stray lines, malformed terms |
| `Acceptance.NotCut` | backend/internal/frames/framemd.go:217-237 | without two fences that alone is reported, at the first shown line |
| `Acceptance.NotDecoded` | backend/internal/frames/framemd.go:239-247 | a head that does not decode is reported alone |
| `Acceptance.TypeIff` | backend/internal/frames/framemd.go:33-35 | the type is accepted exactly when it is "frame" or "frame [a.b]" with two numbers |
| `Acceptance.MatchIff` | backend/internal/frames/framemd.go:37-38 | a bullet matches as a term exactly when it opens with "**" and holds "**:" after at least one more character |
| `ReadSlots.AcceptedIs` | backend/internal/frames/framemd.go:258-351 | the document of an accepted text has the frontmatter's metadata field by field; a slot whose heading stands in the body is read from the lines under it, every other slot is empty |
| `ReadSlots.ScannedReadsAs` | backend/internal/frames/framemd.go:366-392 | the items of a section are what its bullets read as, one by one, in line order |
| `CodecShape.MatchGroups` | backend/internal/frames/framemd.go:37-38 | the lazy term match: the item is "**", the group up to the first "**:" after its first character, a gap of at most one blank, and the definition |
| `CodecShape.ParsedShape` | backend/internal/frames/framemd.go:204-351 | whatever the text, every document the parser yields has trimmed items and prose, no whitespace-only continuation line, no prose line starting "## ", trimmed terms without an inner "**:" |
| `CodecLaws.InheritRoundTrip` | backend/internal/frames/framemd.go:132-138 | a parent reference comes back from its ref@version text exactly when it is well formed: trimmed ends, no "@" in the version, and for an empty version none after the first character of the ref |
| `CodecLaws.ParsedInheritOk` | backend/internal/frames/framemd.go:355-361 | a pinned reference parsed from any text is well formed |
| `CodecLaws.TermRoundTrip` | backend/internal/frames/framemd.go:160-162 | a printed term reads back as itself exactly when it is canonical |
| `CodecLaws.ItemsCanonical` | backend/internal/frames/framemd.go:166-175 | a printed list reads back as itself exactly when no line of an item ends in a return |
| `CodecPrint.ItemsPrinted` | backend/internal/frames/framemd.go:366-392 | parsing the lines of printed bullets gives the items back, multi-line ones included, less their line-end returns and outer newlines |
| `CodecPrint.ParsePrinted` | backend/internal/frames/framemd.go:149-151 | a printed body is read back slot by slot in table order, no section unknown, repeated or lost |
| `CodecRoundTrip.PrintThenParse` | backend/internal/frames/framemd.go:115-198 | for every document of parser shape: parsing what is printed succeeds exactly when the title is not blank and every term is non-empty or has "**:" in its definition, and then returns the document with each slot cleaned |
| `CodecRoundTrip.PrintedMetadata` | backend/internal/frames/framemd.go:115-136 | field by field, printing and parsing keeps all metadata; an empty visibility becomes "internal", and a parent reference comes back exactly when it is well formed |
| `CodecLaws.TermMatchesIff` | backend/internal/frames/framemd.go:37-38 | a printed term of parser shape still reads as some term exactly when it is non-empty or its definition holds a "**:" that passes for the end of one |
| `CodecRoundTrip.RoundTrip` | backend/internal/frames/framemd.go:115-198 | over any well-formed slot table, print-then-parse returns the same document if and only if the document is canonical |
| `Guarantees.ValidRoundTrip` | backend/internal/frames/framemd.go:12-16 | for the registry's own table and any document that validates: the codec is lossless exactly on canonical documents |
| `Guarantees.CodecLoses` | backend/internal/frames/framemd.go:14-15 | three valid documents that do not come back: one without a visibility, one whose prose ends a line with a return, one with blank prose |
| `NormalForm.ParsedLacks` | backend/internal/frames/framemd.go:204-351 | parsing puts no character other than a newline into a slot that the text does not contain |
| `NormalForm.PrintOnce` | backend/internal/frames/framemd.go:204-351 | for return-free text that parses to a valid document with a visibility, printing and parsing gives that document with blank prose cleared, and printing that gives the same text again |
| `Guarantees.ParsedSettles` | backend/internal/frames/framemd.go:204-351 | the normal form for the registry's own table |
| `Schema.SlotByHeading` | backend/internal/frames/slots.go:41-48 | the first table entry with this heading |
| `Schema.SlotTableGood` | backend/internal/frames/slots.go:27-38 | the table lists the ten slots in schema order, keys and headings are distinct, and every heading survives its own line |
| `Validate.Validate` | backend/internal/frames/validate.go:45-73 | reports every fault of the document exactly once, where each error means what its predicate says; no error exactly when the document is valid |
| `Validate.ValidIff` | backend/internal/frames/validate.go:45-122 | a document is valid exactly when its name is plain, its description has 1 to 280 characters, its version is not blank, its visibility is one of four or absent, no term, definition or item is blank, no term repeats, and every parent has a slash and a version |
| `Validate.FaultMeans` | backend/internal/frames/validate.go:45-122 | what each reported error says of the document |
| `Validate.ContentErrors` | backend/internal/frames/validate.go:85-122 | the same for the slots and parents: distinct non-blank terms, non-blank definitions and items, parents with a slash and a version |
| `Validate.CheckTerms` | backend/internal/frames/validate.go:89-99 | an empty term, a term seen before, an empty definition: each reported at its index, once |
| `Templates.SlotHasContent` | backend/internal/frames/templates.go:141-162 | true exactly when some term is filled, some item is not blank, or the prose is not blank |
| `Templates.ContentIff` | backend/internal/frames/templates.go:141-162 | a slot has content exactly when trimming leaves something of a term and its definition, of an item, or of the prose |
| `Templates.Check` | backend/internal/frames/templates.go:174-197 | the required slots without content, in table order |
| `Templates.ExportShowsFilled` | backend/internal/frames/framemd.go:149-183 | for error-free content the section headings of an export are exactly the slots with content, in table order, if and only if no printed line of prose starts "## " |
| `Templates.ExportShows` | backend/internal/frames/framemd.go:149-183 | for error-free content, whatever its prose: an export shows a heading exactly when a slot with content has it or a printed line of prose reads as it |
| `Templates.SectionWhenFilled` | backend/internal/frames/templates.go:141-162 | slot by slot, whatever the prose: error-free content gets a section exactly when it counts as filled |
| `Templates.MissingFromExport` | backend/internal/frames/templates.go:174-197 | for any error-free content: a slot is reported missing exactly when it is required and the export writes no section for it; reading the export's headings gives the same answer exactly unless the slot is missing and a line of prose reads as its heading |
| `Guarantees.CheckReadsExport` | backend/internal/frames/templates.go:174-197 | the same for the registry's own table, whitespace-only and untrimmed prose included |
| `Guarantees.ProseFakesHeading` | backend/internal/frames/framemd.go:149-183 | goals prose reading "## Rules": the content is error-free, the export shows a Rules heading, and no rules are filled |
| `Merge.MergeTerms` | backend/internal/frames/resolver.go:89-105 | merging by an index of last positions: existing terms keep their place, an incoming one redefines the last of its name or joins at the end |
| `Merge.MergeStrings` | backend/internal/frames/resolver.go:108-121 | the concatenation with each string where it last occurs |
| `Merge.KeepLastIs` | backend/internal/frames/resolver.go:108-121 | the merged strings are those of the concatenation, once each, in the order of their last occurrences |
| `Merge.TermsAssoc` | backend/internal/frames/resolver.go:89-105 | term merging is associative on all inputs, repeated terms included |
| `Merge.StringsAssoc` | backend/internal/frames/resolver.go:108-121 | list merging is associative |
| `Merge.MergeAssoc` | backend/internal/frames/resolver.go:75-86 | merging whole documents is associative |
| `Merge.TermsOrder` | backend/internal/frames/resolver.go:88-105 | merged terms stand in the order of their first occurrences, each name once |
| `Merge.TermsDefinition` | backend/internal/frames/resolver.go:88-105 | each merged term carries the last definition given for it |
| `Merge.MergedClosed` | backend/internal/frames/resolver.go:74-128 | the accumulator in closed form: terms by first place and last definition, list entries where they last occur, prose the last non-empty value |
| `Resolver.Resolution.MergeParents` | backend/internal/frames/resolver.go:44-72 | one depth-first walk over any finite graph, cyclic ones included, ends; on success the accumulator is the merge of the frames in walk order and the visiting set is restored; on failure the first fault met is returned |
| `Resolver.Resolution.MergeInto` | backend/internal/frames/resolver.go:75-86 | src merged onto the accumulator slot by slot |
| `Resolver.Resolve` | backend/internal/frames/resolver.go:25-42 | the document's own metadata around the merged slots, or the fault |
| `ResolverLaws.MetadataIsOwn` | backend/internal/frames/resolver.go:30-35 | on any graph, parents and excludes, a resolved document has its own name, description, version, visibility, scope and maintainer, and no parents or excludes |
| `ResolverLaws.AccumulatorRefines` | backend/internal/frames/resolver.go:44-72 | the shared accumulator computes the recursive definition: parents resolved independently, folded left to right, then the frame itself; failures agree too |
| `ResolverLaws.WalkConcat` | backend/internal/frames/resolver.go:44-72 | parents are walked independently: neither the excludes nor the ancestors of one reach its siblings |
| `ResolverLaws.ResolvesIff` | backend/internal/frames/resolver.go:25-72 | resolution succeeds exactly when every exclude-aware chain of extends can be fetched and repeats no ref@version |
| `ResolverLaws.FaultWitness` | backend/internal/frames/resolver.go:50-57 | every fault points at a real chain: a cycle's path is the chain's refs and its last key repeats, an unreadable parent is the chain's end |
| `ResolverLaws.OnlyCycles` | backend/internal/frames/resolver.go:52-54 | if every frame on every chain can be fetched, a failure is a cycle and its path names one |
| `ResolverLaws.ExcludesPrune` | backend/internal/frames/resolver.go:26-29 | excluding refs at the root gives the same result or error as removing them from every extends list in the graph |
| `ResolverLaws.PinnedStable` | backend/internal/frames/resolver.go:44-72 | a larger graph leaves every successful or cyclic resolution as it was |
| `ResolverLaws.WalkSame` | backend/internal/frames/resolver.go:44-72 | two graphs that agree on what the exclude-aware chains meet give the same walk, failures included |
| `ResolverLaws.ResolvedClosed` | backend/internal/frames/resolver.go:25-42 | each slot of the resolved document in closed form over the walk order, the document last |
| `ResolverLaws.ResolvedTwice` | backend/internal/frames/resolver.go:25-42 | resolving a resolved document changes nothing |
| `ResolverLaws.ResolvedValid` | backend/internal/frames/resolver.go:75-128 | if the document and all frames on its chains have error-free content, so has the resolved document |
| `ResolverLaws.ResolvedCanonical` | backend/internal/frames/resolver.go:75-128 | canonical slots stay canonical under inheritance |
| `Guarantees.ResolvedRoundTrips` | backend/internal/frames/resolver.go:25-42 | so a resolved document with a visibility and a title survives the Markdown codec |
| `Hierarchy.Leveler.Visit` | web/src/lib/frame-hierarchy.ts:55-68 | the memoised visit with its cycle guard: returns and records what the levelling function says on any graph, and leaves the in-progress set as it was |
| `Hierarchy.ComputeLevels` | web/src/lib/frame-hierarchy.ts:48-72 | the levels after visiting the ids in order |
| `Hierarchy.EveryIdLevelled` | web/src/lib/frame-hierarchy.ts:48-72 | on any graph every id gets a level |
| `Hierarchy.LevelsAreLongest` | web/src/lib/frame-hierarchy.ts:45-47 | on acyclic links every level is the length of the longest ancestor chain |
| `Hierarchy.LevelsIgnoreOrder` | web/src/lib/frame-hierarchy.ts:48-72 | neither visiting order nor the order of parents changes an acyclic graph's levels |
| `Hierarchy.BelowParentsIffAcyclic` | web/src/lib/frame-hierarchy.ts:4-7 | every frame is strictly below all its parents exactly when the graph is acyclic |
| `BackEdges.BackEdgesQuietIff` | web/src/lib/frame-hierarchy.ts:45-47 | on any graph and visiting order: the levels are those of a visit whose back edges return -1 if and only if no id is expanded while all of its parents are in progress |
| `BackEdges.AlwaysQuietIff` | web/src/lib/frame-hierarchy.ts:45-47 | on the graph alone: back edges contribute nothing, for every visiting order and every listing of the parents, if and only if no repetition-free way holds all the parents of its last frame, which has some |
| `BackEdges.TrapShows` | web/src/lib/frame-hierarchy.ts:58 | where such a way exists, listing each next frame of it first makes a back edge count, whatever is visited after its first frame |
| `BackEdges.NoTrapQuiet` | web/src/lib/frame-hierarchy.ts:45-47 | a condition by reachability that suffices: every id with parents has a parent that does not descend from it |
| `BackEdges.SelfLoopCounts` | web/src/lib/frame-hierarchy.ts:58 | a frame that extends itself gets level 1 where a silent back edge would give 0 |
| `BackEdges.CycleCounts` | web/src/lib/frame-hierarchy.ts:58 | two frames that extend each other get levels 2 and 1 where silent back edges would give 1 and 0 |
| `HierarchyBuild.KeepAll` | web/src/lib/frame-hierarchy.ts:78-106 | the nodes in insertion order with placeholders for unknown parents, the kept edges and the parents of each child |
| `HierarchyBuild.KeepsWell` | web/src/lib/frame-hierarchy.ts:78-106 | the nodes are the frames and the parents of kept edges, the external ones are those that are no frame, every kept edge joins two nodes |
| `HierarchyBuild.KeptAreFrameChildren` | web/src/lib/frame-hierarchy.ts:83-88 | the kept edges are those whose child is a frame if and only if no other child comes after an edge that made a placeholder of it |
| `HierarchyBuild.OrderDecides` | web/src/lib/frame-hierarchy.ts:83-88 | two edges of which both are kept in one order and one in the other |
| `HierarchyBuild.BuildHierarchy` | web/src/lib/frame-hierarchy.ts:74-136 | every node has its computed level and sits in its own cell of the rows, every cell holds one node, each row is its level's nodes stably sorted by the mean column of their placed parents and then by id, and the last row is the deepest level |
| `HierarchyBuild.DrawnCarries` | web/src/lib/frame-hierarchy.ts:79-101 | a drawn node carries the last frame listed under its id, or, for a parent without a record, a stand-in whose org and name are the ref's first two parts |
| `HierarchyBuild.EdgesPointUp` | web/src/lib/frame-hierarchy.ts:4-7 | every kept edge points to a strictly higher row exactly when the kept edges are acyclic |
| `HierarchyBuild.NoRowEmpty` | web/src/lib/frame-hierarchy.ts:117-134 | on acyclic kept edges every level up to a node's own is taken by some node |
| `RowOrder.ArrangedIff` | web/src/lib/frame-hierarchy.ts:122-127 | a row is arranged exactly when it lists the same ids sorted by barycenter, nodes without placed parents last, then by id, ties in their old order |
| `LayoutLaws.RowsAreSorted` | web/src/lib/frame-hierarchy.ts:114-133 | each drawn row lists the nodes of its level once, in that order |
| `LayoutLaws.RowsByMean` | web/src/lib/frame-hierarchy.ts:122-147 | of two nodes in a row the first has the smaller mean column of parents above, added up over its kept edges, or the same mean and an id that is not greater; nodes without parents above come last |
| `LayoutLaws.TopRowById` | web/src/lib/frame-hierarchy.ts:114-116 | the top row is ordered by id alone, on cyclic graphs too |
| `LayoutLaws.DrawingIgnoresOrder` | web/src/pages/useFrameHierarchy.ts:34-50 | on acyclic edges from listed frames, rows, levels and columns are the same in whatever order the frames and the edges arrive |
| `LayoutLaws.CycleMindsOrder` | web/src/lib/frame-hierarchy.ts:48-72 | on a two-frame cycle the frame listed first is put lower |
| `Lineage.Walk` | web/src/lib/frame-hierarchy.ts:165-176 | one stack walk adds exactly what is reached from the start through ids not yet in the result |
| `Lineage.ConnectedTo` | web/src/lib/frame-hierarchy.ts:153-180 | the focus, its ancestors, and the descendants reached without passing through these; on any graph nothing else than ancestors and descendants; empty for an unknown focus |
| `Lineage.CompleteIff` | web/src/lib/frame-hierarchy.ts:149-152 | every descendant is returned exactly when every child of a frame both above and below the focus is an ancestor of the focus or reached from it by a way down that meets no ancestor |
| `Lineage.AcyclicComplete` | web/src/lib/frame-hierarchy.ts:149-152 | on acyclic edges the result is exactly the focus, all ancestors and all descendants |
| `Lineage.OffCycleComplete` | web/src/lib/frame-hierarchy.ts:149-152 | so it is when the focus is on no cycle, whatever cycles lie elsewhere |
| `Lineage.CycleMisses` | web/src/lib/frame-hierarchy.ts:164-179 | a three-frame cyclic graph on which a descendant is missed |
| `Versions.ParseVersion` | backend/internal/frames/service.go:814-828 | three parts that each read as a non-negative 64-bit integer, else nothing |
| `Versions.CompareVersions` | backend/internal/frames/service.go:794-812 | the sign of the comparison part by part, or nothing when either side does not parse |
| `VersionLaws.CompareIsPositional` | backend/internal/frames/service.go:794-812 | two versions compare as the numbers their parts spell in any base above all six |
| `VersionLaws.SpelledParses` | backend/internal/frames/service.go:814-828 | three decimal numbers joined by dots are read as these numbers, in their order, exactly when all of them fit 64 bits with a sign |
| `VersionLaws.SpelledCompare` | backend/internal/frames/service.go:794-828 | so spelled versions compare by major, then minor, then patch number |
| `VersionLaws.TwoDots` | backend/internal/frames/service.go:814-819 | a text without exactly two dots is no version |
| `Versions.CompareIsPreorder` | backend/internal/frames/service.go:789-812 | on versions that parse: total, transitive, antisymmetric up to equal numbers |
| `Versions.SpellingsCollide` | backend/internal/frames/service.go:814-828 | two different strings can name one version |
| `Registry.Tables.CreateFrameVersion` | backend/internal/store/sqlite/sqlite.go:228-298 | the frame row, name, grants and version row go in together, or nothing changes |
| `Registry.Tables.DeleteFrame` | backend/internal/store/memory.go:349-375 | the frame, its name, grants and versions go, and every other row loses exactly its edges to it |
| `Registry.Tables.FrameChildren` | backend/internal/store/memory.go:326-347 | the live frames, other than the frame itself, with a version that extends it |
| `Registry.Tables.Allowed` | backend/internal/rbac/rbac.go:56-79 | another org is refused, an admin allowed, else a user or org grant decides |
| `RequestLaws.MayIs` | backend/internal/rbac/rbac.go:56-79 | on the stored grants: the caller belongs to the frame's org and is an admin, or a grant of that permission goes to the caller's subject or to the org |
| `Registry.Tables.ResolveEdges` | backend/internal/frames/service.go:625-644 | one edge a ref, in order, each to a frame the caller may read, or the first ref that has none |
| `RequestLaws.SplitIs` | backend/internal/frames/service.go:670-675 | a reference splits at its first slash, or is a bare name of the caller's own org |
| `Registry.Tables.Publish` | backend/internal/frames/service.go:220-351 | all checks in order, then the insert: the outcome is the one the laws below are about, and a refusal changes nothing |
| `RequestLaws.PublishAcceptedIff` | backend/internal/frames/service.go:220-351 | a publish is accepted exactly when the caller is no viewer, the document is valid, not too large and fills what the template requires, its parents and excludes name readable frames without repetition, and its version fits: over a frame, only by its editors, on the named base, not below the latest and not stored; without one, not as an update |
| `RequestLaws.PublishWrites` | backend/internal/frames/service.go:260-351 | what an accepted publish writes, row by row and field by field: the frame, its grants when new, the version with its author, edges and excludes in order; every other row stays |
| `RequestLaws.RefusalMeans` | backend/internal/frames/service.go:220-351 | what each refusal says about the store and the request |
| `Registry.Tables.UpdateFrame` | backend/internal/mcp/write.go:145-162 | the client's fields laid over the current document, published with the client's base version |
| `RequestLaws.UpdateAcceptedIff` | backend/internal/mcp/write.go:145-162 | an update is accepted exactly when its base is the latest version of a frame the caller may read and edit and the base overlaid with the supplied fields may be published over it |
| `RequestLaws.UpdateWrites` | backend/internal/mcp/write.go:68-118 | an accepted update writes the base with each supplied field replaced and each other kept |
| `Registry.Tables.RemoveFrame` | backend/internal/frames/admin.go:68-120 | refused without delete permission or, unforced, with children |
| `RequestLaws.DeleteAcceptedIff` | backend/internal/frames/admin.go:68-112 | a delete is accepted exactly for a named frame that the caller, as an admin or by a grant of delete, may delete, and only by force over frames that extend it; who may not learns only that nothing is found |
| `RequestLaws.DeleteWrites` | backend/internal/store/memory.go:349-375 | an accepted delete takes the frame, its name, grants and versions, and from every other row exactly its edges, the rest keeping their order |
| `Registry.ApplyTo` | backend/internal/mcp/write.go:74-118 | supplied fields replace the base's, omitted ones stay |
| `RegistryLaws.AlwaysSound` | backend/internal/store/memory.go:157-180 | in every run: the name index inverts the frame table; every version row belongs to a live frame, carries a valid document under its own name and version, and its edges name live frames of its org; every latest version is stored |
| `RegistryLaws.SoundFromEmpty` | backend/internal/store/memory.go:157-180 | so every run from a registry without frames is sound |
| `RegistryLaws.RefusedChangesNothing` | backend/internal/frames/service.go:220-351 | a refused request leaves the store as it was |
| `RegistryLaws.NeverRepublished` | backend/internal/frames/service.go:343-347 | a stored version of a living frame is never published again |
| `RegistryLaws.Moves` | backend/internal/frames/service.go:284-351 | while a frame lives its stored documents stay, and after any publish its latest version is one that was not stored at the start |
| `RegistryLaws.NoLostUpdate` | backend/internal/mcp/write.go:145-162 | in any interleaving that keeps the frame alive: if an update based on the version the client read as latest is accepted, nothing was published in between and the stored document is the patch of the document read |
| `RegistryLaws.UpdateStores` | backend/internal/mcp/write.go:145-162 | an accepted update stores the patch of the document at its base version |
| `Reading.OmittedFieldsKept` | backend/internal/mcp/write.go:68-73 | field by field, what the client omitted equals the document it read |
| `LatestLaws.LatestAlwaysMax` | backend/internal/frames/service.go:298-318 | in every run, a frame's latest version is numerically at least every stored one if and only if all of them parse |
| `LatestLaws.PublishKeepsHighest` | backend/internal/frames/service.go:298-318 | while no stored version is above the latest, an accepted publish keeps it so exactly when the new version does not parse, or the previous latest does, or no stored version is above the new one |
| `RegistryRuns.DraftValidates` | backend/internal/frames/service.go:789-793 | a document whose version is "draft" validates |
| `RegistryRuns.LatestGoesBack` | backend/internal/frames/service.go:298-318 | publishing 2.0.0, "draft" and 1.0.0 in turn is accepted at every step and leaves the latest version below a stored one |
| `RegistryLaws.UnforcedDeleteKeepsRows` | backend/internal/frames/admin.go:89-112 | an unforced delete leaves every surviving version row as it was |
| `EdgeLaws.AlwaysWired` | backend/internal/frames/service.go:625-644 | in every run without a forced delete, each stored edge goes to the frame that the document's reference in its place names |
| `EdgeLaws.WiredFromEmpty` | backend/internal/frames/service.go:625-644 | so in every run without a forced delete from a registry without frames |
| `DeleteLaws.DeleteKeepsReadIff` | backend/internal/frames/admin.go:89-112 | an accepted delete, forced or not, leaves a resolved read of another frame, by number or latest, as it was if and only if no exclude-aware way up from it names the deleted frame; otherwise the read no longer resolves; a refused read is never changed into a resolved one |
| `DeleteLaws.DeletedIsUnread` | backend/internal/frames/admin.go:68-120 | the deleted frame itself is found by no read |
| `EdgeLaws.UnforcedDeleteKeepsReads` | backend/internal/frames/admin.go:89-112 | where stored edges match references, an unforced delete leaves every other frame's read as it was, by number or latest, resolved or refused |
| `RegistryRuns.ForcedRun` | backend/internal/store/memory.go:363-373 | a run of two publishes, a forced delete and a publish under the deleted name |
| `RegistryRuns.ForcedDeleteDisarmsGuard` | backend/internal/frames/admin.go:89-112 | after that run the child has lost its edge but resolves through the new parent, whose unforced delete is accepted and breaks the child |
| `RegistryRuns.SelfExtends` | backend/internal/frames/service.go:625-644 | publishing a frame and then a version that extends its first one is accepted; the stored edge leads from the frame to itself and does not count as a child |
| `RegistryLaws.DeleteChangesOnlyEdges` | backend/internal/store/memory.go:363-373 | a delete changes a surviving row exactly when that row extends the frame, and then only drops those edges |
| `RegistryLaws.OrgsIsolated` | backend/internal/rbac/rbac.go:54-62 | no request by a member of one org changes a frame, version, edge or grant of another |
| `RegistryLaws.AlwaysIsolated` | backend/internal/rbac/rbac.go:54-62 | nor does any run in which no caller belongs to the frame's org |
| `RegistryLaws.PublishAllowed` | backend/internal/frames/service.go:284-293 | without edit permission a publish changes nothing of an existing frame |
| `RegistryLaws.CreatorOwns` | backend/internal/rbac/rbac.go:86-93 | the publisher of a new frame may edit and delete it and the whole org may read it |
| `Reading.ReadsAreStable` | backend/internal/frames/service.go:531-561 | in any run, deletes included, a version read by its number resolves to what it did as long as its frame and every frame its chains meet survive |
| `Reading.ReadResolvesIff` | backend/internal/frames/service.go:531-561 | a read resolves exactly when the caller may read the document and every exclude-aware way up from it meets only readable frames with the pinned version stored, none twice |
| `RequestLaws.LoadedIff` | backend/internal/frames/service.go:593-623 | a read loads the document stored under the version asked for, or the latest, of a named frame the caller may read |
| `RequestLaws.FetchedIff` | backend/internal/frames/service.go:684-706 | a parent reference fetches its version of the frame it names when the caller may read that |
| `RequestLaws.ReadMetadata` | backend/internal/frames/service.go:531-561 | a resolved read carries the metadata of the document it loaded |
| `RequestLaws.CycleMeans` | backend/internal/frames/service.go:531-561 | a read that fails on a cycle names a way up on which a ref@version occurs twice |
| `RequestLaws.MissingMeans` | backend/internal/frames/service.go:531-561 | a read of a loaded document that finds no frame meets, on some way up, a parent that cannot be fetched |
| `Reading.WayIsChain` | backend/internal/frames/service.go:684-706 | looking parents up in the store one by one meets the same chains as the finite graph of pinned references: restricting it to pins loses nothing |
| `Members.Directory.ResolveCaller` | backend/internal/orgs/orgs.go:41-156 | the subject's row, else the first pending invite for the email, activated, else the default membership if nothing collides |
| `MemberRequests.SignInByRow` | backend/internal/orgs/orgs.go:56-68 | signing in by an own row changes nothing and gives its org and role |
| `MemberRequests.SignInByInvite` | backend/internal/orgs/orgs.go:70-101 | else the first invite for the address gets the subject, and its org and role count |
| `MemberRequests.SignInByDefault` | backend/internal/orgs/orgs.go:103-156 | else the caller joins the default org in the default role, unless none is configured, the org is unknown, or it has a row with the address |
| `Members.Directory.CreateMembership` | backend/internal/store/memory.go:99-119 | refused exactly when a row has the subject or the org's canonical email; else appended in canonical form |
| `Members.Directory.AddPendingMembership` | backend/internal/store/memory.go:265-282 | refused exactly when the org has the canonical email; else a pending row |
| `Members.Directory.ActivatePendingMembership` | backend/internal/store/memory.go:284-294 | the first pending row for the email gets the subject |
| `Members.Directory.CountAdmins` | backend/internal/store/memory.go:145-155 | the org's admins with a subject |
| `Members.Directory.Handle` | backend/internal/frames/admin.go:41-203 | the three admin handlers behind requireAdmin, each with its refusals and its one row change |
| `MemberRequests.ChangedExactly` | backend/internal/frames/admin.go:20-203 | a change is made exactly when the caller has signed in as an admin and it fits the rows of that org, its last admin neither demoted nor removed; then one invite in the requested role joins, one row gets exactly that role, or one row goes; otherwise the rows are as the sign-in left them |
| `Members.Directory.SeedRun` | backend/internal/seed/seed.go:26-112 | the org, then the admin subject, then the admin email |
| `MemberRequests.SubjectSeeded` | backend/internal/seed/seed.go:50-79 | seeding a subject: its row becomes admin if the org has none present, or a new admin row joins |
| `MemberRequests.EmailSeeded` | backend/internal/seed/seed.go:81-112 | seeding an email: nothing while an invite is open, else its active row becomes admin if the org has none present, else an admin invite joins unless the address is taken |
| `MemberRequests.SeedOrgs` | backend/internal/seed/seed.go:26-48 | the org under the slug is kept, or a new one is added and no other changed |
| `Members.Directory.PromoteIfNoAdmins` | backend/internal/seed/seed.go:119-155 | promotes only in the seeded org and only when it has no active admin |
| `Members.CanonicalTwice` | backend/internal/store/store.go:28-30 | a canonical email is its own canonical form |
| `MemberRequests.CanonicalIff` | backend/internal/store/store.go:28-30 | two addresses have one canonical form exactly when they differ at most in outer blanks and case |
| `MemberLaws.AlwaysClean` | backend/internal/store/memory.go:85-119 | in every run: one row a subject, one row an org and non-empty email, every email canonical |
| `MemberLaws.ResolveKeepsRoles` | backend/internal/orgs/orgs.go:70-101 | resolving a caller never changes a stored role, org or email: it fills in a subject or appends one row |
| `MemberLaws.ResolveTwice` | backend/internal/orgs/orgs.go:41-68 | a second resolution of the subject gives the same org and role and changes nothing, whatever the email claim or default has become |
| `MemberLaws.AdminNeverLost` | backend/internal/frames/admin.go:122-203 | an org with an active admin has one after every run of sign-ins, adds, role changes, removals and seeds |
| `MemberLaws.SeedIdempotent` | backend/internal/seed/seed.go:1-3 | seeding again changes nothing |
| `MemberLaws.SeedEndsWithAdmin` | backend/internal/seed/seed.go:50-79 | with an admin subject that has no membership elsewhere, seeding ends with an active admin |
| `MemberLaws.SeedAdminIff` | backend/internal/seed/seed.go:50-155 | for every configuration: seeding ends with an active admin exactly when there was one, or the subject has no membership in another org, or the email is that of an active row of the org with no invite pending |
| `MemberLaws.SeedRespectsDemotion` | backend/internal/seed/seed.go:130-141 | while the org has an active admin, seeding changes no stored row |

## Left out

- YAML and JSON text, protobuf, digests, ids and timestamps: library code; they appear as an assumed pair, as parameters, or not at all.
- CodecRoundTrip.RoundTrip: asks for a one-line name, because a name with a line break can be printed as further sections; every name that validates is one line (`Guarantees.ValidRoundTrip`).
- CodecRoundTrip.PrintThenParse: the same one-line name.
- Members.CanonicalTwice: lower-casing is modelled on ASCII letters, because the source's Unicode case tables are library data.
- HierarchyBuild.BuildHierarchy: mean columns are exact reals, where the source divides floating-point numbers; the comparison of ids by locale is a parameter, any total preorder.
- Registry.Tables.CreateFrameVersion: the in-memory store overwrites the frame row before it finds a duplicate version and hands out shared rows; the model takes the transactional store, whose failed publish changes nothing.
- Members.Directory.UpsertMembership: in-memory semantics, where the database would also report a clash of email.
- Listing versions, frames and members in order; templates as stored rows, their lookup and their prefill text.
- Error wording, heading hints, the line numbers inside YAML errors, and the JSON form of requests.
- Invalid UTF-8: texts are sequences of characters.
- Interleaving inside one request, HTTP, authentication tokens, the command line and the web pages.
