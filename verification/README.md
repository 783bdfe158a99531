# A verified model of the project server

This project models the parts of the server that keep state, and proves what they promise. Each
module follows one source file or one component of it.

**Source contributions** (`Contribution*.dfy`, `SourceFacts.dfy`, `StoredFacts.dfy`, `PatchIndex.dfy`). The cache keeps
the declarations of all sources in flat arrays that only grow, one slice for each source. A full
rebuild fills a detached candidate and swaps it in; a sparse update appends new slices, patches a few
slots found through an open-addressing index, and publishes behind a prepare/publish barrier. Both
are proved to succeed exactly when they can and to agree with a map from sources to normalized
facts, over every run; and the ranges they store lead, in the arrays themselves, to those facts.

**Type aggregates** (`ConstructionAggregate.dfy`, `ConstructionLedger.dfy`, `LiveDeclarations.dfy`,
`GraphAggregates.dfy`). Beside the slices the cache keeps one aggregate for each type, which the
graph builder brings up to date source by source or counts anew. Over every run each aggregate is
that of the live declarations of its type, an update and a rebuild arrive at the same ones, and
whether the builder refuses a contradiction is known from the facts alone.

**Lifecycle gate** (`LifecycleGate.dfy`). One word with a closed bit and a count, and a lifecycle
of four states, as atomic steps of any number of threads. Safety holds in every reachable state,
draining ends, who acquires alone gets in, and who does not get in saw why.

**LOAD, BUILD, SAVE** (`ProjectWorld.dfy`, `ProjectSaving.dfy`, `ProjectManager.dfy`). The
operations of the project manager over a store of immutable transactions whose CURRENT other writers
move, and over files that others edit between any two reads. Every file has a history and everything
that happens is an event, so that "at some time during the call" and "at one moment" are statements
about what was really there, and nothing can be committed unseen.

**Include graph** (`IncludeGraph.dfy`, `Generation.dfy`, `SourceDiscovery.dfy`,
`DiscoveryWaves.dfy`, `UpdateAndRebuild.dfy`). What BUILD and a rebuild check before anything is parsed: roots, includes of
files that are not there, self-includes and cycles, by counting includes in a full build and by
searching from the changed sources in an update. The short checks of an update are proved to decide
about the whole generation, and an update is compared with a rebuild of the same files. "Undisturbed"
in the table below means that no call fails for a reason outside the files, the configuration and
the store, and that nobody else acts. Lexing and parsing a text and building its semantics are such
calls: whether a text is well formed is a parameter.

**JSON** (`JsonGrammar.dfy`, `JsonReader.dfy`, `JsonText.dfy`, `JsonParser.dfy`, `JsonPrinter.dfy`) and the
**configuration handlers** (`ConfigurationSchema.dfy`, `ProjectConfiguration.dfy`,
`ServerConfiguration.dfy`). The parser accepts exactly the grammar of RFC 8259 (sections 2 to 7)
within its limits and emits the events of the value; what strings, numbers and words denote is said
without the reader, by tables. The two handlers are instances of one machine
of contexts, which is proved to accept exactly the values of their schemas.

**Aggregate initializers** (`AggregateInitializer.dfy`, `InitializerText.dfy`,
`InitializerMeaning.dfy`), **include discovery**
(`IncludeDiscovery.dfy`), the **configuration fingerprint** (`ConfigurationFingerprint.dfy`), the
**source directory** (`SourceDirectory.dfy`) and the **build orchestrator**
(`BuildOrchestrator.dfy`) are modelled each in its own module.

Where the source changes state, a class has the source's fields and its methods the source's loops
and branches; each method is proved against a specification function, and the results are stated
about those functions or about the state.

## What turned out to be false

- The comparison that lets an update leave a source out ignores base classes, which replacement
  refuses. A source that gained a base class is left out and the update succeeds, although
  replacement refuses the packet and a rebuild of the same sources fails (`BaseClassSlipsThrough`).
  As long as there is room, all that is left out would have been accepted exactly if none of it has
  base classes (`SkippedAgainstReplaced`, `SkippedAlthoughRefused`).
- A BUILD does not always end with the files as they were. It finds changed sources by content, but
  reads them again only if their write time or size differs from what the baseline recorded. A
  source edited within the same write time and size keeps its old content, the state counts as
  persisted, and SAVE has nothing to do (`StaleButSaved`). What is taken for a source is what the
  file holds exactly unless such an edit was made (`RereadExactly`), and the state counts as
  persisted exactly if every source is as it was seen or was edited so (`PersistedExactly`).
- A BUILD that scans the sources does not see all of them at one moment: each is as the baseline has
  it at some time during the call. One moment for all is what the journal gives (`Detect`, `Build`).
- The reservation of a sparse update subtracts in 64 bits. It lets an arena outgrow 32 bits exactly
  if the arena already has (`RoomIsRespected`).
- An update handles changed sources one after another, removing a source's old declarations just
  before adding its new ones. A definition that moves to a source handled earlier is refused as a
  conflict although a rebuild accepts the same final state (`MovedDefinition`,
  `MovedDefinitionIsRefused`). An update meets no contradiction exactly if none is left after each
  replaced source in turn, a rebuild exactly if none is left at the end (`UpdateIncrementally`,
  `RebuildAll`).
- An update and a rebuild of the same files do not always succeed together. An update goes on without
  a root that was deleted, and a rebuild refuses it (`DeletedRoot`); an update fails over a source
  that includes itself although nothing reaches it any more, and a rebuild does not look at it
  (`BrokenOrphan`). Where the update succeeds, the rebuild does exactly if the roots are there
  (`RebuildAfterUpdate`); with the roots there and no unreachable sources they agree
  (`UpdateAgreesWithRebuild`).
- A span that reaches over the boundary between committed and pending data is not read by an update
  as it will be read after publication; all other spans are (`SpanSeesPublished`).
- Printing an initializer does not keep the kinds of leaves written `false`, `nullptr` or as a
  negative zero; these are the only ones (`SameValueExactly`).
- A full build in place can fail after its components are published. Only the detached candidate
  makes a rebuild all-or-nothing (`RebuildCurrent`, `FailureAfterPublication`).
- A source directory published earlier survives every failure of building a new one but one: that
  the construction state exists and is not ready to be walked (`SourceDirectory.Segments.Prepare`).

## How to read it

`dafny verify dfyconfig.toml` checks the whole project. Bytes are characters; sizes and words of the
source are mathematical numbers with their limits written out. Lemmas state one fact each; the
main results are the rows below.

## Model

| member | source | states |
|---|---|---|
| ContributionArenas.UnshiftShift | server_engine/project/builder/source_contribution.cpp:584-825 | Rebasing a slice by its bases and taking them off again is the identity, so stored ranges and slice-relative ranges carry the same information |
| ContributionArenas.HoldsFresh | server_engine/project/builder/source_contribution.cpp:1032-1266 | A slice appended behind the arenas with its ranges rebased is read back, through the checked spans, as exactly that slice |
| ContributionArenas.HoldsStable | server_engine/project/builder/source_contribution.cpp:314-349 | A slice stored within bounds reads the same after anything is appended: stale and new data never disturb old slices |
| SourceFacts.AppendMembers | server_engine/project/builder/source_contribution.cpp:657-672 | The loop that copies members with absolute modifier ranges succeeds exactly if every range fits 32 bits, and then appends the shifted members in order |
| SourceFacts.AppendObjects | server_engine/project/builder/source_contribution.cpp:679-693 | The same for objects |
| SourceFacts.AppendTypes | server_engine/project/builder/source_contribution.cpp:695-772 | The declaration loop, in declared order or records before enumerations, succeeds exactly if every shifted range fits, and appends the normalized types; where they point to in the arenas is what `StoredFacts.HeldStands` says |
| SourceFacts.TypesCounted | server_engine/project/frontend/source_facts_validation.cpp:629-698 | A valid packet contributes each of its records and enumerations exactly once, each with an identity, in whatever order it declares them |
| ContributionStorage.CopySparse | server_engine/project/builder/source_contribution.cpp:1032-1266 | Copying facts behind committed and pending data succeeds exactly if all sizes and ranges fit; then, over any committed arenas of that size, the stored ranges of each type, member and object lead to the very members, enumerators and modifiers of the facts |
| ContributionStorage.CopyRebuild | server_engine/project/builder/source_contribution.cpp:584-825 | The same for the detached candidate of a rebuild, whose arenas then hold the facts at the stored ranges |
| ContributionStorage.CopyHolds | server_engine/project/builder/source_contribution.cpp:584-825 | Copied facts are held: the new state reads back as the normal form of the facts |
| ContributionStorage.ShownStands | server_engine/project/builder/source_contribution.cpp:695-772 | Wherever a storage shows the normal form of valid facts, its own arenas, read at the absolute ranges it stores, hold those facts entry for entry |
| StoredFacts.HeldStands | server_engine/project/builder/source_contribution.cpp:584-825 | A slot that shows the normal form of valid facts points, without any rebasing, at the records, members, enumerators, objects and modifiers of the facts: a record at members, an enumeration at enumerators |
| ContributionStorage.AppendPrepared | server_engine/project/builder/source_contribution.cpp:95-99 | The publishing append adds all elements in order and changes nothing else |
| ContributionStorage.TotalsUpdate | server_engine/project/builder/source_contribution.cpp:806-814 | Replacing one source slot changes the totals by subtracting its old counts and adding its new ones |
| ContributionStorage.TotalsCoverSlot | server_engine/project/builder/source_contribution.cpp:101-106 | The totals cover every live slot, so subtracting a slot never underflows |
| PatchIndex.CapacityLeavesHalfEmpty | server_engine/project/builder/source_contribution.cpp:79-86 | The table reserved for a positive count is a power of two of at least twice that count and, if larger than 15, less than four times it, so half of it stays empty |
| PatchIndex.Find | server_engine/project/builder/source_contribution.cpp:921-938 | Linear probing terminates and returns the position of the key exactly if it was inserted, for any hash function |
| PatchIndex.Insert | server_engine/project/builder/source_contribution.cpp:965-996 | Inserting a new key keeps the table an index of all keys, and reports a full table exactly if it is full |
| PatchIndex.InsertIndexes | server_engine/project/builder/source_contribution.cpp:965-996 | Filling the first free slot on a key's probe path breaks no other key's path |
| PatchIndex.FullTable | server_engine/project/builder/source_contribution.cpp:965-996 | A probe that wraps all the way around met a different key in every slot |
| ContributionCache.Cache.Equivalent | server_engine/project/builder/source_contribution.cpp:351-506 | The comparison by loops over the stored ranges answers true exactly if the references are in range and the stored slice, rebased, equals the normal form of the facts |
| ContributionCache.SameTypes | server_engine/project/builder/source_contribution.cpp:430-506 | The declared-order comparison agrees with comparing the normalized declarations |
| ContributionCache.Cache.FromBaseline | server_engine/project/builder/source_contribution.cpp:153-218 | A cache over a recorded image is valid and shows what the image holds |
| ContributionPatches.AppliedChanged | server_engine/project/builder/source_contribution.cpp:1482-1507 | After all patches of distinct sources, each changed source shows the slice its change asked for, or nothing if removed |
| ContributionPatches.AppliedUnchanged | server_engine/project/builder/source_contribution.cpp:1482-1507 | Every source without a patch shows its old slice, although the arenas have grown |
| ContributionPatches.AppliedStatistics | server_engine/project/builder/source_contribution.cpp:1392-1420 | Patch by patch, the running statistics are the totals of the slots patched so far |
| ContributionPatches.AppliedAtMost | server_engine/project/builder/source_contribution.cpp:1392-1420 | The totals never exceed the physical sizes of the arenas |
| ContributionRebuild.RebuildUpdate.ReserveRebuild | server_engine/project/builder/source_contribution.cpp:514-569 | Reservation refuses in the source's order, and else reserves every array with headroom; on refusal nothing changes |
| ContributionRebuild.RebuildUpdate.Replace | server_engine/project/builder/source_contribution.cpp:584-825 | Replacement refuses invalid facts, base classes, a source given twice and sizes that do not fit, each with its own status that sticks, and else captures the facts |
| ContributionRebuild.RebuildUpdate.PreparePublish | server_engine/project/builder/source_contribution.cpp:827-834 | Preparation succeeds once and only without a failure, and changes nothing but the flag |
| ContributionRebuild.RebuildUpdate.PublishPrepared | server_engine/project/builder/source_contribution.cpp:836-844 | Publishing after preparation makes the cache show exactly the captured facts, and the stored ranges of every source lead to them in the arenas; in every other case it does nothing |
| ContributionSparse.FinalChanged | server_engine/project/builder/source_contribution.cpp:1385-1480 | The slots to be published show each change's slice |
| ContributionSparse.FinalUnchanged | server_engine/project/builder/source_contribution.cpp:1385-1480 | The slots to be published leave unpatched sources as they are |
| ContributionSparse.FinalStatistics | server_engine/project/builder/source_contribution.cpp:1392-1420 | The statistics to be published are at most the final physical sizes |
| ContributionSparse.SpanSeesPublished | server_engine/project/builder/source_contribution.cpp:32-51 | A span read through the pending update equals the span after publication exactly unless it straddles the boundary between committed and pending data |
| ContributionSparse.SpanStableAcrossPublication | server_engine/project/builder/source_contribution.cpp:32-51 | A span read through the update is the same before and after publication |
| ContributionSparseUpdate.PrepareStatistics | server_engine/project/builder/source_contribution.cpp:1392-1420 | The loop over the patches never underflows and ends with the totals of the final slots and the highest source |
| ContributionSparseUpdate.SparseUpdate.ReserveIncremental | server_engine/project/builder/source_contribution.cpp:857-913 | Reservation refuses a failed or used update and counts over the room left below 32 bits, computed in wrapping 64-bit words, and else makes empty tables of the patch capacity |
| ContributionSparseUpdate.RoomIsRespected | server_engine/project/builder/source_contribution.cpp:874-882 | The check lets an arena grow past 32 bits exactly if it has already done so |
| ContributionSparseUpdate.SparseUpdate.AddSourcePatch | server_engine/project/builder/source_contribution.cpp:965-996 | A patch slot is taken for a new source only; a repeated source and a full table are refused and change nothing |
| ContributionSparseUpdate.SparseUpdate.Replace | server_engine/project/builder/source_contribution.cpp:1032-1266 | Replacement refuses what a rebuild refuses plus a source already patched, and else records the change to the normal form |
| ContributionSparseUpdate.SparseUpdate.Remove | server_engine/project/builder/source_contribution.cpp:1268-1283 | Removal records the change to nothing, or refuses and leaves the pending data alone |
| ContributionSparseUpdate.SparseUpdate.SetConstruction | server_engine/project/builder/source_contribution.cpp:1367-1383 | Setting a construction reuses the slot of a handle already patched, adds one otherwise, and leaves all other handles' patches |
| ContributionSparseUpdate.SparseUpdate.LatestConstruction | server_engine/project/builder/source_contribution.cpp:1361-1365 | The aggregate of a handle as the transaction sees it: the patched one, or else the committed one |
| ContributionSparseUpdate.SparseUpdate.ReplacementTypes | server_engine/project/builder/source_contribution.cpp:1289-1302 | The pending types of a source, read across the boundary between committed and pending data, are those that publication will make visible |
| ContributionSparseUpdate.SparseUpdate.PreparePublish | server_engine/project/builder/source_contribution.cpp:1385-1480 | Preparation changes no committed element; it asks for a rebuild exactly if some array of a cache without baseline lacks room |
| ContributionSparseUpdate.SparseUpdate.PublishPrepared | server_engine/project/builder/source_contribution.cpp:1482-1507 | Publishing grows every array within its reserved capacity and shrinks none; changed sources show their new slices, at stored ranges that lead to the facts asked for, and all others their old ones; without preparation it does nothing |
| ContributionSparseUpdate.PublishedMeaning | server_engine/project/builder/source_contribution.cpp:1482-1507 | The published storage is well formed with the prepared statistics and has the stated slots, views, capacities and constructions |
| ContributionBuilds.CountReplacements | server_engine/project/builder/generation_builder.cpp:905-939 | The counting loop succeeds exactly if no source is null and no sum overflows 64 bits, and then returns the sums of the announced records and of the types touched |
| ContributionBuilds.FillReplacements | server_engine/project/builder/generation_builder.cpp:967-971 | All packets are taken exactly if each is acceptable, new to the transaction, within its table and fits where the packets before it end; then the transaction holds exactly their records and changes |
| ContributionBuilds.FillRemovals | server_engine/project/builder/generation_builder.cpp:972-978 | All removals are taken exactly if each source is not null and not yet in the transaction, and within its table |
| ContributionBuilds.CopyableIsFillable | server_engine/project/builder/source_contribution.cpp:79-86 | A table sized for the announced changes is never the reason for a refusal |
| ContributionBuilds.EditsAreTouched | server_engine/project/builder/generation_builder.cpp:1036-1052 | The builder's bound on the types touched is exact: so many declarations are taken out and put in, so the table sized for it never runs out of slots |
| ContributionBuilds.AgreesOnTheWay | server_engine/project/builder/generation_builder.cpp:1222-1288 | After each source in turn the declarations behind the slots are free of contradictions exactly if those of the facts taken over so far are; removals never contradict anything |
| ContributionBuilds.AggregateChanges | server_engine/project/builder/generation_builder.cpp:1222-1288 | The builder's loop over a filled transaction succeeds exactly if the packets can be taken over one by one without a contradiction; then every type that will be live has a handle whose slot is the aggregate of its declarations |
| ContributionBuilds.PrepareIncremental | server_engine/project/builder/generation_builder.cpp:887-1012 | The preparation succeeds exactly if the cache is complete, the counts add up and fit, all packets are acceptable, of different sources, fit and never contradict what is there when their turn comes, the rest of the graph builder succeeds and the result can be placed; it never changes what the cache holds |
| ContributionBuilds.UpdateIncrementally | server_engine/project/builder/generation_builder.cpp:887-1012 | A whole sparse update succeeds exactly under that condition, and the first thing that is wrong decides its answer; then a cache showing a map of facts shows the map overwritten with the replacements and without the removals, and every slot is the aggregate of what is shown; else cache and handles are unchanged |
| ContributionBuilds.CapturesAll | server_engine/project/builder/source_contribution.cpp:584-825 | Capturing packets one after another succeeds exactly if all are acceptable, of different sources and fit where the ones before end |
| ContributionBuilds.RebuildAll | server_engine/project/builder/generation_builder.cpp:803-885 | A whole rebuild succeeds exactly if the counts fit, all packets are acceptable, of different sources and fit, no two declarations contradict each other and the rest of the graph builder succeeds, whatever the cache held, and the first of these that is wrong decides its answer; then it shows exactly the facts given, with the aggregates of them, and else nothing is touched |
| ContributionRuns.CollectBuilderInputs | server_engine/project/project_build_orchestrator.cpp:54-85 | The loop over the frontend's entries hands on exactly the packets the cache does not show and the removed sources it does, in order, and fails exactly if a packet is absent |
| ContributionRuns.NeededExactly | server_engine/project/project_build_orchestrator.cpp:70-75 | A reported packet is handed on exactly if the cache does not show it and left out exactly if it does |
| ContributionRuns.NeededDistinct | server_engine/project/project_build_orchestrator.cpp:54-85 | What is handed on never touches a source twice |
| ContributionRuns.SkippingIsInvisible | server_engine/project/project_build_orchestrator.cpp:54-85 | After the update every source shows what its entry asks for, whether it was replaced or left out |
| ContributionRuns.SkippingMatchesReplacingAll | server_engine/project/project_build_orchestrator.cpp:54-85 | Leaving out what is shown gives the same view as replacing every reported source |
| ContributionRuns.TryReplace | server_engine/project/builder/source_contribution.cpp:1032-1266 | The verdict of replacement on any packet in a fresh transaction: invalid, refused for base classes or room, or taken |
| ContributionRuns.SkippedAgainstReplaced | server_engine/project/project_build_orchestrator.cpp:70-75 | As long as there is room, every packet an update leaves out would have been accepted by replacement exactly if none of them has base classes |
| ContributionRuns.SkippedAlthoughRefused | server_engine/project/builder/source_contribution.cpp:351-506 | An update that is told of a validated packet the cache shows succeeds and changes nothing, although replacement refuses the packet exactly if it has base classes or no room |
| ContributionRuns.BaseClassSlipsThrough | server_engine/project/builder/source_contribution.cpp:1053-1073 | A struct that gains a base class: the update leaves it out and succeeds, replacement refuses it and a rebuild of the same sources fails |
| ContributionRuns.Update | server_engine/project/project_build_orchestrator.cpp:364-456 | An incremental build succeeds exactly if the cache is complete, every packet is there, and nothing is handed on or the builder accepts it; otherwise the first of these decides the answer |
| ContributionRuns.Run | server_engine/project/project_build_orchestrator.cpp:100-580 | Over any sequence of updates and rebuilds the answer of each operation is known from the facts and the cache before it; a failure changes nothing, a success shows what was asked for; at every moment the arenas, read at the stored ranges, hold the facts of every source, every type's slot is the aggregate of its live declarations, none of which contradict each other, and the statistics are the totals of the live sources |
| ContributionRuns.RebuildAgrees | server_engine/project/builder/generation_builder.cpp:803-885 | After any run, a rebuild over facts with the same normal forms meets no contradiction: it succeeds exactly if they can be captured, shows the same view of every source, and gives every type the same aggregate but for the index of its definition |
| ContributionRuns.MovedDefinition | server_engine/project/builder/generation_builder.cpp:1222-1288 | A struct whose definition moves from one source to another: both states are free of contradictions, but an update that takes the new place over first is refused, and one in the other order is not |
| ConstructionAggregate.AddIsCounting | server_engine/project/builder/generation_builder.cpp:142-196 | Adding a declaration to a type's aggregate succeeds exactly if all its declarations agree, keeps the aggregate a count of them, and is refused as a conflict if the type has an identity |
| ConstructionAggregate.RemoveIsCounting | server_engine/project/builder/generation_builder.cpp:198-240 | Removing any one of the counted declarations succeeds and leaves the count of the others |
| ConstructionAggregate.AggregateIsUnique | server_engine/project/builder/generation_builder.cpp:142-240 | The aggregate depends on the multiset of declarations only, not on their order |
| ConstructionAggregate.EditsAreCounting | server_engine/project/builder/generation_builder.cpp:1222-1288 | A sequence of removals and additions succeeds exactly if the declarations agree after every step |
| ConstructionAggregate.UpdateAgreesWithRebuild | server_engine/project/builder/generation_builder.cpp:1222-1288 | After an accepted update a rebuild is accepted in any order and with any type indices, and gives the same aggregate but for the index of the definition, which is its index in each |
| ConstructionAggregate.MovedDefinitionIsRefused | server_engine/project/builder/generation_builder.cpp:1222-1288 | A definition moved to a source that is processed first is refused as a conflict, although the final state is consistent and a rebuild accepts it |
| ConstructionLedger.BookRemoval | server_engine/project/builder/generation_builder.cpp:1225-1256 | A declaration of a live type always has a handle and a slot, can be subtracted, and leaves all slots aggregates of what remains |
| ConstructionLedger.BookAddition | server_engine/project/builder/generation_builder.cpp:1258-1288 | A declaration can be added to its type's slot exactly if it agrees with all live declarations of the type, and then all slots are aggregates again |
| LiveDeclarations.LiveAgrees | server_engine/project/builder/generation_builder.cpp:2098-2191 | The declarations behind the slots of a cache are free of contradictions exactly if no two declarations of the facts it shows contradict each other |
| LiveDeclarations.SameAggregates | server_engine/project/builder/generation_builder.cpp:2098-2191 | Two caches that show the same facts, however they came to, have the same aggregate for a type but for the index of its definition |
| GraphAggregates.LiveStep | server_engine/project/builder/generation_builder.cpp:1222-1288 | Taking one changed source over removes exactly its old declarations and adds exactly its new ones |
| GraphAggregates.AggregateSource | server_engine/project/builder/generation_builder.cpp:1222-1288 | The two loops over one changed source succeed exactly if nothing is contradictory afterwards, and keep every slot the aggregate of what is live so far |
| GraphAggregates.Aggregate | server_engine/project/builder/generation_builder.cpp:1222-1288 | The loop over the changed sources succeeds exactly if nothing is contradictory after any of them, and else answers a conflict; then every slot is the aggregate of what will be live |
| GraphAggregates.AggregateAll | server_engine/project/builder/generation_builder.cpp:2098-2191 | Counting all live sources anew succeeds exactly if no two declarations contradict each other, and else answers a conflict; handles are given out as types are met, and every slot is the aggregate of all declarations of its type |
| LifecycleGate.StepKeepsInv | server_engine/project/project_manager.hpp:61-106 | Every atomic step of any thread keeps the invariant of word, lifecycle, project and all threads' positions |
| LifecycleGate.EveryRunIsSafe | server_engine/project/project_manager.hpp:61-106 | In every reachable state a live token refers to the current project, the count is the number of threads in the gate, opening and resetting find the gate closed and empty, at most one thread constructs or unloads, and no wake-up is lost |
| LifecycleGate.ConfirmedFindsProject | server_engine/project/project_manager.cpp:2535-2563 | A thread whose second look at the lifecycle said ready finds a project and gets its token; who gets that far is what the rows on acquiring say |
| LifecycleGate.AcquireSucceeds | server_engine/project/project_manager.cpp:2535-2563 | From every state of the invariant that is ready and has room in the word, an idle thread that acquires alone ends holding the current project, after as many spurious failures of the exchange as may come first |
| LifecycleGate.AcquisitionsExplained | server_engine/project/project_manager.cpp:2535-2563 | Over every run, an acquirer that ends without a token saw a lifecycle other than ready at one of its looks or loaded a closed or full word, and one that ends with a token saw nothing of the kind since it last began |
| LifecycleGate.ConstructSucceeds | server_engine/project/project_manager.cpp:131-180 | From UNLOADED a thread that constructs alone reaches READY with the new project and an open gate |
| LifecycleGate.AbandonSucceeds | server_engine/project/project_manager.cpp:131-145 | And one that abandons its construction is back at UNLOADED without a project |
| LifecycleGate.UnloadSucceeds | server_engine/project/project_manager.cpp:2565-2587 | From READY with nobody in the gate a thread that unloads alone reaches UNLOADED with the project gone |
| LifecycleGate.DrainStepsDecrease | server_engine/project/project_manager.hpp:79-102 | While draining, every step but handing a token over lowers a rank, ends the drain, or changes nothing |
| LifecycleGate.DrainNeverStuck | server_engine/project/project_manager.hpp:79-102 | While draining, some step makes progress; with a zero count it belongs to the unloader or to a thread that owes the notification |
| LifecycleGate.DrainEnds | server_engine/project/project_manager.cpp:2565-2587 | Every run of such steps is shorter than the rank it starts with plus three, so once all tokens are released the drain loop exits |
| JsonGrammar.Utf8Decodes | server_engine/json/json_parser.cpp:29-48 | The bytes appended for a code point decode, by a decoder that refuses overlong forms, to that code point |
| JsonReader.PieceSound | server_engine/json/json_parser.cpp:141-185 | Every unit of a string literal that is read is one of the grammar and stands at the front of the text |
| JsonReader.PieceComplete | server_engine/json/json_parser.cpp:141-185 | Every unit of the grammar is read as itself, surrogate pairs included |
| JsonReader.NumeralComplete | server_engine/json/json_parser.cpp:198-222 | Every numeral of the grammar is read in full, whatever may follow a value |
| JsonReader.ValueSound | server_engine/json/json_parser.cpp:64-139 | Every value read is valid, nests within the limit, and its printed form is the text consumed |
| JsonReader.ValueComplete | server_engine/json/json_parser.cpp:64-139 | Every printed value within the limits is read back as the same syntax tree |
| JsonReader.ReadsExactlyTheGrammar | server_engine/json/json_parser.cpp:55-275 | A text is accepted exactly if it is the printed form of a valid document within the limits, and the document is the only one |
| JsonParser.Parser.ParseHex4 | server_engine/json/json_parser.cpp:187-196 | Four hexadecimal digits give their value; too short a text and a wrong digit are told apart |
| JsonParser.Parser.ParseCodePoint | server_engine/json/json_parser.cpp:162-181 | An escaped code point or surrogate pair yields the bytes the grammar gives it; lone surrogates are refused |
| JsonParser.Parser.ParseString | server_engine/json/json_parser.cpp:141-185 | The byte loop returns the text the literal stands for, or the reader's error; what it takes from the text is a literal of just that text by the table of escapes of section 7 of RFC 8259 and by decoding UTF-8 |
| JsonParser.Parser.ParseNumber | server_engine/json/json_parser.cpp:198-240 | The scanner emits the number of the longest numeral if it is representable, or the reader's error |
| JsonParser.Parser.ParseArray | server_engine/json/json_parser.cpp:118-139 | The element loop emits the events of the array the reader function returns, or fails with its error |
| JsonParser.Parser.ParseObject | server_engine/json/json_parser.cpp:87-116 | The member loop emits the events of the object the reader function returns, or fails with its error |
| JsonParser.Parser.ParseValue | server_engine/json/json_parser.cpp:64-85 | The dispatch on the first byte agrees with the reader function on result, position, events and error |
| JsonParser.Parser.Run | server_engine/json/json_parser.cpp:55-61 | On success the handler received exactly the events of the value the text denotes; otherwise the error is the reader's, and it received exactly the events of what was read before the error |
| JsonParser.PartBegins | server_engine/json/json_parser.cpp:55-139 | What a handler has heard when an error stops the parser is how the events of some value begin |
| JsonPrinter.PrintedValueParses | server_engine/json/json_parser.cpp:55-275 | Every value within the limits has a text that parses back to it |
| JsonPrinter.EventsTellValue | server_engine/json/json_parser.cpp:55-275 | The events determine the value: no value's events are a proper beginning of another's |
| JsonText.LiteralIsRead | server_engine/json/json_parser.cpp:141-185 | A text made of plain bytes, the eight short escapes by their table and code points spelled in hexadecimal digits of either case, in two escapes above 0xFFFF, is read as the string of these bytes; the bytes of a code point are those that decode to it |
| JsonText.ReadIsLiteral | server_engine/json/json_parser.cpp:141-185 | Whatever is read as a string is such a text, between white space |
| JsonText.DecodedEncodes | server_engine/json/json_parser.cpp:29-48 | Whatever decodes to a code point is what is appended for it, so there is only one encoding |
| JsonText.IntegerIsRead | server_engine/json/json_parser.cpp:198-240 | Digits without a leading zero, after an optional minus sign, are read as the number they write if it fits a signed 64-bit word, and are an invalid number if not |
| JsonText.ReadIsInteger | server_engine/json/json_parser.cpp:198-240 | Whatever is read as an integer is written so, between white space |
| JsonText.RealIsRead | server_engine/json/json_parser.cpp:198-240 | A number with a fraction or an exponent, with or without sign, is read as the double it converts to, and is an invalid number if it converts to none |
| JsonText.ReadIsReal | server_engine/json/json_parser.cpp:198-240 | Whatever is read as a double is written so, between white space |
| JsonText.WordIsRead | server_engine/json/json_parser.cpp:64-85 | The words null, true and false are read as their values |
| JsonText.SpaceExactly | server_engine/json/json_parser.cpp:14-16 | Space, tab, line feed and carriage return may follow a value, and no other byte |
| JsonText.NestingExactly | server_engine/json/json_parser.cpp:87-119 | Sixty-four containers may be open at once, and one more is nesting too deep |
| ConfigurationSchema.MachineRefinesReading | server_engine/project/project_configuration_loader.cpp:99-180 | For every JSON value, the event machine with its stack and uncleared seen-masks completes exactly if a recursive reading of the value succeeds, with the same candidate, and else holds the first failure of that reading |
| ConfigurationSchema.MembersInAnyOrder | server_engine/project/project_configuration_loader.cpp:162-180 | Reading members one by one succeeds exactly if they are one for each missing property with an allowed value, and the result does not depend on their order |
| ConfigurationSchema.ObjectInAnyOrder | server_engine/config/server_configuration_loader.cpp:188-206 | The same for a whole object, with values looked up by name |
| ConfigurationSchema.StackIsPath | server_engine/project/project_configuration_loader.cpp:361-371 | Whatever events arrive, the context stack is a path of the schema and the overflow failure is never reported |
| ProjectConfiguration.ReadingIsDecoding | server_engine/project/project_configuration_loader.cpp:182-247 | A value is read with the project schema exactly if it has the required keys, no others, none twice, allowed values and paths that can be resolved, and the candidate is its decoding |
| ProjectConfiguration.WordsAgree | server_engine/project/project_configuration_loader.cpp:198-209 | The comparisons of the handler give each role and each target exactly its word of the table the decoding is stated with |
| ProjectConfiguration.Handler.ObjectBegin | server_engine/project/project_configuration_loader.cpp:99-124 | The object callback is the machine's step: same contexts, same failures, item state cleared |
| ProjectConfiguration.Handler.ObjectEnd | server_engine/project/project_configuration_loader.cpp:126-137 | The end of an object demands the required properties and appends a finished item, or stops with an internal failure if its path cannot be resolved |
| ProjectConfiguration.Handler.Key | server_engine/project/project_configuration_loader.cpp:162-180 | A key is refused if unknown or seen, and else becomes pending and seen |
| ProjectConfiguration.Handler.String | server_engine/project/project_configuration_loader.cpp:182-220 | A string is stored or refused by context and pending property, with the failure of its field |
| ProjectConfiguration.Handler.Integer | server_engine/project/project_configuration_loader.cpp:222-247 | An integer is stored or refused by context and pending property |
| ProjectConfiguration.HandlerStackIsPath | server_engine/project/project_configuration_loader.cpp:361-371 | The project handler's stack is a path of its schema and cannot overflow |
| ProjectConfiguration.StopsAtPath | server_engine/project/project_configuration_loader.cpp:325-346 | A project configuration stops the handler with an internal failure exactly if one of its paths cannot be resolved |
| ProjectConfiguration.StopsInText | server_engine/project/project_configuration_loader.cpp:325-346 | The handler stops with an internal failure only at an item path that stands in the text and cannot be resolved |
| ProjectConfiguration.Load | server_engine/project/project_configuration_loader.cpp:430-474 | The status is determined for every text: loading succeeds exactly on texts that denote a project configuration of the current version whose paths can be resolved, and fails as an initialization exactly if the first thing wrong is a path of the text that cannot be; the output is the decoding of the text and is untouched on failure |
| ServerConfiguration.EvalEndpoints | server_engine/config/server_configuration_loader.cpp:426-443 | The endpoint list is built exactly if all entries are endpoints and no name repeats, among them or with earlier ones |
| ServerConfiguration.JoinsOneByOne | server_engine/config/server_configuration_loader.cpp:426-443 | Checking each endpoint against those before it is the same as pairwise distinct names |
| ServerConfiguration.ReadingIsDecoding | server_engine/config/server_configuration_loader.cpp:208-304 | A value is read with the server schema exactly if it is a server configuration with pairwise distinct endpoint names, and the candidate is its decoding |
| ServerConfiguration.LevelsAgree | server_engine/config/server_configuration_loader.cpp:326-336 | The comparisons of the handler give each log level exactly its word of the table the decoding is stated with |
| ServerConfiguration.Handler.CompleteEndpoint | server_engine/config/server_configuration_loader.cpp:426-443 | The loop over the existing endpoints refuses a name that is taken and else appends the endpoint |
| ServerConfiguration.Handler.ObjectBegin | server_engine/config/server_configuration_loader.cpp:119-150 | The object callback is the machine's step for the server schema |
| ServerConfiguration.Handler.String | server_engine/config/server_configuration_loader.cpp:208-255 | A string is stored or refused by context and pending property, with the failure of its field |
| ServerConfiguration.HandlerStackIsPath | server_engine/config/server_configuration_loader.cpp:450-468 | The server handler's stack is a path of its schema and cannot overflow |
| ServerConfiguration.Load | server_engine/config/server_configuration_loader.cpp:529-576 | Loading succeeds exactly on texts that denote a server configuration of the current version whose project path can be resolved, fails as an initialization exactly if only the path cannot, and touches the output only on success |
| AggregateInitializer.AcceptedIsGood | server_engine/project/frontend/aggregate_initializer.hpp:20-77 | An accepted value nests within the depth limit and has no more nodes than the reader counted within the node budget |
| AggregateInitializer.Reread | server_engine/project/frontend/aggregate_initializer.hpp:78-100 | The printed form of a good value is read back as its canonical form, with exactly its number of nodes counted |
| AggregateInitializer.CanonKeepsMeaning | server_engine/project/frontend/aggregate_initializer.hpp:78-100 | The canonical form denotes the same nested numbers and prints the same |
| AggregateInitializer.PrintedFormIsStable | server_engine/project/frontend/aggregate_initializer.hpp:18-100 | For every accepted text the printed form is accepted, denotes the same numbers, and is a fixed point of reading and printing |
| AggregateInitializer.SameValueExactly | server_engine/project/frontend/aggregate_initializer.hpp:18-100 | The printed form gives back the very value, leaf kinds included, exactly if no leaf was written false, nullptr or as a negative zero |
| AggregateInitializer.FalseComesBackAsZero | server_engine/project/frontend/aggregate_initializer.hpp:50-52 | The text false is read as a zero leaf and comes back as the unsigned number 0 |
| AggregateInitializer.Reader.ReadValue | server_engine/project/frontend/aggregate_initializer.hpp:25-74 | The recursive reader over a shared position and node counter agrees with the reader function |
| AggregateInitializer.Reader.ReadChildren | server_engine/project/frontend/aggregate_initializer.hpp:30-41 | The element loop agrees with the reader function, trailing comma included |
| InitializerMeaning.ReadInitializer | server_engine/project/frontend/aggregate_initializer.hpp:75-77 | The whole reader accepts exactly the texts that denote nested numbers within 64 levels and 65536 values, and the numbers of the value it returns are those |
| InitializerMeaning.ReadExactly | server_engine/project/frontend/aggregate_initializer.hpp:18-77 | A text is accepted exactly if it is made of the words true, false and nullptr, integers of 64 bits with an optional sign, real spellings, parentheses and lists with white space and a trailing comma, within both budgets; what is read are the numbers these denote, and no text denotes two values |
| InitializerMeaning.TokenDenotes | server_engine/project/frontend/aggregate_initializer.hpp:47-72 | A token is accepted exactly if it is one of the three words, decimal digits up to the greatest unsigned word, a minus sign and digits down to the least signed one, or a spelling with point or exponent that the codec takes, each after an optional plus sign, and is read as the number it denotes |
| InitializerMeaning.StoredMeansTheSame | server_engine/project/frontend/aggregate_initializer.hpp:18-100 | The printed form that is stored of an accepted text denotes exactly the same nested numbers as the text |
| AggregateInitializer.Writer.Encode | server_engine/project/frontend/aggregate_initializer.hpp:78-100 | The appending printer adds exactly the printed form to its output |
| IncludeDiscovery.ScanBraces | server_engine/project/frontend/include_discovery.cpp:71-80 | The scan over a gap counts braces as the depth of the tokens before it and reports a brace closed too often |
| IncludeDiscovery.TokenTextIs | server_engine/project/frontend/include_discovery.cpp:13-21 | A token placed after what comes before it reads as exactly the word standing there, whatever surrounds it |
| IncludeDiscovery.CheckDirective | server_engine/project/frontend/include_discovery.cpp:82-114 | A directive passes exactly if it is a quoted include at depth zero or pragma once; the status tells a missing hash from a misuse |
| IncludeDiscovery.CheckDirectives | server_engine/project/frontend/include_discovery.cpp:62-116 | All directives pass exactly if they are placed in order and each is supported where it stands; the first failure decides the status |
| IncludeDiscovery.FirstFailure | server_engine/project/frontend/include_discovery.cpp:62-116 | When a directive is the first to fail, no other one decides the answer |
| IncludeDiscovery.Compact | server_engine/project/frontend/include_discovery.cpp:118-129 | The two-index compaction in place leaves exactly the tokens no directive covers, in order, with the end-of-file token last |
| IncludeDiscovery.DiscoverIncludes | server_engine/project/frontend/include_discovery.cpp:50-140 | On success the tokens are the input without the directives and the includes are the quoted ones in order, each outside all braces; on every error the tokens are unchanged |
| ConfigurationFingerprint.DecodesExactly | server_engine/project/project_persistence.cpp:203-272 | A decoder returns version, target, pack, name and the ordered roles and paths exactly for their encoding |
| ConfigurationFingerprint.EncodingIsInjective | server_engine/project/project_persistence.cpp:24-44 | Different contents have different bytes |
| ConfigurationFingerprint.SameBytesSameMeaning | server_engine/project/project_persistence.cpp:203-287 | Two configurations have the same bytes exactly if they agree in everything up to path normalization |
| ConfigurationFingerprint.MakeFingerprint | server_engine/project/project_persistence.cpp:203-287 | The field-by-field appending yields the encoding and its digest, or the status of the first field or item that fails |
| ConfigurationFingerprint.ItemNormalized | server_engine/project/project_persistence.cpp:239-263 | Only a path that is not canonical yet is normalized; of a canonical one the drive letter is made small, on Windows, and nothing else changes |
| ConfigurationFingerprint.HeaderBytes | server_engine/project/project_persistence.cpp:216-222 | Every fingerprint begins with the tag and the five format numbers in little-endian words |
| SourceDirectory.TilesPartition | server_engine/project/project_context.cpp:128-252 | Ranges laid end to end by a cursor cover every position between the ends exactly once |
| SourceDirectory.DirectoryPartitions | server_engine/project/project_context.cpp:91-287 | The directory has one record for each source in order; the text ranges partition the text bytes and each section's ranges partition that section |
| SourceDirectory.Segments.Prepare | server_engine/project/project_context.cpp:91-287 | The builder succeeds exactly on coherent inputs and publishes their directory; the first source whose checks fail decides the answer, and then the totals; of the failures only an unready construction state clears the earlier directory, while a missing one, too many sources and a failure during the walk keep it |
| IncludeGraph.LayeredExactly | server_engine/project/source/source_manager.cpp:1731-1790 | A graph can be taken apart in layers exactly if no walk leads from a source back to itself |
| IncludeGraph.TakenAway | server_engine/project/source/source_manager.cpp:1753-1777 | What repeatedly taking away sources that nothing left includes leaves behind is empty exactly if there is no cycle |
| IncludeGraph.ValidateSourceGraph | server_engine/project/source/source_manager.cpp:1731-1790 | The full check by counting and taking away succeeds exactly if every include is known and the graph has no cycle; unknown includes and cycles are told apart |
| IncludeGraph.SearchCycle | server_engine/project/source/source_manager.cpp:1807-1838 | The search with a stack from one source finds a cycle exactly if a walk leads from the source back to itself |
| IncludeGraph.ValidateChangedSourceGraph | server_engine/project/source/source_manager.cpp:1792-1848 | The check of an update succeeds exactly if no changed source is known to lead back to itself |
| IncludeGraph.ChangedDecideCycles | server_engine/project/source/source_manager.cpp:1792-1848 | Where the includes of other sources stay as they were and were free of cycles, searching from the changed and new sources only is enough |
| IncludeGraph.CollectDependents | server_engine/project/source/source_manager.cpp:1057-1102 | The search along the reversed edges returns exactly the sources that lead to the given one, each once and without itself |
| IncludeGraph.CollectAffected | server_engine/project/frontend/source_frontend_incremental.cpp:365-409 | The sources an update works on are exactly the changed ones and all that lead to them, each once |
| IncludeGraph.AffectedDecideMissing | server_engine/project/frontend/source_frontend_incremental.cpp:556-581 | Where nothing included a missing source before, nothing does afterwards exactly if none of the affected and new sources does |
| IncludeGraph.ParseAffected | server_engine/project/frontend/source_frontend_incremental.cpp:525-628 | The scheduled parsing of affected sources in include order succeeds exactly if none that is present includes a source that is missing; it never gets stuck in a graph without cycles |
| Generation.WellBuiltIncludes | server_engine/project/frontend/source_frontend_generation.cpp:763-778 | In a generation that passed the checks, every file a present source includes is known and present |
| Generation.UpdateGrows | server_engine/project/frontend/source_frontend_incremental.cpp:489-503 | An update keeps the include edges of sources that did not change, so the old graph's soundness carries over to them |
| Generation.ChecksDecide | server_engine/project/frontend/source_frontend_incremental.cpp:510-628 | The two checks of an update, from the changed and the affected sources only, succeed exactly if the whole generation is well built |
| SourceDiscovery.CoherentIsWellBuilt | server_engine/project/frontend/source_frontend_generation.cpp:763-912 | When everything has been followed, the checks on numbered sources succeed exactly if, path by path, every include is there and no trail of includes comes back to its start |
| SourceDiscovery.CircularExactly | server_engine/project/source/source_manager.cpp:1731-1790 | When everything has been followed, the include graph has a cycle exactly if some file of the generation includes itself, directly or through others, path by path |
| SourceDiscovery.DanglingExactly | server_engine/project/frontend/source_frontend_incremental.cpp:556-581 | And it leads to a source that is gone exactly if some file of the generation includes one that is missing |
| SourceDiscovery.FollowedIsTold | server_engine/project/frontend/source_frontend_generation.cpp:763-912 | When everything has been followed, undisturbed, and nothing includes itself directly, the checks answer a conflict exactly if there is a cycle, and else not found exactly if a file that is gone is included |
| DiscoveryWaves.StoppedInFullTells | server_engine/project/frontend/source_frontend_generation.cpp:585-760 | Wherever a full build stops reading, undisturbed, its answer tells whether a file that is wanted is missing, too many are wanted or one includes itself |
| DiscoveryWaves.StoppedInFullIsTold | server_engine/project/frontend/source_frontend_generation.cpp:585-760 | Of a missing file and one that includes itself the one fewer includes away from a root decides the answer of a full build, and of two as far away the missing one, because a wave is read before its includes are recorded |
| DiscoveryWaves.NumberWave | server_engine/project/frontend/source_frontend_generation.cpp:697-754 | The includes of a wave are numbered in order, each path once; it fails exactly at a number too many or at a source that includes itself |
| SourceDiscovery.StoppedTells | server_engine/project/frontend/source_frontend_generation.cpp:735-754 | Wherever an update stops following includes, undisturbed, the files cannot be built, and the answer tells whether a file that is wanted is missing, too many are wanted or one includes itself |
| ProjectSaving.PersistedHoldsActive | server_engine/project/project_context.hpp:164-199 | A persisted transaction stands for the active content under the project's build fingerprint |
| ProjectSaving.NewRecords | server_engine/project/project_manager.cpp:2107-2533 | Every transaction that is new after a stretch of events was brought by one of them: a commit of the manager or a change by others |
| ProjectSaving.RereadExactly | server_engine/project/source/source_manager.cpp:1515-1574 | What an update takes for a source's content is what the file holds, exactly unless another content came with the stamp the source was seen with |
| ProjectSaving.ReacquiredRenews | server_engine/project/frontend/source_frontend_incremental.cpp:294-363 | After the dirty sources are read again every source is as at some time during the call, unless another content came with its stamp |
| ProjectSaving.ActiveIsWellBuilt | server_engine/project/project_manager.cpp:980-1080 | The active content of a project is well built: every include of a present source is known and present, and no source includes itself through others |
| SourceDiscovery.FollowedIsGatherable | server_engine/project/frontend/source_frontend_incremental.cpp:411-506 | When every include has been followed, no file reachable from the roots is missing and all can be numbered |
| SourceDiscovery.RefusedTells | server_engine/project/frontend/source_frontend_incremental.cpp:411-506 | When following an include is refused, a file reachable from the roots is missing or there are more than 32 bits can number, and the answer tells which |
| ProjectManager.Manager.FastGate | server_engine/project/project_manager.cpp:2116-2180 | The first gate answers without reading the file only for a state CURRENT still selects beside an untouched file |
| ProjectManager.Manager.ReadConfiguration | server_engine/project/project_manager.cpp:33-115 | Token, text, token again: the identity returned is that of a text the file had during the call, and an edit in between is noticed; undisturbed the answer is that of the file: not found, why the text is refused, or success |
| ProjectManager.Manager.ProveConfiguration | server_engine/project/project_manager.cpp:2182-2384 | The configuration identity a commit carries means the project's fingerprint; undisturbed a file that means another one asks for a rebuild |
| ProjectManager.Manager.Save | server_engine/project/project_manager.cpp:2107-2533 | Success means the returned transaction stands for the active content; a persisted state is never written again; if CURRENT moved away nothing is written and a rebuild is required; what is written is the active content, every other new transaction comes from others, who may act between any two of its calls, and a quiet SAVE that writes nothing leaves the world as it was; undisturbed the answer is determined: invalid state without a ready project or a path, not found or a rebuild for a CURRENT that is gone or has moved, else that of the file |
| ProjectManager.Manager.Load | server_engine/project/project_manager.cpp:196-337 | READY exactly on success; the loaded transaction's fingerprint is what the configuration file meant during the call; undisturbed the answer is determined: that of the file if it cannot be read or means nothing, else not found if CURRENT is missing, else that a rebuild is required if the file means another fingerprint, and else success |
| ProjectManager.Manager.ScanSources | server_engine/project/project_persistence.cpp:1373-1453 | The full scan reads every source once, one after the other; a source is dirty exactly if the file it read then differs in presence or content |
| ProjectManager.Manager.Detect | server_engine/project/project_manager.cpp:578-685 | Every source not named dirty was as the baseline has it at some time during the call, and where the journal vouched for them, all at the moment it was asked |
| ProjectManager.Manager.Reacquire | server_engine/project/source/source_manager.cpp:1515-1664 | Each dirty source becomes what the file holds when it is read, or stays if the stamps agree; undisturbed this succeeds exactly if no dirty source is missing twice |
| ProjectManager.Manager.CollectRoots | server_engine/project/project_build_orchestrator.cpp:23-52 | The roots are the paths of all items, in order; a project item is not available, and a configuration without items is refused |
| ProjectManager.Manager.Explore | server_engine/project/frontend/source_frontend_incremental.cpp:411-506 | Following includes adds exactly files that the roots or earlier sources include, each read once during the call; on success every include of what was followed is known and no changed or new source includes itself, and a failure names the file it was refused for and answers why |
| ProjectManager.Manager.CheckFull | server_engine/project/frontend/source_frontend_generation.cpp:763-912 | The checks after a full discovery succeed exactly if every present source's includes are present and the include graph has no cycle, and else answer a conflict |
| ProjectManager.Manager.CheckUpdate | server_engine/project/frontend/source_frontend_incremental.cpp:510-628 | The checks of an update succeed exactly if the whole updated generation is well built, given that the old one was; a cycle is a conflict, and a source that is gone but included is not found |
| ProjectManager.Manager.Generate | server_engine/project/frontend/source_frontend_generation.cpp:520-915 | A generation made from a configuration is well built and contains the roots; undisturbed it is made exactly if the configuration has roots to build, everything reachable from them is there, and no file includes itself through others, and what is wrong decides the answer: the items, a missing file, one too many, a file that includes itself, a cycle |
| ProjectManager.Manager.Discover | server_engine/project/frontend/source_frontend_generation.cpp:585-760 | A full build reads its files wave after wave, each file once and during the call; on success everything reachable is known and no file includes itself, and undisturbed a failure is that of the nearest missing or self-including file |
| ProjectManager.Manager.ReadIncluded | server_engine/project/frontend/source_frontend_incremental.cpp:365-628 | The part of an update that looks at changed sources and all that include them ends with a well built generation; undisturbed it succeeds exactly if what they newly include is there, nothing includes a file that is gone and there is no cycle, and answers which of these is wrong |
| ProjectManager.Manager.ReadDirty | server_engine/project/frontend/source_frontend_incremental.cpp:294-628 | An update of a well built generation is well built; undisturbed it succeeds exactly if no dirty source is missing twice and, when anything changed, the files can be built on; a number out of range, a source missing twice and what the files are refused for have their answers |
| ProjectManager.Manager.UpdateFrom | server_engine/project/project_manager.cpp:980-1080 | The updated content is the baseline's overwritten with the dirty sources as they were read, and well built; it is known to be persisted exactly if it still means what the baseline means; undisturbed it succeeds exactly if the files can be built on: a deleted file that is still included and a cycle are refused |
| ProjectManager.Manager.Build | server_engine/project/project_manager.cpp:339-1095 | READY exactly on success and else UNLOADED; reuse means each source was at some time during the call as the baseline has it, all at one moment where the journal vouched, and the configuration file meant its fingerprint; undisturbed the outcome and the answer of every refusal are determined |
| ProjectManager.Manager.Construct | server_engine/project/project_manager.cpp:1166-1770 | A full build that succeeds ends READY with an unsaved, well built generation of sources read during the call; undisturbed it succeeds exactly if there are roots, every file reachable from them is there and can be numbered, and no file includes itself through others |
| ProjectManager.Manager.Rebuild | server_engine/project/project_manager.cpp:1097-1140 | A rebuild reads the configuration, then constructs; every exit is READY on success and else UNLOADED; undisturbed it succeeds exactly if the file can be read and its roots can be built in that sense, and else answers what is wrong with the file, the items or the files |
| ProjectManager.Manager.RebuildInMemory | server_engine/project/project_manager.cpp:1142-1164 | A rebuild under a configuration given by the program has no file to be saved beside and succeeds, undisturbed, exactly if its roots can be built |
| ProjectManager.RunAll | server_engine/project/project_manager.cpp:196-2587 | Over every run, whatever fails and whatever others do, each call keeps its promise, the answers of undisturbed calls included; at every moment the world is the replay of all events, of which the manager's own are exactly its logged commits, and the active content and all transactions are well built |
| ProjectManager.StateRefusals | server_engine/project/project_manager.cpp:196-2587 | Undisturbed, LOAD, BUILD and REBUILD answer invalid state exactly if another lifecycle state is there, SAVE exactly if nothing is ready or there is no path, UNLOAD exactly if nothing is ready; LOAD asks for a rebuild exactly if a transaction is there and the file means another fingerprint, and answers not found exactly if the file means something while CURRENT is missing; SAVE asks for a rebuild exactly if CURRENT has moved or the file means something else |
| ProjectManager.UnsuspectedExactly | server_engine/project/project_persistence.cpp:1373-1453 | Where the journal cannot tell, a BUILD has nothing to look at again exactly if every file says what it said when it was seen, whenever it was written |
| ProjectManager.CommitsHoldActive | server_engine/project/project_manager.cpp:2107-2533 | Whatever a run commits was committed by a SAVE of a state that was not persisted, and is exactly the content that was active then, under its fingerprint |
| ProjectManager.SavedOnce | server_engine/project/project_manager.cpp:2107-2180 | After a successful SAVE that could remember its transaction the next SAVE writes nothing and, if it succeeds, returns the same transaction |
| ProjectManager.PersistedExactly | server_engine/project/project_manager.cpp:1067-1070 | After a full scan an undisturbed update counts the state as persisted exactly if every source is as it was seen or holds another content with the same stamp |
| ProjectManager.StaleButSaved | server_engine/project/source/source_manager.cpp:1515-1574 | A source edited without changing its write time and size: BUILD notices it, keeps the old content, and SAVE reports success with nothing to do |
| UpdateAndRebuild.RebuildAfterUpdate | server_engine/project/frontend/source_frontend_incremental.cpp:294-628 | Where an undisturbed update of all that differs succeeds, a rebuild of the same files succeeds exactly if the roots are still there |
| UpdateAndRebuild.UpdateAgreesWithRebuild | server_engine/project/frontend/source_frontend_incremental.cpp:294-628 | An undisturbed update and a rebuild of the same files succeed in the same cases, as long as the roots are there, every other source that is there can be reached from them, no dirty source is missing twice and there are numbers left |
| UpdateAndRebuild.DeletedRoot | server_engine/project/frontend/source_frontend_incremental.cpp:417-428 | A project of one file that is deleted: the update goes on without it, a rebuild fails |
| UpdateAndRebuild.BrokenOrphan | server_engine/project/frontend/source_frontend_incremental.cpp:489-503 | A source that the roots no longer reach and that includes itself: the update fails, a rebuild does not look at it |
| BuildOrchestrator.Update | server_engine/project/project_build_orchestrator.cpp:364-580 | For every pattern of component failures the update publishes sources, contributions, graph, interfaces and provenance together or changes nothing, succeeds exactly if no call fails, and answers with the first call that does |
| BuildOrchestrator.RebuildCurrent | server_engine/project/project_build_orchestrator.cpp:137-362 | A full build in place succeeds exactly if nothing fails, answers with the first call that does, and leaves in every case the state of the stage it reached: unchanged before publication, and then the components with as many of the records beside them as were made |
| BuildOrchestrator.FailureAfterPublication | server_engine/project/project_build_orchestrator.cpp:268-344 | A full build in place over changed sources that fails has replaced the components exactly if what fails comes after publication; even then the components stand for the same sources |
| BuildOrchestrator.Rebuild | server_engine/project/project_build_orchestrator.cpp:100-135 | Through the detached candidate a rebuild replaces the owner's state as a whole or leaves it |
| BuildOrchestrator.RunAll | server_engine/project/project_build_orchestrator.cpp:92-580 | Over any sequence of updates, rebuilds and builds in place, each answers with its first failing call or success and leaves exactly the state that follows, and after each all components stand for the same sources |

## Left out

- Telemetry, clocks, diagnostics texts and benchmark programs: they only observe.
- Failing allocations: at the points where they are caught they appear as failing calls, elsewhere they do not appear; the sticky out-of-memory failures of the contribution cache and failing allocations in the JSON handlers are left out.
- Failing reads of a memory-mapped baseline inside the contribution cache: a mapped array is a sequence.
- Weak memory: the gate's steps are sequentially consistent, and the destructor's termination check is not modelled.
- Identities, strings and handles are numbers; the tables that intern them, the lexer, the declaration parser, the managed runtime and the image encoders are not part of this model.
- Of the graph only the handles of types and their aggregates are modelled, with a lookup that goes through the list of identities instead of an index over it; resolving members, objects, links and derived types is the call `rest`, which fails or succeeds.
- Of the rules of `validate_source_facts` in server_engine/project/frontend/source_facts_validation.cpp only those on ranges, identities of types and declared order are stated, in `SourceFacts.ValidFacts`.
- The rounding up to a power of two is stated mathematically, and the multiplicative hash is one of the hash functions the index is proved for.
- Offsets of JSON errors and of schema failures, and the owner and member a schema failure names: only the kind of failure is modelled.
- Seen-masks are sets of property names kept in a map from contexts, and a pending unknown property keeps its name.
- The parser's callbacks are collected and handed to the handler after parsing, because the handler cannot influence the parser.
- Conversions between numerals and doubles, path normalization, digests of file contents, change tokens and the change journal are parameters with stated hypotheses; a content hash identifies a text, and a token identifies a revision.
- ProjectManager.Manager.Discover: the check of the number of configured roots before they are resolved counts a root given twice as two; here it counts once, which makes a difference only beyond 32 bits of roots.
- ProjectManager.Manager.ReadIncluded: among several things that stop an update from following includes, the order of the queue decides which comes first, and only the answers these things may give are stated; for a full build the first one is stated too.
- IncludeDiscovery.DiscoverIncludes: the includes collected before an error are not stated, because no caller may use them; brace depths are not limited to 32 bits, which would need four gigabytes of braces.
- ProjectManager.Manager.Build: lexing and parsing a text and building the semantics of what was parsed are calls that fail or succeed; the reading of files, the following of includes, the checks of the include graph and the order of parsing are modelled.
- ProjectManager.Manager.Save: two SAVEs of one manager, which hold only access tokens and can overlap, are not modelled; others act between any two calls of a SAVE, but not another SAVE of the same manager. Reading back and verifying an opened baseline before committing it again is not modelled, because that section is proved unreachable.
- ProjectManager.Manager.Construct: the steps of freezing and handing over a generation are one step that fails or succeeds, because each of them abandons the construction in the same way; the sources of one wave are read one after another, where the source reads them in parallel; the first that fails in their order decides in both.
- ProjectManager.Manager.Reacquire: a dirty source is applied as soon as it is read, where the source reads all dirty ones first; the first that fails decides in both.
- ContributionBuilds.PrepareIncremental: the check for a supported ABI configuration is left out, because no other one can be loaded.
- BuildOrchestrator.Update: names interned while parsing stay in the append-only tables after a failure and are not part of the state compared.
- BuildOrchestrator.Rebuild: collecting the configured roots and the frontend's work are steps that fail or succeed here; both are modelled in `ProjectManager.Manager.Generate`.
- The packing of a construction value into two words, the lookup of types and objects by qualified name, the report on storage pressure that tells when a rebuild would reclaim stale records, and the mapping of a source's text only when it is asked for.
