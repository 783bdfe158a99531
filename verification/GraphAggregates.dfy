/** The first part of the graph builder: it takes the declarations of every changed source out of
    the aggregates of their types and puts the new ones in, or counts everything anew. */
module GraphAggregates {
  import opened Wrappers
  import opened ContributionArenas
  import opened SourceFacts
  import opened ContributionStorage
  import opened ContributionPatches
  import opened ContributionCache
  import opened ContributionSparse
  import opened ContributionSparseUpdate
  import opened ContributionModel
  import opened PatchIndex
  import opened ConstructionAggregate
  import opened ConstructionLedger
  import opened LiveDeclarations

  /** The part of the graph that outlives a build: which types have handles, in order. */
  class Graph {
    var identities: seq<nat>

    constructor ()
      ensures identities == []
    {
      identities := [];
    }
  }

  ghost function LedgerOf(u: SparseUpdate): Ledger
    reads u, u.owner
  {
    Ledger(u.owner.committed.construction.items, u.constructionPatches)
  }

  /** Only handles in use are patched, and all new ones are. */
  predicate Registers(keys: seq<nat>, before: nat, after: nat) {
    && before <= after
    && (forall k :: 0 <= k < |keys| ==> 0 < keys[k] <= after)
    && forall h :: before < h <= after ==> h in keys
  }

  lemma {:induction false} RegistersMore(keys: seq<nat>, before: nat, after: nat, handle: nat)
    requires Registers(keys, before, after) && 0 < handle <= after + 1
    ensures
      var more := if handle in keys then keys else keys + [handle];
      Registers(more, before, if handle <= after then after else handle)
  {
    var more := if handle in keys then keys else keys + [handle];
    assert handle in more;
    forall h | before < h <= (if handle <= after then after else handle) ensures h in more {
      assert h != handle ==> h in keys;
    }
  }

  lemma {:induction false} PatchPosted(
      table: seq<Construction>, before: seq<ConstructionPatch>, after: seq<ConstructionPatch>, handle: nat, value: Construction)
    requires PatchValue(after, handle) == Some(value)
    requires forall other :: other != handle ==> PatchValue(after, other) == PatchValue(before, other)
    ensures Posted(Ledger(table, before), Ledger(table, after), handle, value)
  {
  }

  // ---------- One declaration ----------

  /** Takes one committed declaration out. The checks for a missing handle, a missing slot and a
      failed subtraction are left out, because what is live always is in the books. */
  method Subtract(u: SparseUpdate, ids: seq<nat>, d: Declaration, ghost before: nat, ghost all: multiset<Declaration>)
      returns (result: Status)
    requires u.Valid() && u.failure.Ok? && !u.prepared && !u.published && |u.constructionPatches| < |u.constructionSlots|
    requires Booked(ids, LedgerOf(u), all) && d in all
    requires Registers(ConstructionKeys(u.constructionPatches), before, |ids|)
    modifies u`constructionPatches, u`constructionSlots, u`failure
    ensures u.Valid() && u.failure.Ok? && |u.constructionSlots| == old(|u.constructionSlots|)
    ensures result.Ok? && Booked(ids, LedgerOf(u), all - multiset{d})
    ensures Registers(ConstructionKeys(u.constructionPatches), before, |ids|)
    ensures |u.constructionPatches| <= old(|u.constructionPatches|) + 1
  {
    hide SparseUpdate.Valid, Booked, Registers, RemoveDeclaration, Posted;
    ghost var ledger, keys := LedgerOf(u), ConstructionKeys(u.constructionPatches);
    BookRemoval(ids, ledger, ledger, all, d);
    var handle := HandleOf(ids, d.typ.identity);
    var state := u.LatestConstruction(handle);
    var subtracted := RemoveDeclaration(state.value, d);
    result := u.SetConstruction(handle, subtracted.1);
    PatchPosted(ledger.table, ledger.patches, u.constructionPatches, handle, subtracted.1);
    BookRemoval(ids, ledger, LedgerOf(u), all, d);
    RegistersMore(keys, before, |ids|, handle);
  }

  /** Puts one new declaration in, giving its type a handle if it has none. The check that handles
      stay below 32 bits is left out: there are never more of them than records. */
  method Include(u: SparseUpdate, ids: seq<nat>, d: Declaration, ghost before: nat, ghost all: multiset<Declaration>)
      returns (result: Status, known: seq<nat>)
    requires u.Valid() && u.failure.Ok? && !u.prepared && !u.published && |u.constructionPatches| < |u.constructionSlots|
    requires Booked(ids, LedgerOf(u), all) && |all| < MAX_U32 && |ids| < MAX_U32
    requires Registers(ConstructionKeys(u.constructionPatches), before, |ids|)
    modifies u`constructionPatches, u`constructionSlots, u`failure
    ensures u.Valid() && u.failure.Ok? && |u.constructionSlots| == old(|u.constructionSlots|)
    ensures result.Ok? <==> AgreeingOn(all + multiset{d}, d.typ.identity)
    ensures
      !result.Ok? ==>
        result == if d.typ.identity == 0 || d.index == 0 then InvalidArgument else SemanticConflict
    ensures result.Ok? ==> known == Known(ids, d.typ.identity) && Booked(known, LedgerOf(u), all + multiset{d})
    ensures result.Ok? ==> Registers(ConstructionKeys(u.constructionPatches), before, |known|)
    ensures |u.constructionPatches| <= old(|u.constructionPatches|) + 1
  {
    hide SparseUpdate.Valid, Booked, Registers, AddDeclaration, Posted, AgreeingOn;
    known := ids;
    if d.typ.identity == 0 {
      NoIdentity(all, d);
      return InvalidArgument, ids;
    }
    ghost var ledger, keys := LedgerOf(u), ConstructionKeys(u.constructionPatches);
    BookedHandles(ids, ledger, all, d.typ.identity);
    known := Known(ids, d.typ.identity);
    BookAddition(known, ledger, ledger, all, d);
    var handle := HandleOf(known, d.typ.identity);
    var state := u.LatestConstruction(handle);
    var added := AddDeclaration(if state.Some? then state.value else NO_CONSTRUCTION, d);
    if !added.0.Ok? {
      return added.0, known;
    }
    result := u.SetConstruction(handle, added.1);
    PatchPosted(ledger.table, ledger.patches, u.constructionPatches, handle, added.1);
    BookAddition(known, ledger, LedgerOf(u), all, d);
    RegistersMore(keys, before, |ids|, handle);
  }

  lemma {:induction false} NoIdentity(all: multiset<Declaration>, d: Declaration)
    requires d.typ.identity == 0
    ensures !AgreeingOn(all + multiset{d}, 0)
  {
    assert d in all + multiset{d};
  }

  lemma {:induction false} BookedHandles(ids: seq<nat>, l: Ledger, all: multiset<Declaration>, id: nat)
    requires Booked(ids, l, all) && id != 0
    ensures
      var known := Known(ids, id);
      && Booked(known, l, all) && 0 < HandleOf(known, id) <= |ids| + 1
      && |known| == if HandleOf(known, id) <= |ids| then |ids| else HandleOf(known, id)
  {
    hide Tallies, ValueAt;
    BookIdentity(ids, l, all, id);
    KnownHandle(ids, id);
  }

  // ---------- One source ----------

  /** The declarations of a span that starts at `begin` in the arena. */
  predicate Spans(ds: seq<Declaration>, types: seq<TypeDecl>, begin: int) {
    |ds| == |types| && forall k :: 0 <= k < |ds| ==> begin >= 0 && ds[k] == Declaration(types[k], begin + k + 1)
  }

  lemma {:induction false} TakenOneMore(ds: seq<Declaration>, all: multiset<Declaration>, k: nat)
    requires k < |ds|
    ensures all - multiset(ds[..k]) - multiset{ds[k]} == all - multiset(ds[..k + 1])
    ensures all + multiset(ds[..k]) + multiset{ds[k]} == all + multiset(ds[..k + 1])
    ensures multiset(ds) <= all ==> ds[k] in all - multiset(ds[..k])
    ensures multiset(ds[..k + 1]) <= multiset(ds)
  {
    assert ds[..k + 1] == ds[..k] + [ds[k]];
    assert ds == ds[..k + 1] + ds[k + 1..];
    assert multiset(ds) == multiset(ds[..k]) + multiset{ds[k]} + multiset(ds[k + 1..]);
  }

  /** Every type has an identity. */
  predicate Named(types: seq<TypeDecl>) { forall k :: 0 <= k < |types| ==> types[k].identity != 0 }

  /** The loop over the previous types of a source. */
  method SubtractSource(
      u: SparseUpdate, ids: seq<nat>, types: seq<TypeDecl>, begin: int,
      ghost ds: seq<Declaration>, ghost before: nat, ghost all: multiset<Declaration>)
      returns (result: Status)
    requires u.Valid() && u.failure.Ok? && !u.prepared && !u.published
    requires |u.constructionPatches| + |types| <= |u.constructionSlots|
    requires Booked(ids, LedgerOf(u), all) && Spans(ds, types, begin) && multiset(ds) <= all
    requires Registers(ConstructionKeys(u.constructionPatches), before, |ids|)
    modifies u`constructionPatches, u`constructionSlots, u`failure
    ensures u.Valid() && u.failure.Ok? && |u.constructionSlots| == old(|u.constructionSlots|)
    ensures result.Ok? && Booked(ids, LedgerOf(u), all - multiset(ds))
    ensures Registers(ConstructionKeys(u.constructionPatches), before, |ids|)
    ensures |u.constructionPatches| <= old(|u.constructionPatches|) + |types|
  {
    hide SparseUpdate.Valid, Booked, Registers;
    result := Ok;
    assert all - multiset(ds[..0]) == all;
    for k := 0 to |types|
      invariant u.Valid() && u.failure.Ok? && |u.constructionSlots| == old(|u.constructionSlots|)
      invariant result.Ok? && Booked(ids, LedgerOf(u), all - multiset(ds[..k]))
      invariant Registers(ConstructionKeys(u.constructionPatches), before, |ids|)
      invariant |u.constructionPatches| <= old(|u.constructionPatches|) + k
    {
      TakenOneMore(ds, all, k);
      assert ds[k] == Declaration(types[k], begin + k + 1);
      result := Subtract(u, ids, Declaration(types[k], begin + k + 1), before, all - multiset(ds[..k]));
    }
    assert ds[..|types|] == ds;
  }

  /** The identities of these types, as the builder meets them. */
  function KnownTypes(ids: seq<nat>, types: seq<TypeDecl>): (r: seq<nat>)
    ensures ids <= r && |r| <= |ids| + |types|
  {
    if types == [] then ids else Known(KnownTypes(ids, types[..|types| - 1]), types[|types| - 1].identity)
  }

  lemma {:induction false} ConflictStays(all: multiset<Declaration>, ds: seq<Declaration>, k: nat)
    requires k < |ds| && Agreeing(all + multiset(ds))
    ensures AgreeingOn(all + multiset(ds[..k]) + multiset{ds[k]}, ds[k].typ.identity)
  {
    hide AgreeingOn;
    TakenOneMore(ds, all, k);
    FewerAgree(all + multiset(ds[..k + 1]), all + multiset(ds));
  }

  /** The loop over the new types of a source: it succeeds exactly if they contradict neither the
      declarations there are nor each other. */
  method IncludeSource(
      u: SparseUpdate, ids: seq<nat>, types: seq<TypeDecl>, begin: int,
      ghost ds: seq<Declaration>, ghost before: nat, ghost all: multiset<Declaration>)
      returns (result: Status, known: seq<nat>)
    requires u.Valid() && u.failure.Ok? && !u.prepared && !u.published
    requires |u.constructionPatches| + |types| <= |u.constructionSlots|
    requires Booked(ids, LedgerOf(u), all) && Spans(ds, types, begin)
    requires |all| + |types| <= MAX_U32 && |ids| + |types| <= MAX_U32
    requires Registers(ConstructionKeys(u.constructionPatches), before, |ids|)
    modifies u`constructionPatches, u`constructionSlots, u`failure
    ensures u.Valid() && u.failure.Ok? && |u.constructionSlots| == old(|u.constructionSlots|)
    ensures result.Ok? <==> Agreeing(all + multiset(ds))
    ensures !result.Ok? && Named(types) ==> result == SemanticConflict
    ensures result.Ok? ==> known == KnownTypes(ids, types) && Booked(known, LedgerOf(u), all + multiset(ds))
    ensures result.Ok? ==> Registers(ConstructionKeys(u.constructionPatches), before, |known|)
    ensures |u.constructionPatches| <= old(|u.constructionPatches|) + |types|
  {
    hide SparseUpdate.Valid, Booked, Registers, AgreeingOn, Agreeing;
    result, known := Ok, ids;
    assert all + multiset(ds[..0]) == all;
    assert types[..0] == [];
    for k := 0 to |types|
      invariant u.Valid() && u.failure.Ok? && |u.constructionSlots| == old(|u.constructionSlots|)
      invariant result.Ok? && known == KnownTypes(ids, types[..k])
      invariant Booked(known, LedgerOf(u), all + multiset(ds[..k]))
      invariant Registers(ConstructionKeys(u.constructionPatches), before, |known|)
      invariant |u.constructionPatches| <= old(|u.constructionPatches|) + k
    {
      TakenOneMore(ds, all, k);
      assert ds[k] == Declaration(types[k], begin + k + 1);
      assert types[..k + 1][..k] == types[..k];
      if Agreeing(all + multiset(ds)) { ConflictStays(all, ds, k); }
      assert |all + multiset(ds[..k])| == |all| + k;
      result, known := Include(u, known, Declaration(types[k], begin + k + 1), before, all + multiset(ds[..k]));
      if !result.Ok? { return; }
    }
    assert ds[..|types|] == ds && types[..|types|] == types;
    BooksAgree(known, LedgerOf(u), all + multiset(ds));
  }

  // ---------- All changed sources ----------

  /** Where the committed cache has the types of a source. */
  function PreviousRange(c: Storage, source: nat): Range {
    var previous := Lookup(c.sources.items, source);
    if previous.Some? then previous.value.types else Range(0, 0)
  }

  function Olds(
      c: Storage, p: SourcePatch): seq<Declaration> { DeclarationsAt(c.types.items, PreviousRange(c, p.source)) }

  function News(c: Storage, own: Arenas, p: SourcePatch): seq<Declaration> {
    DeclarationsAt(c.types.items + own.types, Target(p).types)
  }

  /** The types a patch puts in. */
  function TypesAfter(c: Storage, own: Arenas, p: SourcePatch): seq<TypeDecl> {
    CheckedSpan(c.types.items + own.types, Target(p).types)
  }

  /** How many declarations the patches take out and put in. */
  function Edits(c: Storage, own: Arenas, patches: seq<SourcePatch>): nat {
    if patches == [] then 0
    else
      var last := patches[|patches| - 1];
      Edits(c, own, patches[..|patches| - 1]) + |Olds(c, last)| + |News(c, own, last)|
  }

  /** The types that have handles after these patches. */
  function KnownAfter(ids: seq<nat>, c: Storage, own: Arenas, patches: seq<SourcePatch>): (r: seq<nat>)
    ensures ids <= r
  {
    if patches == [] then ids
    else
      KnownTypes(KnownAfter(ids, c, own, patches[..|patches| - 1]),
                 CheckedSpan(c.types.items + own.types, Target(patches[|patches| - 1]).types))
  }

  /** The slots once the first `i` patches have been taken over. */
  ghost function SlotsAfter(c: Storage, patches: seq<SourcePatch>, i: nat): seq<State>
    requires i <= |patches|
  {
    MaxSourceBounds(patches, LastIndex(c.sources.items));
    Apply(Padded(c.sources.items, MaxSource(patches, LastIndex(c.sources.items)) + 1), patches[..i])
  }

  /** The declarations that are live then. */
  ghost function LiveAfter(c: Storage, own: Arenas, patches: seq<SourcePatch>, i: nat): multiset<Declaration>
    requires i <= |patches|
  {
    Live(SlotsAfter(c, patches, i), c.types.items + own.types)
  }

  lemma {:induction false} LiveAtFirst(c: Storage, statistics: Statistics, own: Arenas, patches: seq<SourcePatch>)
    requires WellFormed(c, statistics)
    ensures LiveAfter(c, own, patches, 0) == Live(c.sources.items, c.types.items)
  {
    hide Live;
    var size := MaxSource(patches, LastIndex(c.sources.items)) + 1;
    assert patches[..0] == [];
    LivePadded(c.sources.items, c.types.items + own.types, size - |c.sources.items|);
    LiveStable(c.sources.items, c.types.items, own.types, SizesOf(ArenasOf(c)));
  }

  lemma {:induction false} LiveAtLast(c: Storage, own: Arenas, patches: seq<SourcePatch>)
    ensures LiveAfter(c, own, patches, |patches|) == Live(FinalSources(c, patches), c.types.items + own.types)
  {
    assert patches[..|patches|] == patches;
  }

  lemma {:induction false} OldSlot(c: Storage, statistics: Statistics, own: Arenas, p: SourcePatch, size: nat)
    requires WellFormed(c, statistics) && |c.sources.items| <= size && p.source < size && p.source != 0
    ensures SlotDeclarations(c.types.items + own.types, Padded(c.sources.items, size)[p.source], p.source) == Olds(c, p)
  {
    var types := c.types.items;
    var s := Padded(c.sources.items, size)[p.source];
    if s.source == p.source {
      assert InBounds(c.sources.items[p.source], SizesOf(ArenasOf(c)));
      assert CheckedSpan(types + own.types, s.types) == CheckedSpan(types, s.types);
      assert DeclarationsAt(types + own.types, s.types) == DeclarationsAt(types, s.types);
    }
  }

  lemma {:induction false} NewSlot(c: Storage, own: Arenas, patches: seq<SourcePatch>, changes: seq<Change>, i: nat)
    requires Collected(c, own, patches, changes) && i < |patches|
    ensures SlotDeclarations(c.types.items + own.types, Target(patches[i]), patches[i].source) == News(c, own, patches[i])
    ensures |News(c, own, patches[i])| == CountsOf(Target(patches[i])).types && patches[i].source != 0
  {
    hide Canonical;
    assert Stores(patches[i], changes[i], Append(ArenasOf(c), own));
  }

  /** One patch: its source's old declarations go, its new ones come. */
  lemma {:induction false} LiveStep(
      c: Storage, statistics: Statistics, own: Arenas, patches: seq<SourcePatch>, changes: seq<Change>, i: nat)
    requires WellFormed(c, statistics) && Collected(c, own, patches, changes) && Distinct(SourceKeys(patches))
    requires i < |patches|
    ensures multiset(Olds(c, patches[i])) <= LiveAfter(c, own, patches, i)
    ensures LiveAfter(c, own, patches, i + 1)
         == LiveAfter(c, own, patches, i) - multiset(Olds(c, patches[i])) + multiset(News(c, own, patches[i]))
  {
    hide WellFormed, Collected, Live, Olds, News, SlotDeclarations, MaxSource, Target, Totals, AfterPatch;
    var size := MaxSource(patches, LastIndex(c.sources.items)) + 1;
    MaxSourceBounds(patches, LastIndex(c.sources.items));
    var padded, source := Padded(c.sources.items, size), patches[i].source;
    NewSlot(c, own, patches, changes, i);
    OldSlot(c, statistics, own, patches[i], size);
    AppliedStatistics(padded, patches, i);
    assert patches[..i + 1][..i] == patches[..i];
    LiveUpdate(Apply(padded, patches[..i]), c.types.items + own.types, source, Target(patches[i]));
  }

  lemma {:induction false} StoredStep(patches: seq<SourcePatch>)
    ensures Stored([]).types == 0
    ensures patches != [] ==>
      var last := |patches| - 1;
      Stored(patches).types == Stored(patches[..last]).types + Target(patches[last]).types.count
  {}

  lemma {:induction false} StoredGrows(patches: seq<SourcePatch>, i: nat)
    requires i <= |patches| && forall k :: 0 <= k < |patches| ==> Target(patches[k]).types.count >= 0
    ensures 0 <= Stored(patches[..i]).types <= Stored(patches).types
  {
    hide Stored, Target;
    StoredStep(patches);
    if i == |patches| {
      assert patches[..i] == patches;
      if i != 0 { StoredGrows(patches[..i - 1], i - 1); }
    } else {
      StoredGrows(patches[..|patches| - 1], i);
      assert patches[..|patches| - 1][..i] == patches[..i];
    }
  }

  lemma {:induction false} TargetsCounted(c: Storage, own: Arenas, patches: seq<SourcePatch>, changes: seq<Change>)
    requires Collected(c, own, patches, changes)
    ensures forall k :: 0 <= k < |patches| ==> Target(patches[k]).types.count >= 0 && Owned(patches[k])
    ensures Stored(patches).types == |own.types|
  {
    hide Canonical;
    forall k | 0 <= k < |patches| ensures Target(patches[k]).types.count >= 0 && Owned(patches[k]) {
      assert Stores(patches[k], changes[k], Append(ArenasOf(c), own));
    }
  }

  /** However far the builder has come, no more declarations are live than there are types. */
  lemma {:induction false} LiveBound(
      c: Storage, statistics: Statistics, own: Arenas, patches: seq<SourcePatch>, changes: seq<Change>, i: nat)
    requires WellFormed(c, statistics) && Collected(c, own, patches, changes) && Distinct(SourceKeys(patches))
    requires i <= |patches|
    ensures |LiveAfter(c, own, patches, i)| <= |c.types.items| + |own.types|
  {
    hide Live, Canonical, Holds, Totals, InBounds, Stored;
    var size := MaxSource(patches, LastIndex(c.sources.items)) + 1;
    MaxSourceBounds(patches, LastIndex(c.sources.items));
    var padded, all := Padded(c.sources.items, size), Append(ArenasOf(c), own);
    PrefixStores(patches, changes, all, i);
    PaddedBounds(c.sources.items, size, SizesOf(ArenasOf(c)), SizesOf(ArenasOf(c)));
    BoundsNonNegative(padded, SizesOf(ArenasOf(c)));
    PaddedBounds(c.sources.items, size, SizesOf(ArenasOf(c)), SizesOf(all));
    AppliedBounds(padded, patches[..i], changes[..i], all);
    LiveCount(Apply(padded, patches[..i]), all.types, SizesOf(all));
    TargetsCounted(c, own, patches, changes);
    AppliedAtMost(padded, patches[..i]);
    StoredGrows(patches, i);
    TotalsPadded(c.sources.items, size - |c.sources.items|);
  }

  lemma {:induction false} KnownBound(
      ids: seq<nat>, c: Storage, own: Arenas, patches: seq<SourcePatch>, changes: seq<Change>, i: nat)
    requires Collected(c, own, patches, changes) && i <= |patches|
    ensures |KnownAfter(ids, c, own, patches[..i])| <= |ids| + Stored(patches[..i]).types
    ensures Stored(patches[..i]).types <= |own.types|
    ensures i < |patches| ==>
      |KnownAfter(ids, c, own, patches[..i])| + |News(c, own, patches[i])| <= |ids| + |own.types|
  {
    hide Collected, Stored, Target, CountsOf;
    TargetsCounted(c, own, patches, changes);
    StoredGrows(patches, i);
    StoredStep(patches[..i]);
    if i != 0 {
      KnownBound(ids, c, own, patches, changes, i - 1);
      assert patches[..i][..i - 1] == patches[..i - 1];
      NewSlot(c, own, patches, changes, i - 1);
      NewsAreTarget(c, own, patches[i - 1]);
    }
    if i < |patches| {
      NewSlot(c, own, patches, changes, i);
      NewsAreTarget(c, own, patches[i]);
      StoredGrows(patches, i + 1);
      StoredStep(patches[..i + 1]);
      assert patches[..i + 1][..i] == patches[..i];
    }
  }

  lemma {:induction false} NewsAreTarget(c: Storage, own: Arenas, p: SourcePatch)
    ensures |News(c, own, p)| == |CheckedSpan(c.types.items + own.types, Target(p).types)|
    ensures CountsOf(Target(p)).types == Target(p).types.count
    ensures Spans(News(c, own, p), CheckedSpan(c.types.items + own.types, Target(p).types), Target(p).types.begin)
  {}

  lemma {:induction false} OldsAreSpan(c: Storage, p: SourcePatch)
    ensures |Olds(c, p)| == |CheckedSpan(c.types.items, PreviousRange(c, p.source))|
    ensures Spans(Olds(c, p), CheckedSpan(c.types.items, PreviousRange(c, p.source)), PreviousRange(c, p.source).begin)
  {}

  lemma {:induction false} EditsGrow(c: Storage, own: Arenas, patches: seq<SourcePatch>, i: nat)
    requires i <= |patches|
    ensures Edits(c, own, patches[..i]) <= Edits(c, own, patches)
    ensures i < |patches| ==>
      && Edits(c, own, patches[..i + 1])
         == Edits(c, own, patches[..i]) + |Olds(c, patches[i])| + |News(c, own, patches[i])|
      && Edits(c, own, patches[..i + 1]) <= Edits(c, own, patches)
  {
    hide Olds, News;
    if i == |patches| {
      assert patches[..i] == patches;
    } else {
      assert patches[..i + 1][..i] == patches[..i];
      EditsUpTo(c, own, patches, i);
      EditsUpTo(c, own, patches, i + 1);
    }
  }

  lemma {:induction false} EditsUpTo(c: Storage, own: Arenas, patches: seq<SourcePatch>, i: nat)
    requires i <= |patches|
    ensures Edits(c, own, patches[..i]) <= Edits(c, own, patches)
  {
    hide Olds, News;
    if i == |patches| {
      assert patches[..i] == patches;
    } else {
      EditsUpTo(c, own, patches[..|patches| - 1], i);
      assert patches[..|patches| - 1][..i] == patches[..i];
    }
  }

  /** The books after the first `i` changed sources. */
  ghost predicate Reached(u: SparseUpdate, ids: seq<nat>, known: seq<nat>, i: nat)
    reads u, u.owner
    requires i <= |u.sourcePatches|
  {
    var c := u.owner.committed;
    && known == KnownAfter(ids, c, u.candidate, u.sourcePatches[..i])
    && Booked(known, LedgerOf(u), LiveAfter(c, u.candidate, u.sourcePatches, i))
    && Registers(ConstructionKeys(u.constructionPatches), |ids|, |known|)
    && |u.constructionPatches| <= Edits(c, u.candidate, u.sourcePatches[..i])
  }

  /** There is room for every aggregate and every handle. */
  ghost predicate Roomy(u: SparseUpdate, ids: seq<nat>)
    reads u, u.owner
  {
    && Edits(u.owner.committed, u.candidate, u.sourcePatches) <= |u.constructionSlots|
    && |ids| <= |u.owner.committed.types.items|
    && |u.owner.committed.types.items| + |u.candidate.types| <= MAX_U32
  }

  /** One changed source: subtracts its old types, then adds its new ones. */
  method AggregateSource(u: SparseUpdate, ghost ids: seq<nat>, before: seq<nat>, i: nat)
      returns (result: Status, known: seq<nat>)
    requires u.Valid() && u.failure.Ok? && !u.prepared && !u.published && i < |u.sourcePatches|
    requires Reached(u, ids, before, i) && Roomy(u, ids)
    modifies u`constructionPatches, u`constructionSlots, u`failure
    ensures u.Valid() && u.failure.Ok? && |u.constructionSlots| == old(|u.constructionSlots|)
    ensures result.Ok? <==> Agreeing(LiveAfter(u.owner.committed, u.candidate, u.sourcePatches, i + 1))
    ensures
      !result.Ok? && Named(TypesAfter(u.owner.committed, u.candidate, u.sourcePatches[i])) ==> result == SemanticConflict
    ensures result.Ok? ==> Reached(u, ids, known, i + 1)
  {
    hide SparseUpdate.Valid, Booked, Registers, Agreeing, LiveAfter, WellFormed, Collected, Spans, Olds, News, Target,
      Stored, Edits, KnownTypes, LedgerOf, CheckedSpan, ConstructionKeys, SourceKeys;
    ghost var c, own, patches := u.owner.committed, u.candidate, u.sourcePatches;
    ghost var live, olds, news := LiveAfter(c, own, patches, i), Olds(c, patches[i]), News(c, own, patches[i]);
    u.OpenMeans();
    LiveStep(c, u.owner.statistics, own, patches, u.changes, i);
    LiveBound(c, u.owner.statistics, own, patches, u.changes, i + 1);
    EditsGrow(c, own, patches, i);
    KnownBound(ids, c, own, patches, u.changes, i);
    OldsAreSpan(c, patches[i]);
    NewsAreTarget(c, own, patches[i]);
    assert patches[..i + 1][..i] == patches[..i];
    assert |live - multiset(olds)| + |news| == |live - multiset(olds) + multiset(news)|;
    var source := u.changedSources[i];
    var previous := Lookup(u.owner.committed.sources.items, source);
    var range := if previous.Some? then previous.value.types else Range(0, 0);
    result := SubtractSource(u, before, CheckedSpan(u.owner.committed.types.items, range), range.begin, olds, |ids|, live);
    var place, types := u.ReplacementTypes(source, i);
    result, known := IncludeSource(u, before, types, place.begin, news, |ids|, live - multiset(olds));
  }

  /** The loop over the changed sources. It succeeds exactly if no declarations contradict each
      other once each source has been taken over in turn; then every slot is the aggregate of
      what will be live. */
  method Aggregate(u: SparseUpdate, ids: seq<nat>) returns (result: Status, known: seq<nat>)
    requires u.Valid() && u.failure.Ok? && !u.prepared && !u.published && u.constructionPatches == []
    requires Booked(ids, LedgerOf(u), Live(u.owner.committed.sources.items, u.owner.committed.types.items)) && Roomy(u, ids)
    modifies u`constructionPatches, u`constructionSlots, u`failure
    ensures u.Valid() && u.failure.Ok?
    ensures
      result.Ok? <==>
      forall i :: 0 <= i <= |u.sourcePatches| ==>
        Agreeing(LiveAfter(u.owner.committed, u.candidate, u.sourcePatches, i))
    ensures
      !result.Ok? &&
      (forall i :: 0 <= i < |u.sourcePatches| ==> Named(TypesAfter(u.owner.committed, u.candidate, u.sourcePatches[i]))) ==>
        result == SemanticConflict
    ensures result.Ok? ==> Reached(u, ids, known, |u.sourcePatches|)
  {
    hide SparseUpdate.Valid, Booked, Registers, Agreeing, LiveAfter, WellFormed, Collected, Edits, Live, KnownAfter,
      Reached;
    result, known := Ok, ids;
    u.OpenMeans();
    LiveAtFirst(u.owner.committed, u.owner.statistics, u.candidate, u.sourcePatches);
    NothingReached(u, ids);
    for i := 0 to |u.changedSources|
      invariant u.Valid() && u.failure.Ok? && |u.constructionSlots| == old(|u.constructionSlots|)
      invariant result.Ok? && Reached(u, ids, known, i)
      invariant forall k :: 0 <= k <= i ==> Agreeing(LiveAfter(u.owner.committed, u.candidate, u.sourcePatches, k))
    {
      result, known := AggregateSource(u, ids, known, i);
      if !result.Ok? { return; }
    }
  }

  lemma {:induction false} NothingReached(u: SparseUpdate, ids: seq<nat>)
    requires u.constructionPatches == []
    requires Booked(ids, LedgerOf(u), LiveAfter(u.owner.committed, u.candidate, u.sourcePatches, 0))
    ensures Reached(u, ids, ids, 0)
    ensures Agreeing(LiveAfter(u.owner.committed, u.candidate, u.sourcePatches, 0))
  {
    hide Booked, Agreeing, LiveAfter;
    assert u.sourcePatches[..0] == [];
    BooksAgree(ids, LedgerOf(u), LiveAfter(u.owner.committed, u.candidate, u.sourcePatches, 0));
  }

  // ---------- Counting everything anew ----------

  /** A slot is empty or owned by the source it is for. */
  predicate Housed(sources: seq<State>) {
    forall i :: 0 <= i < |sources| ==> sources[i].source == 0 || sources[i].source == i
  }

  /** Counts one declaration in a table that has a slot for every type there could be. */
  method CountDeclaration(ids: seq<nat>, table: seq<Construction>, d: Declaration, ghost all: multiset<Declaration>)
      returns (result: Status, known: seq<nat>, counted: seq<Construction>)
    requires Booked(ids, Ledger(table, []), all) && |all| < MAX_U32 && |ids| <= |all| && |all| + 1 < |table|
    ensures result.Ok? <==> AgreeingOn(all + multiset{d}, d.typ.identity)
    ensures
      !result.Ok? ==>
        result == if d.typ.identity == 0 || d.index == 0 then InvalidArgument else SemanticConflict
    ensures result.Ok? ==>
      && |counted| == |table| && |known| <= |all| + 1 && Booked(known, Ledger(counted, []), all + multiset{d})
  {
    hide Booked, AddDeclaration, Posted, AgreeingOn;
    known, counted := ids, table;
    if d.typ.identity == 0 {
      NoIdentity(all, d);
      return InvalidArgument, known, counted;
    }
    BookedHandles(ids, Ledger(table, []), all, d.typ.identity);
    known := Known(ids, d.typ.identity);
    BookAddition(known, Ledger(table, []), Ledger(table, []), all, d);
    var handle := HandleOf(known, d.typ.identity);
    var added := AddDeclaration(table[handle], d);
    if !added.0.Ok? {
      return added.0, known, counted;
    }
    counted := table[handle := added.1];
    SlotPosted(table, handle, added.1);
    BookAddition(known, Ledger(table, []), Ledger(counted, []), all, d);
    result := Ok;
  }

  lemma {:induction false} SlotPosted(table: seq<Construction>, handle: nat, value: Construction)
    requires 0 < handle < |table|
    ensures Posted(Ledger(table, []), Ledger(table[handle := value], []), handle, value)
    ensures ValueAt(Ledger(table, []), handle) == table[handle]
  {
  }

  /** The loop over the types of one source. */
  method CountSource(
      ids: seq<nat>, table: seq<Construction>, types: seq<TypeDecl>, begin: int,
      ghost ds: seq<Declaration>, ghost all: multiset<Declaration>)
      returns (result: Status, known: seq<nat>, counted: seq<Construction>)
    requires Booked(ids, Ledger(table, []), all) && Spans(ds, types, begin)
    requires |ids| <= |all| && |all| + |types| <= MAX_U32 && |all| + |types| < |table|
    ensures result.Ok? <==> Agreeing(all + multiset(ds))
    ensures !result.Ok? && Named(types) ==> result == SemanticConflict
    ensures result.Ok? ==>
      && |counted| == |table| && |known| <= |all| + |types|
      && Booked(known, Ledger(counted, []), all + multiset(ds))
  {
    hide Booked, AgreeingOn, Agreeing;
    result, known, counted := Ok, ids, table;
    assert all + multiset(ds[..0]) == all;
    for k := 0 to |types|
      invariant result.Ok? && |counted| == |table| && |known| <= |all| + k
      invariant Booked(known, Ledger(counted, []), all + multiset(ds[..k]))
    {
      TakenOneMore(ds, all, k);
      assert ds[k] == Declaration(types[k], begin + k + 1);
      if Agreeing(all + multiset(ds)) { ConflictStays(all, ds, k); }
      assert |all + multiset(ds[..k])| == |all| + k;
      result, known, counted :=
        CountDeclaration(known, counted, Declaration(types[k], begin + k + 1), all + multiset(ds[..k]));
      if !result.Ok? { return; }
    }
    assert ds[..|types|] == ds;
    BooksAgree(known, Ledger(counted, []), all + multiset(ds));
  }

  lemma {:induction false} NamedSpan(types: seq<TypeDecl>, r: Range)
    ensures Named(types) ==> Named(CheckedSpan(types, r))
  {}

  lemma {:induction false} LivePrefix(sources: seq<State>, types: seq<TypeDecl>, i: nat)
    requires i <= |sources|
    ensures Live(sources[..i], types) <= Live(sources, types)
    ensures i < |sources| ==>
      Live(sources[..i + 1], types) == Live(sources[..i], types) + multiset(SlotDeclarations(types, sources[i], i))
  {
    hide SlotDeclarations;
    if i == |sources| {
      assert sources[..i] == sources;
    } else {
      assert sources[..i + 1][..i] == sources[..i];
      LivePrefix(sources[..|sources| - 1], types, i);
      assert sources[..|sources| - 1][..i] == sources[..i];
    }
  }

  lemma {:induction false} EmptyBooks(size: nat)
    ensures Booked([], Ledger(seq(size, _ => NO_CONSTRUCTION), []), multiset{})
  {
    var l := Ledger(seq(size, _ => NO_CONSTRUCTION), []);
    forall h: nat ensures ValueAt(l, h) == NO_CONSTRUCTION {}
  }

  lemma {:induction false} PrefixAgrees(sources: seq<State>, types: seq<TypeDecl>, i: nat)
    requires i <= |sources| && Agreeing(Live(sources, types))
    ensures Agreeing(Live(sources[..i], types))
  {
    LivePrefix(sources, types, i);
    FewerAgree(Live(sources[..i], types), Live(sources, types));
  }

  lemma {:induction false} SubmultisetSize(a: multiset<Declaration>, b: multiset<Declaration>)
    requires a <= b
    ensures |a| <= |b|
  {
    assert b == a + (b - a);
  }

  lemma {:induction false} SlotKept(table: seq<Construction>, size: nat, handle: nat)
    requires handle < size <= |table|
    ensures ValueAt(Ledger(table[..size], []), handle) == ValueAt(Ledger(table, []), handle)
  {}

  /** Slots past the last handle are given back; they were never used. */
  lemma {:induction false} CutTable(ids: seq<nat>, table: seq<Construction>, all: multiset<Declaration>)
    requires Booked(ids, Ledger(table, []), all) && |ids| < |table|
    ensures Booked(ids, Ledger(table[..|ids| + 1], []), all)
  {
    hide Tallies;
    forall i | 0 <= i < |ids| ensures Tallies(ValueAt(Ledger(table[..|ids| + 1], []), i + 1), all, ids[i]) {
      SlotKept(table, |ids| + 1, i + 1);
    }
  }

  /** The first loop of a rebuild: visits the sources in order of their numbers and gives types
      handles as it meets them. It succeeds exactly if no two declarations contradict each other. */
  method AggregateAll(sources: seq<State>, types: seq<TypeDecl>, ghost z: Sizes)
      returns (result: Status, known: seq<nat>, table: seq<Construction>)
    requires Housed(sources) && SourcesInBounds(sources, z) && z.types == |types| <= MAX_U32
    requires Totals(sources).counts.types <= |types|
    ensures result.Ok? <==> Agreeing(Live(sources, types))
    ensures !result.Ok? && Named(types) ==> result == SemanticConflict
    ensures result.Ok? ==>
      && |known| <= |types| && |table| == |known| + 1 && Booked(known, Ledger(table, []), Live(sources, types))
  {
    hide Booked, Agreeing, SlotDeclarations, Totals, Live, SourcesInBounds;
    result, known, table := Ok, [], seq(|types| + 1, _ => NO_CONSTRUCTION);
    EmptyBooks(|types| + 1);
    NothingLive(sources, types);
    LiveCount(sources, types, z);
    for index := 0 to |sources|
      invariant result.Ok? && |table| == |types| + 1 && |known| <= |Live(sources[..index], types)|
      invariant Booked(known, Ledger(table, []), Live(sources[..index], types))
    {
      var s := sources[index];
      ghost var live, ds := Live(sources[..index], types), SlotDeclarations(types, s, index);
      LivePrefix(sources, types, index);
      LivePrefix(sources, types, index + 1);
      SubmultisetSize(Live(sources[..index + 1], types), Live(sources, types));
      if Agreeing(Live(sources, types)) { PrefixAgrees(sources, types, index + 1); }
      OwnSpan(types, s, index);
      if s.source != 0 {
        NamedSpan(types, s.types);
        result, known, table := CountSource(known, table, CheckedSpan(types, s.types), s.types.begin, ds, live);
        if !result.Ok? { return; }
      } else {
        assert live + multiset(ds) == live;
      }
    }
    assert sources[..|sources|] == sources;
    CutTable(known, table, Live(sources, types));
    BooksAgree(known, Ledger(table, []), Live(sources, types));
    table := table[..|known| + 1];
  }

  lemma {:induction false} NothingLive(sources: seq<State>, types: seq<TypeDecl>)
    ensures Live(sources[..0], types) == multiset{} && |Live(sources[..0], types)| == 0
  {}

  lemma {:induction false} OwnSpan(types: seq<TypeDecl>, s: State, index: nat)
    requires s.source == 0 || s.source == index
    ensures
      if s.source == 0 then SlotDeclarations(types, s, index) == []
      else Spans(SlotDeclarations(types, s, index), CheckedSpan(types, s.types), s.types.begin)
  {}

  // ---------- Between builds ----------

  /** The graph's handles and the cache's slots belong together: every live type has a handle, every
      handle's slot is the aggregate of the live declarations of its type, and everything can be
      numbered in 32 bits. */
  ghost predicate InBooks(s: Storage, ids: seq<nat>) {
    && Booked(ids, Ledger(s.construction.items, []), Live(s.sources.items, s.types.items))
    && LastIndex(s.construction.items) == |ids| <= |s.types.items| <= MAX_U32
  }

  /** The slot of a type: the aggregate its handle names, or the default one if it has none. */
  ghost function SlotOf(s: Storage, ids: seq<nat>, id: nat): Construction {
    ValueAt(Ledger(s.construction.items, []), HandleOf(ids, id))
  }

  /** Every type's slot is the aggregate of its live declarations, and nothing is contradictory. */
  lemma {:induction false} InBooksMeans(s: Storage, ids: seq<nat>, id: nat)
    requires InBooks(s, ids)
    ensures Agreeing(Live(s.sources.items, s.types.items))
    ensures Tallies(SlotOf(s, ids, id), Live(s.sources.items, s.types.items), id)
  {
    hide Tallies, Live, Agreeing, PatchValue;
    BooksAgree(ids, Ledger(s.construction.items, []), Live(s.sources.items, s.types.items));
    if id in ids {
      var h := HandleOf(ids, id);
      assert ids[h - 1] == id;
    } else {
      NoSlot(s.construction.items);
      TallyNothing(Live(s.sources.items, s.types.items), id);
    }
  }

  lemma {:induction false} NoSlot(table: seq<Construction>)
    ensures ValueAt(Ledger(table, []), 0) == NO_CONSTRUCTION
  {}

  lemma {:induction false} MaxHandleIs(patches: seq<ConstructionPatch>, before: nat, after: nat)
    requires Registers(ConstructionKeys(patches), before, after)
    ensures MaxHandle(patches, before) == after
  {
    MaxHandleIsLargest(patches, before);
    var keys := ConstructionKeys(patches);
    if before < after {
      assert after in keys;
      var i :| 0 <= i < |keys| && keys[i] == after;
    }
  }

  lemma {:induction false} MaxHandleIsLargest(patches: seq<ConstructionPatch>, start: nat)
    ensures MaxHandle(patches, start) == start || MaxHandle(patches, start) in ConstructionKeys(patches)
    ensures forall i :: 0 <= i < |patches| ==> ConstructionKeys(patches)[i] <= MaxHandle(patches, start)
  {
    if patches != [] {
      var front := patches[..|patches| - 1];
      MaxHandleIsLargest(front, start);
      assert ConstructionKeys(patches) == ConstructionKeys(front) + [patches[|patches| - 1].handle];
    }
  }

  /** Publication keeps every slot's value. */
  lemma {:induction false} PublishedBooks(
      ids: seq<nat>, before: seq<Construction>, patches: seq<ConstructionPatch>, after: seq<Construction>,
      all: multiset<Declaration>)
    requires Booked(ids, Ledger(before, patches), all)
    requires forall h :: 0 < h ==>
      ConstructionAt(after, h) == AfterConstruction(before, |after|, PatchValue(patches, h), h)
    ensures Booked(ids, Ledger(after, []), all)
  {
    hide Tallies, PatchValue;
    forall h: nat | 0 < h ensures ValueAt(Ledger(after, []), h) == ValueAt(Ledger(before, patches), h) {
      SameValue(before, patches, after, h);
    }
  }

  lemma {:induction false} SameValue(
      before: seq<Construction>, patches: seq<ConstructionPatch>, after: seq<Construction>, h: nat)
    requires 0 < h && ConstructionAt(after, h) == AfterConstruction(before, |after|, PatchValue(patches, h), h)
    ensures ValueAt(Ledger(after, []), h) == ValueAt(Ledger(before, patches), h)
  {
  }
}
