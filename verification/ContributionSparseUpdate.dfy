/** `source_contribution_sparse_update`: the transaction object itself. */
module ContributionSparseUpdate {
  import opened Wrappers
  import opened ContributionArenas
  import opened SourceFacts
  import opened StoredFacts
  import opened ContributionStorage
  import opened ContributionPatches
  import opened ContributionCache
  import opened ContributionSparse
  import opened PatchIndex

  function ChangeKeys(changes: seq<Change>): (r: seq<nat>)
    ensures |r| == |changes| && forall i :: 0 <= i < |r| ==> r[i] == changes[i].source
  {
    seq(|changes|, i requires 0 <= i < |changes| => changes[i].source)
  }

  /** `subtract_count` on all counters of one source at once. */
  function Subtractable(total: Statistics, s: State): bool {
    total.sources != 0 && AtMost(CountsOf(s), total.counts)
  }

  /** The statistics loop of `prepare_publish`. The subtraction is checked in the program; it
      cannot fail, because the running totals always are the totals of a real slot table. */
  method PrepareStatistics(
      c: Storage, statistics: Statistics, patches: seq<SourcePatch>, ghost own: Arenas, ghost changes: seq<Change>)
      returns (prepared: Statistics, maxSource: nat)
    requires WellFormed(c, statistics) && Collected(c, own, patches, changes) && Distinct(SourceKeys(patches))
    ensures maxSource == MaxSource(patches, LastIndex(c.sources.items))
    ensures prepared == Totals(FinalSources(c, patches))
  {
    hide WellFormed, Collected, Totals, Subtractable, CountsOf, Lookup, InBounds;
    WellFormedBounds(c, statistics);
    var start := LastIndex(c.sources.items);
    ghost var padded := Padded(c.sources.items, MaxSource(patches, start) + 1);
    MaxSourceBounds(patches, start);
    TotalsPadded(c.sources.items, |padded| - |c.sources.items|);
    prepared, maxSource := statistics, start;
    for i := 0 to |patches|
      invariant maxSource == MaxSource(patches[..i], start)
      invariant prepared == Totals(Apply(padded, patches[..i]))
    {
      var patch := patches[i];
      assert patches[..i + 1][..i] == patches[..i];
      if maxSource < patch.source { maxSource := patch.source; }
      PatchStep(c, own, patches, changes, padded, i);
      var previous := Lookup(c.sources.items, patch.source);
      if previous.Some? {
        assert Subtractable(prepared, previous.value);
        prepared := Subtract(prepared, Statistics(1, CountsOf(previous.value)));
      }
      if patch.present {
        prepared := Add(prepared, Statistics(1, CountsOf(patch.state)));
      }
    }
    assert patches[..|patches|] == patches;
  }

  function AfterStep(s: Statistics, previous: Option<State>, patch: SourcePatch): Statistics {
    var without := if previous.Some? then Subtract(s, Statistics(1, CountsOf(previous.value))) else s;
    if patch.present then Add(without, Statistics(1, CountsOf(patch.state))) else without
  }

  lemma {:induction false} PrefixStores(patches: seq<SourcePatch>, changes: seq<Change>, a: Arenas, k: nat)
    requires StoresAll(patches, changes, a) && k <= |patches| && Distinct(SourceKeys(patches))
    ensures StoresAll(patches[..k], changes[..k], a) && Distinct(SourceKeys(patches[..k]))
  {
    assert SourceKeys(patches[..k]) == SourceKeys(patches)[..k];
  }

  /** One step of the statistics loop: no counter underflows, and the totals stay the totals. */
  lemma {:induction false} PatchStep(
      c: Storage, own: Arenas, patches: seq<SourcePatch>, changes: seq<Change>, padded: seq<State>, i: nat)
    requires SourcesInBounds(c.sources.items, SizesOf(ArenasOf(c)))
    requires Collected(c, own, patches, changes) && Distinct(SourceKeys(patches)) && i < |patches|
    requires |c.sources.items| <= |padded| && padded == Padded(c.sources.items, |padded|) && Addresses(patches, |padded|)
    ensures var s, previous := Totals(Apply(padded, patches[..i])), Lookup(c.sources.items, patches[i].source);
      && (previous.Some? ==> Subtractable(s, previous.value))
      && Totals(Apply(padded, patches[..i + 1])) == AfterStep(s, previous, patches[i])
  {
    hide View, InBounds, Totals, Canonical;
    var all := Append(ArenasOf(c), own);
    var before := Apply(padded, patches[..i]);
    PrefixStores(patches, changes, all, i);
    PaddedBounds(c.sources.items, |padded|, SizesOf(ArenasOf(c)), SizesOf(all));
    AppliedBounds(padded, patches[..i], changes[..i], all);
    BoundsNonNegative(before, SizesOf(all));
    AppliedStatistics(padded, patches, i);
    TotalsCoverSlot(before, patches[i].source);
    assert Stores(patches[i], changes[i], all);
  }

  method MaxHandleOf(patches: seq<ConstructionPatch>, start: nat) returns (r: nat)
    ensures r == MaxHandle(patches, start)
  {
    r := start;
    for i := 0 to |patches|
      invariant r == MaxHandle(patches[..i], start)
    {
      assert patches[..i + 1][..i] == patches[..i];
      if r < patches[i].handle { r := patches[i].handle; }
    }
    assert patches[..|patches|] == patches;
  }

  /** The slot-patching loop of `publish_prepared`. */
  method PatchSources(sources: seq<State>, patches: seq<SourcePatch>) returns (r: seq<State>)
    requires Addresses(patches, |sources|)
    ensures r == Apply(sources, patches)
  {
    r := sources;
    for i := 0 to |patches|
      invariant r == Apply(sources, patches[..i])
    {
      assert patches[..i + 1][..i] == patches[..i];
      r := r[patches[i].source := if patches[i].present then patches[i].state else NO_STATE];
    }
    assert patches[..|patches|] == patches;
  }

  method PatchConstruction(slots: seq<Construction>, patches: seq<ConstructionPatch>) returns (r: seq<Construction>)
    requires AddressesHandles(patches, |slots|)
    ensures r == ApplyConstruction(slots, patches)
  {
    r := slots;
    for i := 0 to |patches|
      invariant r == ApplyConstruction(slots, patches[..i])
    {
      assert patches[..i + 1][..i] == patches[..i];
      r := r[patches[i].handle := patches[i].state];
    }
    assert patches[..|patches|] == patches;
  }

  /** What is left below 32 bits after `base` records. The subtraction is one of 64-bit words: for an
      arena that is already longer than that it wraps around, and the room seems endless. */
  function Room(base: int): (r: int)
    ensures 0 <= base <= MAX_U32 ==> r == MAX_U32 - base
  {
    (MAX_U32 - base) % (MAX_SIZE + 1)
  }

  predicate WithinRoom(counts: Sizes, base: Sizes) {
    && counts.types <= Room(base.types) && counts.members <= Room(base.members)
    && counts.modifiers <= Room(base.modifiers) && counts.enumValues <= Room(base.enumValues)
    && counts.objects <= Room(base.objects) && counts.links <= Room(base.links)
  }

  /** The check lets an arena outgrow 32 bits exactly if it already has. */
  lemma {:induction false} RoomIsRespected(count: int, base: int)
    requires 0 <= count <= MAX_U32 && 0 <= base <= MAX_SIZE
    ensures count <= Room(base) && base + count > MAX_U32 <==> base > MAX_U32
  {
    if base > MAX_U32 { assert Room(base) == MAX_SIZE + 1 + MAX_U32 - base; }
  }

  lemma {:induction false} RoomMeans(c: Storage, z: Sizes, own: Arenas, sourceSize: nat, constructionSize: nat)
    requires z == SizesOf(ArenasOf(c))
    ensures
      HasRoom(c, own, sourceSize, constructionSize)
      <==>
      && sourceSize <= c.sources.capacity && constructionSize <= c.construction.capacity
      && z.types + |own.types| <= c.types.capacity && z.members + |own.members| <= c.members.capacity
      && z.modifiers + |own.modifiers| <= c.modifiers.capacity
      && z.enumValues + |own.enumValues| <= c.enumValues.capacity
      && z.objects + |own.objects| <= c.objects.capacity && z.links + |own.links| <= c.links.capacity
  {}

  class SparseUpdate {
    const owner: Cache
    const base: Sizes
    const hash: nat -> nat
    var candidate: Arenas
    var sourcePatches: seq<SourcePatch>
    var constructionPatches: seq<ConstructionPatch>
    var sourceSlots: seq<Slot>
    var constructionSlots: seq<Slot>
    var changedSources: seq<nat>
    var preparedStatistics: Statistics
    var preparedSourceSize: nat
    var preparedConstructionSize: nat
    var failure: Status
    var prepared: bool
    var published: bool
    ghost var changes: seq<Change>

    /** The two indexes describe the two patch lists. */
    ghost predicate Indexed()
      reads this
    {
      && Indexes(sourceSlots, SourceKeys(sourcePatches), hash)
      && Indexes(constructionSlots, ConstructionKeys(constructionPatches), hash)
      && changedSources == SourceKeys(sourcePatches) == ChangeKeys(changes)
      && |changes| == |sourcePatches|
    }

    /** While unpublished, the owner is the cache the transaction was opened on. */
    ghost predicate Attached()
      reads this, owner
    {
      owner.Valid() && base == SizesOf(ArenasOf(owner.committed))
    }

    ghost predicate ReadyToPublish()
      reads this, owner
    {
      && preparedSourceSize == MaxSource(sourcePatches, LastIndex(owner.committed.sources.items)) + 1
      && preparedConstructionSize == MaxHandle(constructionPatches, LastIndex(owner.committed.construction.items)) + 1
      && preparedSourceSize <= MAX_U32 && preparedConstructionSize <= MAX_U32
      && preparedStatistics == Totals(FinalSources(owner.committed, sourcePatches))
      && HasRoom(owner.committed, candidate, preparedSourceSize, preparedConstructionSize)
    }

    ghost predicate Valid()
      reads this, owner
    {
      && Indexed()
      && (prepared ==> failure.Ok?) && (published ==> prepared)
      && (!published ==> Attached())
      && (!published && failure.Ok? ==> Collected(owner.committed, candidate, sourcePatches, changes))
      && (prepared && !published ==> ReadyToPublish())
    }

    constructor (cache: Cache, h: nat -> nat)
      requires cache.Valid()
      ensures Valid() && fresh(this) && owner == cache && hash == h
      ensures failure.Ok? && !prepared && !published && changes == []
      ensures constructionPatches == [] && sourceSlots == [] && constructionSlots == [] && candidate == EMPTY
    {
      owner := cache;
      base := SizesOf(ArenasOf(cache.committed));
      hash := h;
      candidate := EMPTY;
      sourcePatches, constructionPatches := [], [];
      sourceSlots, constructionSlots := [], [];
      changedSources := [];
      preparedStatistics := NO_STATISTICS;
      preparedSourceSize, preparedConstructionSize := 0, 0;
      failure := Ok;
      prepared, published := false, false;
      changes := [];
    }

    /** `reserve_incremental`: sizes both indexes so that the announced number of patches
        leaves at least half of each table empty. */
    method ReserveIncremental(sourceChanges: nat, touchedTypes: nat, counts: Sizes) returns (result: Status)
      requires Valid()
      modifies this`sourceSlots, this`constructionSlots, this`failure
      ensures Valid()
      ensures result == if !old(failure).Ok? then old(failure)
        else if prepared || published || sourcePatches != [] || constructionPatches != [] || candidate.types != []
          then InvalidArgument
        else if !WithinRoom(counts, base) then NotAvailable
        else if sourceChanges > MAX_SIZE / 2 || touchedTypes > MAX_SIZE / 2 then NotAvailable
        else Ok
      ensures result.Ok? ==>
        |sourceSlots| == PatchCapacity(sourceChanges) && |constructionSlots| == PatchCapacity(touchedTypes)
      ensures failure == if result == NotAvailable then NotAvailable else old(failure)
      ensures !result.Ok? ==> sourceSlots == old(sourceSlots) && constructionSlots == old(constructionSlots)
    {
      hide WellFormed, Collected, Room, PatchCapacity;
      if !failure.Ok? { return failure; }
      if prepared || published || sourcePatches != [] || constructionPatches != [] || candidate.types != [] {
        return InvalidArgument;
      }
      if counts.types > Room(base.types) || counts.members > Room(base.members) ||
         counts.modifiers > Room(base.modifiers) || counts.enumValues > Room(base.enumValues) ||
         counts.objects > Room(base.objects) || counts.links > Room(base.links) {
        failure := NotAvailable;
        return failure;
      }
      var sourceCapacity := PatchCapacity(sourceChanges);
      var constructionCapacity := PatchCapacity(touchedTypes);
      ReservedCapacity(sourceChanges);
      ReservedCapacity(touchedTypes);
      if (sourceChanges != 0 && sourceCapacity == 0) || (touchedTypes != 0 && constructionCapacity == 0) {
        failure := NotAvailable;
        return failure;
      }
      EmptyTable(sourceCapacity, hash);
      EmptyTable(constructionCapacity, hash);
      sourceSlots := seq(sourceCapacity, _ => EMPTY_SLOT);
      constructionSlots := seq(constructionCapacity, _ => EMPTY_SLOT);
      result := Ok;
    }

    // ---------- Collecting patches ----------

    /** The patches are those of the changes asked for, each of its own source. */
    lemma {:induction false} KeysAreChanges()
      requires Valid()
      ensures SourceKeys(sourcePatches) == ChangeKeys(changes) && |sourcePatches| == |changes|
      ensures Distinct(ConstructionKeys(constructionPatches))
      ensures !published ==> base == SizesOf(ArenasOf(owner.committed))
    {
      hide WellFormed, Collected, ReadyToPublish;
      IndexesDistinct(constructionSlots, ConstructionKeys(constructionPatches), hash);
    }

    /** An open transaction holds what it was asked for, of different sources, on a sound cache. */
    lemma {:induction false} OpenMeans()
      requires Valid() && failure.Ok? && !published
      ensures Collected(owner.committed, candidate, sourcePatches, changes) && Distinct(SourceKeys(sourcePatches))
      ensures WellFormed(owner.committed, owner.statistics) && changedSources == SourceKeys(sourcePatches)
    {
      hide WellFormed, Collected, ReadyToPublish;
      IndexesDistinct(sourceSlots, SourceKeys(sourcePatches), hash);
    }

    function SourceRefusal(source: nat): Status
      reads this
    {
      if source == 0 || sourceSlots == [] || source in SourceKeys(sourcePatches) then InvalidArgument
      else if |sourcePatches| >= |sourceSlots| then NotAvailable
      else Ok
    }

    /** `add_source_patch`: a new, empty patch; a source can be patched only once. */
    method AddSourcePatch(source: nat) returns (result: Status)
      requires Valid() && failure.Ok? && !prepared && !published && source <= MAX_U32
      modifies this`sourcePatches, this`sourceSlots, this`changedSources, this`changes
      ensures Valid() && result == old(SourceRefusal(source))
      ensures result.Ok? ==>
        && |sourceSlots| == old(|sourceSlots|)
        && sourcePatches == old(sourcePatches) + [SourcePatch(source, NO_STATE, false)]
        && changes == old(changes) + [Change(source, None)]
      ensures !result.Ok? ==> unchanged(this)
    {
      hide Indexes, WellFormed, Collected, ReadyToPublish;
      if source == 0 || sourceSlots == [] { return InvalidArgument; }
      ghost var keys := SourceKeys(sourcePatches);
      var found := Find(sourceSlots, keys, hash, source);
      if found.Some? { return InvalidArgument; }
      var ok, slots := Insert(sourceSlots, keys, |sourcePatches|, hash, source);
      if !ok { return NotAvailable; }
      CollectBlank(owner.committed, candidate, sourcePatches, changes, source);
      sourcePatches := sourcePatches + [SourcePatch(source, NO_STATE, false)];
      changes := changes + [Change(source, None)];
      changedSources := changedSources + [source];
      sourceSlots := slots;
      assert SourceKeys(sourcePatches) == keys + [source];
      assert ChangeKeys(changes) == keys + [source];
      result := Ok;
    }

    /** Fills the newest patch with the copied slice. */
    method CopyIntoLast(f: Facts) returns (result: Status)
      requires Valid() && failure.Ok? && !prepared && !published && ValidFacts(f)
      requires sourcePatches != [] && sourcePatches[|sourcePatches| - 1] == SourcePatch(f.source, NO_STATE, false)
      requires changes[|changes| - 1] == Change(f.source, None)
      requires Collected(owner.committed, candidate, sourcePatches[..|sourcePatches| - 1], changes[..|changes| - 1])
      modifies this`candidate, this`sourcePatches, this`failure, this`changes
      ensures Valid() && |sourceSlots| == old(|sourceSlots|)
      ensures result == if SparseFits(f, Plus(base, SizesOf(old(candidate)))) then Ok else NotAvailable
      ensures failure == result
      ensures result.Ok? ==> changes == old(changes)[..|old(changes)| - 1] + [Change(f.source, Some(Normalize(f)))]
      ensures result.Ok? ==> candidate == Copied(old(candidate), f, Plus(base, SizesOf(old(candidate))))
      ensures !result.Ok? ==> changes == old(changes)
    {
      hide Indexes, WellFormed, Collected, ReadyToPublish, ValidFacts, SparseFits, Normalize, Stands;
      var arenas, state;
      result, arenas, state := CopySparse(candidate, base, f);
      if !result.Ok? {
        failure := result;
        return;
      }
      var front := sourcePatches[..|sourcePatches| - 1];
      CollectCopied(owner.committed, candidate, front, changes[..|changes| - 1], f);
      ghost var keys := SourceKeys(sourcePatches);
      candidate := arenas;
      sourcePatches := front + [SourcePatch(f.source, state, true)];
      changes := changes[..|changes| - 1] + [Change(f.source, Some(Normalize(f)))];
      assert SourceKeys(sourcePatches) == keys;
      assert ChangeKeys(changes) == keys;
    }

    /** `replace`: asks for one source to show `f` after publication. */
    method Replace(f: Facts) returns (result: Status)
      requires Valid()
      modifies this
      ensures Valid() && prepared == old(prepared) && published == old(published)
      ensures |sourceSlots| == old(|sourceSlots|) && |constructionSlots| == old(|constructionSlots|)
      ensures old(failure.Ok? && !prepared && !published) && f.source != 0 ==>
        failure == result && result ==
          (if !ValidFacts(f) then InvalidArgument
           else if HasBases(f) then NotAvailable
           else if old(SourceRefusal(f.source)) != Ok then old(SourceRefusal(f.source))
           else if !SparseFits(f, Plus(base, SizesOf(old(candidate)))) then NotAvailable
           else Ok)
      ensures !old(failure).Ok? ==> result == old(failure) && failure == old(failure)
      ensures old(failure).Ok? && (old(prepared || published) || f.source == 0) ==>
        result == InvalidArgument && failure == old(failure)
      ensures result.Ok? ==> changes == old(changes) + [Change(f.source, Some(Normalize(f)))]
      ensures result.Ok? ==> candidate == Copied(old(candidate), f, Plus(base, SizesOf(old(candidate))))
      ensures constructionPatches == old(constructionPatches)
    {
      hide Indexes, WellFormed, Collected, ReadyToPublish, HasBases, SparseFits, Normalize, Copied;
      if !failure.Ok? { return failure; }
      if prepared || published || f.source == 0 { return InvalidArgument; }
      if !ValidFacts(f) {
        failure := InvalidArgument;
        return failure;
      }
      var derived := FindBases(f);
      if derived {
        failure := NotAvailable;
        return failure;
      }
      ghost var before, patchesBefore := changes, sourcePatches;
      result := AddSourcePatch(f.source);
      if !result.Ok? {
        failure := result;
        return;
      }
      assert sourcePatches[..|sourcePatches| - 1] == patchesBefore;
      assert changes[..|changes| - 1] == before;
      result := CopyIntoLast(f);
    }

    /** `remove`: asks for one source to be absent after publication. */
    method Remove(source: nat) returns (result: Status)
      requires Valid() && source <= MAX_U32
      modifies this
      ensures Valid() && prepared == old(prepared) && published == old(published)
      ensures |sourceSlots| == old(|sourceSlots|) && |constructionSlots| == old(|constructionSlots|)
      ensures result == if !old(failure).Ok? then old(failure)
        else if old(prepared || published) || source == 0 then InvalidArgument
        else old(SourceRefusal(source))
      ensures failure == if old(failure.Ok? && !prepared && !published) && source != 0 then result else old(failure)
      ensures changes == if result.Ok? then old(changes) + [Change(source, None)] else old(changes)
      ensures candidate == old(candidate) && constructionPatches == old(constructionPatches)
    {
      hide Indexes, WellFormed, Collected, ReadyToPublish;
      if !failure.Ok? { return failure; }
      if prepared || published || source == 0 { return InvalidArgument; }
      result := AddSourcePatch(source);
      failure := result;
    }

    /** `set_construction`: the latest value of a type handle's aggregate, added or overwritten. */
    method SetConstruction(handle: nat, state: Construction) returns (result: Status)
      requires Valid()
      modifies this`constructionPatches, this`constructionSlots, this`failure
      ensures Valid() && |constructionSlots| == old(|constructionSlots|)
      ensures result == if !old(failure).Ok? then old(failure)
        else if prepared || published || handle == 0 then InvalidArgument
        else if constructionSlots == [] then InvalidArgument
        else if handle in ConstructionKeys(old(constructionPatches)) then Ok
        else if |old(constructionPatches)| >= |constructionSlots| then NotAvailable
        else Ok
      ensures result.Ok? ==>
        && PatchedConstruction(handle) == Some(state)
        && forall other :: other != handle ==>
             PatchValue(constructionPatches, other) == PatchValue(old(constructionPatches), other)
      ensures result.Ok? ==>
        var keys := old(ConstructionKeys(constructionPatches));
        ConstructionKeys(constructionPatches) == if handle in keys then keys else keys + [handle]
      ensures !result.Ok? ==> constructionPatches == old(constructionPatches)
      ensures failure == if old(failure).Ok? && !prepared && handle != 0 then result else old(failure)
    {
      hide Indexes, WellFormed, Collected, ReadyToPublish;
      if !failure.Ok? { return failure; }
      if prepared || published || handle == 0 { return InvalidArgument; }
      if constructionSlots == [] {
        failure := InvalidArgument;
        return failure;
      }
      ghost var keys := ConstructionKeys(constructionPatches);
      var found := Find(constructionSlots, keys, hash, handle);
      if found.Some? {
        constructionPatches := constructionPatches[found.value := ConstructionPatch(handle, state)];
        assert ConstructionKeys(constructionPatches) == keys;
        IndexesDistinct(constructionSlots, keys, hash);
        UpsertAt(keys, constructionPatches, old(constructionPatches), found.value);
        return Ok;
      }
      var ok, slots := Insert(constructionSlots, keys, |constructionPatches|, hash, handle);
      if !ok {
        failure := NotAvailable;
        return failure;
      }
      constructionPatches := constructionPatches + [ConstructionPatch(handle, state)];
      constructionSlots := slots;
      assert ConstructionKeys(constructionPatches) == keys + [handle];
      UpsertNew(constructionPatches, old(constructionPatches));
      result := Ok;
    }

    // ---------- Reading through the transaction ----------

    /** `construction`: the latest aggregate of a handle, patched or committed. */
    method LatestConstruction(handle: nat) returns (r: Option<Construction>)
      requires Valid()
      ensures r == if PatchedConstruction(handle).Some? then PatchedConstruction(handle)
                   else ConstructionAt(owner.committed.construction.items, handle)
    {
      hide Indexes, WellFormed, Collected, ReadyToPublish;
      ghost var keys := ConstructionKeys(constructionPatches);
      IndexesDistinct(constructionSlots, keys, hash);
      PatchValueNone(constructionPatches, handle);
      var found := Find(constructionSlots, keys, hash, handle);
      if found.Some? {
        PatchValueAt(constructionPatches, found.value);
        return Some(constructionPatches[found.value].state);
      }
      if 0 < handle < |owner.committed.construction.items| {
        return Some(owner.committed.construction.items[handle]);
      }
      r := None;
    }

    /** `replacement_state` and `replacement_types`: where the patch of a source puts its types, and
        the types there, read across the seam between the two arenas. */
    method ReplacementTypes(source: nat, ghost i: nat) returns (r: Range, types: seq<TypeDecl>)
      requires Valid() && failure.Ok? && !published && i < |sourcePatches| && sourcePatches[i].source == source
      ensures r == Target(sourcePatches[i]).types
      ensures types == CheckedSpan(owner.committed.types.items + candidate.types, r)
    {
      hide Indexes, WellFormed, Collected, ReadyToPublish;
      ghost var keys := SourceKeys(sourcePatches);
      IndexesDistinct(sourceSlots, keys, hash);
      assert keys[i] == source && source in keys;
      var found := Find(sourceSlots, keys, hash, source);
      assert keys[found.value] == keys[i];
      var patch := sourcePatches[found.value];
      if !patch.present {
        return Range(0, 0), [];
      }
      r := patch.state.types;
      BehindTheSeam(owner.committed, candidate, sourcePatches, changes, i);
      types := CombinedSpan(owner.committed.types.items, candidate.types, base.types, r);
    }

    // ---------- Publication ----------

    /** Records the sizes and statistics publication will install. */
    method Measure() returns (fits: bool)
      requires Valid() && failure.Ok? && !prepared && !published
      modifies this`preparedStatistics, this`preparedSourceSize, this`preparedConstructionSize
      ensures Valid()
      ensures preparedSourceSize == MaxSource(sourcePatches, LastIndex(owner.committed.sources.items)) + 1
      ensures preparedConstructionSize == MaxHandle(constructionPatches, LastIndex(owner.committed.construction.items)) + 1
      ensures preparedStatistics == Totals(FinalSources(owner.committed, sourcePatches))
      ensures fits == (preparedSourceSize <= MAX_U32 && preparedConstructionSize <= MAX_U32)
    {
      hide Indexes, WellFormed, Collected, FinalSources;
      IndexesDistinct(sourceSlots, SourceKeys(sourcePatches), hash);
      var statistics, maxSource := PrepareStatistics(owner.committed, owner.statistics, sourcePatches, candidate, changes);
      var maxHandle := MaxHandleOf(constructionPatches, LastIndex(owner.committed.construction.items));
      preparedStatistics := statistics;
      preparedSourceSize, preparedConstructionSize := maxSource + 1, maxHandle + 1;
      fits := maxSource < MAX_U32 && maxHandle < MAX_U32;
    }

    /** Reserves room in a baseline-backed cache. */
    method MakeRoom()
      requires Valid() && failure.Ok? && !prepared && !published
      modifies owner`committed
      ensures Valid() && SameItems(owner.committed, old(owner.committed))
      ensures HasRoom(owner.committed, candidate, preparedSourceSize, preparedConstructionSize)
      ensures FinalSources(owner.committed, sourcePatches) == FinalSources(old(owner.committed), sourcePatches)
    {
      hide Indexes, WellFormed, Collected, FinalSources, HasRoom, WithRoom, SameItems;
      RoomKeepsMeaning(owner.committed, candidate, preparedSourceSize, preparedConstructionSize,
        owner.statistics, sourcePatches, changes);
      owner.committed := WithRoom(owner.committed, candidate, preparedSourceSize, preparedConstructionSize);
    }

    /** `prepare_publish`: computes the statistics and sizes publication will install, and
        makes sure there is room for them. The counters can never underflow. */
    method PreparePublish() returns (result: Status)
      requires Valid()
      modifies this`preparedStatistics, this`preparedSourceSize, this`preparedConstructionSize, this`prepared,
               owner`committed
      ensures Valid() && published == old(published)
      ensures SameItems(owner.committed, old(owner.committed))
      ensures !owner.baselineBacked || !result.Ok? ==> owner.committed == old(owner.committed)
      ensures
        var sourceSize := MaxSource(sourcePatches, LastIndex(old(owner.committed).sources.items)) + 1;
        var constructionSize := MaxHandle(constructionPatches, LastIndex(old(owner.committed).construction.items)) + 1;
        result ==
          if !failure.Ok? then failure
          else if old(prepared || published) || !owner.complete then InvalidArgument
          else if sourceSize > MAX_U32 || constructionSize > MAX_U32 then NotAvailable
          else if !owner.baselineBacked && !HasRoom(old(owner.committed), candidate, sourceSize, constructionSize)
            then RebuildRequired
          else Ok
      ensures prepared == (result.Ok? || old(prepared))
    {
      hide Indexes, WellFormed, Collected, FinalSources, HasRoom, Canonical, Totals, MaxSource, MaxHandle, LastIndex,
        SourceKeys, ConstructionKeys, ChangeKeys;
      if !failure.Ok? { return failure; }
      if prepared || published || !owner.complete { return InvalidArgument; }
      var fits := Measure();
      if !fits { return NotAvailable; }
      if owner.baselineBacked {
        MakeRoom();
      }
      var c := owner.committed;
      RoomMeans(c, base, candidate, preparedSourceSize, preparedConstructionSize);
      if preparedSourceSize > c.sources.capacity || preparedConstructionSize > c.construction.capacity ||
         base.types + |candidate.types| > c.types.capacity || base.members + |candidate.members| > c.members.capacity ||
         base.modifiers + |candidate.modifiers| > c.modifiers.capacity ||
         base.enumValues + |candidate.enumValues| > c.enumValues.capacity ||
         base.objects + |candidate.objects| > c.objects.capacity || base.links + |candidate.links| > c.links.capacity {
        return RebuildRequired;
      }
      prepared := true;
      result := Ok;
    }

    /** Appends the six arenas of the transaction and installs the patched slots. */
    method Install()
      requires Valid() && prepared && !published
      modifies owner`committed
      ensures AddressesHandles(constructionPatches, preparedConstructionSize)
        && |old(owner.committed).construction.items| <= preparedConstructionSize
        && owner.committed == PublishedStorage(old(owner.committed), candidate, sourcePatches, constructionPatches,
             preparedConstructionSize, preparedStatistics)
    {
      hide Indexes, WellFormed, Collected;
      var c := owner.committed;
      MaxSourceBounds(sourcePatches, LastIndex(c.sources.items));
      MaxHandleBounds(constructionPatches, LastIndex(c.construction.items));
      var sources := Resize(c.sources, preparedSourceSize, NO_STATE);
      var construction := Resize(c.construction, preparedConstructionSize, NO_CONSTRUCTION);
      var types := AppendPrepared(c.types, candidate.types);
      var members := AppendPrepared(c.members, candidate.members);
      var modifiers := AppendPrepared(c.modifiers, candidate.modifiers);
      var enumValues := AppendPrepared(c.enumValues, candidate.enumValues);
      var objects := AppendPrepared(c.objects, candidate.objects);
      var links := AppendPrepared(c.links, candidate.links);
      assert sources.items == Padded(c.sources.items, preparedSourceSize);
      var sourceItems := PatchSources(sources.items, sourcePatches);
      var constructionItems := PatchConstruction(construction.items, constructionPatches);
      owner.committed := Storage(sources.(items := sourceItems), types, members, modifiers, enumValues, objects, links,
        construction.(items := constructionItems), preparedStatistics);
    }

    /** `publish_prepared`: after a successful prepare, the sources of the transaction show what
        was asked for, all others what they showed before, and no array was reallocated.
        Otherwise nothing happens. */
    method PublishPrepared()
      requires Valid()
      modifies owner`committed, owner`statistics, owner`complete, this`published
      ensures Valid()
      ensures old(prepared && !published) ==>
        && published && owner.Valid() && owner.complete
        && SameCapacities(owner.committed, old(owner.committed))
        && |owner.committed.sources.items| >= old(|owner.committed.sources.items|)
        && |owner.committed.construction.items| == preparedConstructionSize >= old(|owner.committed.construction.items|)
        && owner.committed.sources.items == FinalSources(old(owner.committed), sourcePatches)
        && ArenasOf(owner.committed) == Append(old(ArenasOf(owner.committed)), candidate)
      ensures old(prepared && !published) ==>
        && (forall i :: 0 <= i < |changes| ==> owner.ViewAt(changes[i].source) == changes[i].slice)
        && (forall source :: source !in ChangeKeys(changes) ==> owner.ViewAt(source) == old(owner.ViewAt(source)))
        && Distinct(ChangeKeys(changes))
      ensures old(prepared && !published) ==> forall f: Facts ::
        ValidFacts(f) && Change(f.source, Some(Normalize(f))) in changes ==> StandsIn(owner.committed, f)
      ensures old(prepared && !published) ==>
        forall handle :: 0 < handle ==>
          ConstructionAt(owner.committed.construction.items, handle) ==
            AfterConstruction(old(owner.committed).construction.items, |owner.committed.construction.items|,
              PatchedConstruction(handle), handle)
      ensures !old(prepared && !published) ==> unchanged(owner) && unchanged(this)
    {
      hide Indexes, WellFormed, Collected, PublishedStorage, AfterConstruction, SameCapacities, FinalSources, HasRoom,
        Totals, MaxSource, MaxHandle, PatchValue, Append, ValidFacts, StandsIn, StorageView, Normalize;
      if !prepared || published { return; }
      ghost var c := owner.committed;
      IndexesDistinct(sourceSlots, SourceKeys(sourcePatches), hash);
      IndexesDistinct(constructionSlots, ConstructionKeys(constructionPatches), hash);
      Install();
      PublishedMeaning(c, owner.statistics, candidate, sourcePatches, changes, constructionPatches,
        preparedSourceSize, preparedConstructionSize, preparedStatistics);
      owner.statistics := preparedStatistics;
      owner.complete := true;
      published := true;
      PublishedStands(owner.committed, owner.statistics, changes);
    }

    ghost function PatchedConstruction(handle: nat): Option<Construction>
      reads this
    {
      PatchValue(constructionPatches, handle)
    }
  }

  /** What was asked for stands in the published arenas. */
  lemma {:induction false} PublishedStands(s: Storage, statistics: Statistics, changes: seq<Change>)
    requires WellFormed(s, statistics)
    requires forall i :: 0 <= i < |changes| ==> StorageView(s, changes[i].source) == changes[i].slice
    ensures forall f: Facts :: ValidFacts(f) && Change(f.source, Some(Normalize(f))) in changes ==> StandsIn(s, f)
  {
    hide StorageView, Normalize, ValidFacts, StandsIn, InBounds;
    forall f: Facts | ValidFacts(f) && Change(f.source, Some(Normalize(f))) in changes ensures StandsIn(s, f) {
      var i :| 0 <= i < |changes| && changes[i] == Change(f.source, Some(Normalize(f)));
      ShownStands(s, f);
    }
  }

  /** What a handle's slot holds after publication: the patched value, the old value, or the
      default in a slot that publication created. */
  ghost function AfterConstruction(
      before: seq<Construction>, size: nat, patched: Option<Construction>, handle: nat): Option<Construction> {
    if patched.Some? then patched
    else if handle < |before| then ConstructionAt(before, handle)
    else if 0 < handle < size then Some(NO_CONSTRUCTION)
    else None
  }

  lemma {:induction false} BehindTheSeam(
      c: Storage, own: Arenas, patches: seq<SourcePatch>, changes: seq<Change>, i: nat)
    requires Collected(c, own, patches, changes) && i < |patches|
    ensures
      patches[i].present ==>
        var r := patches[i].state.types;
        CombinedSpan(c.types.items, own.types, |c.types.items|, r) == CheckedSpan(c.types.items + own.types, r)
    ensures !patches[i].present ==> patches[i].state == NO_STATE
  {
    hide Holds, Canonical;
    assert Stores(patches[i], changes[i], Append(ArenasOf(c), own));
    SpanSeesPublished(c.types.items, own.types, patches[i].state.types);
  }

  lemma {:induction false} IndexesDistinct(slots: seq<Slot>, keys: seq<nat>, hash: nat -> nat)
    requires Indexes(slots, keys, hash)
    ensures Distinct(keys) && forall i :: 0 <= i < |keys| ==> keys[i] != 0
  {
  }

  /** Reserving room changes neither the meaning of the cache nor that of the transaction. */
  lemma {:induction false} RoomKeepsMeaning(
      c: Storage, own: Arenas, sourceSize: nat, constructionSize: nat, statistics: Statistics,
      patches: seq<SourcePatch>, changes: seq<Change>)
    requires WellFormed(c, statistics) && Collected(c, own, patches, changes)
    ensures var r := WithRoom(c, own, sourceSize, constructionSize);
      && SameItems(r, c) && WellFormed(r, statistics) && Collected(r, own, patches, changes)
      && FinalSources(r, patches) == FinalSources(c, patches)
      && LastIndex(r.sources.items) == LastIndex(c.sources.items)
      && LastIndex(r.construction.items) == LastIndex(c.construction.items)
      && SizesOf(ArenasOf(r)) == SizesOf(ArenasOf(c))
  {
  }

  lemma {:induction false} PublishedWellFormed(
      c: Storage, statistics: Statistics, own: Arenas, patches: seq<SourcePatch>, changes: seq<Change>, r: Storage)
    requires WellFormed(c, statistics) && Collected(c, own, patches, changes) && Distinct(SourceKeys(patches))
    requires r.sources.items == FinalSources(c, patches) && ArenasOf(r) == Append(ArenasOf(c), own)
    requires Reserved(r) && |r.sources.items| <= MAX_U32 + 1 && |r.construction.items| <= MAX_U32 + 1
    ensures WellFormed(r, Totals(r.sources.items))
  {
    FinalStatistics(c, own, patches, changes);
    FinalBounds(c, own, patches, changes);
  }

  /** Everything publication promises about the storage it installs. */
  lemma {:induction false} PublishedMeaning(
      c: Storage, statistics: Statistics, own: Arenas, patches: seq<SourcePatch>, changes: seq<Change>,
      constructionPatches: seq<ConstructionPatch>, sourceSize: nat, constructionSize: nat, prepared: Statistics)
    requires WellFormed(c, statistics) && Collected(c, own, patches, changes)
    requires Distinct(SourceKeys(patches)) && Distinct(ConstructionKeys(constructionPatches))
    requires AddressesHandles(constructionPatches, constructionSize)
    requires sourceSize == MaxSource(patches, LastIndex(c.sources.items)) + 1 <= MAX_U32
    requires |c.construction.items| <= constructionSize <= MAX_U32
    requires prepared == Totals(FinalSources(c, patches)) && HasRoom(c, own, sourceSize, constructionSize)
    ensures var r := PublishedStorage(c, own, patches, constructionPatches, constructionSize, prepared);
      && WellFormed(r, prepared) && SameCapacities(r, c)
      && |r.sources.items| >= |c.sources.items| && |r.construction.items| == constructionSize
      && r.sources.items == FinalSources(c, patches) && ArenasOf(r) == Append(ArenasOf(c), own)
      && (forall i :: 0 <= i < |changes| ==> StorageView(r, changes[i].source) == changes[i].slice)
      && (forall source :: source !in SourceKeys(patches) ==> StorageView(r, source) == StorageView(c, source))
      && (forall handle :: 0 < handle ==>
            ConstructionAt(r.construction.items, handle) ==
              AfterConstruction(c.construction.items, constructionSize, PatchValue(constructionPatches, handle), handle))
  {
    hide WellFormed, Collected;
    var r := PublishedStorage(c, own, patches, constructionPatches, constructionSize, prepared);
    PublishedRoom(c, own, patches, constructionPatches, sourceSize, constructionSize, prepared);
    PublishedWellFormed(c, statistics, own, patches, changes, r);
    forall i | 0 <= i < |changes| ensures StorageView(r, changes[i].source) == changes[i].slice {
      FinalChanged(c, own, patches, changes, i);
    }
    forall source: nat | source !in SourceKeys(patches) ensures StorageView(r, source) == StorageView(c, source) {
      WellFormedBounds(c, statistics);
      FinalUnchanged(c, own, patches, source);
    }
    forall handle: nat | 0 < handle
      ensures ConstructionAt(r.construction.items, handle)
           == AfterConstruction(c.construction.items, constructionSize, PatchValue(constructionPatches, handle), handle)
    {
      PublishedConstruction(c.construction, constructionPatches, constructionSize, handle);
    }
  }

  lemma {:induction false} WellFormedBounds(c: Storage, statistics: Statistics)
    requires WellFormed(c, statistics)
    ensures SourcesInBounds(c.sources.items, SizesOf(ArenasOf(c))) && Reserved(c)
    ensures statistics == Totals(c.sources.items)
  {
  }

  /** Publication stays inside the capacities that prepare checked. */
  lemma {:induction false} PublishedRoom(
      c: Storage, own: Arenas, patches: seq<SourcePatch>, constructionPatches: seq<ConstructionPatch>,
      sourceSize: nat, constructionSize: nat, prepared: Statistics)
    requires AddressesHandles(constructionPatches, constructionSize)
    requires sourceSize == MaxSource(patches, LastIndex(c.sources.items)) + 1
    requires |c.construction.items| <= constructionSize && HasRoom(c, own, sourceSize, constructionSize)
    ensures var r := PublishedStorage(c, own, patches, constructionPatches, constructionSize, prepared);
      && Reserved(r) && SameCapacities(r, c) && ArenasOf(r) == Append(ArenasOf(c), own)
      && |r.sources.items| == sourceSize && |r.construction.items| == constructionSize
      && sourceSize >= |c.sources.items|
  {
    MaxSourceBounds(patches, LastIndex(c.sources.items));
  }

  lemma {:induction false} PublishedConstruction(
      before: Vector<Construction>, patches: seq<ConstructionPatch>, size: nat, handle: nat)
    requires |before.items| <= size && AddressesHandles(patches, size) && Distinct(ConstructionKeys(patches)) && 0 < handle
    ensures ConstructionAt(ApplyConstruction(Resize(before, size, NO_CONSTRUCTION).items, patches), handle)
         == AfterConstruction(before.items, size, PatchValue(patches, handle), handle)
  {
    var resized := Resize(before, size, NO_CONSTRUCTION).items;
    PatchValueNone(patches, handle);
    if handle in ConstructionKeys(patches) {
      var i :| 0 <= i < |patches| && ConstructionKeys(patches)[i] == handle;
      PatchValueAt(patches, i);
      ApplyConstructionAt(resized, patches, i);
    } else if handle < size {
      forall i | 0 <= i < |patches| ensures patches[i].handle != handle {
        assert ConstructionKeys(patches)[i] in ConstructionKeys(patches);
      }
      ApplyConstructionElsewhere(resized, patches, handle);
    }
  }

  /** The value a patch list gives to a handle. */
  ghost function PatchValue(patches: seq<ConstructionPatch>, handle: nat): Option<Construction> {
    if patches == [] then None
    else if patches[|patches| - 1].handle == handle then Some(patches[|patches| - 1].state)
    else PatchValue(patches[..|patches| - 1], handle)
  }

  lemma {:induction false} PatchValueAt(patches: seq<ConstructionPatch>, i: nat)
    requires Distinct(ConstructionKeys(patches)) && i < |patches|
    ensures PatchValue(patches, patches[i].handle) == Some(patches[i].state)
  {
    var front := patches[..|patches| - 1];
    if i < |front| {
      assert ConstructionKeys(front) == ConstructionKeys(patches)[..|front|];
      assert ConstructionKeys(patches)[i] != ConstructionKeys(patches)[|front|];
      PatchValueAt(front, i);
    }
  }

  lemma {:induction false} PatchValueNone(patches: seq<ConstructionPatch>, handle: nat)
    ensures PatchValue(patches, handle).None? <==> handle !in ConstructionKeys(patches)
  {
    if patches != [] {
      var front := patches[..|patches| - 1];
      PatchValueNone(front, handle);
      assert ConstructionKeys(patches) == ConstructionKeys(front) + [patches[|patches| - 1].handle];
    }
  }

  lemma {:induction false} UpsertAt(
      keys: seq<nat>, after: seq<ConstructionPatch>, before: seq<ConstructionPatch>, i: nat)
    requires Distinct(keys) && keys == ConstructionKeys(after) == ConstructionKeys(before) && i < |keys|
    requires after == before[i := after[i]]
    ensures PatchValue(after, keys[i]) == Some(after[i].state)
    ensures forall other :: other != keys[i] ==> PatchValue(after, other) == PatchValue(before, other)
  {
    PatchValueAt(after, i);
    forall other | other != keys[i] ensures PatchValue(after, other) == PatchValue(before, other) {
      PatchValueNone(after, other);
      PatchValueNone(before, other);
      if other in keys {
        var j :| 0 <= j < |keys| && keys[j] == other;
        PatchValueAt(after, j);
        PatchValueAt(before, j);
      }
    }
  }

  lemma {:induction false} UpsertNew(after: seq<ConstructionPatch>, before: seq<ConstructionPatch>)
    requires |after| == |before| + 1 && after[..|before|] == before
    ensures var last := after[|before|];
      PatchValue(after, last.handle) == Some(last.state)
      && forall other :: other != last.handle ==> PatchValue(after, other) == PatchValue(before, other)
  {
  }

  lemma {:induction false} ReservedCapacity(count: nat)
    ensures PatchCapacity(count) == 0 <==> count == 0 || count > MAX_SIZE / 2
  {
    if 0 < count <= MAX_SIZE / 2 {
      CapacityLeavesHalfEmpty(count);
    }
  }
}
