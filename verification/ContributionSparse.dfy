/** The sparse update: collects patches for the sources that changed, then publishes them in
    place behind a prepare barrier. */
module ContributionSparse {
  import opened Wrappers
  import opened ContributionArenas
  import opened SourceFacts
  import opened ContributionStorage
  import opened ContributionPatches
  import opened ContributionCache
  import opened PatchIndex

  // ---------- The transaction as a value ----------

  /** What was copied lies behind everything committed. */
  predicate Behind(patches: seq<SourcePatch>, base: nat) {
    forall i :: 0 <= i < |patches| && patches[i].present ==> patches[i].state.types.begin >= base
  }

  /** Every patch stores what was asked for, and the transaction's arenas hold nothing else. */
  ghost predicate Collected(c: Storage, own: Arenas, patches: seq<SourcePatch>, changes: seq<Change>) {
    && StoresAll(patches, changes, Append(ArenasOf(c), own))
    && Behind(patches, |c.types.items|)
    && Canonical(own.types)
    && Stored(patches) == SizesOf(own)
  }

  lemma {:induction false} CollectBlank(
      c: Storage, own: Arenas, patches: seq<SourcePatch>, changes: seq<Change>, source: nat)
    requires Collected(c, own, patches, changes) && 0 < source <= MAX_U32
    ensures Collected(c, own, patches + [SourcePatch(source, NO_STATE, false)], changes + [Change(source, None)])
  {
    hide Holds, Canonical, Append, ArenasOf, Stored, SizesOf;
    var p := SourcePatch(source, NO_STATE, false);
    StoresAppend(patches, changes, Append(ArenasOf(c), own), p, Change(source, None));
    assert StoresAll(patches + [p], changes + [Change(source, None)], Append(ArenasOf(c), own));
    StoredAppend(patches, p);
    assert Stored(patches + [p]) == SizesOf(own);
  }

  lemma {:induction false} CollectCopied(
      c: Storage, own: Arenas, patches: seq<SourcePatch>, changes: seq<Change>, f: Facts)
    requires Collected(c, own, patches, changes)
    requires ValidFacts(f) && SparseFits(f, Plus(SizesOf(ArenasOf(c)), SizesOf(own)))
    ensures var z := Plus(SizesOf(ArenasOf(c)), SizesOf(own));
      Collected(c, Copied(own, f, z),
        patches + [SourcePatch(f.source, CopiedState(f, z), true)],
        changes + [Change(f.source, Some(Normalize(f)))])
  {
    var z := Plus(SizesOf(ArenasOf(c)), SizesOf(own));
    var all := Append(ArenasOf(c), own);
    var tail := Shift(Normalize(f), z.members, z.modifiers, z.enumValues);
    assert SizesOf(all) == z;
    CopyHolds(all, f);
    AppendAssociative(ArenasOf(c), own, tail);
    StoresStable(patches, changes, all, tail);
    var p := SourcePatch(f.source, CopiedState(f, z), true);
    StoresAppend(patches, changes, Append(all, tail), p, Change(f.source, Some(Normalize(f))));
    StoredAppend(patches, p);
    CopiedCanonical(own, f, z);
  }

  function MaxSource(patches: seq<SourcePatch>, start: nat): (r: nat)
    ensures r >= start
  {
    if patches == [] then start
    else
      var rest := MaxSource(patches[..|patches| - 1], start);
      if rest < patches[|patches| - 1].source then patches[|patches| - 1].source else rest
  }

  function MaxHandle(patches: seq<ConstructionPatch>, start: nat): (r: nat)
    ensures r >= start
  {
    if patches == [] then start
    else
      var rest := MaxHandle(patches[..|patches| - 1], start);
      if rest < patches[|patches| - 1].handle then patches[|patches| - 1].handle else rest
  }

  lemma {:induction false} MaxSourceBounds(patches: seq<SourcePatch>, start: nat)
    ensures Addresses(patches, MaxSource(patches, start) + 1)
  {
    if patches != [] {
      MaxSourceBounds(patches[..|patches| - 1], start);
    }
  }

  lemma {:induction false} MaxHandleBounds(patches: seq<ConstructionPatch>, start: nat)
    ensures AddressesHandles(patches, MaxHandle(patches, start) + 1)
  {
    if patches != [] {
      MaxHandleBounds(patches[..|patches| - 1], start);
    }
  }

  function LastIndex<T>(items: seq<T>): nat { if items == [] then 0 else |items| - 1 }

  /** The slot table as publication will leave it. */
  ghost function FinalSources(c: Storage, patches: seq<SourcePatch>): seq<State> {
    MaxSourceBounds(patches, LastIndex(c.sources.items));
    Apply(Padded(c.sources.items, MaxSource(patches, LastIndex(c.sources.items)) + 1), patches)
  }

  /** Every array has room for what publication appends. */
  predicate HasRoom(c: Storage, own: Arenas, sourceSize: nat, constructionSize: nat) {
    && sourceSize <= c.sources.capacity && constructionSize <= c.construction.capacity
    && |c.types.items| + |own.types| <= c.types.capacity
    && |c.members.items| + |own.members| <= c.members.capacity
    && |c.modifiers.items| + |own.modifiers| <= c.modifiers.capacity
    && |c.enumValues.items| + |own.enumValues| <= c.enumValues.capacity
    && |c.objects.items| + |own.objects| <= c.objects.capacity
    && |c.links.items| + |own.links| <= c.links.capacity
  }

  /** Reserving room for a baseline-backed cache: only capacities change. */
  function WithRoom(c: Storage, own: Arenas, sourceSize: nat, constructionSize: nat): (r: Storage)
    ensures HasRoom(r, own, sourceSize, constructionSize)
  {
    c.(sources := Reserve(c.sources, sourceSize), construction := Reserve(c.construction, constructionSize),
       types := Reserve(c.types, |c.types.items| + |own.types|),
       members := Reserve(c.members, |c.members.items| + |own.members|),
       modifiers := Reserve(c.modifiers, |c.modifiers.items| + |own.modifiers|),
       enumValues := Reserve(c.enumValues, |c.enumValues.items| + |own.enumValues|),
       objects := Reserve(c.objects, |c.objects.items| + |own.objects|),
       links := Reserve(c.links, |c.links.items| + |own.links|))
  }

  predicate SameItems(a: Storage, b: Storage) {
    && a.sources.items == b.sources.items && ArenasOf(a) == ArenasOf(b) && a.construction.items == b.construction.items
    && a.statistics == b.statistics
  }

  predicate SameCapacities(a: Storage, b: Storage) {
    && a.sources.capacity == b.sources.capacity && a.construction.capacity == b.construction.capacity
    && a.types.capacity == b.types.capacity && a.members.capacity == b.members.capacity
    && a.modifiers.capacity == b.modifiers.capacity && a.enumValues.capacity == b.enumValues.capacity
    && a.objects.capacity == b.objects.capacity && a.links.capacity == b.links.capacity
  }

  /** What publication leaves in the committed storage. */
  ghost function PublishedStorage(
      c: Storage, own: Arenas, patches: seq<SourcePatch>, constructionPatches: seq<ConstructionPatch>,
      constructionSize: nat, statistics: Statistics): Storage
    requires AddressesHandles(constructionPatches, constructionSize) && |c.construction.items| <= constructionSize
  {
    Storage(
      Vector(FinalSources(c, patches), c.sources.capacity),
      PushAll(c.types, own.types), PushAll(c.members, own.members), PushAll(c.modifiers, own.modifiers),
      PushAll(c.enumValues, own.enumValues), PushAll(c.objects, own.objects), PushAll(c.links, own.links),
      Vector(ApplyConstruction(Resize(c.construction, constructionSize, NO_CONSTRUCTION).items, constructionPatches),
             c.construction.capacity),
      statistics)
  }

  // ---------- What publication preserves ----------

  lemma {:induction false} OwnedPatches(patches: seq<SourcePatch>, changes: seq<Change>, a: Arenas)
    requires StoresAll(patches, changes, a)
    ensures forall i :: 0 <= i < |patches| ==> Owned(patches[i])
  {
    forall i | 0 <= i < |patches| ensures Owned(patches[i]) {
      assert Stores(patches[i], changes[i], a);
    }
  }

  lemma {:induction false} PaddedBounds(sources: seq<State>, size: nat, z: Sizes, larger: Sizes)
    requires |sources| <= size && SourcesInBounds(sources, z) && AtMost(z, larger)
    ensures SourcesInBounds(Padded(sources, size), larger)
  {
  }

  lemma {:induction false} BoundsNonNegative(sources: seq<State>, z: Sizes)
    requires SourcesInBounds(sources, z)
    ensures forall i :: 0 <= i < |sources| && sources[i].source == i && i != 0 ==> NonNegative(sources[i])
  {
  }

  /** The totals after publication still fit in the arenas. */
  lemma {:induction false} FinalStatistics(c: Storage, own: Arenas, patches: seq<SourcePatch>, changes: seq<Change>)
    requires WellFormed(c, Totals(c.sources.items)) && Collected(c, own, patches, changes)
    requires Distinct(SourceKeys(patches))
    ensures AtMost(Totals(FinalSources(c, patches)).counts, Plus(SizesOf(ArenasOf(c)), SizesOf(own)))
  {
    var size := MaxSource(patches, LastIndex(c.sources.items)) + 1;
    var padded := Padded(c.sources.items, size);
    MaxSourceBounds(patches, LastIndex(c.sources.items));
    OwnedPatches(patches, changes, Append(ArenasOf(c), own));
    PaddedBounds(c.sources.items, size, SizesOf(ArenasOf(c)), SizesOf(ArenasOf(c)));
    BoundsNonNegative(padded, SizesOf(ArenasOf(c)));
    AppliedAtMost(padded, patches);
    TotalsPadded(c.sources.items, size - |c.sources.items|);
  }

  lemma {:induction false} FinalBounds(c: Storage, own: Arenas, patches: seq<SourcePatch>, changes: seq<Change>)
    requires SourcesInBounds(c.sources.items, SizesOf(ArenasOf(c))) && Collected(c, own, patches, changes)
    requires Distinct(SourceKeys(patches))
    ensures SourcesInBounds(FinalSources(c, patches), SizesOf(Append(ArenasOf(c), own)))
  {
    var size := MaxSource(patches, LastIndex(c.sources.items)) + 1;
    MaxSourceBounds(patches, LastIndex(c.sources.items));
    var all := Append(ArenasOf(c), own);
    PaddedBounds(c.sources.items, size, SizesOf(ArenasOf(c)), SizesOf(all));
    AppliedBounds(Padded(c.sources.items, size), patches, changes, all);
  }

  /** The sources of the transaction now show what it was asked to store. */
  lemma {:induction false} FinalChanged(
      c: Storage, own: Arenas, patches: seq<SourcePatch>, changes: seq<Change>, i: nat)
    requires Collected(c, own, patches, changes) && Distinct(SourceKeys(patches)) && i < |changes|
    ensures ViewOf(FinalSources(c, patches), Append(ArenasOf(c), own), changes[i].source) == changes[i].slice
  {
    MaxSourceBounds(patches, LastIndex(c.sources.items));
    AppliedChanged(Padded(c.sources.items, MaxSource(patches, LastIndex(c.sources.items)) + 1),
      patches, changes, Append(ArenasOf(c), own), i);
  }

  /** Every other source shows exactly what it showed before. */
  lemma {:induction false} FinalUnchanged(c: Storage, own: Arenas, patches: seq<SourcePatch>, source: nat)
    requires SourcesInBounds(c.sources.items, SizesOf(ArenasOf(c)))
    requires source !in SourceKeys(patches)
    ensures ViewOf(FinalSources(c, patches), Append(ArenasOf(c), own), source) == StorageView(c, source)
  {
    MaxSourceBounds(patches, LastIndex(c.sources.items));
    forall i | 0 <= i < |patches| ensures patches[i].source != source {
      assert SourceKeys(patches)[i] in SourceKeys(patches);
    }
    AppliedUnchanged(c.sources.items, patches, ArenasOf(c), own,
      MaxSource(patches, LastIndex(c.sources.items)) + 1, source);
  }

  // ---------- Reading through an open transaction ----------

  /** `combined_span`: a range lies either in the committed arena below `base` or in the
      transaction's own arena above it. */
  function CombinedSpan<T>(committed: seq<T>, appended: seq<T>, base: nat, r: Range): seq<T> {
    if r.count <= 0 || r.begin < 0 then []
    else if r.begin < base then
      if r.begin > |committed| || r.count > |committed| - r.begin || r.begin + r.count > base then []
      else committed[r.begin..r.begin + r.count]
    else
      var local := r.begin - base;
      if local > |appended| || r.count > |appended| - local then [] else appended[local..local + r.count]
  }

  predicate Straddles(r: Range, base: nat, size: nat) {
    0 <= r.begin < base < r.begin + r.count <= size
  }

  /** A range read through the transaction is the range publication will make visible, unless
      it crosses the seam between the two arenas: then the transaction shows nothing. */
  lemma {:induction false} SpanSeesPublished<T>(committed: seq<T>, appended: seq<T>, r: Range)
    ensures CombinedSpan(committed, appended, |committed|, r) == CheckedSpan(committed + appended, r)
       <==> !Straddles(r, |committed|, |committed| + |appended|)
  {
    if 0 < r.count && |committed| <= r.begin && r.begin + r.count <= |committed| + |appended| {
      var local := r.begin - |committed|;
      assert (committed + appended)[r.begin..r.begin + r.count] == appended[local..local + r.count];
    } else if 0 < r.count && 0 <= r.begin && r.begin + r.count <= |committed| {
      assert (committed + appended)[r.begin..r.begin + r.count] == committed[r.begin..r.begin + r.count];
    } else if Straddles(r, |committed|, |committed| + |appended|) {
      assert |CheckedSpan(committed + appended, r)| == r.count;
    }
  }

  /** Reads through the transaction object do not change when it is published. */
  lemma {:induction false} SpanStableAcrossPublication<T>(committed: seq<T>, appended: seq<T>, r: Range)
    ensures CombinedSpan(committed + appended, appended, |committed|, r)
         == CombinedSpan(committed, appended, |committed|, r)
  {
    if 0 < r.count && 0 <= r.begin && r.begin + r.count <= |committed| {
      assert (committed + appended)[r.begin..r.begin + r.count] == committed[r.begin..r.begin + r.count];
    }
  }
}
