/** The storage of the contribution cache as values: the flat vectors, what they denote as a
    map from source to slice, the running statistics, and the copying step both update
    engines perform. */
module ContributionStorage {
  import opened Wrappers
  import opened ContributionArenas
  import opened SourceFacts
  import opened StoredFacts

  // ---------- Vectors ----------

  /** A vector with its reserved capacity; growing beyond it would reallocate. */
  datatype Vector<T> = Vector(items: seq<T>, capacity: nat)

  function Reserve<T>(v: Vector<T>, size: nat): Vector<T> {
    if size <= v.capacity then v else v.(capacity := size)
  }

  function Push<T>(v: Vector<T>, x: T): Vector<T> {
    Vector(v.items + [x], if |v.items| < v.capacity then v.capacity else |v.items| + 1)
  }

  function Resize<T>(v: Vector<T>, size: nat, fill: T): Vector<T> {
    Vector(if size <= |v.items| then v.items[..size] else v.items + seq(size - |v.items|, _ => fill),
           if size <= v.capacity then v.capacity else size)
  }

  function PushAll<T>(v: Vector<T>, xs: seq<T>): Vector<T> {
    Vector(v.items + xs, if |v.items| + |xs| <= v.capacity || xs == [] then v.capacity else |v.items| + |xs|)
  }

  /** `append_prepared`: one push per value. */
  method AppendPrepared<T>(target: Vector<T>, source: seq<T>) returns (out: Vector<T>)
    ensures out == PushAll(target, source)
  {
    out := target;
    for i := 0 to |source|
      invariant out == PushAll(target, source[..i])
    {
      out := Push(out, source[i]);
      assert source[..i + 1] == source[..i] + [source[i]];
      assert target.items + source[..i + 1] == target.items + source[..i] + [source[i]];
    }
    assert source[..|source|] == source;
  }

  // ---------- Aggregates per type handle ----------

  /** The aggregate of all declarations of one type; every count is a 32-bit word. */
  datatype Construction = Construction(
    declarations: nat, definitions: nat, definitionType: nat,
    recordStruct: nat, recordClass: nat, recordUnion: nat,
    enumScoped: nat, enumUnscoped: nat, enumFixed: nat,
    fixedUnderlying: nat, kind: TypeKind)

  const NO_CONSTRUCTION: Construction := Construction(0, 0, 0, 0, 0, 0, 0, 0, 0, 0, Record)

  // ---------- Statistics ----------

  /** How many live sources there are, and how many records of each kind they own. */
  datatype Statistics = Statistics(sources: int, counts: Sizes)

  const NO_STATISTICS: Statistics := Statistics(0, Sizes(0, 0, 0, 0, 0, 0))

  function CountsOf(s: State): Sizes {
    Sizes(s.types.count, s.members.count, s.modifiers.count, s.enumValues.count, s.objects.count, s.links.count)
  }

  function Add(a: Statistics, b: Statistics): Statistics {
    Statistics(a.sources + b.sources, Plus(a.counts, b.counts))
  }

  function Subtract(a: Statistics, b: Statistics): Statistics {
    Statistics(a.sources - b.sources,
      Sizes(a.counts.types - b.counts.types, a.counts.members - b.counts.members,
            a.counts.modifiers - b.counts.modifiers, a.counts.enumValues - b.counts.enumValues,
            a.counts.objects - b.counts.objects, a.counts.links - b.counts.links))
  }

  predicate AtMost(a: Sizes, b: Sizes) {
    && a.types <= b.types && a.members <= b.members && a.modifiers <= b.modifiers
    && a.enumValues <= b.enumValues && a.objects <= b.objects && a.links <= b.links
  }

  predicate Covers(a: Statistics, b: Statistics) { b.sources <= a.sources && AtMost(b.counts, a.counts) }

  /** The contribution of the slot at `index` to the totals: only its owner counts. */
  function SlotStatistics(s: State, index: nat): Statistics {
    if index != 0 && s.source == index then Statistics(1, CountsOf(s)) else NO_STATISTICS
  }

  function Totals(sources: seq<State>): Statistics {
    if sources == [] then NO_STATISTICS
    else Add(Totals(sources[..|sources| - 1]), SlotStatistics(sources[|sources| - 1], |sources| - 1))
  }

  lemma {:induction false} TotalsUpdate(sources: seq<State>, index: nat, s: State)
    requires index < |sources|
    ensures Totals(sources[index := s])
         == Add(Subtract(Totals(sources), SlotStatistics(sources[index], index)), SlotStatistics(s, index))
  {
    var last := |sources| - 1;
    if index == last {
      assert sources[index := s][..last] == sources[..last];
    } else {
      assert sources[index := s][..last] == sources[..last][index := s];
      TotalsUpdate(sources[..last], index, s);
    }
  }

  predicate NonNegative(s: State) {
    && s.types.count >= 0 && s.members.count >= 0 && s.modifiers.count >= 0
    && s.enumValues.count >= 0 && s.objects.count >= 0 && s.links.count >= 0
  }

  /** No single live slot exceeds the totals, so subtracting one can never underflow. */
  lemma {:induction false} TotalsCoverSlot(sources: seq<State>, index: nat)
    requires index < |sources|
    requires forall i :: 0 <= i < |sources| && sources[i].source == i && i != 0 ==> NonNegative(sources[i])
    ensures Covers(Totals(sources), SlotStatistics(sources[index], index))
  {
    var last := |sources| - 1;
    TotalsNonNegative(sources[..last]);
    if index < last {
      TotalsCoverSlot(sources[..last], index);
    }
  }

  lemma {:induction false} TotalsNonNegative(sources: seq<State>)
    requires forall i :: 0 <= i < |sources| && sources[i].source == i && i != 0 ==> NonNegative(sources[i])
    ensures Covers(Totals(sources), NO_STATISTICS)
  {
    if sources != [] {
      TotalsNonNegative(sources[..|sources| - 1]);
    }
  }

  lemma {:induction false} TotalsPadded(sources: seq<State>, extra: nat)
    ensures Totals(sources + seq(extra, _ => NO_STATE)) == Totals(sources)
  {
    var padded := sources + seq(extra, _ => NO_STATE);
    if extra == 0 {
      assert padded == sources;
    } else {
      assert padded[..|padded| - 1] == sources + seq(extra - 1, _ => NO_STATE);
      TotalsPadded(sources, extra - 1);
    }
  }

  // ---------- Storage ----------

  datatype Storage = Storage(
    sources: Vector<State>, types: Vector<TypeDecl>, members: Vector<Member>, modifiers: Vector<Modifier>,
    enumValues: Vector<EnumValue>, objects: Vector<Object>, links: Vector<Link>,
    construction: Vector<Construction>, statistics: Statistics)

  function ArenasOf(s: Storage): Arenas {
    Arenas(s.types.items, s.members.items, s.modifiers.items, s.enumValues.items, s.objects.items, s.links.items)
  }

  function StorageView(s: Storage, source: nat): Option<Arenas> {
    ViewOf(s.sources.items, ArenasOf(s), source)
  }

  function ConstructionAt(v: seq<Construction>, handle: nat): Option<Construction> {
    if handle == 0 || handle >= |v| then None else Some(v[handle])
  }

  predicate SourcesInBounds(sources: seq<State>, z: Sizes) {
    forall i :: 0 < i < |sources| && sources[i].source == i ==> InBounds(sources[i], z)
  }

  predicate Reserved(s: Storage) {
    && |s.sources.items| <= s.sources.capacity && |s.types.items| <= s.types.capacity
    && |s.members.items| <= s.members.capacity && |s.modifiers.items| <= s.modifiers.capacity
    && |s.enumValues.items| <= s.enumValues.capacity && |s.objects.items| <= s.objects.capacity
    && |s.links.items| <= s.links.capacity && |s.construction.items| <= s.construction.capacity
  }

  /** Every live slot denotes records that exist, and the statistics are exactly the sums over
      the live slots; stale records may remain, so the sums never exceed the arenas. */
  predicate WellFormed(s: Storage, statistics: Statistics) {
    && Reserved(s)
    && SourcesInBounds(s.sources.items, SizesOf(ArenasOf(s)))
    && Canonical(s.types.items)
    && |s.sources.items| <= MAX_U32 + 1 && |s.construction.items| <= MAX_U32 + 1
    && statistics == Totals(s.sources.items)
    && AtMost(statistics.counts, SizesOf(ArenasOf(s)))
  }

  /** The slot of a source stands for its facts. */
  predicate StandsIn(s: Storage, f: Facts) {
    f.source < |s.sources.items| && Stands(ArenasOf(s), s.sources.items[f.source], f)
  }

  /** Where a storage shows the normal form of valid facts, its arenas hold those very facts. */
  lemma {:induction false} ShownStands(s: Storage, f: Facts)
    requires SourcesInBounds(s.sources.items, SizesOf(ArenasOf(s)))
    requires ValidFacts(f) && StorageView(s, f.source) == Some(Normalize(f))
    ensures StandsIn(s, f)
  {
    hide Stands, ValidFacts, Normalize, View;
    HeldStands(ArenasOf(s), s.sources.items[f.source], f);
  }

  // ---------- Copying one source ----------

  predicate SizesFit(z: Sizes) {
    && z.types <= MAX_U32 && z.members <= MAX_U32 && z.enumValues <= MAX_U32
    && z.objects <= MAX_U32 && z.links <= MAX_U32
  }

  /** When the sparse engine can copy `f` to the arena ends `z`: every index it has to form
      fits in 32 bits. The end of the modifier arena is only checked through its users. */
  predicate SparseFits(f: Facts, z: Sizes) {
    Fits(Normalize(f), z.members, z.modifiers, z.enumValues) && SizesFit(z) && CountsFit(f)
  }

  /** A full rebuild checks the end of every arena first. */
  predicate RebuildFits(f: Facts, z: Sizes) {
    SparseFits(f, z) && z.modifiers <= MAX_U32
  }

  predicate CountsFit(f: Facts) {
    && |TypesOf(f)| <= MAX_U32 && |f.members| <= MAX_U32 && |f.modifiers| <= MAX_U32
    && |f.enumValues| <= MAX_U32 && |f.objects| <= MAX_U32 && |f.links| <= MAX_U32
  }

  function Copied(a: Arenas, f: Facts, z: Sizes): Arenas {
    Append(a, Shift(Normalize(f), z.members, z.modifiers, z.enumValues))
  }

  /** The state recorded for `f` at the arena ends `z`; the modifier offset is truncated. */
  function CopiedState(f: Facts, z: Sizes): State {
    StateOver(f.source, z.(modifiers := z.modifiers % 0x1_0000_0000), SizesOf(Normalize(f)))
  }

  /** The copying part of `source_contribution_sparse_update::replace`. `a` is the transaction's
      own arena, `base` the committed sizes that precede it. */
  method CopySparse(a: Arenas, base: Sizes, f: Facts) returns (result: Status, out: Arenas, state: State)
    requires ValidFacts(f) && AtMost(SizesOf(EMPTY), base)
    ensures result == if SparseFits(f, Plus(base, SizesOf(a))) then Ok else NotAvailable
    ensures result.Ok? ==> out == Copied(a, f, Plus(base, SizesOf(a))) && state == CopiedState(f, Plus(base, SizesOf(a)))
    ensures result.Ok? ==> forall committed: Arenas :: SizesOf(committed) == base ==> Stands(Append(committed, out), state, f)
  {
    hide Stands;
    var z := Plus(base, SizesOf(a));
    out, state := a, NO_STATE;
    result := NotAvailable;
    out := out.(modifiers := out.modifiers + f.modifiers);
    var ok, members := AppendMembers(out.members, f.members, z.modifiers);
    if !ok { return; }
    out := out.(members := members, enumValues := out.enumValues + f.enumValues);
    var okObjects, objects := AppendObjects(out.objects, f.objects, z.modifiers);
    if !okObjects { return; }
    out := out.(objects := objects, links := out.links + f.links);
    if z.members > MAX_U32 || z.enumValues > MAX_U32 || z.objects > MAX_U32 || z.links > MAX_U32 { return; }
    var typeResult, types := AppendTypes(out.types, f, z.members, z.enumValues);
    if !typeResult.Ok? { return; }
    out := out.(types := types);
    if |types| - |a.types| > MAX_U32 || |f.members| > MAX_U32 || |f.modifiers| > MAX_U32 ||
       |f.enumValues| > MAX_U32 || |f.objects| > MAX_U32 || |f.links| > MAX_U32 { return; }
    if z.types > MAX_U32 { return; }
    state := StateOver(f.source, z.(modifiers := z.modifiers % 0x1_0000_0000),
      Sizes(|types| - |a.types|, |f.members|, |f.modifiers|, |f.enumValues|, |f.objects|, |f.links|));
    result := Ok;
    CopyStandsBehind(a, base, f);
  }

  /** The copying part of `source_contribution_cache_update::replace`, at the ends of the candidate. */
  method CopyRebuild(a: Arenas, f: Facts) returns (result: Status, out: Arenas, state: State)
    requires ValidFacts(f)
    ensures result == if RebuildFits(f, SizesOf(a)) then Ok else NotAvailable
    ensures result.Ok? ==> out == Copied(a, f, SizesOf(a)) && state == CopiedState(f, SizesOf(a)) && Stands(out, state, f)
  {
    hide Stands;
    out, state := a, NO_STATE;
    result := NotAvailable;
    if |a.types| > MAX_U32 || |a.members| > MAX_U32 || |a.modifiers| > MAX_U32 ||
       |a.enumValues| > MAX_U32 || |a.objects| > MAX_U32 || |a.links| > MAX_U32 { return; }
    out := out.(modifiers := out.modifiers + f.modifiers);
    var ok, members := AppendMembers(out.members, f.members, |a.modifiers|);
    if !ok { return; }
    out := out.(members := members, enumValues := out.enumValues + f.enumValues);
    var okObjects, objects := AppendObjects(out.objects, f.objects, |a.modifiers|);
    if !okObjects { return; }
    out := out.(objects := objects, links := out.links + f.links);
    var typeResult, types := AppendTypes(out.types, f, |a.members|, |a.enumValues|);
    if !typeResult.Ok? { return; }
    out := out.(types := types);
    if |types| - |a.types| > MAX_U32 || |f.members| > MAX_U32 || |f.modifiers| > MAX_U32 ||
       |f.enumValues| > MAX_U32 || |f.objects| > MAX_U32 || |f.links| > MAX_U32 { return; }
    state := StateOver(f.source, SizesOf(a),
      Sizes(|types| - |a.types|, |f.members|, |f.modifiers|, |f.enumValues|, |f.objects|, |f.links|));
    result := Ok;
    CopyStands(a, f);
  }

  /** What was copied stands in the arenas for the very facts given, wherever it was put. */
  lemma {:induction false} CopyStands(a: Arenas, f: Facts)
    requires ValidFacts(f) && SparseFits(f, SizesOf(a))
    ensures Stands(Copied(a, f, SizesOf(a)), CopiedState(f, SizesOf(a)), f)
  {
    hide Stands, ValidFacts, SparseFits, Normalize, Copied, Holds;
    CopyHolds(a, f);
    HeldStands(Copied(a, f, SizesOf(a)), CopiedState(f, SizesOf(a)), f);
  }

  lemma {:induction false} CopyStandsBehind(a: Arenas, base: Sizes, f: Facts)
    requires ValidFacts(f) && SparseFits(f, Plus(base, SizesOf(a)))
    ensures
      var z := Plus(base, SizesOf(a));
      forall committed: Arenas :: SizesOf(committed) == base ==>
        Stands(Append(committed, Copied(a, f, z)), CopiedState(f, z), f)
  {
    hide Stands, ValidFacts, SparseFits, Normalize, CopiedState;
    var z := Plus(base, SizesOf(a));
    forall committed: Arenas | SizesOf(committed) == base
      ensures Stands(Append(committed, Copied(a, f, z)), CopiedState(f, z), f)
    {
      AppendAssociative(committed, a, Shift(Normalize(f), z.members, z.modifiers, z.enumValues));
      CopyStands(Append(committed, a), f);
    }
  }

  lemma {:induction false} EmptyRefsHold(a: Arenas, slice: Arenas, source: nat, m: int)
    requires slice.members == [] && slice.objects == [] && slice.modifiers == []
    requires 0 <= m <= |a.modifiers|
    ensures var z := SizesOf(a);
      Holds(Append(a, Shift(slice, z.members, z.modifiers, z.enumValues)),
            StateOver(source, z.(modifiers := m), SizesOf(slice)), source, slice)
  {
    var z := SizesOf(a);
    HoldsFresh(a, slice, source);
    var b := Append(a, Shift(slice, z.members, z.modifiers, z.enumValues));
    var s, t := StateOver(source, z, SizesOf(slice)), StateOver(source, z.(modifiers := m), SizesOf(slice));
    assert Cut(b, t) == Cut(b, s);
    assert Cut(b, s).members == [] && Cut(b, s).objects == [];
    assert View(b, t).members == View(b, s).members;
    assert View(b, t).objects == View(b, s).objects;
  }

  /** Past the 32-bit limit only a source without any modifier reference can still be copied. */
  lemma {:induction false} ReferencesBoundBase(f: Facts, modifiers: int)
    requires ValidFacts(f) && MembersFit(f.members, modifiers) && ObjectsFit(f.objects, modifiers)
    ensures f.members != [] || f.objects != [] || f.modifiers != [] ==> modifiers <= MAX_U32
  {
    if f.members != [] {
      assert modifiers + f.members[0].typ.modifiers.begin <= MAX_U32;
    } else if f.objects != [] {
      assert modifiers + f.objects[0].typ.modifiers.begin <= MAX_U32;
    }
  }

  /** What a successful copy stores is exactly the normalized slice of the source, even where
      the recorded modifier offset was truncated: then the slice has no modifiers at all. */
  lemma {:induction false} CopyHolds(a: Arenas, f: Facts)
    requires ValidFacts(f) && SparseFits(f, SizesOf(a))
    ensures Holds(Copied(a, f, SizesOf(a)), CopiedState(f, SizesOf(a)), f.source, Normalize(f))
  {
    var z, slice := SizesOf(a), Normalize(f);
    ReferencesBoundBase(f, z.modifiers);
    if z.modifiers <= MAX_U32 {
      assert z.(modifiers := z.modifiers % 0x1_0000_0000) == z;
      HoldsFresh(a, slice, f.source);
    } else {
      EmptyRefsHold(a, slice, f.source, z.modifiers % 0x1_0000_0000);
    }
  }

  lemma {:induction false} CopiedCanonical(a: Arenas, f: Facts, z: Sizes)
    requires Canonical(a.types)
    ensures Canonical(Copied(a, f, z).types)
    ensures SizesOf(Copied(a, f, z)) == Plus(SizesOf(a), SizesOf(Normalize(f)))
  {
  }
}
