/** The full rebuild: a detached candidate that captures every source once and is swapped in. */
module ContributionRebuild {
  import opened Wrappers
  import opened ContributionArenas
  import opened SourceFacts
  import opened StoredFacts
  import opened ContributionStorage
  import opened ContributionCache

  // ---------- The candidate as a value ----------

  function WithArenas(s: Storage, a: Arenas): Storage {
    s.(types := Vector(a.types, Larger(s.types.capacity, |a.types|)),
       members := Vector(a.members, Larger(s.members.capacity, |a.members|)),
       modifiers := Vector(a.modifiers, Larger(s.modifiers.capacity, |a.modifiers|)),
       enumValues := Vector(a.enumValues, Larger(s.enumValues.capacity, |a.enumValues|)),
       objects := Vector(a.objects, Larger(s.objects.capacity, |a.objects|)),
       links := Vector(a.links, Larger(s.links.capacity, |a.links|)))
  }

  function Larger(a: nat, b: nat): nat { if a < b then b else a }

  function WithState(s: Storage, state: State): Storage
    requires state.source < |s.sources.items|
  {
    s.(sources := s.sources.(items := s.sources.items[state.source := state]))
  }

  /** One slot per captured source, holding exactly its normalized facts; the rest are empty. */
  ghost predicate Tracks(sources: seq<State>, a: Arenas, replaced: seq<bool>, facts: map<nat, Facts>) {
    && |replaced| == |sources|
    && (forall id :: 0 <= id < |replaced| ==> (replaced[id] <==> id in facts))
    && (forall id :: 0 <= id < |sources| && id !in facts ==> sources[id] == NO_STATE)
    && (forall id :: id in facts ==> TracksOne(sources, a, facts[id], id))
  }

  ghost predicate TracksOne(sources: seq<State>, a: Arenas, f: Facts, id: nat) {
    0 < id < |sources| && f.source == id && Acceptable(f) && Holds(a, sources[id], id, Normalize(f))
  }

  /** The candidate stores exactly the facts captured so far, without stale records. */
  ghost predicate Captures(c: Storage, replaced: seq<bool>, facts: map<nat, Facts>) {
    && WellFormed(c, c.statistics)
    && c.statistics.counts == SizesOf(ArenasOf(c))
    && Tracks(c.sources.items, ArenasOf(c), replaced, facts)
  }

  lemma {:induction false} CapturesView(c: Storage, replaced: seq<bool>, facts: map<nat, Facts>, source: nat)
    requires Captures(c, replaced, facts)
    ensures StorageView(c, source) == if source in facts then Some(Normalize(facts[source])) else None
  {
    if source in facts {
      assert TracksOne(c.sources.items, ArenasOf(c), facts[source], source);
    }
  }

  lemma {:induction false} TracksResized(
      sources: seq<State>, a: Arenas, replaced: seq<bool>, facts: map<nat, Facts>, extra: nat)
    requires Tracks(sources, a, replaced, facts)
    ensures Tracks(sources + seq(extra, _ => NO_STATE), a, replaced + seq(extra, _ => false), facts)
  {
    hide Holds, Acceptable;
    var after := sources + seq(extra, _ => NO_STATE);
    forall id | id in facts ensures TracksOne(after, a, facts[id], id) {
      assert TracksOne(sources, a, facts[id], id);
    }
  }

  lemma {:induction false} ResizedWellFormed(c: Storage, statistics: Statistics, extra: nat)
    requires WellFormed(c, statistics) && |c.sources.items| + extra <= MAX_U32 + 1
    ensures WellFormed(c.(sources := Resize(c.sources, |c.sources.items| + extra, NO_STATE)), statistics)
    ensures Resize(c.sources, |c.sources.items| + extra, NO_STATE).items == c.sources.items + seq(extra, _ => NO_STATE)
  {
    hide InBounds, Canonical;
    var before, after := c.sources.items, Resize(c.sources, |c.sources.items| + extra, NO_STATE).items;
    assert after == before + seq(extra, _ => NO_STATE);
    TotalsPadded(before, extra);
  }

  lemma {:induction false} CapturesResized(c: Storage, replaced: seq<bool>, facts: map<nat, Facts>, size: nat)
    requires Captures(c, replaced, facts) && |replaced| <= size <= MAX_U32 + 1
    ensures Captures(c.(sources := Resize(c.sources, size, NO_STATE)),
                     replaced + seq(size - |replaced|, _ => false), facts)
  {
    hide WellFormed, TracksOne, Resize;
    var extra := size - |replaced|;
    ResizedWellFormed(c, c.statistics, extra);
    TracksResized(c.sources.items, ArenasOf(c), replaced, facts, extra);
  }

  /** The candidate after copying `f`. */
  function Capture(c: Storage, f: Facts): Storage
    requires f.source < |c.sources.items|
  {
    var a := Copied(ArenasOf(c), f, SizesOf(ArenasOf(c)));
    WithState(WithArenas(c, a), CopiedState(f, SizesOf(ArenasOf(c))))
      .(statistics := Statistics(c.statistics.sources + 1, SizesOf(a)))
  }

  lemma {:induction false} CaptureStatistics(c: Storage, replaced: seq<bool>, facts: map<nat, Facts>, f: Facts)
    requires Captures(c, replaced, facts) && 0 < f.source < |replaced| && f.source !in facts
    ensures Capture(c, f).statistics == Totals(Capture(c, f).sources.items)
    ensures SizesOf(ArenasOf(Capture(c, f))) == Capture(c, f).statistics.counts
  {
    var z := SizesOf(ArenasOf(c));
    TotalsUpdate(c.sources.items, f.source, CopiedState(f, z));
  }

  lemma {:induction false} CaptureBounds(c: Storage, replaced: seq<bool>, facts: map<nat, Facts>, f: Facts)
    requires Captures(c, replaced, facts) && 0 < f.source < |replaced| && f.source !in facts
    requires ValidFacts(f) && SparseFits(f, SizesOf(ArenasOf(c)))
    ensures SourcesInBounds(Capture(c, f).sources.items, SizesOf(ArenasOf(Capture(c, f))))
  {
    var after := Capture(c, f);
    CopyHolds(ArenasOf(c), f);
    forall id | 0 < id < |after.sources.items| && after.sources.items[id].source == id
      ensures InBounds(after.sources.items[id], SizesOf(ArenasOf(after)))
    {
      if id != f.source {
        assert InBounds(c.sources.items[id], SizesOf(ArenasOf(c)));
      }
    }
  }

  lemma {:induction false} CaptureWellFormed(c: Storage, replaced: seq<bool>, facts: map<nat, Facts>, f: Facts)
    requires Captures(c, replaced, facts) && 0 < f.source < |replaced| && f.source !in facts
    requires ValidFacts(f) && SparseFits(f, SizesOf(ArenasOf(c)))
    ensures WellFormed(Capture(c, f), Capture(c, f).statistics)
  {
    CaptureStatistics(c, replaced, facts, f);
    CaptureBounds(c, replaced, facts, f);
    CopiedCanonical(ArenasOf(c), f, SizesOf(ArenasOf(c)));
  }

  lemma {:induction false} TracksStep(
      sources: seq<State>, a: Arenas, replaced: seq<bool>, facts: map<nat, Facts>, f: Facts)
    requires Tracks(sources, a, replaced, facts) && f.source < |replaced| && f.source !in facts
    requires Acceptable(f) && SparseFits(f, SizesOf(a))
    ensures Tracks(sources[f.source := CopiedState(f, SizesOf(a))], Copied(a, f, SizesOf(a)),
                   replaced[f.source := true], facts[f.source := f])
  {
    var z := SizesOf(a);
    var after, extended, known := sources[f.source := CopiedState(f, z)], Copied(a, f, z), facts[f.source := f];
    CopyHolds(a, f);
    forall id | id in known ensures TracksOne(after, extended, known[id], id) {
      if id != f.source {
        assert TracksOne(sources, a, facts[id], id);
        HoldsStable(a, Shift(Normalize(f), z.members, z.modifiers, z.enumValues), sources[id], id, Normalize(facts[id]));
      }
    }
  }

  lemma {:induction false} CaptureStep(c: Storage, replaced: seq<bool>, facts: map<nat, Facts>, f: Facts)
    requires Captures(c, replaced, facts) && f.source < |replaced| && f.source !in facts
    requires Acceptable(f) && SparseFits(f, SizesOf(ArenasOf(c)))
    ensures Captures(Capture(c, f), replaced[f.source := true], facts[f.source := f])
  {
    CaptureWellFormed(c, replaced, facts, f);
    TracksStep(c.sources.items, ArenasOf(c), replaced, facts, f);
    CaptureStatistics(c, replaced, facts, f);
  }

  lemma {:induction false} SlotsTracked(c: Storage, replaced: seq<bool>, facts: map<nat, Facts>, f: Facts)
    requires Captures(c, replaced, facts) && Acceptable(f)
    ensures |replaced| == |c.sources.items| && ValidFacts(f)
    ensures RebuildFits(f, SizesOf(ArenasOf(c))) ==> SparseFits(f, SizesOf(ArenasOf(c)))
  {
    hide WellFormed, TracksOne;
  }

  function Headroom(size: nat): nat { size + (size / 16 + 64) }

  /** The candidate with room for what was announced. */
  function WithHeadroom(c: Storage, maxSource: nat, counts: Sizes): (r: Storage)
    requires AtMost(SizesOf(EMPTY), counts)
    ensures
      && r.sources.capacity >= Headroom(maxSource + 1)
      && r.types.capacity >= Headroom(counts.types) && r.members.capacity >= Headroom(counts.members)
      && r.modifiers.capacity >= Headroom(counts.modifiers) && r.enumValues.capacity >= Headroom(counts.enumValues)
      && r.objects.capacity >= Headroom(counts.objects) && r.links.capacity >= Headroom(counts.links)
      && r.construction.capacity >= Headroom(counts.types + 1)
  {
    Storage(
      Reserve(c.sources, Headroom(maxSource + 1)), Reserve(c.types, Headroom(counts.types)),
      Reserve(c.members, Headroom(counts.members)), Reserve(c.modifiers, Headroom(counts.modifiers)),
      Reserve(c.enumValues, Headroom(counts.enumValues)), Reserve(c.objects, Headroom(counts.objects)),
      Reserve(c.links, Headroom(counts.links)), Reserve(c.construction, Headroom(counts.types + 1)),
      c.statistics)
  }

  lemma {:induction false} CapturesHeadroom(
      c: Storage, replaced: seq<bool>, facts: map<nat, Facts>, maxSource: nat, counts: Sizes)
    requires Captures(c, replaced, facts) && AtMost(SizesOf(EMPTY), counts)
    ensures Captures(WithHeadroom(c, maxSource, counts), replaced, facts)
    ensures WithHeadroom(c, maxSource, counts).sources.items == c.sources.items
    ensures ArenasOf(WithHeadroom(c, maxSource, counts)) == ArenasOf(c)
  {
  }

  predicate CountsBelowLimit(maxSource: nat, z: Sizes) {
    && maxSource < MAX_U32 && z.types < MAX_U32 && z.members < MAX_U32 && z.modifiers < MAX_U32
    && z.enumValues < MAX_U32 && z.objects < MAX_U32 && z.links < MAX_U32
  }

  // ---------- The update ----------

  class RebuildUpdate {
    const owner: Cache
    var candidate: Storage
    var replaced: seq<bool>
    var failure: Status
    var prepared: bool
    var published: bool
    ghost var facts: map<nat, Facts>

    ghost predicate Valid()
      reads this
    {
      && (failure.Ok? && !published ==> Captures(candidate, replaced, facts))
      && (prepared ==> failure.Ok?)
      && (published ==> prepared)
    }

    constructor (cache: Cache)
      ensures Valid() && owner == cache && failure.Ok? && !prepared && !published && facts == map[]
      ensures candidate.sources.items == [] && replaced == [] && ArenasOf(candidate) == EMPTY
    {
      owner := cache;
      candidate := Storage(Vector([], 0), Vector([], 0), Vector([], 0), Vector([], 0), Vector([], 0),
                           Vector([], 0), Vector([], 0), Vector([], 0), NO_STATISTICS);
      replaced := [];
      failure := Ok;
      prepared, published := false, false;
      facts := map[];
    }

    /** `reserve_rebuild`: reserves one sixteenth plus 64 records more than announced, so that
        later sparse updates find room, and creates the source slots. */
    method ReserveRebuild(maxSource: nat, counts: Sizes) returns (result: Status)
      requires Valid() && AtMost(SizesOf(EMPTY), counts)
      modifies this
      ensures Valid() && facts == old(facts) && prepared == old(prepared) && published == old(published)
      ensures result == if !old(failure).Ok? then old(failure)
                        else if old(prepared || published || candidate.sources.items != [] || replaced != []) then InvalidArgument
                        else if !CountsBelowLimit(maxSource, counts) then NotAvailable
                        else Ok
      ensures failure == if result == NotAvailable then NotAvailable else old(failure)
      ensures result.Ok? ==>
        && |candidate.sources.items| == maxSource + 1
        && candidate.sources.capacity >= Headroom(maxSource + 1)
        && candidate.types.capacity >= Headroom(counts.types)
        && candidate.members.capacity >= Headroom(counts.members)
        && candidate.modifiers.capacity >= Headroom(counts.modifiers)
        && candidate.enumValues.capacity >= Headroom(counts.enumValues)
        && candidate.objects.capacity >= Headroom(counts.objects)
        && candidate.links.capacity >= Headroom(counts.links)
        && candidate.construction.capacity >= Headroom(counts.types + 1)
      ensures !result.Ok? ==> candidate == old(candidate) && replaced == old(replaced)
      ensures ArenasOf(candidate) == old(ArenasOf(candidate))
    {
      hide Captures, WithHeadroom;
      if !failure.Ok? { return failure; }
      if prepared || published || candidate.sources.items != [] || replaced != [] { return InvalidArgument; }
      if maxSource >= MAX_U32 || counts.types >= MAX_U32 || counts.members >= MAX_U32 || counts.modifiers >= MAX_U32 ||
         counts.enumValues >= MAX_U32 || counts.objects >= MAX_U32 || counts.links >= MAX_U32 {
        failure := NotAvailable;
        return failure;
      }
      CapturesHeadroom(candidate, replaced, facts, maxSource, counts);
      candidate := WithHeadroom(candidate, maxSource, counts);
      CapturesResized(candidate, replaced, facts, maxSource + 1);
      candidate := candidate.(sources := Resize(candidate.sources, maxSource + 1, NO_STATE));
      replaced := replaced + seq(maxSource + 1 - |replaced|, _ => false);
      result := Ok;
    }

    /** Grows the slot table so that the source has a slot. */
    method EnsureSlot(source: nat)
      requires Valid() && failure.Ok? && !published && source <= MAX_U32
      modifies this`candidate, this`replaced
      ensures Valid() && source < |replaced| && ArenasOf(candidate) == old(ArenasOf(candidate))
    {
      hide WellFormed;
      if |candidate.sources.items| <= source {
        CapturesResized(candidate, replaced, facts, source + 1);
        candidate := candidate.(sources := Resize(candidate.sources, source + 1, NO_STATE));
        replaced := replaced + seq(source + 1 - |replaced|, _ => false);
      }
    }

    /** Copies validated facts into the slot reserved for them. */
    method CopyInto(f: Facts) returns (result: Status)
      requires Valid() && failure.Ok? && !published && f.source < |replaced| && f.source !in facts && Acceptable(f)
      modifies this`candidate, this`replaced, this`facts, this`failure
      ensures result == if RebuildFits(f, SizesOf(ArenasOf(old(candidate)))) then Ok else NotAvailable
      ensures failure == result && (!prepared ==> Valid())
      ensures facts == if result.Ok? then old(facts)[f.source := f] else old(facts)
      ensures result.Ok? ==> ArenasOf(candidate) == Copied(old(ArenasOf(candidate)), f, SizesOf(old(ArenasOf(candidate))))
    {
      hide Captures, Acceptable, SparseFits, Copied, SizesOf, Stands;
      SlotsTracked(candidate, replaced, facts, f);
      var arenas, state;
      result, arenas, state := CopyRebuild(ArenasOf(candidate), f);
      if !result.Ok? {
        failure := result;
        return;
      }
      CaptureStep(candidate, replaced, facts, f);
      candidate := WithState(WithArenas(candidate, arenas), state).(statistics :=
        Statistics(candidate.statistics.sources + 1, SizesOf(arenas)));
      assert candidate == Capture(old(candidate), f);
      replaced := replaced[f.source := true];
      facts := facts[f.source := f];
    }

    /** `replace`: captures one source, exactly once. Every refusal is remembered. */
    method Replace(f: Facts) returns (result: Status)
      requires Valid()
      modifies this
      ensures Valid() && prepared == old(prepared) && published == old(published)
      ensures old(failure.Ok? && !prepared && !published) && f.source != 0 ==>
        result ==
          (if !ValidFacts(f) then InvalidArgument
           else if HasBases(f) then NotAvailable
           else if f.source in old(facts) then InvalidArgument
           else if !RebuildFits(f, SizesOf(ArenasOf(old(candidate)))) then NotAvailable
           else Ok)
        && failure == result
      ensures !old(failure).Ok? ==> result == old(failure)
      ensures old(failure).Ok? && (old(prepared || published) || f.source == 0) ==>
        result == InvalidArgument && failure == old(failure)
      ensures facts == if result.Ok? then old(facts)[f.source := f] else old(facts)
      ensures result.Ok? ==> ArenasOf(candidate) == Copied(old(ArenasOf(candidate)), f, SizesOf(old(ArenasOf(candidate))))
    {
      hide WellFormed, TracksOne, Copied, RebuildFits, HasBases;
      if !failure.Ok? { return failure; }
      if prepared || published || f.source == 0 { return InvalidArgument; }
      if !ValidFacts(f) {
        failure := InvalidArgument;
        return failure;
      }
      var derived := FindBases(f);
      if derived {
        failure := NotAvailable;
        return failure;
      }
      EnsureSlot(f.source);
      if replaced[f.source] {
        failure := InvalidArgument;
        return failure;
      }
      result := CopyInto(f);
    }

    /** The candidate shows exactly what was captured, each source in a slot of its own. */
    lemma {:induction false} CandidateMeans()
      requires Valid() && failure.Ok? && !published
      ensures WellFormed(candidate, candidate.statistics) && candidate.statistics.counts == SizesOf(ArenasOf(candidate))
      ensures forall source ::
        StorageView(candidate, source) == if source in facts then Some(Normalize(facts[source])) else None
      ensures forall i :: 0 <= i < |candidate.sources.items| ==>
        candidate.sources.items[i].source == 0 || candidate.sources.items[i].source == i
    {
      hide WellFormed, Normalize;
      forall source: nat
        ensures StorageView(candidate, source) == if source in facts then Some(Normalize(facts[source])) else None
      {
        CapturesView(candidate, replaced, facts, source);
      }
      forall i | 0 <= i < |candidate.sources.items|
        ensures candidate.sources.items[i].source == 0 || candidate.sources.items[i].source == i
      {
        if i in facts { assert TracksOne(candidate.sources.items, ArenasOf(candidate), facts[i], i); }
      }
    }

    /** The graph builder leaves the aggregated construction slots in the candidate. */
    method InstallConstruction(slots: seq<Construction>)
      requires Valid() && failure.Ok? && !prepared && |slots| <= MAX_U32 + 1
      modifies this`candidate
      ensures Valid() && candidate.construction.items == slots && ArenasOf(candidate) == old(ArenasOf(candidate))
      ensures candidate.sources == old(candidate.sources)
    {
      hide Tracks;
      candidate := candidate.(construction := Vector(slots, Larger(candidate.construction.capacity, |slots|)));
    }

    method PreparePublish() returns (result: Status)
      requires Valid()
      modifies this
      ensures Valid() && facts == old(facts) && candidate == old(candidate) && published == old(published)
      ensures result == if !old(failure).Ok? then old(failure)
                        else if old(prepared || published) then InvalidArgument else Ok
      ensures prepared == (result.Ok? || old(prepared)) && failure == old(failure)
    {
      if !failure.Ok? { return failure; }
      if prepared || published { return InvalidArgument; }
      prepared := true;
      result := Ok;
    }

    /** `publish_prepared`: swaps the candidate in. The committed view becomes exactly the
        captured facts; without a successful prepare nothing happens at all. */
    method PublishPrepared()
      requires Valid()
      modifies this, owner
      ensures Valid()
      ensures old(prepared && !published) ==>
        && published && owner.Valid() && owner.complete
        && owner.committed == old(candidate)
        && forall source :: owner.ViewAt(source) ==
             if source in facts then Some(Normalize(facts[source])) else None
      ensures old(prepared && !published) ==> forall id :: id in facts ==> StandsIn(owner.committed, facts[id])
      ensures facts == old(facts)
      ensures !old(prepared && !published) ==> unchanged(this) && unchanged(owner)
    {
      if !prepared || published { return; }
      owner.committed, candidate := candidate, owner.committed;
      owner.statistics := owner.committed.statistics;
      owner.complete := true;
      published := true;
      forall source: nat
        ensures owner.ViewAt(source) == if source in facts then Some(Normalize(facts[source])) else None
      {
        CapturesView(owner.committed, replaced, facts, source);
      }
      forall id | id in facts ensures StandsIn(owner.committed, facts[id]) {
        CapturesStand(owner.committed, replaced, facts, id);
      }
    }
  }

  /** What was captured stands in the candidate's arenas. */
  lemma {:induction false} CapturesStand(c: Storage, replaced: seq<bool>, facts: map<nat, Facts>, id: nat)
    requires Captures(c, replaced, facts) && id in facts
    ensures StandsIn(c, facts[id])
  {
    hide WellFormed, Stands, Normalize;
    assert TracksOne(c.sources.items, ArenasOf(c), facts[id], id);
    HeldStands(ArenasOf(c), c.sources.items[id], facts[id]);
  }
}
