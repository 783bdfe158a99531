/** The meaning of a sparse transaction on values: the patches it has collected, what they
    do to the source slots, and what that does to the view and the statistics. */
module ContributionPatches {
  import opened Wrappers
  import opened ContributionArenas
  import opened SourceFacts
  import opened ContributionStorage
  import opened PatchIndex

  datatype SourcePatch = SourcePatch(source: nat, state: State, present: bool)
  datatype ConstructionPatch = ConstructionPatch(handle: nat, state: Construction)

  /** What a transaction was asked to do with one source: store this slice, or drop it. */
  datatype Change = Change(source: nat, slice: Option<Arenas>)

  function SourceKeys(patches: seq<SourcePatch>): (r: seq<nat>)
    ensures |r| == |patches| && forall i :: 0 <= i < |r| ==> r[i] == patches[i].source
  {
    seq(|patches|, i requires 0 <= i < |patches| => patches[i].source)
  }

  function ConstructionKeys(patches: seq<ConstructionPatch>): (r: seq<nat>)
    ensures |r| == |patches| && forall i :: 0 <= i < |r| ==> r[i] == patches[i].handle
  {
    seq(|patches|, i requires 0 <= i < |patches| => patches[i].handle)
  }

  /** Each patch stores exactly the slice it was asked to store, in the committed arenas
      extended by the transaction's own. */
  ghost predicate Stores(p: SourcePatch, c: Change, a: Arenas) {
    && p.source == c.source && 0 < p.source <= MAX_U32
    && (if p.present then c.slice.Some? && Holds(a, p.state, p.source, c.slice.value)
        else c.slice.None? && p.state == NO_STATE)
  }

  ghost predicate StoresAll(patches: seq<SourcePatch>, changes: seq<Change>, a: Arenas) {
    && |patches| == |changes|
    && forall i :: 0 <= i < |patches| ==> Stores(patches[i], changes[i], a)
  }

  lemma {:induction false} StoresStable(patches: seq<SourcePatch>, changes: seq<Change>, a: Arenas, b: Arenas)
    requires StoresAll(patches, changes, a)
    ensures StoresAll(patches, changes, Append(a, b))
  {
    forall i | 0 <= i < |patches|
      ensures Stores(patches[i], changes[i], Append(a, b))
    {
      if patches[i].present {
        HoldsStable(a, b, patches[i].state, patches[i].source, changes[i].slice.value);
      }
    }
  }

  lemma {:induction false} StoresAppend(
      patches: seq<SourcePatch>, changes: seq<Change>, a: Arenas, p: SourcePatch, c: Change)
    requires StoresAll(patches, changes, a) && Stores(p, c, a)
    ensures StoresAll(patches + [p], changes + [c], a)
  {
  }

  // ---------- Applying patches to the source slots ----------

  function Target(p: SourcePatch): State { if p.present then p.state else NO_STATE }

  predicate Addresses(patches: seq<SourcePatch>, size: nat) {
    forall i :: 0 <= i < |patches| ==> patches[i].source < size
  }

  function Apply(sources: seq<State>, patches: seq<SourcePatch>): (r: seq<State>)
    requires Addresses(patches, |sources|)
    ensures |r| == |sources|
  {
    if patches == [] then sources
    else
      var last := patches[|patches| - 1];
      Apply(sources, patches[..|patches| - 1])[last.source := Target(last)]
  }

  lemma {:induction false} ApplyAt(sources: seq<State>, patches: seq<SourcePatch>, i: nat)
    requires Addresses(patches, |sources|) && Distinct(SourceKeys(patches)) && i < |patches|
    ensures Apply(sources, patches)[patches[i].source] == Target(patches[i])
  {
    var front := patches[..|patches| - 1];
    if i < |front| {
      assert SourceKeys(front) == SourceKeys(patches)[..|front|];
      ApplyAt(sources, front, i);
      assert SourceKeys(patches)[i] != SourceKeys(patches)[|front|];
    }
  }

  lemma {:induction false} ApplyElsewhere(sources: seq<State>, patches: seq<SourcePatch>, source: nat)
    requires Addresses(patches, |sources|) && source < |sources|
    requires forall i :: 0 <= i < |patches| ==> patches[i].source != source
    ensures Apply(sources, patches)[source] == sources[source]
  {
    if patches != [] {
      ApplyElsewhere(sources, patches[..|patches| - 1], source);
    }
  }

  function Padded(sources: seq<State>, size: nat): (r: seq<State>)
    requires |sources| <= size
    ensures |r| == size && sources <= r
    ensures forall i :: |sources| <= i < size ==> r[i] == NO_STATE
  {
    sources + seq(size - |sources|, _ => NO_STATE)
  }

  // ---------- The statistics of a transaction ----------

  /** What the transaction stores, summed over its patches. */
  function Stored(patches: seq<SourcePatch>): Sizes {
    if patches == [] then Sizes(0, 0, 0, 0, 0, 0)
    else
      var last := patches[|patches| - 1];
      Plus(Stored(patches[..|patches| - 1]), CountsOf(Target(last)))
  }

  lemma {:induction false} StoredAppend(patches: seq<SourcePatch>, p: SourcePatch)
    ensures Stored(patches + [p]) == Plus(Stored(patches), CountsOf(Target(p)))
  {
    assert (patches + [p])[..|patches|] == patches;
  }

  function AfterPatch(s: Statistics, sources: seq<State>, p: SourcePatch): Statistics
    requires p.source < |sources|
  {
    Add(Subtract(s, SlotStatistics(sources[p.source], p.source)), SlotStatistics(Target(p), p.source))
  }

  lemma {:induction false} AppliedStatistics(sources: seq<State>, patches: seq<SourcePatch>, k: nat)
    requires k < |patches| && Addresses(patches, |sources|) && Distinct(SourceKeys(patches))
    ensures Totals(Apply(sources, patches[..k + 1])) == AfterPatch(Totals(Apply(sources, patches[..k])), sources, patches[k])
    ensures Apply(sources, patches[..k])[patches[k].source] == sources[patches[k].source]
  {
    assert patches[..k + 1][..k] == patches[..k];
    var before := Apply(sources, patches[..k]);
    forall i | 0 <= i < k ensures patches[..k][i].source != patches[k].source {
      assert SourceKeys(patches)[i] != SourceKeys(patches)[k];
    }
    ApplyElsewhere(sources, patches[..k], patches[k].source);
    TotalsUpdate(before, patches[k].source, Target(patches[k]));
  }

  predicate Owned(p: SourcePatch) { p.source != 0 && (p.present ==> p.state.source == p.source) }

  /** The totals after the transaction never exceed the totals before plus what it stores. */
  lemma {:induction false} AppliedAtMost(sources: seq<State>, patches: seq<SourcePatch>)
    requires Addresses(patches, |sources|) && Distinct(SourceKeys(patches))
    requires forall i :: 0 < i < |sources| && sources[i].source == i ==> NonNegative(sources[i])
    requires forall i :: 0 <= i < |patches| ==> Owned(patches[i])
    ensures AtMost(Totals(Apply(sources, patches)).counts, Plus(Totals(sources).counts, Stored(patches)))
  {
    if patches != [] {
      var k := |patches| - 1;
      var front := patches[..k];
      assert SourceKeys(front) == SourceKeys(patches)[..k];
      AppliedAtMost(sources, front);
      assert patches[..k + 1] == patches;
      AppliedStatistics(sources, patches, k);
      var replacedSlot := SlotStatistics(sources[patches[k].source], patches[k].source);
      assert Covers(replacedSlot, NO_STATISTICS);
    }
  }

  // ---------- The view after a transaction ----------

  lemma {:induction false} AppliedBounds(
      sources: seq<State>, patches: seq<SourcePatch>, changes: seq<Change>, a: Arenas)
    requires Addresses(patches, |sources|) && Distinct(SourceKeys(patches))
    requires StoresAll(patches, changes, a) && SourcesInBounds(sources, SizesOf(a))
    ensures SourcesInBounds(Apply(sources, patches), SizesOf(a))
  {
    var after := Apply(sources, patches);
    forall id | 0 < id < |after| && after[id].source == id
      ensures InBounds(after[id], SizesOf(a))
    {
      if i :| 0 <= i < |patches| && patches[i].source == id {
        ApplyAt(sources, patches, i);
        assert Stores(patches[i], changes[i], a);
      } else {
        ApplyElsewhere(sources, patches, id);
      }
    }
  }

  lemma {:induction false} AppliedChanged(
      sources: seq<State>, patches: seq<SourcePatch>, changes: seq<Change>, a: Arenas, i: nat)
    requires Addresses(patches, |sources|) && Distinct(SourceKeys(patches)) && StoresAll(patches, changes, a)
    requires i < |changes|
    ensures ViewOf(Apply(sources, patches), a, changes[i].source) == changes[i].slice
  {
    ApplyAt(sources, patches, i);
    assert Stores(patches[i], changes[i], a);
  }

  lemma {:induction false} AppliedUnchanged(
      sources: seq<State>, patches: seq<SourcePatch>, a: Arenas, b: Arenas, size: nat, source: nat)
    requires |sources| <= size && Addresses(patches, size) && SourcesInBounds(sources, SizesOf(a))
    requires forall i :: 0 <= i < |patches| ==> patches[i].source != source
    ensures ViewOf(Apply(Padded(sources, size), patches), Append(a, b), source) == ViewOf(sources, a, source)
  {
    if source < size {
      ApplyElsewhere(Padded(sources, size), patches, source);
      if 0 < source < |sources| && sources[source].source == source {
        CutStable(a, b, sources[source]);
      }
    }
  }

  // ---------- The construction slots ----------

  predicate AddressesHandles(patches: seq<ConstructionPatch>, size: nat) {
    forall i :: 0 <= i < |patches| ==> patches[i].handle < size
  }

  function ApplyConstruction(slots: seq<Construction>, patches: seq<ConstructionPatch>): (r: seq<Construction>)
    requires AddressesHandles(patches, |slots|)
    ensures |r| == |slots|
  {
    if patches == [] then slots
    else
      var last := patches[|patches| - 1];
      ApplyConstruction(slots, patches[..|patches| - 1])[last.handle := last.state]
  }

  lemma {:induction false} ApplyConstructionAt(slots: seq<Construction>, patches: seq<ConstructionPatch>, i: nat)
    requires AddressesHandles(patches, |slots|) && Distinct(ConstructionKeys(patches)) && i < |patches|
    ensures ApplyConstruction(slots, patches)[patches[i].handle] == patches[i].state
  {
    var front := patches[..|patches| - 1];
    if i < |front| {
      assert ConstructionKeys(front) == ConstructionKeys(patches)[..|front|];
      ApplyConstructionAt(slots, front, i);
      assert ConstructionKeys(patches)[i] != ConstructionKeys(patches)[|front|];
    }
  }

  lemma {:induction false} ApplyConstructionElsewhere(
      slots: seq<Construction>, patches: seq<ConstructionPatch>, handle: nat)
    requires AddressesHandles(patches, |slots|) && handle < |slots|
    requires forall i :: 0 <= i < |patches| ==> patches[i].handle != handle
    ensures ApplyConstruction(slots, patches)[handle] == slots[handle]
  {
    if patches != [] {
      ApplyConstructionElsewhere(slots, patches[..|patches| - 1], handle);
    }
  }
}
