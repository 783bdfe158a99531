/** One build of the contribution cache, from the frontend's packets to publication: exactly when
    it succeeds, and what the cache shows afterwards. */
module ContributionBuilds {
  import opened Wrappers
  import opened ContributionArenas
  import opened SourceFacts
  import opened ContributionStorage
  import opened ContributionPatches
  import opened ContributionCache
  import opened ContributionRebuild
  import opened ContributionSparse
  import opened ContributionSparseUpdate
  import opened ContributionModel
  import opened PatchIndex
  import opened ConstructionAggregate
  import opened ConstructionLedger
  import opened LiveDeclarations
  import opened GraphAggregates

  // ---------- When a build can succeed ----------

  /** What a build is asked to do. `rest` is the outcome of what the graph builder does once the
      aggregates are up to date: resolving members, objects and links. */
  datatype Request = Request(replacements: seq<Facts>, removals: seq<nat>, rest: Status)

  const NO_SIZES: Sizes := Sizes(0, 0, 0, 0, 0, 0)

  function SourcesOf(s: seq<Facts>): (r: seq<nat>)
    ensures |r| == |s| && forall i :: 0 <= i < |s| ==> r[i] == s[i].source
  {
    seq(|s|, i requires 0 <= i < |s| => s[i].source)
  }

  /** Every source a request touches, in the order in which it does. */
  function Touched(q: Request): seq<nat> { SourcesOf(q.replacements) + q.removals }

  function Highest(keys: seq<nat>, start: nat): (r: nat)
    ensures r >= start
  {
    if keys == [] then start
    else
      var rest := Highest(keys[..|keys| - 1], start);
      if rest < keys[|keys| - 1] then keys[|keys| - 1] else rest
  }

  /** How many records a packet announces. */
  function Announced(f: Facts): (z: Sizes)
    ensures AtMost(NO_SIZES, z)
  {
    Sizes(|f.records| + |f.enums|, |f.members|, |f.modifiers|, |f.enumValues|, |f.objects|, |f.links|)
  }

  function AnnouncedAll(s: seq<Facts>): (z: Sizes)
    ensures AtMost(NO_SIZES, z)
  {
    if s == [] then NO_SIZES else Plus(AnnouncedAll(s[..|s| - 1]), Announced(s[|s| - 1]))
  }

  /** How many types a source has before the build. */
  function PreviousTypes(s: Storage, source: nat): nat {
    var state := Lookup(s.sources.items, source);
    if state.None? || state.value.types.count < 0 then 0 else state.value.types.count
  }

  /** The builder's upper bound for the types touched. */
  function TouchedTypes(s: Storage, replacements: seq<Facts>, removals: seq<nat>): nat {
    if removals != [] then
      TouchedTypes(s, replacements, removals[..|removals| - 1]) + PreviousTypes(s, removals[|removals| - 1])
    else if replacements != [] then
      var f := replacements[|replacements| - 1];
      TouchedTypes(s, replacements[..|replacements| - 1], []) + PreviousTypes(s, f.source) + |f.records| + |f.enums|
    else 0
  }

  /** The records appended for these packets, one packet after the other. */
  function OwnArenas(base: Sizes, s: seq<Facts>): (a: Arenas)
    ensures base == NO_SIZES ==> Plus(base, SizesOf(a)) == SizesOf(a)
  {
    if s == [] then EMPTY
    else
      var a := OwnArenas(base, s[..|s| - 1]);
      Copied(a, s[|s| - 1], Plus(base, SizesOf(a)))
  }

  /** Where packet `i` is copied to. */
  function EndBefore(base: Sizes, s: seq<Facts>, i: nat): Sizes
    requires i <= |s|
  {
    Plus(base, SizesOf(OwnArenas(base, s[..i])))
  }

  /** The types that have handles after these packets. */
  function KnownAll(ids: seq<nat>, s: seq<Facts>): (r: seq<nat>)
    ensures ids <= r
  {
    if s == [] then ids else KnownTypes(KnownAll(ids, s[..|s| - 1]), TypesOf(s[|s| - 1]))
  }

  /** Taking the packets over one by one never leads to a contradiction. */
  ghost predicate Mergeable(m: Model, s: seq<Facts>) {
    forall i :: 0 <= i <= |s| ==> Agrees(StoreAll(m, s[..i]))
  }

  function NewSourceSize(s: Storage, q: Request): nat { Highest(Touched(q), LastIndex(s.sources.items)) + 1 }

  const COUNTER_LIMITS: Sizes := Sizes(MAX_SIZE, MAX_SIZE, MAX_SIZE, MAX_SIZE, MAX_SIZE, MAX_SIZE)

  /** The counts add up within 64 bits, and both tables can be sized for them. */
  predicate Countable(s: Storage, q: Request) {
    && AtMost(AnnouncedAll(q.replacements), COUNTER_LIMITS)
    && WithinRoom(AnnouncedAll(q.replacements), SizesOf(ArenasOf(s)))
    && |Touched(q)| <= MAX_SIZE / 2 && TouchedTypes(s, q.replacements, q.removals) <= MAX_SIZE / 2
  }

  /** Every packet is acceptable and fits where it is copied to; no source is touched twice. */
  predicate Copyable(s: Storage, q: Request) {
    && Distinct(Touched(q)) && 0 !in Touched(q)
    && (forall i :: 0 <= i < |q.replacements| ==> Acceptable(q.replacements[i]))
    && (forall i :: 0 <= i < |q.replacements| ==>
          SparseFits(q.replacements[i], EndBefore(SizesOf(ArenasOf(s)), q.replacements, i)))
  }

  /** The result can be numbered in 32 bits and needs no reallocation, unless the cache is backed
      by a baseline: then room is made for it. */
  predicate Placeable(s: Storage, baselineBacked: bool, ids: seq<nat>, q: Request) {
    var handles := |KnownAll(ids, q.replacements)|;
    && NewSourceSize(s, q) <= MAX_U32 && handles + 1 <= MAX_U32
    && (baselineBacked ||
        HasRoom(s, OwnArenas(SizesOf(ArenasOf(s)), q.replacements), NewSourceSize(s, q), handles + 1))
  }

  /** When an incremental build succeeds, for a cache that shows `m` beside a graph with handles for `ids`. */
  ghost predicate UpdateSucceeds(
      s: Storage, complete: bool, baselineBacked: bool, ids: seq<nat>, m: Model, q: Request) {
    && complete && Countable(s, q) && Copyable(s, q) && Mergeable(m, q.replacements) && q.rest.Ok?
    && Placeable(s, baselineBacked, ids, q)
  }

  /** Every packet is acceptable and fits behind the packets before it; no source comes twice. */
  predicate Capturable(all: seq<Facts>) {
    && Distinct(SourcesOf(all)) && (forall i :: 0 <= i < |all| ==> Acceptable(all[i]))
    && (forall i :: 0 <= i < |all| ==> RebuildFits(all[i], EndBefore(NO_SIZES, all, i)))
  }

  /** When a full build succeeds: nothing of it depends on the cache there was. */
  ghost predicate RebuildSucceeds(all: seq<Facts>, rest: Status) {
    && CountsBelowLimit(Highest(SourcesOf(all), 0), AnnouncedAll(all)) && Capturable(all)
    && Agrees(StoreAll(map[], all)) && rest.Ok?
  }

  // ---------- What a build answers ----------

  /** Counting packet `i`, once the packets before it are counted. */
  ghost function CountStatus(s: Storage, replacements: seq<Facts>, i: nat): Status
    requires i < |replacements|
  {
    if replacements[i].source == 0 then InvalidArgument
    else if !AtMost(AnnouncedAll(replacements[..i + 1]), COUNTER_LIMITS) then NotAvailable
    else if TouchedTypes(s, replacements[..i + 1], []) > MAX_SIZE then NotAvailable else Ok
  }

  /** And the types of the source that goes as number `i`. */
  ghost function UncountStatus(s: Storage, replacements: seq<Facts>, removals: seq<nat>, i: nat): Status
    requires i < |removals|
  {
    if removals[i] == 0 then InvalidArgument
    else if TouchedTypes(s, replacements, removals[..i + 1]) > MAX_SIZE then NotAvailable else Ok
  }

  /** Sizing the tables. */
  ghost function RoomStatus(s: Storage, q: Request): Status {
    if && WithinRoom(AnnouncedAll(q.replacements), SizesOf(ArenasOf(s)))
       && |Touched(q)| <= MAX_SIZE / 2 && TouchedTypes(s, q.replacements, q.removals) <= MAX_SIZE / 2 then Ok
    else NotAvailable
  }

  /** Taking packet `i`, which goes to `end`. */
  function PacketStatus(s: seq<Facts>, i: nat, fits: bool): Status
    requires i < |s|
  {
    if !ValidFacts(s[i]) then InvalidArgument
    else if HasBases(s[i]) then NotAvailable
    else if s[i].source in SourcesOf(s[..i]) then InvalidArgument
    else if !fits then NotAvailable else Ok
  }

  function ReplaceStatus(base: Sizes, s: seq<Facts>, i: nat): Status
    requires i < |s|
  {
    PacketStatus(s, i, SparseFits(s[i], EndBefore(base, s, i)))
  }

  function CaptureStatus(s: seq<Facts>, i: nat): Status
    requires i < |s|
  {
    PacketStatus(s, i, RebuildFits(s[i], EndBefore(NO_SIZES, s, i)))
  }

  /** Taking the removal of source `i`. */
  function RemoveStatus(sources: seq<nat>, removals: seq<nat>, i: nat): Status
    requires i < |removals|
  {
    if removals[i] == 0 || removals[i] in sources + removals[..i] then InvalidArgument else Ok
  }

  /** The preparation. */
  function PlaceStatus(s: Storage, baselineBacked: bool, ids: seq<nat>, q: Request): Status {
    var handles := |KnownAll(ids, q.replacements)|;
    if NewSourceSize(s, q) > MAX_U32 || handles + 1 > MAX_U32 then NotAvailable
    else if Placeable(s, baselineBacked, ids, q) then Ok else RebuildRequired
  }

  ghost function CountStatuses(s: Storage, replacements: seq<Facts>): (r: seq<Status>)
    ensures |r| == |replacements| && forall i :: 0 <= i < |r| ==> r[i] == CountStatus(s, replacements, i)
  {
    seq(|replacements|, i requires 0 <= i < |replacements| => CountStatus(s, replacements, i))
  }

  ghost function UncountStatuses(s: Storage, replacements: seq<Facts>, removals: seq<nat>): (r: seq<Status>)
    ensures |r| == |removals| && forall i :: 0 <= i < |r| ==> r[i] == UncountStatus(s, replacements, removals, i)
  {
    seq(|removals|, i requires 0 <= i < |removals| => UncountStatus(s, replacements, removals, i))
  }

  ghost function ReplaceStatuses(base: Sizes, s: seq<Facts>): (r: seq<Status>)
    ensures |r| == |s| && forall i :: 0 <= i < |r| ==> r[i] == ReplaceStatus(base, s, i)
  {
    seq(|s|, i requires 0 <= i < |s| => ReplaceStatus(base, s, i))
  }

  ghost function RemoveStatuses(sources: seq<nat>, removals: seq<nat>): (r: seq<Status>)
    ensures |r| == |removals| && forall i :: 0 <= i < |r| ==> r[i] == RemoveStatus(sources, removals, i)
  {
    seq(|removals|, i requires 0 <= i < |removals| => RemoveStatus(sources, removals, i))
  }

  ghost function CaptureStatuses(s: seq<Facts>): (r: seq<Status>)
    ensures |r| == |s| && forall i :: 0 <= i < |r| ==> r[i] == CaptureStatus(s, i)
  {
    seq(|s|, i requires 0 <= i < |s| => CaptureStatus(s, i))
  }

  ghost function ReserveStatus(s: Storage, q: Request): Status {
    Then(First(CountStatuses(s, q.replacements)),
      Then(First(UncountStatuses(s, q.replacements, q.removals)), RoomStatus(s, q)))
  }

  ghost function FillStatus(s: Storage, q: Request): Status {
    Then(First(ReplaceStatuses(SizesOf(ArenasOf(s)), q.replacements)),
      First(RemoveStatuses(SourcesOf(q.replacements), q.removals)))
  }

  /** What an incremental build answers: the first thing that is wrong decides, in this order. */
  ghost function UpdateStatus(
      s: Storage, complete: bool, baselineBacked: bool, ids: seq<nat>, m: Model, q: Request): Status
  {
    if !complete then InvalidArgument
    else
      Then(ReserveStatus(s, q), Then(FillStatus(s, q),
        Then(if Mergeable(m, q.replacements) then Ok else SemanticConflict,
          Then(q.rest, PlaceStatus(s, baselineBacked, ids, q)))))
  }

  /** And a full build. */
  ghost function RebuildStatus(all: seq<Facts>, rest: Status): Status {
    if !CountsBelowLimit(Highest(SourcesOf(all), 0), AnnouncedAll(all)) then NotAvailable
    else
      Then(First(CaptureStatuses(all)),
        Then(if Agrees(StoreAll(map[], all)) then Ok else SemanticConflict, rest))
  }

  // ---------- Counting ----------

  lemma {:induction false} AnnouncedGrows(s: seq<Facts>, i: nat)
    requires i <= |s|
    ensures AtMost(AnnouncedAll(s[..i]), AnnouncedAll(s))
  {
    if i == |s| {
      assert s[..i] == s;
    } else {
      var front := s[..|s| - 1];
      AnnouncedGrows(front, i);
      assert front[..i] == s[..i];
    }
  }

  lemma {:induction false} TouchedGrows(s: Storage, replacements: seq<Facts>, removals: seq<nat>, i: nat, j: nat)
    requires i <= |replacements| && j <= |removals| && (j == 0 || i == |replacements|)
    ensures TouchedTypes(s, replacements[..i], removals[..j]) <= TouchedTypes(s, replacements, removals)
    decreases |replacements| + |removals|
  {
    if i == |replacements| && j == |removals| {
      assert replacements[..i] == replacements && removals[..j] == removals;
    } else if removals != [] {
      var front := removals[..|removals| - 1];
      TouchedGrows(s, replacements, front, i, j);
      assert front[..j] == removals[..j];
    } else {
      var front := replacements[..|replacements| - 1];
      TouchedGrows(s, front, removals, i, j);
      assert front[..i] == replacements[..i];
    }
  }

  lemma {:induction false} TouchedSteps(s: Storage, replacements: seq<Facts>, removals: seq<nat>, i: nat)
    ensures i < |replacements| ==>
      TouchedTypes(s, replacements[..i + 1], [])
      == TouchedTypes(s, replacements[..i], []) + PreviousTypes(s, replacements[i].source)
         + |replacements[i].records| + |replacements[i].enums|
    ensures i < |removals| ==>
      TouchedTypes(s, replacements, removals[..i + 1])
      == TouchedTypes(s, replacements, removals[..i]) + PreviousTypes(s, removals[i])
  {
    if i < |replacements| { assert replacements[..i + 1][..i] == replacements[..i]; }
    if i < |removals| { assert removals[..i + 1][..i] == removals[..i]; }
  }

  lemma {:induction false} AnnouncedStep(s: seq<Facts>, i: nat)
    requires i < |s|
    ensures AnnouncedAll(s[..i + 1]) == Plus(AnnouncedAll(s[..i]), Announced(s[i]))
  {
    assert s[..i + 1][..i] == s[..i];
  }

  lemma {:induction false} NothingAnnounced(s: Storage, replacements: seq<Facts>)
    ensures AnnouncedAll(replacements[..0]) == NO_SIZES && TouchedTypes(s, replacements[..0], []) == 0
  {}

  /** The first loop of `prepare_incremental`: adds up the packets' counts and the types touched,
      checking every addition. */
  method CountReplacements(s: Storage, replacements: seq<Facts>) returns (result: Status, counts: Sizes, touched: nat)
    ensures
      result.Ok? <==>
      && 0 !in SourcesOf(replacements) && AtMost(AnnouncedAll(replacements), COUNTER_LIMITS)
      && TouchedTypes(s, replacements, []) <= MAX_SIZE
    ensures result.Ok? ==> counts == AnnouncedAll(replacements) && touched == TouchedTypes(s, replacements, [])
    ensures result == First(CountStatuses(s, replacements))
  {
    hide PreviousTypes, TouchedTypes, AnnouncedAll, Announced, Plus, First;
    counts, touched := NO_SIZES, 0;
    ghost var statuses := CountStatuses(s, replacements);
    NothingAnnounced(s, replacements);
    for i := 0 to |replacements|
      invariant 0 !in SourcesOf(replacements)[..i] && forall k :: 0 <= k < i ==> statuses[k] == Ok
      invariant counts == AnnouncedAll(replacements[..i]) && AtMost(counts, COUNTER_LIMITS)
      invariant touched == TouchedTypes(s, replacements[..i], []) <= MAX_SIZE
    {
      var f := replacements[i];
      assert SourcesOf(replacements)[i] == f.source;
      if statuses[i] != Ok { FirstAt(statuses, i); }
      if f.source == 0 { return InvalidArgument, counts, touched; }
      AnnouncedStep(replacements, i);
      AnnouncedGrows(replacements, i + 1);
      TouchedGrows(s, replacements, [], i + 1, 0);
      TouchedSteps(s, replacements, [], i);
      counts := Plus(counts, Announced(f));
      if !AtMost(counts, COUNTER_LIMITS) { return NotAvailable, counts, touched; }
      touched := touched + PreviousTypes(s, f.source) + |f.records| + |f.enums|;
      if touched > MAX_SIZE { return NotAvailable, counts, touched; }
    }
    assert replacements[..|replacements|] == replacements;
    assert SourcesOf(replacements)[..|replacements|] == SourcesOf(replacements);
    result := Ok;
  }

  /** The second loop: the types of the sources that go. */
  method CountRemovals(s: Storage, ghost replacements: seq<Facts>, removals: seq<nat>, before: nat)
      returns (result: Status, touched: nat)
    requires before == TouchedTypes(s, replacements, []) <= MAX_SIZE
    ensures result.Ok? <==> 0 !in removals && TouchedTypes(s, replacements, removals) <= MAX_SIZE
    ensures result.Ok? ==> touched == TouchedTypes(s, replacements, removals)
    ensures result == First(UncountStatuses(s, replacements, removals))
  {
    hide PreviousTypes, First;
    touched := before;
    ghost var statuses := UncountStatuses(s, replacements, removals);
    assert removals[..0] == [];
    for i := 0 to |removals|
      invariant 0 !in removals[..i] && forall k :: 0 <= k < i ==> statuses[k] == Ok
      invariant touched == TouchedTypes(s, replacements, removals[..i]) <= MAX_SIZE
    {
      if statuses[i] != Ok { FirstAt(statuses, i); }
      if removals[i] == 0 { return InvalidArgument, touched; }
      assert replacements[..|replacements|] == replacements;
      TouchedGrows(s, replacements, removals, |replacements|, i + 1);
      TouchedSteps(s, replacements, removals, i);
      touched := touched + PreviousTypes(s, removals[i]);
      if touched > MAX_SIZE { return NotAvailable, touched; }
    }
    assert removals[..|removals|] == removals;
    result := Ok;
  }

  // ---------- Filling a transaction ----------

  predicate TakesReplacement(base: Sizes, s: seq<Facts>, slots: nat, i: nat)
    requires i < |s|
  {
    && Acceptable(s[i]) && s[i].source !in SourcesOf(s[..i]) && i < slots
    && SparseFits(s[i], EndBefore(base, s, i))
  }

  predicate TakesRemoval(sources: seq<nat>, removals: seq<nat>, slots: nat, i: nat)
    requires i < |removals|
  {
    removals[i] != 0 && removals[i] !in sources + removals[..i] && |sources| + i < slots
  }

  lemma {:induction false} KeysOfChanges(replacements: seq<Facts>, removals: seq<nat>)
    ensures ChangeKeys(ChangesFor(replacements, removals)) == SourcesOf(replacements) + removals
  {
  }

  method ReplaceNext(u: SparseUpdate, replacements: seq<Facts>, i: nat) returns (result: Status)
    requires u.Valid() && u.failure.Ok? && !u.prepared && !u.published && i < |replacements|
    requires u.changes == ChangesFor(replacements[..i], []) && u.candidate == OwnArenas(u.base, replacements[..i])
    modifies u
    ensures u.Valid() && !u.prepared && !u.published
    ensures |u.sourceSlots| == old(|u.sourceSlots|) && |u.constructionSlots| == old(|u.constructionSlots|)
    ensures u.constructionPatches == old(u.constructionPatches)
    ensures result.Ok? <==> TakesReplacement(u.base, replacements, |u.sourceSlots|, i)
    ensures i < |u.sourceSlots| ==> result == ReplaceStatus(u.base, replacements, i)
    ensures
      result.Ok? ==>
        && u.failure.Ok? && u.changes == ChangesFor(replacements[..i + 1], [])
        && u.candidate == OwnArenas(u.base, replacements[..i + 1])
  {
    hide SparseUpdate.Valid, ValidFacts, HasBases, Acceptable, SparseFits, Copied, Normalize, ChangesFor, ChangeKeys,
      SourceKeys, Distinct;
    var f := replacements[i];
    u.KeysAreChanges();
    KeysOfChanges(replacements[..i], []);
    assert SourcesOf(replacements[..i]) + [] == SourcesOf(replacements[..i]);
    AcceptableMeans(f);
    ChangesForStep(replacements[..i], f);
    assert replacements[..i + 1] == replacements[..i] + [f];
    assert replacements[..i + 1][..i] == replacements[..i];
    result := u.Replace(f);
  }

  /** The loops of `prepare_incremental` that fill a transaction. */
  method FillReplacements(u: SparseUpdate, replacements: seq<Facts>) returns (result: Status)
    requires u.Valid() && u.failure.Ok? && !u.prepared && !u.published
    requires u.changes == [] && u.candidate == EMPTY
    modifies u
    ensures u.Valid() && !u.prepared && !u.published
    ensures |u.sourceSlots| == old(|u.sourceSlots|) && |u.constructionSlots| == old(|u.constructionSlots|)
    ensures u.constructionPatches == old(u.constructionPatches)
    ensures
      result.Ok? <==>
      forall i :: 0 <= i < |replacements| ==> TakesReplacement(u.base, replacements, |u.sourceSlots|, i)
    ensures
      result.Ok? ==>
        u.failure.Ok? && u.changes == ChangesFor(replacements, []) && u.candidate == OwnArenas(u.base, replacements)
    ensures |replacements| <= |u.sourceSlots| ==> result == First(ReplaceStatuses(u.base, replacements))
  {
    hide SparseUpdate.Valid, TakesReplacement, Copied, ChangesFor, ReplaceStatus, First, OwnArenas, SourcesOf, Plus;
    NothingCopied(u.base);
    result := Ok;
    ghost var statuses := ReplaceStatuses(u.base, replacements);
    assert replacements[..0] == [];
    NoChanges();
    for i := 0 to |replacements|
      invariant u.Valid() && u.failure.Ok? && !u.prepared && !u.published
      invariant |u.sourceSlots| == old(|u.sourceSlots|) && |u.constructionSlots| == old(|u.constructionSlots|)
      invariant u.constructionPatches == old(u.constructionPatches)
      invariant forall k :: 0 <= k < i ==> TakesReplacement(u.base, replacements, |u.sourceSlots|, k)
      invariant |replacements| <= |u.sourceSlots| ==> forall k :: 0 <= k < i ==> statuses[k] == Ok
      invariant u.changes == ChangesFor(replacements[..i], []) && u.candidate == OwnArenas(u.base, replacements[..i])
    {
      result := ReplaceNext(u, replacements, i);
      if !result.Ok? {
        if |replacements| <= |u.sourceSlots| { FirstAt(statuses, i); }
        return;
      }
    }
    assert replacements[..|replacements|] == replacements;
    result := Ok;
  }

  lemma {:induction false} NothingCopied(base: Sizes)
    ensures OwnArenas(base, []) == EMPTY
  {}

  lemma {:induction false} NoChanges()
    ensures ChangesFor([], []) == []
  {}

  lemma {:induction false} AcceptableMeans(f: Facts)
    ensures Acceptable(f) <==> ValidFacts(f) && !HasBases(f)
    ensures ValidFacts(f) ==> f.source != 0
  {}

  method RemoveNext(
      u: SparseUpdate, ghost replacements: seq<Facts>, removals: seq<nat>, i: nat) returns (result: Status)
    requires u.Valid() && u.failure.Ok? && !u.prepared && !u.published
    requires i < |removals| && removals[i] <= MAX_U32 && u.changes == ChangesFor(replacements, removals[..i])
    modifies u
    ensures u.Valid() && !u.prepared && !u.published
    ensures |u.sourceSlots| == old(|u.sourceSlots|) && |u.constructionSlots| == old(|u.constructionSlots|)
    ensures u.constructionPatches == old(u.constructionPatches) && u.candidate == old(u.candidate)
    ensures result.Ok? <==> TakesRemoval(SourcesOf(replacements), removals, |u.sourceSlots|, i)
    ensures
      |SourcesOf(replacements)| + i < |u.sourceSlots| ==> result == RemoveStatus(SourcesOf(replacements), removals, i)
    ensures result.Ok? ==> u.failure.Ok? && u.changes == ChangesFor(replacements, removals[..i + 1])
  {
    hide SparseUpdate.Valid, Normalize, ChangesFor, ChangeKeys, SourceKeys, Distinct;
    u.KeysAreChanges();
    KeysOfChanges(replacements, removals[..i]);
    RemovalsStep(replacements, removals[..i], removals[i]);
    assert removals[..i + 1] == removals[..i] + [removals[i]];
    result := u.Remove(removals[i]);
  }

  method FillRemovals(u: SparseUpdate, ghost replacements: seq<Facts>, removals: seq<nat>) returns (result: Status)
    requires u.Valid() && u.failure.Ok? && !u.prepared && !u.published
    requires u.changes == ChangesFor(replacements, [])
    requires forall i :: 0 <= i < |removals| ==> removals[i] <= MAX_U32
    modifies u
    ensures u.Valid() && !u.prepared && !u.published
    ensures |u.constructionSlots| == old(|u.constructionSlots|)
    ensures u.constructionPatches == old(u.constructionPatches) && u.candidate == old(u.candidate)
    ensures
      result.Ok? <==>
      forall i :: 0 <= i < |removals| ==> TakesRemoval(SourcesOf(replacements), removals, old(|u.sourceSlots|), i)
    ensures result.Ok? ==> u.failure.Ok? && u.changes == ChangesFor(replacements, removals)
    ensures
      |SourcesOf(replacements)| + |removals| <= old(|u.sourceSlots|) ==>
        result == First(RemoveStatuses(SourcesOf(replacements), removals))
  {
    hide SparseUpdate.Valid, ChangesFor, TakesRemoval, SourcesOf, RemoveStatus, First;
    result := Ok;
    ghost var statuses := RemoveStatuses(SourcesOf(replacements), removals);
    assert removals[..0] == [];
    for i := 0 to |removals|
      invariant u.Valid() && u.failure.Ok? && !u.prepared && !u.published
      invariant |u.sourceSlots| == old(|u.sourceSlots|) && |u.constructionSlots| == old(|u.constructionSlots|)
      invariant u.constructionPatches == old(u.constructionPatches) && u.candidate == old(u.candidate)
      invariant forall k :: 0 <= k < i ==> TakesRemoval(SourcesOf(replacements), removals, |u.sourceSlots|, k)
      invariant
        |SourcesOf(replacements)| + |removals| <= |u.sourceSlots| ==> forall k :: 0 <= k < i ==> statuses[k] == Ok
      invariant u.changes == ChangesFor(replacements, removals[..i])
    {
      result := RemoveNext(u, replacements, removals, i);
      if !result.Ok? {
        if |SourcesOf(replacements)| + |removals| <= |u.sourceSlots| { FirstAt(statuses, i); }
        return;
      }
    }
    assert removals[..|removals|] == removals;
    result := Ok;
  }

  // ---------- The sizes after publication ----------

  lemma {:induction false} MaxSourceIsHighest(patches: seq<SourcePatch>, start: nat)
    ensures MaxSource(patches, start) == Highest(SourceKeys(patches), start)
  {
    if patches != [] {
      var front := patches[..|patches| - 1];
      MaxSourceIsHighest(front, start);
      assert SourceKeys(patches)[..|patches| - 1] == SourceKeys(front);
    }
  }

  // ---------- What filling the transaction needs ----------

  predicate Fillable(base: Sizes, q: Request, slots: nat) {
    && (forall i :: 0 <= i < |q.replacements| ==> TakesReplacement(base, q.replacements, slots, i))
    && (forall i :: 0 <= i < |q.removals| ==> TakesRemoval(SourcesOf(q.replacements), q.removals, slots, i))
  }

  lemma {:induction false} CapacitySuffices(count: nat)
    requires count <= MAX_SIZE / 2
    ensures count == 0 || 2 * count <= PatchCapacity(count)
  {
    if count != 0 { CapacityLeavesHalfEmpty(count); }
  }

  /** With tables sized for them, filling fails only for a packet or a source that is at fault. */
  lemma {:induction false} CopyableIsFillable(s: Storage, q: Request)
    requires |Touched(q)| <= MAX_SIZE / 2 && Copyable(s, q)
    ensures Fillable(SizesOf(ArenasOf(s)), q, PatchCapacity(|Touched(q)|))
  {
    hide Acceptable, SparseFits, EndBefore, PatchCapacity;
    var keys, n := Touched(q), |q.replacements|;
    CapacitySuffices(|keys|);
    forall i | 0 <= i < n
      ensures TakesReplacement(SizesOf(ArenasOf(s)), q.replacements, PatchCapacity(|keys|), i)
    {
      assert keys[i] == q.replacements[i].source;
      assert SourcesOf(q.replacements[..i]) == keys[..i];
    }
    forall i | 0 <= i < |q.removals| ensures TakesRemoval(SourcesOf(q.replacements), q.removals, PatchCapacity(|keys|), i) {
      assert keys[n + i] == q.removals[i];
      assert SourcesOf(q.replacements) + q.removals[..i] == keys[..n + i];
    }
  }

  lemma {:induction false} FillableIsCopyable(s: Storage, q: Request, slots: nat)
    requires Fillable(SizesOf(ArenasOf(s)), q, slots)
    ensures Copyable(s, q)
  {
    hide Acceptable, SparseFits, EndBefore;
    var keys, n := Touched(q), |q.replacements|;
    forall i | 0 <= i < |keys| ensures keys[i] != 0 && keys[i] !in keys[..i] {
      if i < n {
        assert TakesReplacement(SizesOf(ArenasOf(s)), q.replacements, slots, i);
        AcceptableMeans(q.replacements[i]);
        assert SourcesOf(q.replacements[..i]) == keys[..i];
      } else {
        assert TakesRemoval(SourcesOf(q.replacements), q.removals, slots, i - n);
        assert SourcesOf(q.replacements) + q.removals[..i - n] == keys[..i];
      }
    }
    forall i, j | 0 <= i < j < |keys| ensures keys[i] != keys[j] {
      assert keys[..j][i] == keys[i];
    }
    forall i | 0 <= i < n
      ensures Acceptable(q.replacements[i]) && SparseFits(q.replacements[i], EndBefore(SizesOf(ArenasOf(s)), q.replacements, i))
    {
      assert TakesReplacement(SizesOf(ArenasOf(s)), q.replacements, slots, i);
    }
  }

  // ---------- What the graph builder meets ----------

  /** What a patch puts in is what its change asks for. */
  lemma {:induction false} NewsCount(c: Storage, own: Arenas, patches: seq<SourcePatch>, changes: seq<Change>, i: nat)
    requires Collected(c, own, patches, changes) && i < |patches|
    ensures
      var types := CheckedSpan(c.types.items + own.types, Target(patches[i]).types);
      && |News(c, own, patches[i])| == |types|
      && (changes[i].slice.None? ==> types == [])
      && (changes[i].slice.Some? ==>
            && |types| == |changes[i].slice.value.types|
            && forall k :: 0 <= k < |types| ==> types[k].identity == changes[i].slice.value.types[k].identity)
  {
    hide Canonical;
    assert Stores(patches[i], changes[i], Append(ArenasOf(c), own));
  }

  /** What a patch takes out are the types its source had. */
  lemma {:induction false} OldsCount(c: Storage, statistics: Statistics, p: SourcePatch)
    requires WellFormed(c, statistics)
    ensures |Olds(c, p)| == PreviousTypes(c, p.source)
  {
    var previous := Lookup(c.sources.items, p.source);
    if previous.Some? { assert InBounds(previous.value, SizesOf(ArenasOf(c))); }
  }

  /** The first `i` changes of a request, as replacements and removals. */
  function FirstReplaced(
      q: Request, i: nat): seq<Facts> { if i <= |q.replacements| then q.replacements[..i] else q.replacements }

  function FirstRemoved(q: Request, i: nat): seq<nat>
    requires i <= |q.replacements| + |q.removals|
  {
    if i <= |q.replacements| then [] else q.removals[..i - |q.replacements|]
  }

  lemma {:induction false} FirstStep(q: Request, i: nat)
    requires i < |q.replacements| + |q.removals|
    ensures
      if i < |q.replacements| then
        && FirstReplaced(q, i + 1) == FirstReplaced(q, i) + [q.replacements[i]]
        && FirstRemoved(q, i + 1) == FirstRemoved(q, i) == []
      else
        && FirstReplaced(q, i + 1) == FirstReplaced(q, i) == q.replacements
        && FirstRemoved(q, i + 1) == FirstRemoved(q, i) + [q.removals[i - |q.replacements|]]
  {
    if i == |q.replacements| { assert q.replacements[..i] == q.replacements; }
  }

  lemma {:induction false} TouchedStep(s: Storage, q: Request, i: nat)
    requires i < |q.replacements| + |q.removals|
    ensures
      TouchedTypes(s, FirstReplaced(q, i + 1), FirstRemoved(q, i + 1))
      == TouchedTypes(s, FirstReplaced(q, i), FirstRemoved(q, i)) + PreviousTypes(s, Touched(q)[i])
         + if i < |q.replacements| then |q.replacements[i].records| + |q.replacements[i].enums| else 0
  {
    hide PreviousTypes;
    FirstStep(q, i);
    if i < |q.replacements| {
      TouchedSteps(s, q.replacements, [], i);
      assert Touched(q)[i] == q.replacements[i].source;
    } else {
      TouchedSteps(s, q.replacements, q.removals, i - |q.replacements|);
    }
  }

  lemma {:induction false} ChangeAt(q: Request, i: nat)
    requires i < |q.replacements| + |q.removals|
    ensures
      ChangesFor(q.replacements, q.removals)[i]
      == Change(Touched(q)[i], if i < |q.replacements| then Some(Normalize(q.replacements[i])) else None)
  {
    hide Normalize;
    var changes, n := ChangesFor(q.replacements, q.removals), |q.replacements|;
    if i >= n { assert changes[n + (i - n)] == Change(q.removals[i - n], None); }
  }

  /** The builder's upper bound is exact: so many declarations are taken out and put in. */
  lemma {:induction false} EditsAreTouched(
      c: Storage, statistics: Statistics, own: Arenas, patches: seq<SourcePatch>, q: Request, i: nat)
    requires WellFormed(c, statistics) && Collected(c, own, patches, ChangesFor(q.replacements, q.removals))
    requires i <= |patches| && forall k :: 0 <= k < |q.replacements| ==> ValidFacts(q.replacements[k])
    ensures |patches| == |q.replacements| + |q.removals|
    ensures Edits(c, own, patches[..i]) == TouchedTypes(c, FirstReplaced(q, i), FirstRemoved(q, i))
  {
    hide WellFormed, Collected, ValidFacts, Olds, News, PreviousTypes, Touched, Normalize;
    CollectedMeans(c, own, patches, q);
    if i != 0 {
      var k := i - 1;
      EditsAreTouched(c, statistics, own, patches, q, k);
      EditsGrow(c, own, patches, k);
      NewsCount(c, own, patches, ChangesFor(q.replacements, q.removals), k);
      OldsCount(c, statistics, patches[k]);
      ChangeAt(q, k);
      TouchedStep(c, q, k);
      if k < |q.replacements| { NormalizedTypes(q.replacements[k]); }
    } else {
      NoneTouched(c, q, patches, own);
    }
  }

  lemma {:induction false} NoneTouched(c: Storage, q: Request, patches: seq<SourcePatch>, own: Arenas)
    ensures Edits(c, own, patches[..0]) == 0 && TouchedTypes(c, FirstReplaced(q, 0), FirstRemoved(q, 0)) == 0
  {}

  lemma {:induction false} NormalizedTypes(f: Facts)
    requires ValidFacts(f)
    ensures |Normalize(f).types| == |f.records| + |f.enums|
  {
    TypesCounted(f);
  }

  lemma {:induction false} CollectedMeans(c: Storage, own: Arenas, patches: seq<SourcePatch>, q: Request)
    requires Collected(c, own, patches, ChangesFor(q.replacements, q.removals))
    ensures |patches| == |q.replacements| + |q.removals| == |Touched(q)|
    ensures forall i :: 0 <= i < |patches| ==> patches[i].source == Touched(q)[i]
  {
    var changes := ChangesFor(q.replacements, q.removals);
    KeysOfChanges(q.replacements, q.removals);
    forall i | 0 <= i < |patches| ensures patches[i].source == Touched(q)[i] {
      assert Stores(patches[i], changes[i], Append(ArenasOf(c), own));
      assert ChangeKeys(changes)[i] == changes[i].source;
    }
  }

  lemma {:induction false} SameNames(ids: seq<nat>, a: seq<TypeDecl>, b: seq<TypeDecl>)
    requires |a| == |b| && forall k :: 0 <= k < |a| ==> a[k].identity == b[k].identity
    ensures KnownTypes(ids, a) == KnownTypes(ids, b)
  {
    if a != [] { SameNames(ids, a[..|a| - 1], b[..|b| - 1]); }
  }

  /** The handles given out are those the packets call for. */
  lemma {:induction false} KnownIsAll(
      ids: seq<nat>, c: Storage, own: Arenas, patches: seq<SourcePatch>, q: Request, i: nat)
    requires Collected(c, own, patches, ChangesFor(q.replacements, q.removals)) && i <= |patches|
    ensures |patches| == |q.replacements| + |q.removals|
    ensures KnownAfter(ids, c, own, patches[..i]) == KnownAll(ids, FirstReplaced(q, i))
  {
    hide Collected, KnownTypes, TypesOf, Touched, Target;
    CollectedMeans(c, own, patches, q);
    if i != 0 {
      var k, changes := i - 1, ChangesFor(q.replacements, q.removals);
      KnownIsAll(ids, c, own, patches, q, k);
      NewsCount(c, own, patches, changes, k);
      ChangeAt(q, k);
      FirstStep(q, k);
      assert patches[..i][..k] == patches[..k];
      var known, types := KnownAll(ids, FirstReplaced(q, k)), CheckedSpan(c.types.items + own.types, Target(patches[k]).types);
      assert KnownAfter(ids, c, own, patches[..i]) == KnownTypes(known, types);
      if k < |q.replacements| {
        SameNames(known, types, TypesOf(q.replacements[k]));
        assert FirstReplaced(q, i)[..k] == FirstReplaced(q, k);
      } else {
        NoNames(known);
      }
    } else {
      assert patches[..0] == [] && FirstReplaced(q, 0) == [];
    }
  }

  lemma {:induction false} NoNames(ids: seq<nat>)
    ensures KnownTypes(ids, []) == ids
  {}

  lemma {:induction false} OwnTypes(base: Sizes, s: seq<Facts>)
    requires forall i :: 0 <= i < |s| ==> ValidFacts(s[i])
    ensures |OwnArenas(base, s).types| == AnnouncedAll(s).types
  {
    hide ValidFacts, TypesOf;
    if s != [] {
      OwnTypes(base, s[..|s| - 1]);
      NormalizedTypes(s[|s| - 1]);
    }
  }

  lemma {:induction false} OwnTypesNamed(base: Sizes, s: seq<Facts>)
    requires forall i :: 0 <= i < |s| ==> ValidFacts(s[i])
    ensures Named(OwnArenas(base, s).types)
  {
    hide ValidFacts, TypesOf;
    if s != [] {
      OwnTypesNamed(base, s[..|s| - 1]);
      TypesCounted(s[|s| - 1]);
    }
  }

  // ---------- Contradictions on the way ----------

  /** A slot table over arenas, as a storage. */
  ghost function StorageOf(sources: seq<State>, a: Arenas): Storage {
    Storage(Vector(sources, 0), Vector(a.types, 0), Vector(a.members, 0), Vector(a.modifiers, 0), Vector(a.enumValues, 0),
            Vector(a.objects, 0), Vector(a.links, 0), Vector([], 0), NO_STATISTICS)
  }

  lemma {:induction false} FirstChanges(q: Request, i: nat)
    requires i <= |q.replacements| + |q.removals|
    ensures ChangesFor(FirstReplaced(q, i), FirstRemoved(q, i)) == ChangesFor(q.replacements, q.removals)[..i]
  {
    hide Normalize;
    var few, all := ChangesFor(FirstReplaced(q, i), FirstRemoved(q, i)), ChangesFor(q.replacements, q.removals);
    var n := |q.replacements|;
    forall k | 0 <= k < i ensures few[k] == all[k] {
      if k >= n {
        assert few[n + (k - n)] == Change(q.removals[k - n], None);
        assert all[n + (k - n)] == Change(q.removals[k - n], None);
      }
    }
  }

  lemma {:induction false} PrefixChanged(
      c: Storage, own: Arenas, patches: seq<SourcePatch>, changes: seq<Change>, i: nat, k: nat)
    requires Collected(c, own, patches, changes) && Distinct(SourceKeys(patches)) && k < i <= |patches|
    ensures ViewOf(SlotsAfter(c, patches, i), Append(ArenasOf(c), own), changes[k].source) == changes[k].slice
  {
    hide ViewOf, Holds, Canonical, Stored, MaxSource, Apply, Append;
    var size, all := MaxSource(patches, LastIndex(c.sources.items)) + 1, Append(ArenasOf(c), own);
    MaxSourceBounds(patches, LastIndex(c.sources.items));
    PrefixStores(patches, changes, all, i);
    AppliedChanged(Padded(c.sources.items, size), patches[..i], changes[..i], all, k);
  }

  lemma {:induction false} PrefixUnchanged(
      c: Storage, statistics: Statistics, own: Arenas, patches: seq<SourcePatch>, changes: seq<Change>, i: nat, source: nat)
    requires WellFormed(c, statistics) && Collected(c, own, patches, changes) && Distinct(SourceKeys(patches))
    requires i <= |patches| && source !in ChangeKeys(changes[..i])
    ensures ViewOf(SlotsAfter(c, patches, i), Append(ArenasOf(c), own), source) == StorageView(c, source)
  {
    hide ViewOf, Holds, Canonical, Stored, MaxSource, Apply, Append, Totals;
    var size, all := MaxSource(patches, LastIndex(c.sources.items)) + 1, Append(ArenasOf(c), own);
    MaxSourceBounds(patches, LastIndex(c.sources.items));
    PrefixStores(patches, changes, all, i);
    PatchedElsewhere(patches[..i], changes[..i], all, source);
    AppliedUnchanged(c.sources.items, patches[..i], ArenasOf(c), own, size, source);
  }

  /** After the first `i` patches the slots show the model after the first `i` changes. */
  lemma {:induction false} PrefixShows(
      c: Storage, statistics: Statistics, own: Arenas, patches: seq<SourcePatch>, q: Request, i: nat, m: Model)
    requires WellFormed(c, statistics) && Collected(c, own, patches, ChangesFor(q.replacements, q.removals))
    requires Distinct(SourceKeys(patches)) && StorageShows(c, m) && i <= |patches|
    ensures |patches| == |q.replacements| + |q.removals|
    ensures
      Views(SlotsAfter(c, patches, i), Append(ArenasOf(c), own), Updated(m, FirstReplaced(q, i), FirstRemoved(q, i)))
  {
    hide WellFormed, Collected, Updated, ModelView, ViewOf, SlotsAfter, Append, Normalize, FirstReplaced, FirstRemoved,
      Views;
    CollectedMeans(c, own, patches, q);
    FirstChanges(q, i);
    var changes := ChangesFor(q.replacements, q.removals);
    var after := StorageOf(SlotsAfter(c, patches, i), Append(ArenasOf(c), own));
    AsStorage(SlotsAfter(c, patches, i), Append(ArenasOf(c), own));
    forall k | 0 <= k < i ensures StorageView(after, changes[k].source) == changes[k].slice {
      PrefixChanged(c, own, patches, changes, i, k);
    }
    forall source: nat | source !in ChangeKeys(changes[..i]) ensures StorageView(after, source) == StorageView(c, source) {
      PrefixUnchanged(c, statistics, own, patches, changes, i, source);
    }
    DistinctPrefix(c, own, patches, changes, i);
    ShowsAfterPublish(c, after, m, FirstReplaced(q, i), FirstRemoved(q, i));
    StorageViews(after, Updated(m, FirstReplaced(q, i), FirstRemoved(q, i)));
  }

  lemma {:induction false} AsStorage(sources: seq<State>, a: Arenas)
    ensures StorageOf(sources, a).sources.items == sources && ArenasOf(StorageOf(sources, a)) == a
    ensures forall source :: StorageView(StorageOf(sources, a), source) == ViewOf(sources, a, source)
  {}

  lemma {:induction false} StorageViews(s: Storage, m: Model)
    ensures StorageShows(s, m) <==> Views(s.sources.items, ArenasOf(s), m)
  {
    if Views(s.sources.items, ArenasOf(s), m) {
      forall source: nat ensures StorageView(s, source) == ModelView(m, source) {
        assert ViewOf(s.sources.items, ArenasOf(s), source) == ModelView(m, source);
      }
    }
    if StorageShows(s, m) {
      forall source: nat ensures ViewOf(s.sources.items, ArenasOf(s), source) == ModelView(m, source) {
        assert StorageView(s, source) == ModelView(m, source);
      }
    }
  }

  lemma {:induction false} PatchedElsewhere(patches: seq<SourcePatch>, changes: seq<Change>, a: Arenas, source: nat)
    requires StoresAll(patches, changes, a) && source !in ChangeKeys(changes)
    ensures forall k :: 0 <= k < |patches| ==> patches[k].source != source
  {
    forall k | 0 <= k < |patches| ensures patches[k].source != source {
      assert Stores(patches[k], changes[k], a);
      assert ChangeKeys(changes)[k] in ChangeKeys(changes);
    }
  }

  lemma {:induction false} DistinctPrefix(
      c: Storage, own: Arenas, patches: seq<SourcePatch>, changes: seq<Change>, i: nat)
    requires Collected(c, own, patches, changes) && Distinct(SourceKeys(patches)) && i <= |patches|
    ensures DistinctChanges(changes[..i])
  {
    hide Holds, Canonical;
    var all := Append(ArenasOf(c), own);
    forall j, k | 0 <= j < k < i ensures changes[j].source != changes[k].source {
      assert Stores(patches[j], changes[j], all) && Stores(patches[k], changes[k], all);
      assert SourceKeys(patches)[j] != SourceKeys(patches)[k];
    }
  }

  /** Removals cannot contradict anything, so only the replacements count. */
  lemma {:induction false} UpdatedAgrees(m: Model, q: Request, i: nat)
    requires i <= |q.replacements| + |q.removals|
    ensures Mergeable(m, q.replacements) ==> Agrees(Updated(m, FirstReplaced(q, i), FirstRemoved(q, i)))
    ensures i <= |q.replacements| ==> Updated(m, FirstReplaced(q, i), FirstRemoved(q, i)) == StoreAll(m, q.replacements[..i])
  {
    hide Agrees, StoreAll;
    if Mergeable(m, q.replacements) {
      var n := if i <= |q.replacements| then i else |q.replacements|;
      assert FirstReplaced(q, i) == q.replacements[..n];
      assert Agrees(StoreAll(m, q.replacements[..n]));
      PartAgreesToo(Updated(m, FirstReplaced(q, i), FirstRemoved(q, i)), StoreAll(m, q.replacements[..n]));
    }
  }

  /** No contradiction arises on the way exactly if the packets can be merged one by one. */
  lemma {:induction false} AgreesOnTheWay(
      c: Storage, statistics: Statistics, own: Arenas, patches: seq<SourcePatch>, q: Request, m: Model)
    requires WellFormed(c, statistics) && Collected(c, own, patches, ChangesFor(q.replacements, q.removals))
    requires Distinct(SourceKeys(patches)) && StorageShows(c, m)
    ensures
      (forall i :: 0 <= i <= |patches| ==> Agreeing(LiveAfter(c, own, patches, i))) <==> Mergeable(m, q.replacements)
  {
    hide WellFormed, Collected, StorageShows, Agrees, Agreeing, Views, Updated, StoreAll, Live, SlotsAfter, Touched;
    CollectedMeans(c, own, patches, q);
    forall i | 0 <= i <= |patches|
      ensures Agreeing(LiveAfter(c, own, patches, i)) <==> Agrees(Updated(m, FirstReplaced(q, i), FirstRemoved(q, i)))
    {
      PrefixShows(c, statistics, own, patches, q, i, m);
      LiveAgrees(SlotsAfter(c, patches, i), Append(ArenasOf(c), own), Updated(m, FirstReplaced(q, i), FirstRemoved(q, i)));
    }
    if Mergeable(m, q.replacements) {
      forall i | 0 <= i <= |patches| ensures Agreeing(LiveAfter(c, own, patches, i)) { UpdatedAgrees(m, q, i); }
    } else {
      var i :| 0 <= i <= |q.replacements| && !Agrees(StoreAll(m, q.replacements[..i]));
      UpdatedAgrees(m, q, i);
      assert !Agreeing(LiveAfter(c, own, patches, i));
    }
  }

  // ---------- One incremental build ----------

  /** The counting at the start of `prepare_incremental`, and the transaction's tables. */
  method ReserveFor(u: SparseUpdate, q: Request) returns (result: Status)
    requires u.Valid() && u.failure.Ok? && !u.prepared && !u.published
    requires u.changes == [] && u.constructionPatches == [] && u.candidate == EMPTY
    modifies u
    ensures u.Valid() && !u.prepared && !u.published
    ensures u.changes == [] && u.constructionPatches == [] && u.candidate == EMPTY
    ensures result.Ok? <==> 0 !in Touched(q) && Countable(u.owner.committed, q)
    ensures result == ReserveStatus(u.owner.committed, q)
    ensures result.Ok? ==>
      && u.failure.Ok? && |Touched(q)| <= MAX_SIZE / 2 && |u.sourceSlots| == PatchCapacity(|Touched(q)|)
      && |u.constructionSlots| == PatchCapacity(TouchedTypes(u.owner.committed, q.replacements, q.removals))
  {
    hide SparseUpdate.Valid, TouchedTypes, AnnouncedAll, WithinRoom, PatchCapacity, CountStatuses, UncountStatuses, First;
    ghost var s := u.owner.committed;
    u.KeysAreChanges();
    NoPatches(u.sourcePatches);
    TouchedGrows(s, q.replacements, q.removals, |q.replacements|, 0);
    assert q.replacements[..|q.replacements|] == q.replacements && q.removals[..0] == [];
    var counts, touched;
    result, counts, touched := CountReplacements(u.owner.committed, q.replacements);
    if !result.Ok? { return; }
    result, touched := CountRemovals(u.owner.committed, q.replacements, q.removals, touched);
    if !result.Ok? { return; }
    result := u.ReserveIncremental(|q.replacements| + |q.removals|, touched, counts);
  }

  lemma {:induction false} NoPatches(patches: seq<SourcePatch>)
    ensures ChangeKeys([]) == [] && (SourceKeys(patches) == [] ==> patches == [])
  {}

  /** The replacements and then the removals. */
  method Fill(u: SparseUpdate, q: Request) returns (result: Status)
    requires u.Valid() && u.failure.Ok? && !u.prepared && !u.published
    requires u.changes == [] && u.constructionPatches == [] && u.candidate == EMPTY
    requires |Touched(q)| <= MAX_SIZE / 2 && |u.sourceSlots| == PatchCapacity(|Touched(q)|)
    requires forall i :: 0 <= i < |q.removals| ==> q.removals[i] <= MAX_U32
    modifies u
    ensures u.Valid() && !u.prepared && !u.published
    ensures |u.constructionSlots| == old(|u.constructionSlots|) && u.constructionPatches == []
    ensures result.Ok? <==> Copyable(u.owner.committed, q)
    ensures result == FillStatus(u.owner.committed, q)
    ensures result.Ok? ==>
      && u.failure.Ok? && u.changes == ChangesFor(q.replacements, q.removals)
      && u.candidate == OwnArenas(u.base, q.replacements)
  {
    hide SparseUpdate.Valid, TakesReplacement, TakesRemoval, Copyable, PatchCapacity, ReplaceStatuses, RemoveStatuses,
      First;
    CapacitySuffices(|Touched(q)|);
    ghost var s := u.owner.committed;
    u.KeysAreChanges();
    if Copyable(s, q) { CopyableIsFillable(s, q); }
    if Fillable(u.base, q, |u.sourceSlots|) { FillableIsCopyable(s, q, |u.sourceSlots|); }
    result := FillReplacements(u, q.replacements);
    if !result.Ok? { return; }
    result := FillRemovals(u, q.replacements, q.removals);
  }

  /** What the transaction will leave is in the books of the graph builder. */
  ghost predicate Balanced(u: SparseUpdate, known: seq<nat>)
    reads u, u.owner
  {
    var c := u.owner.committed;
    && Booked(known, LedgerOf(u), Live(FinalSources(c, u.sourcePatches), c.types.items + u.candidate.types))
    && Registers(ConstructionKeys(u.constructionPatches), LastIndex(c.construction.items), |known|)
    && |known| <= |c.types.items| + |u.candidate.types| <= MAX_U32
  }

  /** The tables sized by `prepare_incremental` have room for everything the graph builder records. */
  lemma {:induction false} RoomForAggregates(u: SparseUpdate, q: Request, ids: seq<nat>)
    requires u.Valid() && u.failure.Ok? && !u.published
    requires u.changes == ChangesFor(q.replacements, q.removals) && u.candidate == OwnArenas(u.base, q.replacements)
    requires Countable(u.owner.committed, q) && Copyable(u.owner.committed, q) && InBooks(u.owner.committed, ids)
    requires |u.constructionSlots| == PatchCapacity(TouchedTypes(u.owner.committed, q.replacements, q.removals))
    ensures Roomy(u, ids)
  {
    hide WellFormed, Collected, PatchCapacity, TouchedTypes, Edits, Acceptable, AnnouncedAll, OwnArenas, Booked, Live,
      SparseUpdate.Valid, FirstReplaced, FirstRemoved, Touched, EndBefore, SparseFits;
    ghost var c, patches := u.owner.committed, u.sourcePatches;
    u.OpenMeans();
    u.KeysAreChanges();
    ValidReplacements(c, q);
    EditsAreTouched(c, u.owner.statistics, u.candidate, patches, q, |patches|);
    assert patches[..|patches|] == patches;
    AllReplaced(q);
    CapacitySuffices(TouchedTypes(c, q.replacements, q.removals));
    OwnTypes(u.base, q.replacements);
  }

  lemma {:induction false} ValidReplacements(s: Storage, q: Request)
    requires Copyable(s, q)
    ensures forall i :: 0 <= i < |q.replacements| ==> ValidFacts(q.replacements[i])
  {
    forall i | 0 <= i < |q.replacements| ensures ValidFacts(q.replacements[i]) {
      AcceptableMeans(q.replacements[i]);
    }
  }

  lemma {:induction false} AllReplaced(q: Request)
    ensures
      var n := |q.replacements| + |q.removals|;
      FirstReplaced(q, n) == q.replacements && FirstRemoved(q, n) == q.removals
  {
    assert q.replacements[..|q.replacements|] == q.replacements && q.removals[..|q.removals|] == q.removals;
  }

  /** Valid packets put in types with identities only. */
  lemma {:induction false} NewTypesNamed(c: Storage, own: Arenas, patches: seq<SourcePatch>, q: Request)
    requires Collected(c, own, patches, ChangesFor(q.replacements, q.removals)) && Copyable(c, q)
    ensures forall i :: 0 <= i < |patches| ==> Named(TypesAfter(c, own, patches[i]))
  {
    hide Collected, TypesOf, Touched, Target, ValidFacts, CheckedSpan, Acceptable, SparseFits;
    CollectedMeans(c, own, patches, q);
    ValidReplacements(c, q);
    forall i | 0 <= i < |patches| ensures Named(TypesAfter(c, own, patches[i])) {
      NewsCount(c, own, patches, ChangesFor(q.replacements, q.removals), i);
      ChangeAt(q, i);
      if i < |q.replacements| { TypesCounted(q.replacements[i]); }
    }
  }

  /** The graph builder's loop over the filled transaction: it succeeds exactly if the packets can
      be merged one after another, and leaves the books balanced. */
  method AggregateChanges(u: SparseUpdate, q: Request, ids: seq<nat>, ghost m: Model)
      returns (result: Status, known: seq<nat>)
    requires u.Valid() && u.failure.Ok? && !u.prepared && !u.published && u.constructionPatches == []
    requires u.changes == ChangesFor(q.replacements, q.removals) && u.candidate == OwnArenas(u.base, q.replacements)
    requires Countable(u.owner.committed, q) && Copyable(u.owner.committed, q)
    requires InBooks(u.owner.committed, ids) && StorageShows(u.owner.committed, m)
    requires |u.constructionSlots| == PatchCapacity(TouchedTypes(u.owner.committed, q.replacements, q.removals))
    modifies u`constructionPatches, u`constructionSlots, u`failure
    ensures u.Valid() && u.failure.Ok?
    ensures result == if Mergeable(m, q.replacements) then Ok else SemanticConflict
    ensures result.Ok? ==> known == KnownAll(ids, q.replacements) && Balanced(u, known)
  {
    hide SparseUpdate.Valid, WellFormed, Collected, Booked, Live, Countable, Copyable, Mergeable, OwnArenas, Agreeing,
      LiveAfter, ChangesFor, StorageShows, Registers, PatchCapacity, TouchedTypes, KnownAll, KnownAfter, FinalSources;
    ghost var c, own, patches := u.owner.committed, u.candidate, u.sourcePatches;
    RoomForAggregates(u, q, ids);
    u.OpenMeans();
    AgreesOnTheWay(c, u.owner.statistics, own, patches, q, m);
    KnownIsAll(ids, c, own, patches, q, |patches|);
    AllReplaced(q);
    NewTypesNamed(c, own, patches, q);
    LiveAtLast(c, own, patches);
    assert patches[..|patches|] == patches;
    result, known := Aggregate(u, ids);
    if result.Ok? {
      KnownBound(ids, c, own, patches, u.changes, |patches|);
    }
  }

  lemma {:induction false} PlaceMeans(
      s: Storage, baselineBacked: bool, ids: seq<nat>, q: Request, own: Arenas, constructionSize: nat)
    requires own == OwnArenas(SizesOf(ArenasOf(s)), q.replacements)
    requires constructionSize == |KnownAll(ids, q.replacements)| + 1
    ensures
      PlaceStatus(s, baselineBacked, ids, q)
      == if NewSourceSize(s, q) > MAX_U32 || constructionSize > MAX_U32 then NotAvailable
         else if !baselineBacked && !HasRoom(s, own, NewSourceSize(s, q), constructionSize) then RebuildRequired else Ok
    ensures Placeable(s, baselineBacked, ids, q) <==> PlaceStatus(s, baselineBacked, ids, q) == Ok
  {
    hide HasRoom, OwnArenas, KnownAll, NewSourceSize;
  }

  /** The end of `prepare_incremental`: the graph's outcome, then the preparation. */
  method Conclude(u: SparseUpdate, q: Request, ghost ids: seq<nat>, known: seq<nat>) returns (result: Status)
    requires u.Valid() && u.failure.Ok? && !u.prepared && !u.published && u.owner.complete
    requires u.changes == ChangesFor(q.replacements, q.removals) && u.candidate == OwnArenas(u.base, q.replacements)
    requires known == KnownAll(ids, q.replacements) && Balanced(u, known)
    modifies u`preparedStatistics, u`preparedSourceSize, u`preparedConstructionSize, u`prepared, u.owner`committed
    ensures u.Valid() && Balanced(u, known)
    ensures SameItems(u.owner.committed, old(u.owner.committed))
    ensures result.Ok? <==> q.rest.Ok? && Placeable(old(u.owner.committed), u.owner.baselineBacked, ids, q)
    ensures result == Then(q.rest, PlaceStatus(old(u.owner.committed), u.owner.baselineBacked, ids, q))
    ensures u.prepared <==> result.Ok?
    ensures result.Ok? ==> u.preparedConstructionSize == |known| + 1
    ensures !result.Ok? ==> u.owner.committed == old(u.owner.committed)
  {
    hide Indexes, WellFormed, Collected, HasRoom, ChangesFor, ConstructionKeys, SourceKeys, Booked, Live,
      OwnArenas, MaxSource, MaxHandle, LastIndex, ChangeKeys, Distinct, KnownAll, Registers, Totals,
      PlaceStatus, Placeable;
    SameStorage(u.owner.committed);
    if !q.rest.Ok? { return q.rest; }
    u.KeysAreChanges();
    KeysOfChanges(q.replacements, q.removals);
    MaxSourceIsHighest(u.sourcePatches, LastIndex(u.owner.committed.sources.items));
    MaxHandleIs(u.constructionPatches, LastIndex(u.owner.committed.construction.items), |known|);
    PlaceMeans(u.owner.committed, u.owner.baselineBacked, ids, q, u.candidate, |known| + 1);
    result := u.PreparePublish();
  }

  lemma {:induction false} SameStorage(s: Storage)
    ensures SameItems(s, s)
  {}

  lemma {:induction false} UpdateNeeds(s: Storage, q: Request)
    requires Copyable(s, q)
    ensures 0 !in Touched(q)
  {}

  /** `prepare_incremental`: opens a transaction, counts, sizes and fills it, lets the graph builder
      bring the aggregates up to date and prepares publication. The committed view is untouched. */
  method PrepareIncremental(c: Cache, q: Request, ids: seq<nat>, hash: nat -> nat, ghost m: Model)
      returns (result: Status, u: SparseUpdate, known: seq<nat>)
    requires c.Valid() && InBooks(c.committed, ids) && StorageShows(c.committed, m)
    requires forall i :: 0 <= i < |q.removals| ==> q.removals[i] <= MAX_U32
    modifies c`committed
    ensures u.Valid() && fresh(u) && u.owner == c && c.Valid() && !u.published
    ensures SameItems(c.committed, old(c.committed))
    ensures result.Ok? <==> UpdateSucceeds(old(c.committed), c.complete, c.baselineBacked, ids, m, q)
    ensures result == UpdateStatus(old(c.committed), c.complete, c.baselineBacked, ids, m, q)
    ensures result.Ok? ==> u.prepared && u.changes == ChangesFor(q.replacements, q.removals)
    ensures result.Ok? ==>
      known == KnownAll(ids, q.replacements) && Balanced(u, known) && u.preparedConstructionSize == |known| + 1
    ensures !result.Ok? ==> !u.prepared && c.committed == old(c.committed)
  {
    hide WellFormed, Collected, Indexes, SparseUpdate.ReadyToPublish, Copyable, Countable, PatchCapacity, Placeable,
      Mergeable, ConstructionKeys, SourceKeys, SameItems, OwnArenas, ChangesFor, Touched, TouchedTypes, InBooks,
      StorageShows, Balanced, KnownAll, ReserveStatus, FillStatus, PlaceStatus;
    known := ids;
    u := new SparseUpdate(c, hash);
    SameStorage(c.committed);
    if !c.complete { return InvalidArgument, u, known; }
    ghost var s := c.committed;
    if Copyable(s, q) { UpdateNeeds(s, q); }
    result := ReserveFor(u, q);
    if !result.Ok? { return; }
    result := Fill(u, q);
    if !result.Ok? { return; }
    result, known := AggregateChanges(u, q, ids, m);
    if !result.Ok? { return; }
    result := Conclude(u, q, ids, known);
  }

  lemma {:induction false} BalanceMeans(u: SparseUpdate, known: seq<nat>)
    requires Balanced(u, known)
    ensures
      var c := u.owner.committed;
      && Booked(known, LedgerOf(u), Live(FinalSources(c, u.sourcePatches), c.types.items + u.candidate.types))
      && |known| <= |c.types.items| + |u.candidate.types| <= MAX_U32
  {}

  lemma {:induction false} NowInBooks(s: Storage, ids: seq<nat>)
    requires Booked(ids, Ledger(s.construction.items, []), Live(s.sources.items, s.types.items))
    requires |s.construction.items| == |ids| + 1 && |ids| <= |s.types.items| <= MAX_U32
    ensures InBooks(s, ids)
  {}

  /** Publication of the cache and of the graph's handles. */
  method Publish(u: SparseUpdate, g: Graph, known: seq<nat>, ghost changes: seq<Change>)
    requires u.Valid() && u.prepared && !u.published && u.changes == changes
    requires Balanced(u, known) && u.preparedConstructionSize == |known| + 1
    modifies u`published, u.owner, g
    ensures u.owner.Valid() && u.owner.complete && g.identities == known && InBooks(u.owner.committed, known)
    ensures forall i :: 0 <= i < |changes| ==> u.owner.ViewAt(changes[i].source) == changes[i].slice
    ensures forall source :: source !in ChangeKeys(changes) ==> u.owner.ViewAt(source) == old(u.owner.ViewAt(source))
    ensures Distinct(ChangeKeys(changes))
  {
    hide WellFormed, StorageView, Indexes, Collected, SameCapacities, Distinct, Booked, Live, Balanced, InBooks,
      PatchValue, AfterConstruction, FinalSources, ConstructionAt, SparseUpdate.ReadyToPublish;
    ghost var c, own, patches := u.owner.committed, u.candidate, u.constructionPatches;
    BalanceMeans(u, known);
    u.PublishPrepared();
    PublishedBooks(known, c.construction.items, patches, u.owner.committed.construction.items,
      Live(u.owner.committed.sources.items, u.owner.committed.types.items));
    NowInBooks(u.owner.committed, known);
    g.identities := known;
  }

  /** A whole incremental build. It succeeds exactly if every packet can be taken and merged; then
      the cache shows the model with the changes applied and the slots are the aggregates of what
      it shows, and otherwise everything is as it was. */
  method UpdateIncrementally(c: Cache, g: Graph, q: Request, hash: nat -> nat, ghost m: Model) returns (result: Status)
    requires c.Valid() && InBooks(c.committed, g.identities) && Shows(c, m)
    requires forall i :: 0 <= i < |q.removals| ==> q.removals[i] <= MAX_U32
    modifies c, g
    ensures c.Valid() && InBooks(c.committed, g.identities)
    ensures result.Ok? <==> UpdateSucceeds(old(c.committed), old(c.complete), c.baselineBacked, old(g.identities), m, q)
    ensures result == UpdateStatus(old(c.committed), old(c.complete), c.baselineBacked, old(g.identities), m, q)
    ensures Shows(c, if result.Ok? then Updated(m, q.replacements, q.removals) else m)
    ensures result.Ok? ==> c.complete && g.identities == KnownAll(old(g.identities), q.replacements)
    ensures !result.Ok? ==> unchanged(c) && unchanged(g)
  {
    hide WellFormed, Updated, ModelView, StorageView, Indexes, Collected, SameItems, SameCapacities, Distinct,
      UpdateSucceeds, UpdateStatus, InBooks, Balanced, KnownAll, SparseUpdate.ReadyToPublish;
    ghost var before := c.committed;
    ShowsStorage(c, m);
    var u, known;
    result, u, known := PrepareIncremental(c, q, g.identities, hash, m);
    SameView(c.committed, before);
    if !result.Ok? { return; }
    Publish(u, g, known, u.changes);
    DistinctKeys(u.changes);
    ShowsAfterPublish(before, c.committed, m, q.replacements, q.removals);
  }

  lemma {:induction false} ShowsStorage(c: Cache, m: Model)
    ensures Shows(c, m) <==> StorageShows(c.committed, m)
  {
    if Shows(c, m) {
      forall source: nat ensures StorageView(c.committed, source) == ModelView(m, source) {
        assert c.ViewAt(source) == ModelView(m, source);
      }
    }
    if StorageShows(c.committed, m) {
      forall source: nat ensures c.ViewAt(source) == ModelView(m, source) {
        assert StorageView(c.committed, source) == ModelView(m, source);
      }
    }
  }

  // ---------- One full build ----------

  predicate TakesCapture(all: seq<Facts>, i: nat)
    requires i < |all|
  {
    Acceptable(all[i]) && all[i].source !in SourcesOf(all[..i]) && RebuildFits(all[i], EndBefore(NO_SIZES, all, i))
  }

  lemma {:induction false} StoredSources(all: seq<Facts>, source: nat)
    ensures source in StoreAll(map[], all) <==> source in SourcesOf(all)
  {
    if all != [] {
      var front, last := all[..|all| - 1], all[|all| - 1];
      StoredSources(front, source);
      assert SourcesOf(all) == SourcesOf(front) + [last.source];
    }
  }

  lemma {:induction false} CapturesAll(all: seq<Facts>)
    ensures (forall i :: 0 <= i < |all| ==> TakesCapture(all, i)) <==> Capturable(all)
  {
    hide Acceptable, RebuildFits, EndBefore;
    var keys := SourcesOf(all);
    forall i | 0 <= i < |all| ensures SourcesOf(all[..i]) == keys[..i] {}
    if forall i :: 0 <= i < |all| ==> TakesCapture(all, i) {
      forall i, j | 0 <= i < j < |all| ensures keys[i] != keys[j] {
        assert TakesCapture(all, j) && keys[..j][i] == keys[i];
      }
      forall i | 0 <= i < |all| ensures Acceptable(all[i]) && RebuildFits(all[i], EndBefore(NO_SIZES, all, i)) {
        assert TakesCapture(all, i);
      }
    }
  }

  method CaptureNext(u: RebuildUpdate, all: seq<Facts>, i: nat) returns (result: Status)
    requires u.Valid() && u.failure.Ok? && !u.prepared && !u.published && i < |all|
    requires u.facts == StoreAll(map[], all[..i]) && ArenasOf(u.candidate) == OwnArenas(NO_SIZES, all[..i])
    modifies u
    ensures u.Valid() && !u.prepared && !u.published
    ensures result.Ok? <==> TakesCapture(all, i)
    ensures result == CaptureStatus(all, i)
    ensures
      result.Ok? ==>
        && u.failure.Ok? && u.facts == StoreAll(map[], all[..i + 1])
        && ArenasOf(u.candidate) == OwnArenas(NO_SIZES, all[..i + 1])
  {
    hide RebuildUpdate.Valid, ValidFacts, HasBases, Acceptable, RebuildFits, Copied, Normalize, ArenasOf, SizesOf,
      SourcesOf, OwnArenas, StoreAll, TakesCapture, CaptureStatus;
    var f := all[i];
    AcceptableMeans(f);
    CaptureMeans(all, i);
    result := u.Replace(f);
  }

  lemma {:induction false} CaptureMeans(all: seq<Facts>, i: nat)
    requires i < |all|
    ensures
      var a := OwnArenas(NO_SIZES, all[..i]);
      && (TakesCapture(all, i) <==>
          Acceptable(all[i]) && all[i].source !in StoreAll(map[], all[..i]) && RebuildFits(all[i], SizesOf(a)))
      && CaptureStatus(all, i)
         == (if !ValidFacts(all[i]) then InvalidArgument
             else if HasBases(all[i]) then NotAvailable
             else if all[i].source in StoreAll(map[], all[..i]) then InvalidArgument
             else if !RebuildFits(all[i], SizesOf(a)) then NotAvailable else Ok)
      && OwnArenas(NO_SIZES, all[..i + 1]) == Copied(a, all[i], SizesOf(a))
    ensures StoreAll(map[], all[..i + 1]) == StoreAll(map[], all[..i])[all[i].source := all[i]]
  {
    hide Acceptable, RebuildFits, Copied, SizesOf, ValidFacts, HasBases;
    StoredSources(all[..i], all[i].source);
    assert all[..i + 1][..i] == all[..i];
  }

  /** The capturing loop of `prepare_g0`. */
  method CaptureEverything(u: RebuildUpdate, all: seq<Facts>) returns (result: Status)
    requires u.Valid() && u.failure.Ok? && !u.prepared && !u.published
    requires u.facts == map[] && ArenasOf(u.candidate) == EMPTY
    modifies u
    ensures u.Valid() && !u.prepared && !u.published
    ensures result.Ok? <==> Capturable(all)
    ensures result == First(CaptureStatuses(all))
    ensures result.Ok? ==>
      u.failure.Ok? && u.facts == StoreAll(map[], all) && ArenasOf(u.candidate) == OwnArenas(NO_SIZES, all)
  {
    hide RebuildUpdate.Valid, TakesCapture, ArenasOf, Copied, SizesOf, Plus, Capturable, CaptureStatus, First;
    CapturesAll(all);
    result := Ok;
    ghost var statuses := CaptureStatuses(all);
    assert all[..0] == [];
    for i := 0 to |all|
      invariant u.Valid() && u.failure.Ok? && !u.prepared && !u.published
      invariant u.facts == StoreAll(map[], all[..i]) && ArenasOf(u.candidate) == OwnArenas(NO_SIZES, all[..i])
      invariant forall k :: 0 <= k < i ==> TakesCapture(all, k) && statuses[k] == Ok
    {
      result := CaptureNext(u, all, i);
      if !result.Ok? {
        FirstAt(statuses, i);
        return;
      }
    }
    assert all[..|all|] == all;
    result := Ok;
  }

  /** The counting of `prepare_g0`. A count that overflows 64 bits is refused with the same status
      as one that overflows 32, by the check that follows. */
  method CountAll(all: seq<Facts>) returns (maxSource: nat, counts: Sizes)
    ensures maxSource == Highest(SourcesOf(all), 0) && counts == AnnouncedAll(all)
  {
    hide AnnouncedAll, Announced, Plus;
    maxSource, counts := 0, NO_SIZES;
    NothingAnnounced(Storage(Vector([], 0), Vector([], 0), Vector([], 0), Vector([], 0), Vector([], 0),
                             Vector([], 0), Vector([], 0), Vector([], 0), NO_STATISTICS), all);
    for i := 0 to |all|
      invariant maxSource == Highest(SourcesOf(all)[..i], 0) && counts == AnnouncedAll(all[..i])
    {
      AnnouncedStep(all, i);
      assert SourcesOf(all)[..i + 1][..i] == SourcesOf(all)[..i];
      if maxSource < all[i].source { maxSource := all[i].source; }
      counts := Plus(counts, Announced(all[i]));
    }
    assert all[..|all|] == all && SourcesOf(all)[..|all|] == SourcesOf(all);
  }

  lemma {:induction false} CandidateShows(u: RebuildUpdate)
    requires u.Valid() && u.failure.Ok? && !u.published
    ensures
      var s := u.candidate;
      && Views(s.sources.items, ArenasOf(s), u.facts) && Housed(s.sources.items)
      && SourcesInBounds(s.sources.items, SizesOf(ArenasOf(s)))
      && Totals(s.sources.items).counts.types == |s.types.items|
  {
    hide Captures, Normalize, ViewOf, InBounds;
    u.CandidateMeans();
    forall source: nat ensures StorageView(u.candidate, source) == ModelView(u.facts, source) {}
    StorageViews(u.candidate, u.facts);
  }

  /** What the builder does with the candidate first: counts all its declarations. */
  method CountCaptured(u: RebuildUpdate, all: seq<Facts>) returns (result: Status, known: seq<nat>)
    requires u.Valid() && u.failure.Ok? && !u.prepared && !u.published
    requires u.facts == StoreAll(map[], all) && ArenasOf(u.candidate) == OwnArenas(NO_SIZES, all)
    requires AnnouncedAll(all).types < MAX_U32 && Capturable(all)
    modifies u`candidate
    ensures u.Valid() && u.failure.Ok? && !u.prepared && !u.published && u.facts == StoreAll(map[], all)
    ensures result == if Agrees(StoreAll(map[], all)) then Ok else SemanticConflict
    ensures result.Ok? ==> InBooks(u.candidate, known)
  {
    hide RebuildUpdate.Valid, Views, Housed, SourcesInBounds, Totals, OwnArenas, Booked, Live, Agrees, Agreeing,
      StoreAll, ValidFacts, HasBases, AnnouncedAll;
    CandidateShows(u);
    LiveAgrees(u.candidate.sources.items, ArenasOf(u.candidate), u.facts);
    forall i | 0 <= i < |all| ensures ValidFacts(all[i]) { AcceptableMeans(all[i]); }
    OwnTypes(NO_SIZES, all);
    OwnTypesNamed(NO_SIZES, all);
    var table;
    result, known, table :=
      AggregateAll(u.candidate.sources.items, u.candidate.types.items, SizesOf(ArenasOf(u.candidate)));
    if !result.Ok? { return; }
    u.InstallConstruction(table);
  }

  /** The counting of `prepare_g0` and the candidate's tables. */
  method ReserveAll(u: RebuildUpdate, all: seq<Facts>) returns (result: Status)
    requires u.Valid() && u.failure.Ok? && !u.prepared && !u.published && u.facts == map[]
    requires u.candidate.sources.items == [] && u.replaced == [] && ArenasOf(u.candidate) == EMPTY
    modifies u
    ensures u.Valid() && !u.prepared && !u.published && u.facts == map[] && ArenasOf(u.candidate) == EMPTY
    ensures
      result == if CountsBelowLimit(Highest(SourcesOf(all), 0), AnnouncedAll(all)) then Ok else NotAvailable
    ensures result.Ok? ==> u.failure.Ok?
  {
    hide RebuildUpdate.Valid, CountsBelowLimit, ArenasOf, AnnouncedAll, Highest, Headroom, SourcesOf;
    var maxSource, counts := CountAll(all);
    result := u.ReserveRebuild(maxSource, counts);
  }

  /** `prepare_g0` up to the aggregates: captures every source into the detached candidate and counts
      all declarations. */
  method CaptureAll(u: RebuildUpdate, all: seq<Facts>) returns (result: Status, known: seq<nat>)
    requires u.Valid() && u.failure.Ok? && !u.prepared && !u.published && u.facts == map[]
    requires u.candidate.sources.items == [] && u.replaced == [] && ArenasOf(u.candidate) == EMPTY
    modifies u
    ensures u.Valid() && !u.prepared && !u.published
    ensures result.Ok? <==> RebuildSucceeds(all, Ok)
    ensures result == RebuildStatus(all, Ok)
    ensures result.Ok? ==> u.failure.Ok? && u.facts == StoreAll(map[], all) && InBooks(u.candidate, known)
  {
    hide RebuildUpdate.Valid, Capturable, CountsBelowLimit, ArenasOf, StoreAll, OwnArenas, AnnouncedAll, Highest,
      InBooks, Agrees, CaptureStatuses, First;
    known := [];
    BelowLimit(Highest(SourcesOf(all), 0), AnnouncedAll(all));
    result := ReserveAll(u, all);
    if !result.Ok? { return; }
    result := CaptureEverything(u, all);
    if !result.Ok? { return; }
    result, known := CountCaptured(u, all);
  }

  lemma {:induction false} BelowLimit(maxSource: nat, counts: Sizes)
    ensures CountsBelowLimit(maxSource, counts) ==> counts.types < MAX_U32
  {}

  /** `prepare_g0` and its publication: captures and counts, lets the graph builder do the rest and
      swaps the candidate in. */
  method RebuildAll(c: Cache, g: Graph, all: seq<Facts>, rest: Status) returns (result: Status)
    requires c.Valid()
    modifies c, g
    ensures c.Valid()
    ensures result.Ok? <==> RebuildSucceeds(all, rest)
    ensures result == RebuildStatus(all, rest)
    ensures result.Ok? ==> c.complete && Shows(c, StoreAll(map[], all)) && InBooks(c.committed, g.identities)
    ensures !result.Ok? ==> unchanged(c) && unchanged(g)
  {
    hide WellFormed, Captures, Normalize, ViewOf, CountsBelowLimit, Capturable, StoreAll, AnnouncedAll, Highest,
      InBooks, Agrees, CaptureStatuses, First;
    var u := new RebuildUpdate(c);
    var known;
    result, known := CaptureAll(u, all);
    if !result.Ok? { return; }
    if !rest.Ok? { return rest; }
    result := u.PreparePublish();
    if !result.Ok? { return; }
    u.PublishPrepared();
    g.identities := known;
  }
}
