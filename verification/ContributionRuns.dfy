/** Whole runs of the contribution cache: which packets an update hands to the builder, that
    leaving the others out is invisible, what every run of updates and rebuilds shows, and that the
    aggregates it leaves are those of what it shows. */
module ContributionRuns {
  import opened Wrappers
  import opened ContributionArenas
  import opened SourceFacts
  import opened ContributionStorage
  import opened ContributionPatches
  import opened ContributionCache
  import opened ContributionRebuild
  import opened ContributionSparse
  import opened ContributionSparseUpdate
  import opened ContributionModel
  import opened ContributionBuilds
  import opened PatchIndex
  import opened ConstructionAggregate
  import opened ConstructionLedger
  import opened LiveDeclarations
  import opened GraphAggregates

  // ---------- Skipping equivalent sources ----------

  /** What the frontend reports about one dirty source: removed, or parsed anew. */
  datatype Entry = Entry(source: nat, removed: bool, parsed: Option<Facts>)

  /** The parsed packet belongs to its source and its ranges are unsigned words. */
  predicate WellReported(e: Entry) {
    0 < e.source <= MAX_U32 && (e.parsed.Some? ==> e.parsed.value.source == e.source && UnsignedFacts(e.parsed.value))
  }

  predicate Reported(entries: seq<Entry>) {
    && (forall i :: 0 <= i < |entries| ==> WellReported(entries[i]))
    && (forall i, j :: 0 <= i < j < |entries| ==> entries[i].source != entries[j].source)
  }

  predicate Parsed(entries: seq<Entry>) {
    forall i :: 0 <= i < |entries| && !entries[i].removed ==> entries[i].parsed.Some?
  }

  /** The cache already shows exactly what this packet says. */
  predicate Shown(m: Model, f: Facts) { RefsInRange(f) && ModelView(m, f.source) == Some(Normalize(f)) }

  /** The packets the cache does not show. */
  function Needed(m: Model, entries: seq<Entry>): seq<Facts> {
    if entries == [] then []
    else
      var e := entries[|entries| - 1];
      Needed(m, entries[..|entries| - 1])
      + if !e.removed && e.parsed.Some? && !Shown(m, e.parsed.value) then [e.parsed.value] else []
  }

  /** The packets it does show. */
  function Skipped(m: Model, entries: seq<Entry>): seq<Facts> {
    if entries == [] then []
    else
      var e := entries[|entries| - 1];
      Skipped(m, entries[..|entries| - 1])
      + if !e.removed && e.parsed.Some? && Shown(m, e.parsed.value) then [e.parsed.value] else []
  }

  /** The removed sources it still shows. */
  function Vanished(m: Model, entries: seq<Entry>): seq<nat> {
    if entries == [] then []
    else
      var e := entries[|entries| - 1];
      Vanished(m, entries[..|entries| - 1]) + if e.removed && e.source in m then [e.source] else []
  }

  /** Inputs that account for every entry: each packet is replaced unless the model shows it
      already, each removal is removed unless the model lacks it, and nothing else is done. What
      is shown may be replaced all the same. */
  ghost predicate AccountsFor(m: Model, entries: seq<Entry>, replacements: seq<Facts>, removals: seq<nat>) {
    && (forall k :: 0 <= k < |entries| ==> EntryHandled(m, entries[k], replacements, removals))
    && (forall i :: 0 <= i < |replacements| ==> FromEntry(entries, replacements[i]))
    && (forall i :: 0 <= i < |removals| ==> FromRemoval(entries, removals[i]))
  }

  ghost predicate EntryHandled(m: Model, e: Entry, replacements: seq<Facts>, removals: seq<nat>) {
    if e.removed then e.source in removals || ModelView(m, e.source) == None
    else e.parsed.Some? &&
         (e.parsed.value in replacements || ModelView(m, e.source) == Some(Normalize(e.parsed.value)))
  }

  ghost predicate FromEntry(entries: seq<Entry>, f: Facts) {
    exists k :: 0 <= k < |entries| && !entries[k].removed && entries[k].parsed == Some(f)
  }

  ghost predicate FromRemoval(entries: seq<Entry>, source: nat) {
    exists k :: 0 <= k < |entries| && entries[k].removed && entries[k].source == source
  }

  lemma {:induction false} FromFront(entries: seq<Entry>, f: Facts)
    requires entries != []
    ensures
      var e := entries[|entries| - 1];
      FromEntry(entries, f) <==> FromEntry(entries[..|entries| - 1], f) || (!e.removed && e.parsed == Some(f))
  {
    var front := entries[..|entries| - 1];
    if FromEntry(front, f) {
      var k :| 0 <= k < |front| && !front[k].removed && front[k].parsed == Some(f);
      assert entries[k] == front[k];
    }
    if FromEntry(entries, f) {
      var k :| 0 <= k < |entries| && !entries[k].removed && entries[k].parsed == Some(f);
      if k < |front| { assert front[k] == entries[k]; }
    }
  }

  lemma {:induction false} RemovedFront(entries: seq<Entry>, source: nat)
    requires entries != []
    ensures
      var e := entries[|entries| - 1];
      FromRemoval(entries, source) <==> FromRemoval(entries[..|entries| - 1], source) || (e.removed && e.source == source)
  {
    var front := entries[..|entries| - 1];
    if FromRemoval(front, source) {
      var k :| 0 <= k < |front| && front[k].removed && front[k].source == source;
      assert entries[k] == front[k];
    }
    if FromRemoval(entries, source) {
      var k :| 0 <= k < |entries| && entries[k].removed && entries[k].source == source;
      if k < |front| { assert front[k] == entries[k]; }
    }
  }

  /** A packet is handed on exactly if it was reported and the cache does not show it, and left
      out exactly if it was reported and the cache does. */
  lemma {:induction false} NeededExactly(m: Model, entries: seq<Entry>, f: Facts)
    ensures f in Needed(m, entries) <==> FromEntry(entries, f) && !Shown(m, f)
    ensures f in Skipped(m, entries) <==> FromEntry(entries, f) && Shown(m, f)
  {
    hide FromEntry, Shown;
    if entries == [] {
      NothingReported(f, 0);
    } else {
      FromFront(entries, f);
      NeededExactly(m, entries[..|entries| - 1], f);
    }
  }

  lemma {:induction false} VanishedExactly(m: Model, entries: seq<Entry>, source: nat)
    ensures source in Vanished(m, entries) <==> FromRemoval(entries, source) && source in m
  {
    hide FromRemoval;
    if entries == [] {
      NothingReported(Facts(0, [], [], [], [], [], [], [], []), source);
    } else {
      RemovedFront(entries, source);
      VanishedExactly(m, entries[..|entries| - 1], source);
    }
  }

  lemma {:induction false} NothingReported(f: Facts, source: nat)
    ensures !FromEntry([], f) && !FromRemoval([], source)
  {}

  lemma {:induction false} NeededAccounts(m: Model, entries: seq<Entry>)
    requires Reported(entries) && Parsed(entries)
    ensures AccountsFor(m, entries, Needed(m, entries), Vanished(m, entries))
  {
    hide Needed, Vanished, Normalize;
    var replacements, removals := Needed(m, entries), Vanished(m, entries);
    forall k | 0 <= k < |entries| ensures EntryHandled(m, entries[k], replacements, removals) {
      var e := entries[k];
      assert WellReported(e);
      if e.removed {
        assert FromRemoval(entries, e.source);
        VanishedExactly(m, entries, e.source);
      } else {
        assert FromEntry(entries, e.parsed.value);
        NeededExactly(m, entries, e.parsed.value);
      }
    }
    forall i | 0 <= i < |replacements| ensures FromEntry(entries, replacements[i]) {
      NeededExactly(m, entries, replacements[i]);
    }
    forall i | 0 <= i < |removals| ensures FromRemoval(entries, removals[i]) {
      VanishedExactly(m, entries, removals[i]);
    }
  }

  /** What is handed on never touches a source twice. */
  lemma {:induction false} NeededDistinct(m: Model, entries: seq<Entry>)
    requires Reported(entries)
    ensures
      var touched := SourcesOf(Needed(m, entries)) + Vanished(m, entries);
      Distinct(touched) && 0 !in touched
  {
    hide Shown;
    if entries != [] {
      var front, e := entries[..|entries| - 1], entries[|entries| - 1];
      NeededDistinct(m, front);
      var r, d := Needed(m, front), Vanished(m, front);
      NotReported(m, front, e.source);
      assert WellReported(e);
      if !e.removed && e.parsed.Some? && !Shown(m, e.parsed.value) {
        assert SourcesOf(r + [e.parsed.value]) == SourcesOf(r) + [e.source];
        InsertDistinct(SourcesOf(r), d, e.source);
        assert Vanished(m, entries) == d;
      } else if e.removed && e.source in m {
        assert SourcesOf(r) + (d + [e.source]) == (SourcesOf(r) + d) + [e.source];
        assert Needed(m, entries) == r;
      } else {
        assert Needed(m, entries) == r && Vanished(m, entries) == d;
      }
    }
  }

  lemma {:induction false} NotReported(m: Model, entries: seq<Entry>, source: nat)
    requires forall k :: 0 <= k < |entries| ==> entries[k].source != source && WellReported(entries[k])
    ensures source !in SourcesOf(Needed(m, entries)) && source !in Vanished(m, entries)
  {
    hide Shown, UnsignedFacts;
    if entries != [] {
      var front, e := entries[..|entries| - 1], entries[|entries| - 1];
      NotReported(m, front, source);
      assert WellReported(e);
      if !e.removed && e.parsed.Some? && !Shown(m, e.parsed.value) {
        assert SourcesOf(Needed(m, entries)) == SourcesOf(Needed(m, front)) + [e.source];
      }
    }
  }

  lemma {:induction false} InsertDistinct(a: seq<nat>, b: seq<nat>, key: nat)
    requires Distinct(a + b) && key !in a && key !in b
    ensures Distinct(a + [key] + b)
  {
    var s, t := a + b, a + [key] + b;
    forall i, j | 0 <= i < j < |t| ensures t[i] != t[j] {
      if i != |a| && j != |a| {
        var k, l := if i < |a| then i else i - 1, if j < |a| then j else j - 1;
        assert s[k] == t[i] && s[l] == t[j];
      } else if i == |a| {
        assert t[j] == b[j - |a| - 1];
      }
    }
  }

  /** `collect_builder_inputs`: hands on exactly what the cache does not show yet. */
  method CollectBuilderInputs(entries: seq<Entry>, c: Cache, ghost m: Model)
      returns (result: Status, replacements: seq<Facts>, removals: seq<nat>)
    requires c.Valid() && Shows(c, m) && Reported(entries)
    ensures result == if Parsed(entries) then Ok else InvalidArgument
    ensures result.Ok? ==> replacements == Needed(m, entries) && removals == Vanished(m, entries)
    ensures result.Ok? ==> forall i :: 0 <= i < |removals| ==> removals[i] <= MAX_U32
  {
    hide WellFormed, Normalize, UnsignedFacts, StorageView, RefsInRange;
    replacements, removals := [], [];
    for k := 0 to |entries|
      invariant Parsed(entries[..k])
      invariant replacements == Needed(m, entries[..k]) && removals == Vanished(m, entries[..k])
      invariant forall i :: 0 <= i < |removals| ==> removals[i] <= MAX_U32
    {
      var e := entries[k];
      assert WellReported(e);
      assert c.ViewAt(e.source) == ModelView(m, e.source);
      assert entries[..k + 1][..k] == entries[..k];
      if e.removed {
        var present := Lookup(c.committed.sources.items, e.source);
        LookupIsView(c.committed, e.source);
        if present.Some? { removals := removals + [e.source]; }
      } else {
        if e.parsed.None? {
          assert !Parsed(entries);
          return InvalidArgument, replacements, removals;
        }
        var same := c.Equivalent(e.parsed.value);
        if !same { replacements := replacements + [e.parsed.value]; }
      }
    }
    assert entries[..|entries|] == entries;
    result := Ok;
  }

  lemma {:induction false} LookupIsView(s: Storage, source: nat)
    ensures Lookup(s.sources.items, source).Some? == StorageView(s, source).Some?
  {
  }

  /** What the cache should show after all entries were taken over. */
  function AfterEntries(m: Model, entries: seq<Entry>, source: nat): Option<Arenas> {
    if entries == [] then ModelView(m, source)
    else
      var e := entries[|entries| - 1];
      if e.source != source then AfterEntries(m, entries[..|entries| - 1], source)
      else if e.removed || e.parsed.None? then None
      else Some(Normalize(e.parsed.value))
  }

  lemma {:induction false} AfterEntriesAt(m: Model, entries: seq<Entry>, k: nat)
    requires Reported(entries) && k < |entries|
    ensures AfterEntries(m, entries, entries[k].source) ==
      if entries[k].removed || entries[k].parsed.None? then None else Some(Normalize(entries[k].parsed.value))
  {
    var front := entries[..|entries| - 1];
    if k < |front| {
      AfterEntriesAt(m, front, k);
    }
  }

  lemma {:induction false} AfterEntriesElsewhere(m: Model, entries: seq<Entry>, source: nat)
    requires forall k :: 0 <= k < |entries| ==> entries[k].source != source
    ensures AfterEntries(m, entries, source) == ModelView(m, source)
  {
    if entries != [] {
      AfterEntriesElsewhere(m, entries[..|entries| - 1], source);
    }
  }

  lemma {:induction false} StoreAllOnly(m: Model, facts: seq<Facts>, f: Facts)
    requires f in facts && forall i :: 0 <= i < |facts| && facts[i].source == f.source ==> facts[i] == f
    ensures f.source in StoreAll(m, facts) && StoreAll(m, facts)[f.source] == f
  {
    var front := facts[..|facts| - 1];
    if facts[|facts| - 1] != f {
      assert f in front;
      StoreAllOnly(m, front, f);
    }
  }

  /** The packet of an entry is the only replacement for its source. */
  lemma {:induction false} OnlyReplacement(
      m: Model, entries: seq<Entry>, replacements: seq<Facts>, removals: seq<nat>, k: nat)
    requires Reported(entries) && AccountsFor(m, entries, replacements, removals) && k < |entries| && !entries[k].removed
    ensures forall i :: 0 <= i < |replacements| && replacements[i].source == entries[k].source ==>
      entries[k].parsed == Some(replacements[i])
    ensures entries[k].source !in removals
  {
    forall i | 0 <= i < |replacements| && replacements[i].source == entries[k].source
      ensures entries[k].parsed == Some(replacements[i])
    {
      assert FromEntry(entries, replacements[i]);
      var j :| 0 <= j < |entries| && !entries[j].removed && entries[j].parsed == Some(replacements[i]);
      assert WellReported(entries[j]);
    }
    forall i | 0 <= i < |removals| ensures removals[i] != entries[k].source {
      assert FromRemoval(entries, removals[i]);
    }
  }

  lemma {:induction false} NoReplacement(
      m: Model, entries: seq<Entry>, replacements: seq<Facts>, removals: seq<nat>, source: nat)
    requires Reported(entries) && AccountsFor(m, entries, replacements, removals)
    requires forall k :: 0 <= k < |entries| && !entries[k].removed ==> entries[k].source != source
    ensures forall i :: 0 <= i < |replacements| ==> replacements[i].source != source
  {
    forall i | 0 <= i < |replacements| ensures replacements[i].source != source {
      assert FromEntry(entries, replacements[i]);
      var j :| 0 <= j < |entries| && !entries[j].removed && entries[j].parsed == Some(replacements[i]);
      assert WellReported(entries[j]);
    }
  }

  lemma {:induction false} AccountedEntry(
      m: Model, entries: seq<Entry>, replacements: seq<Facts>, removals: seq<nat>, k: nat)
    requires Reported(entries) && AccountsFor(m, entries, replacements, removals) && k < |entries|
    ensures ModelView(Updated(m, replacements, removals), entries[k].source) == AfterEntries(m, entries, entries[k].source)
  {
    var e := entries[k];
    AfterEntriesAt(m, entries, k);
    assert EntryHandled(m, e, replacements, removals) && WellReported(e);
    if e.removed {
      NoReplacement(m, entries, replacements, removals, e.source);
      StoreAllElsewhere(m, replacements, e.source);
    } else {
      OnlyReplacement(m, entries, replacements, removals, k);
      if e.parsed.value in replacements {
        StoreAllOnly(m, replacements, e.parsed.value);
      } else {
        StoreAllElsewhere(m, replacements, e.source);
      }
    }
  }

  /** Whatever was skipped, the update shows every entry's packet, drops every removed source
      and leaves the rest alone. */
  lemma {:induction false} SkippingIsInvisible(
      m: Model, entries: seq<Entry>, replacements: seq<Facts>, removals: seq<nat>, source: nat)
    requires Reported(entries) && AccountsFor(m, entries, replacements, removals)
    ensures ModelView(Updated(m, replacements, removals), source) == AfterEntries(m, entries, source)
  {
    if k :| 0 <= k < |entries| && entries[k].source == source {
      AccountedEntry(m, entries, replacements, removals, k);
    } else {
      AfterEntriesElsewhere(m, entries, source);
      NoReplacement(m, entries, replacements, removals, source);
      StoreAllElsewhere(m, replacements, source);
      forall i | 0 <= i < |removals| ensures removals[i] != source {
        assert FromRemoval(entries, removals[i]);
      }
    }
  }

  // ---------- Skipping against replacing everything ----------

  function AllReplacements(entries: seq<Entry>): seq<Facts> {
    if entries == [] then []
    else
      var e := entries[|entries| - 1];
      AllReplacements(entries[..|entries| - 1]) + if !e.removed && e.parsed.Some? then [e.parsed.value] else []
  }

  function AllRemovals(entries: seq<Entry>): seq<nat> {
    if entries == [] then []
    else
      var e := entries[|entries| - 1];
      AllRemovals(entries[..|entries| - 1]) + if e.removed then [e.source] else []
  }

  lemma {:induction false} AllInputsFrom(entries: seq<Entry>)
    ensures forall k :: 0 <= k < |entries| && !entries[k].removed && entries[k].parsed.Some? ==>
      entries[k].parsed.value in AllReplacements(entries)
    ensures forall k :: 0 <= k < |entries| && entries[k].removed ==> entries[k].source in AllRemovals(entries)
    ensures forall i :: 0 <= i < |AllReplacements(entries)| ==> FromEntry(entries, AllReplacements(entries)[i])
    ensures forall i :: 0 <= i < |AllRemovals(entries)| ==> FromRemoval(entries, AllRemovals(entries)[i])
  {
    if entries != [] {
      var front, last := entries[..|entries| - 1], |entries| - 1;
      AllInputsFrom(front);
      forall i | 0 <= i < |AllReplacements(entries)| ensures FromEntry(entries, AllReplacements(entries)[i]) {
        if i < |AllReplacements(front)| {
          assert FromEntry(front, AllReplacements(front)[i]);
          var k :| 0 <= k < |front| && !front[k].removed && front[k].parsed == Some(AllReplacements(front)[i]);
          assert entries[k] == front[k];
        } else {
          assert entries[last].parsed == Some(AllReplacements(entries)[i]);
        }
      }
      forall i | 0 <= i < |AllRemovals(entries)| ensures FromRemoval(entries, AllRemovals(entries)[i]) {
        if i < |AllRemovals(front)| {
          assert FromRemoval(front, AllRemovals(front)[i]);
          var k :| 0 <= k < |front| && front[k].removed && front[k].source == AllRemovals(front)[i];
          assert entries[k] == front[k];
        } else {
          assert entries[last].removed && entries[last].source == AllRemovals(entries)[i];
        }
      }
    }
  }

  /** An update that skips what the cache already shows ends in the same view as one that
      replaces and removes everything it was told about. */
  lemma {:induction false} SkippingMatchesReplacingAll(
      m: Model, entries: seq<Entry>, replacements: seq<Facts>, removals: seq<nat>, source: nat)
    requires Reported(entries) && Parsed(entries) && AccountsFor(m, entries, replacements, removals)
    ensures ModelView(Updated(m, replacements, removals), source)
         == ModelView(Updated(m, AllReplacements(entries), AllRemovals(entries)), source)
  {
    AllInputsFrom(entries);
    SkippingIsInvisible(m, entries, replacements, removals, source);
    SkippingIsInvisible(m, entries, AllReplacements(entries), AllRemovals(entries), source);
  }

  // ---------- Base classes ----------

  /** Opens a transaction for one source and asks for this packet: the verdict of `replace`. */
  method TryReplace(c: Cache, f: Facts, hash: nat -> nat) returns (result: Status)
    requires c.Valid()
    ensures
      result ==
        if !ValidFacts(f) then InvalidArgument
        else if HasBases(f) || !SparseFits(f, SizesOf(ArenasOf(c.committed))) then NotAvailable
        else Ok
  {
    hide SparseUpdate.Valid, WellFormed, ValidFacts, HasBases, SparseFits, PatchCapacity, WithinRoom, SizesOf, Plus,
      ArenasOf, SourceKeys, ChangeKeys;
    AcceptableMeans(f);
    var u := new SparseUpdate(c, hash);
    ghost var base := SizesOf(ArenasOf(c.committed));
    RoomForOne(base);
    NoPatches(u.sourcePatches);
    u.KeysAreChanges();
    assert u.sourcePatches == [];
    result := u.ReserveIncremental(1, 0, NO_SIZES);
    assert result.Ok? && u.candidate == EMPTY && u.base == base;
    assert f.source != 0 ==> u.SourceRefusal(f.source) == Ok by { NoSourceKeys(); }
    result := u.Replace(f);
  }

  lemma {:induction false} RoomForOne(base: Sizes)
    ensures WithinRoom(NO_SIZES, base) && PatchCapacity(1) > 0 && Plus(base, SizesOf(EMPTY)) == base
  {
    CapacitySuffices(1);
  }

  lemma {:induction false} NoSourceKeys()
    ensures SourceKeys([]) == []
  {}

  /** Every packet the frontend hands over has passed the parser's validation. */
  predicate Validated(entries: seq<Entry>) {
    forall i :: 0 <= i < |entries| && entries[i].parsed.Some? ==> ValidFacts(entries[i].parsed.value)
  }

  /** Asks `replace` about every packet that an update leaves out. Base classes are not part of
      what the cache stores and compares, but `replace` refuses them: as long as there is room,
      everything left out would have been accepted exactly if none of it has base classes. */
  method SkippedAgainstReplaced(c: Cache, entries: seq<Entry>, hash: nat -> nat, ghost m: Model)
      returns (skipped: seq<Facts>, verdicts: seq<Status>)
    requires c.Valid() && Shows(c, m) && Reported(entries) && Parsed(entries) && Validated(entries)
    ensures skipped == Skipped(m, entries) && |verdicts| == |skipped|
    ensures
      (forall f :: f in skipped ==> SparseFits(f, SizesOf(ArenasOf(c.committed)))) ==>
        ((forall i :: 0 <= i < |verdicts| ==> verdicts[i] == Ok) <==> (forall f :: f in skipped ==> !HasBases(f)))
  {
    hide WellFormed, Normalize, UnsignedFacts, StorageView, RefsInRange, ValidFacts, HasBases, SparseFits;
    skipped, verdicts := [], [];
    for k := 0 to |entries|
      invariant skipped == Skipped(m, entries[..k]) && |verdicts| == |skipped|
      invariant forall i :: 0 <= i < |skipped| ==>
        verdicts[i]
        == if HasBases(skipped[i]) || !SparseFits(skipped[i], SizesOf(ArenasOf(c.committed))) then NotAvailable else Ok
    {
      var e := entries[k];
      assert WellReported(e);
      assert c.ViewAt(e.source) == ModelView(m, e.source);
      assert entries[..k + 1][..k] == entries[..k];
      if !e.removed {
        var same := c.Equivalent(e.parsed.value);
        if same {
          var verdict := TryReplace(c, e.parsed.value, hash);
          skipped, verdicts := skipped + [e.parsed.value], verdicts + [verdict];
        }
      }
    }
    assert entries[..|entries|] == entries;
    if forall f :: f in skipped ==> SparseFits(f, SizesOf(ArenasOf(c.committed))) {
      if forall i :: 0 <= i < |verdicts| ==> verdicts[i] == Ok {
        forall f | f in skipped ensures !HasBases(f) {
          var i :| 0 <= i < |skipped| && skipped[i] == f;
          assert verdicts[i] == Ok;
        }
      } else {
        var i :| 0 <= i < |verdicts| && verdicts[i] != Ok;
        assert skipped[i] in skipped;
      }
    }
  }

  lemma {:induction false} LeftOut(m: Model, f: Facts)
    requires Shown(m, f)
    ensures
      var entries := [Entry(f.source, false, Some(f))];
      Needed(m, entries) == [] && Vanished(m, entries) == [] && Parsed(entries)
  {
    var entries := [Entry(f.source, false, Some(f))];
    assert entries[..|entries| - 1] == [];
  }

  const PLAIN: Facts := Facts(1, [RecordFact(7, Range(0, 0), 0, true, Struct)], [], [], [], [], [], [], [])
  const DERIVED: Facts := PLAIN.(records := [RecordFact(7, Range(0, 0), 1, true, Struct)])

  lemma {:induction false} SameTypesWithoutBases(a: Facts, b: Facts, refs: seq<DeclarationRef>)
    requires |a.records| == |b.records| && a.enums == b.enums
    requires forall i :: 0 <= i < |a.records| ==> RecordDecl(a.records[i]) == RecordDecl(b.records[i])
    ensures DeclaredTypes(a, refs) == DeclaredTypes(b, refs)
  {
    if refs != [] {
      SameTypesWithoutBases(a, b, refs[..|refs| - 1]);
    }
  }

  lemma {:induction false} DerivedLooksPlain()
    ensures Normalize(DERIVED) == Normalize(PLAIN) && RefsInRange(DERIVED)
    ensures Acceptable(PLAIN) && ValidFacts(DERIVED) && HasBases(DERIVED) && UnsignedFacts(DERIVED)
  {
    assert DERIVED.records[0].baseCount == 1;
    SameTypesWithoutBases(PLAIN, DERIVED, TypeRefs(PLAIN));
  }

  lemma {:induction false} PlainTypes()
    ensures TypesOf(PLAIN) == [RecordDecl(PLAIN.records[0])]
  {
    var refs := TypeRefs(PLAIN);
    assert refs == [DeclarationRef(0, RecordType)];
    hide DefaultRefs;
    assert refs[..|refs| - 1] == [];
    assert DeclaredTypes(PLAIN, []) == [];
  }

  lemma {:induction false} PlainFits()
    ensures RebuildFits(PLAIN, NO_SIZES)
  {
    PlainTypes();
    hide TypesOf;
  }

  lemma {:induction false} PlainIsAnnounced()
    ensures CountsBelowLimit(Highest(SourcesOf([PLAIN]), 0), AnnouncedAll([PLAIN]))
  {
    var one := [PLAIN];
    assert one[..|one| - 1] == [];
    assert SourcesOf(one) == [1];
    assert [1][..|[1]| - 1] == [];
  }

  lemma {:induction false} OneCaptured(f: Facts)
    ensures
      && Acceptable(f) && RebuildFits(f, NO_SIZES) && CountsBelowLimit(Highest(SourcesOf([f]), 0), AnnouncedAll([f]))
      && Agrees(StoreAll(map[], [f])) ==>
        RebuildSucceeds([f], Ok)
    ensures !Acceptable(f) ==> !RebuildSucceeds([f], Ok)
  {
    hide Acceptable, RebuildFits, CountsBelowLimit, EndBefore, AnnouncedAll, Highest, Agrees, StoreAll;
    assert [f][0] == f;
    NothingOwned([f]);
  }

  lemma {:induction false} StoredAlone(f: Facts)
    ensures StoreAll(map[], [f]) == map[f.source := f]
  {
    var one := [f];
    assert one[..|one| - 1] == [];
    assert StoreAll(map[], []) == map[];
  }

  lemma {:induction false} PlainAgrees()
    ensures Agrees(map[1 := PLAIN])
  {
    PlainTypes();
    hide TypesOf;
    var m: Model := map[1 := PLAIN];
    forall a, i, b, j | Declares(m, a, i) && Declares(m, b, j)
      ensures PairAgrees(TypeAt(m, a, i), TypeAt(m, b, j), a == b && i == j)
    {
      assert a == b == 1 && i == j == 0;
    }
  }

  const NOTHING: Facts := Facts(1, [], [], [], [], [], [], [], [])

  lemma {:induction false} NoTypes()
    ensures TypesOf(NOTHING) == TypesOf(NOTHING.(source := 2)) == []
    ensures TypesOf(PLAIN.(source := 2)) == TypesOf(PLAIN)
  {
    assert TypeRefs(NOTHING) == [] && TypeRefs(NOTHING.(source := 2)) == [];
    SameTypesWithoutBases(PLAIN, PLAIN.(source := 2), TypeRefs(PLAIN));
  }

  /** One struct, in at most one source. */
  lemma {:induction false} OneDefinitionAgrees(m: Model, source: nat)
    requires forall s :: s in m ==> TypesOf(m[s]) == if s == source then TypesOf(PLAIN) else []
    ensures Agrees(m)
  {
    PlainTypes();
    hide TypesOf;
    forall a, i, b, j | Declares(m, a, i) && Declares(m, b, j)
      ensures PairAgrees(TypeAt(m, a, i), TypeAt(m, b, j), a == b && i == j)
    {
      assert a == b == source && i == j == 0;
    }
  }

  lemma {:induction false} TwoDefinitions(m: Model)
    requires 1 in m && 2 in m && TypesOf(m[1]) == TypesOf(m[2]) == TypesOf(PLAIN)
    ensures !Agrees(m)
  {
    PlainTypes();
    hide TypesOf;
    assert Declares(m, 1, 0) && Declares(m, 2, 0);
    assert !PairAgrees(TypeAt(m, 1, 0), TypeAt(m, 2, 0), false);
  }

  lemma {:induction false} StoreTwo(m: Model, a: Facts, b: Facts)
    ensures StoreAll(m, [a, b][..0]) == m && StoreAll(m, [a, b][..1]) == m[a.source := a]
    ensures StoreAll(m, [a, b][..2]) == StoreAll(m, [a, b]) == m[a.source := a][b.source := b]
  {
    assert [a, b][..2] == [a, b] && [a, b][..1] == [a] && [a][..0] == [];
    assert StoreAll(m, []) == m;
    assert [a, b][..|[a, b]| - 1] == [a];
  }

  lemma {:induction false} MovedBetween(first: Facts, second: Facts, here: Facts, there: Facts)
    requires first.source == here.source == 1 && second.source == there.source == 2
    requires TypesOf(first) == TypesOf(there) == TypesOf(PLAIN) && TypesOf(second) == TypesOf(here) == []
    ensures
      var before: Model := map[1 := first, 2 := second];
      && Agrees(before) && Agrees(StoreAll(before, [there, here]))
      && StoreAll(before, [there, here]) == StoreAll(before, [here, there])
      && !Mergeable(before, [there, here]) && Mergeable(before, [here, there])
  {
    hide TypesOf, Agrees, StoreAll;
    var before: Model := map[1 := first, 2 := second];
    StoreTwo(before, there, here);
    StoreTwo(before, here, there);
    OneDefinitionAgrees(before, 1);
    OneDefinitionAgrees(before[1 := here], 0);
    OneDefinitionAgrees(before[1 := here][2 := there], 2);
    TwoDefinitions(before[2 := there]);
    assert before[1 := here][2 := there] == before[2 := there][1 := here];
    assert !Agrees(StoreAll(before, [there, here][..1]));
    forall i | 0 <= i <= 2 ensures Agrees(StoreAll(before, [here, there][..i])) {}
  }

  /** A struct whose definition moves from source 1 to source 2. Both states are free of
      contradictions, so each can be built in full; but an update that takes source 2 over first
      meets two definitions and is refused, while one in the other order is not. */
  lemma {:induction false} MovedDefinition()
    ensures
      var before: Model := map[1 := PLAIN, 2 := NOTHING.(source := 2)];
      var here, there := NOTHING, PLAIN.(source := 2);
      && Agrees(before) && Agrees(StoreAll(before, [there, here]))
      && StoreAll(before, [there, here]) == StoreAll(before, [here, there])
      && !Mergeable(before, [there, here]) && Mergeable(before, [here, there])
  {
    hide TypesOf, Agrees, StoreAll, Mergeable;
    NoTypes();
    MovedBetween(PLAIN, NOTHING.(source := 2), NOTHING, PLAIN.(source := 2));
  }

  lemma {:induction false} NothingOwned(s: seq<Facts>)
    ensures EndBefore(NO_SIZES, s, 0) == NO_SIZES
  {
    assert s[..0] == [];
    assert OwnArenas(NO_SIZES, []) == EMPTY;
  }

  /** A struct that gains a base class and does not change otherwise: the update leaves it out and
      succeeds, `replace` refuses it, and so does a rebuild of the very same sources. */
  method BaseClassSlipsThrough(hash: nat -> nat)
      returns (built: Status, collected: Status, replacements: seq<Facts>, removals: seq<nat>, replaced: Status,
               rebuilt: Status)
    ensures built == Ok
    ensures collected == Ok && replacements == [] && removals == []
    ensures replaced == NotAvailable && rebuilt != Ok
  {
    hide WellFormed, Normalize, ValidFacts, HasBases, SparseFits, RebuildSucceeds, RebuildFits, CountsBelowLimit,
      UnsignedFacts, RefsInRange, Acceptable, AnnouncedAll, Highest, StoreAll, StorageView, Agrees, InBooks,
      RebuildStatus;
    DerivedLooksPlain();
    PlainAgrees();
    PlainFits();
    PlainIsAnnounced();
    OneCaptured(PLAIN);
    OneCaptured(DERIVED);
    StoredAlone(PLAIN);
    AcceptableMeans(DERIVED);
    var c := new Cache();
    var g := new Graph();
    built := RebuildAll(c, g, [PLAIN], Ok);
    var entries := [Entry(1, false, Some(DERIVED))];
    LeftOut(map[1 := PLAIN], DERIVED);
    collected, replacements, removals := CollectBuilderInputs(entries, c, map[1 := PLAIN]);
    replaced := TryReplace(c, DERIVED, hash);
    rebuilt := RebuildAll(c, g, [DERIVED], Ok);
  }

  // ---------- Every run ----------

  /** `rest` is the outcome of what the graph builder does once the aggregates are up to date. */
  datatype Operation =
    | Incremental(entries: seq<Entry>, rest: Status)
    | Rebuild(all: seq<Facts>, rest: Status)

  predicate Legal(o: Operation) { o.Incremental? ==> Reported(o.entries) }

  /** What a cache stores, the handles of the graph beside it, and the model the cache shows. */
  datatype Snapshot = Snapshot(storage: Storage, complete: bool, identities: seq<nat>, model: Model)

  /** The storage shows the model, its arenas hold the facts of every source, the slot of every type
      is the aggregate of its live declarations, and no declarations contradict each other. */
  ghost predicate Sound(s: Snapshot) {
    && StorageShows(s.storage, s.model) && InBooks(s.storage, s.identities) && Agrees(s.model)
    && HoldsFacts(s.storage, s.model)
  }

  /** Read at the places the slots name, the arenas hold the facts of every source of the model. */
  ghost predicate HoldsFacts(s: Storage, m: Model) {
    forall source :: source in m && m[source].source == source && ValidFacts(m[source]) ==> StandsIn(s, m[source])
  }

  /** Every valid packet stands in the arenas, whether it was replaced or left out. */
  ghost predicate HoldsEntries(s: Storage, entries: seq<Entry>) {
    forall k :: 0 <= k < |entries| && !entries[k].removed && entries[k].parsed.Some? && ValidFacts(entries[k].parsed.value) ==>
      StandsIn(s, entries[k].parsed.value)
  }

  function RequestFor(m: Model, entries: seq<Entry>, rest: Status): Request {
    Request(Needed(m, entries), Vanished(m, entries), rest)
  }

  /** When an incremental operation succeeds. With nothing to hand on the builder is not run at all. */
  ghost predicate IncrementalSucceeds(before: Snapshot, baselineBacked: bool, entries: seq<Entry>, rest: Status) {
    var q := RequestFor(before.model, entries, rest);
    && before.complete && Parsed(entries)
    && (Touched(q) == [] || UpdateSucceeds(before.storage, true, baselineBacked, before.identities, before.model, q))
  }

  /** What an operation answers. */
  ghost function IncrementalStatus(before: Snapshot, baselineBacked: bool, entries: seq<Entry>, rest: Status): Status {
    var q := RequestFor(before.model, entries, rest);
    if !before.complete then NotAvailable
    else if !Parsed(entries) then InvalidArgument
    else if Touched(q) == [] then Ok
    else UpdateStatus(before.storage, true, baselineBacked, before.identities, before.model, q)
  }

  ghost function AnswerOf(before: Snapshot, baselineBacked: bool, o: Operation): Status {
    match o
    case Incremental(entries, rest) => IncrementalStatus(before, baselineBacked, entries, rest)
    case Rebuild(all, rest) => RebuildStatus(all, rest)
  }

  ghost predicate Succeeds(before: Snapshot, baselineBacked: bool, o: Operation) {
    match o
    case Incremental(entries, rest) => IncrementalSucceeds(before, baselineBacked, entries, rest)
    case Rebuild(all, rest) => RebuildSucceeds(all, rest)
  }

  /** What an operation does: a failure changes nothing, a success shows what was asked for. */
  ghost predicate Follows(before: Snapshot, baselineBacked: bool, o: Operation, result: Status, after: Snapshot) {
    && result == AnswerOf(before, baselineBacked, o) && (result.Ok? <==> Succeeds(before, baselineBacked, o))
    && (!result.Ok? ==> after == before)
    && (result.Ok? ==>
          && after.complete
          && match o
             case Incremental(entries, _) =>
               && (forall source :: ModelView(after.model, source) == AfterEntries(before.model, entries, source))
               && HoldsEntries(after.storage, entries)
             case Rebuild(all, _) =>
               && after.model == StoreAll(map[], all)
               && forall i :: 0 <= i < |all| ==> StandsIn(after.storage, all[i]))
  }

  /** An incremental operation: what the cache does not show goes to the builder. */
  method Update(c: Cache, g: Graph, entries: seq<Entry>, rest: Status, hash: nat -> nat, ghost m: Model)
      returns (result: Status)
    requires c.Valid() && InBooks(c.committed, g.identities) && Shows(c, m) && Reported(entries)
    modifies c, g
    ensures c.Valid() && InBooks(c.committed, g.identities)
    ensures
      var q := RequestFor(m, entries, rest);
      && (result.Ok? <==>
          IncrementalSucceeds(old(Snapshot(c.committed, c.complete, g.identities, m)), c.baselineBacked, entries, rest))
      && result == IncrementalStatus(old(Snapshot(c.committed, c.complete, g.identities, m)), c.baselineBacked, entries, rest)
      && (result.Ok? ==> c.complete && Shows(c, Updated(m, q.replacements, q.removals)))
      && (result.Ok? && Touched(q) == [] ==> unchanged(c) && unchanged(g))
    ensures !result.Ok? ==> unchanged(c) && unchanged(g)
  {
    hide WellFormed, ModelView, Updated, StorageView, Parsed, Reported, UpdateSucceeds, SourcesOf, InBooks, KnownAll,
      UpdateStatus;
    if !c.complete { return NotAvailable; }
    var replacements, removals;
    result, replacements, removals := CollectBuilderInputs(entries, c, m);
    if !result.Ok? { return; }
    NothingTouched(m, replacements, removals);
    if replacements == [] && removals == [] { return Ok; }
    result := UpdateIncrementally(c, g, Request(replacements, removals, rest), hash, m);
  }

  lemma {:induction false} NothingTouched(m: Model, replacements: seq<Facts>, removals: seq<nat>)
    ensures SourcesOf(replacements) + removals == [] <==> replacements == [] && removals == []
    ensures Updated(m, [], []) == m
  {
    assert |SourcesOf(replacements) + removals| == |replacements| + |removals|;
  }

  /** An update that finds every packet shown succeeds and changes nothing, even where `replace`
      refuses the packet: for a validated packet, exactly if it has base classes or no room. */
  method SkippedAlthoughRefused(c: Cache, g: Graph, f: Facts, hash: nat -> nat, ghost m: Model)
      returns (updated: Status, replaced: Status)
    requires c.Valid() && c.complete && InBooks(c.committed, g.identities) && Shows(c, m)
    requires ValidFacts(f) && ModelView(m, f.source) == Some(Normalize(f))
    modifies c, g
    ensures updated == Ok && unchanged(c) && unchanged(g) && Shows(c, m)
    ensures replaced != Ok <==> HasBases(f) || !SparseFits(f, SizesOf(ArenasOf(c.committed)))
  {
    hide WellFormed, Normalize, HasBases, SparseFits, UpdateSucceeds, StorageView, InBooks;
    var entries := [Entry(f.source, false, Some(f))];
    LeftOut(m, f);
    NothingTouched(m, [], []);
    updated := Update(c, g, entries, Ok, hash, m);
    replaced := TryReplace(c, f, hash);
  }

  /** One operation of a run. */
  method Step(c: Cache, g: Graph, o: Operation, hash: nat -> nat, ghost m: Model)
      returns (result: Status, ghost after: Model)
    requires c.Valid() && Sound(Snapshot(c.committed, c.complete, g.identities, m)) && Legal(o)
    modifies c, g
    ensures c.Valid() && Sound(Snapshot(c.committed, c.complete, g.identities, after))
    ensures
      Follows(old(Snapshot(c.committed, c.complete, g.identities, m)), c.baselineBacked, o, result,
              Snapshot(c.committed, c.complete, g.identities, after))
  {
    hide WellFormed, ModelView, Updated, AfterEntries, StorageView, AccountsFor, Reported, IncrementalSucceeds,
      RebuildSucceeds, IncrementalStatus, RebuildStatus, Touched, Needed, Vanished, InBooks, Agrees, HoldsEntries,
      StandsIn, HoldsFacts, ValidFacts;
    after := m;
    ShowsStorage(c, m);
    match o
    case Incremental(entries, rest) =>
      result := Update(c, g, entries, rest, hash, m);
      if !result.Ok? { return; }
      EntriesParsed(old(Snapshot(c.committed, c.complete, g.identities, m)), c.baselineBacked, entries, rest);
      after := Updated(m, Needed(m, entries), Vanished(m, entries));
      NeededAccounts(m, entries);
      forall source: nat ensures ModelView(after, source) == AfterEntries(m, entries, source) {
        SkippingIsInvisible(m, entries, Needed(m, entries), Vanished(m, entries), source);
      }
      NowSound(c, g, after);
      EntriesStand(c.committed, c.statistics, m, after, entries);
    case Rebuild(all, rest) =>
      result := RebuildAll(c, g, all, rest);
      if result.Ok? {
        after := StoreAll(map[], all);
        NowSound(c, g, after);
        PacketsStand(c.committed, all, rest);
      }
  }

  lemma {:induction false} EntriesStand(s: Storage, statistics: Statistics, m: Model, after: Model, entries: seq<Entry>)
    requires WellFormed(s, statistics) && StorageShows(s, after) && Reported(entries)
    requires forall source :: ModelView(after, source) == AfterEntries(m, entries, source)
    ensures HoldsEntries(s, entries)
  {
    hide ModelView, AfterEntries, StorageView, Normalize, ValidFacts, StandsIn, UnsignedFacts, InBounds;
    forall k | 0 <= k < |entries| && !entries[k].removed && entries[k].parsed.Some? && ValidFacts(entries[k].parsed.value)
      ensures StandsIn(s, entries[k].parsed.value)
    {
      var f := entries[k].parsed.value;
      assert WellReported(entries[k]);
      AfterEntriesAt(m, entries, k);
      assert StorageView(s, f.source) == ModelView(after, f.source);
      ShownStands(s, f);
    }
  }

  lemma {:induction false} PacketsStand(s: Storage, all: seq<Facts>, rest: Status)
    requires RebuildSucceeds(all, rest) && HoldsFacts(s, StoreAll(map[], all))
    ensures forall i :: 0 <= i < |all| ==> StandsIn(s, all[i])
  {
    hide StandsIn, ValidFacts, RebuildFits, CountsBelowLimit, Agrees;
    forall i | 0 <= i < |all| ensures StandsIn(s, all[i]) {
      AcceptableMeans(all[i]);
      forall j | i < j < |all| ensures all[j].source != all[i].source {
        assert SourcesOf(all)[i] != SourcesOf(all)[j];
      }
      StoreAllAt(map[], all, i);
    }
  }

  lemma {:induction false} EntriesParsed(before: Snapshot, baselineBacked: bool, entries: seq<Entry>, rest: Status)
    requires IncrementalSucceeds(before, baselineBacked, entries, rest)
    ensures Parsed(entries)
  {}

  /** What is in the books is free of contradictions. */
  lemma {:induction false} NowSound(c: Cache, g: Graph, m: Model)
    requires c.Valid() && Shows(c, m) && InBooks(c.committed, g.identities)
    ensures Sound(Snapshot(c.committed, c.complete, g.identities, m))
  {
    hide Agrees, Agreeing, Live, Shows, StorageShows, Booked, Views, WellFormed;
    var s := c.committed;
    ShowsStorage(c, m);
    StorageViews(s, m);
    InBooksMeans(s, g.identities, 0);
    LiveAgrees(s.sources.items, ArenasOf(s), m);
    FactsStand(s, c.statistics, m);
  }

  lemma {:induction false} FactsStand(s: Storage, statistics: Statistics, m: Model)
    requires WellFormed(s, statistics) && StorageShows(s, m)
    ensures HoldsFacts(s, m)
  {
    hide StorageView, Normalize, ValidFacts, StandsIn, InBounds;
    forall source | source in m && m[source].source == source && ValidFacts(m[source]) ensures StandsIn(s, m[source]) {
      assert StorageView(s, source) == ModelView(m, source);
      ShownStands(s, m[source]);
    }
  }

  ghost predicate IsRun(
      baselineBacked: bool, snapshots: seq<Snapshot>, operations: seq<Operation>, results: seq<Status>) {
    && |snapshots| == |operations| + 1 && |results| == |operations|
    && (forall i :: 0 <= i < |snapshots| ==> Sound(snapshots[i]))
    && forall i :: 0 <= i < |operations| ==>
         Follows(snapshots[i], baselineBacked, operations[i], results[i], snapshots[i + 1])
  }

  /** Over every run of incremental builds and rebuilds, each operation succeeds exactly when it
      can, the cache shows exactly the facts the successful operations left, the slot of every type
      is the aggregate of its live declarations, and the statistics are exactly the sums over the
      live sources. */
  method Run(c: Cache, g: Graph, operations: seq<Operation>, hash: nat -> nat, ghost m: Model)
      returns (results: seq<Status>, ghost snapshots: seq<Snapshot>)
    requires c.Valid() && InBooks(c.committed, g.identities) && Shows(c, m)
    requires forall i :: 0 <= i < |operations| ==> Legal(operations[i])
    modifies c, g
    ensures IsRun(c.baselineBacked, snapshots, operations, results)
    ensures snapshots[0] == old(Snapshot(c.committed, c.complete, g.identities, m))
    ensures
      var last := snapshots[|operations|];
      c.Valid() && last == Snapshot(c.committed, c.complete, g.identities, last.model) && Shows(c, last.model)
    ensures c.statistics == Totals(c.committed.sources.items)
    ensures AtMost(c.statistics.counts, SizesOf(ArenasOf(c.committed)))
  {
    hide Follows, Legal, Sound, StorageView, ModelView, InBooks;
    NowSound(c, g, m);
    results, snapshots := [], [Snapshot(c.committed, c.complete, g.identities, m)];
    for i := 0 to |operations|
      invariant c.Valid() && IsRun(c.baselineBacked, snapshots, operations[..i], results)
      invariant snapshots[0] == old(Snapshot(c.committed, c.complete, g.identities, m))
      invariant snapshots[i] == Snapshot(c.committed, c.complete, g.identities, snapshots[i].model)
    {
      ghost var next;
      var result;
      result, next := Step(c, g, operations[i], hash, snapshots[i].model);
      results, snapshots := results + [result], snapshots + [Snapshot(c.committed, c.complete, g.identities, next)];
    }
    assert operations[..|operations|] == operations;
    SoundShows(c, g, snapshots[|operations|].model);
  }

  lemma {:induction false} SoundShows(c: Cache, g: Graph, m: Model)
    requires Sound(Snapshot(c.committed, c.complete, g.identities, m))
    ensures Shows(c, m)
  {
    ShowsStorage(c, m);
  }

  /** Two caches that show the same model have the same aggregates, but for the index of the
      definition. */
  lemma {:induction false} SameSlots(s: Storage, ids: seq<nat>, t: Storage, others: seq<nat>, m: Model, id: nat)
    requires StorageShows(s, m) && InBooks(s, ids) && StorageShows(t, m) && InBooks(t, others)
    ensures SlotOf(t, others, id) == SlotOf(s, ids, id).(definitionType := SlotOf(t, others, id).definitionType)
  {
    hide StorageShows, Booked, Live, Views, Tallies, SlotOf;
    StorageViews(s, m);
    StorageViews(t, m);
    InBooksMeans(s, ids, id);
    InBooksMeans(t, others, id);
    SameAggregates(s.sources.items, ArenasOf(s), t.sources.items, ArenasOf(t), m, id, SlotOf(s, ids, id), SlotOf(t, others, id));
  }

  /** After any run a rebuild over facts with the same normal forms meets no contradiction: it
      succeeds exactly if the packets can be captured. Then it shows the same view, and every type
      has the same aggregate, but for the index of the definition. */
  method RebuildAgrees(c: Cache, g: Graph, all: seq<Facts>, ghost m: Model)
      returns (result: Status, rebuilt: Cache, graph: Graph)
    requires c.Valid() && InBooks(c.committed, g.identities) && Shows(c, m)
    requires forall source :: ModelView(StoreAll(map[], all), source) == ModelView(m, source)
    ensures result.Ok? <==> CountsBelowLimit(Highest(SourcesOf(all), 0), AnnouncedAll(all)) && Capturable(all)
    ensures result.Ok? ==> rebuilt.Valid() && forall source :: rebuilt.ViewAt(source) == c.ViewAt(source)
    ensures result.Ok? ==>
      && InBooks(rebuilt.committed, graph.identities)
      && forall id ::
           SlotOf(rebuilt.committed, graph.identities, id)
           == SlotOf(c.committed, g.identities, id).(
                definitionType := SlotOf(rebuilt.committed, graph.identities, id).definitionType)
  {
    hide WellFormed, CountsBelowLimit, Capturable, AnnouncedAll, Highest, InBooks, Agrees, StorageShows, SlotOf,
      ModelView, StorageView;
    NowSound(c, g, m);
    SameViewsAgree(m, StoreAll(map[], all));
    rebuilt := new Cache();
    graph := new Graph();
    result := RebuildAll(rebuilt, graph, all, Ok);
    if result.Ok? {
      SameModelShown(c, m, StoreAll(map[], all));
      ShowsStorage(c, StoreAll(map[], all));
      ShowsStorage(rebuilt, StoreAll(map[], all));
      forall id
        ensures
          SlotOf(rebuilt.committed, graph.identities, id)
          == SlotOf(c.committed, g.identities, id).(
               definitionType := SlotOf(rebuilt.committed, graph.identities, id).definitionType)
      {
        SameSlots(c.committed, g.identities, rebuilt.committed, graph.identities, StoreAll(map[], all), id);
      }
    }
  }

  lemma {:induction false} SameModelShown(c: Cache, m: Model, n: Model)
    requires Shows(c, m) && forall source :: ModelView(n, source) == ModelView(m, source)
    ensures Shows(c, n)
  {
    hide ModelView;
  }
}
