/** The aggregates of all types at once. Every type the graph knows has a handle, and the slot of
    each handle must be the aggregate of the declarations of that type among all there are. */
module ConstructionLedger {
  import opened Wrappers
  import opened ContributionArenas
  import opened ContributionStorage
  import opened ContributionPatches
  import opened ContributionSparseUpdate
  import opened ConstructionAggregate
  import opened PatchIndex

  // ---------- The declarations of one type among all ----------

  /** `s` lists the declarations of one type. */
  ghost predicate Part(s: seq<Declaration>, all: multiset<Declaration>, id: nat) {
    forall d: Declaration :: multiset(s)[d] == if d.typ.identity == id then all[d] else 0
  }

  /** The slot is the aggregate of the declarations of one type. */
  ghost predicate Tallies(c: Construction, all: multiset<Declaration>, id: nat) {
    exists s :: Part(s, all, id) && Aggregates(c, s)
  }

  /** Nothing about one type is contradictory: its declarations agree pairwise, and at most one of
      them is a definition. */
  ghost predicate AgreeingOn(all: multiset<Declaration>, id: nat) {
    && (forall d :: d in all && d.typ.identity == id ==> id != 0 && d.index != 0)
    && (forall a, b :: a in all && b in all && a.typ.identity == b.typ.identity == id ==> Agree(a, b))
    && (forall a, b :: a in all && b in all && a.typ.identity == b.typ.identity == id && a.typ.definition && b.typ.definition ==>
          a == b && all[a] == 1)
  }

  ghost predicate Agreeing(all: multiset<Declaration>) { forall id :: AgreeingOn(all, id) }

  lemma {:induction false} DefinedAtMostOnce(s: seq<Declaration>)
    ensures
      Count(s, Definition) <= 1
      <==> forall a, b :: a in s && b in s && a.typ.definition && b.typ.definition ==> a == b && multiset(s)[a] == 1
  {
    if s != [] {
      var front, d := s[..|s| - 1], s[|s| - 1];
      assert s == front + [d];
      DefinedAtMostOnce(front);
      CountBounds(front, Definition);
      assert multiset(s) == multiset(front) + multiset{d};
      if Count(s, Definition) <= 1 {
        forall a, b | a in s && b in s && a.typ.definition && b.typ.definition ensures a == b && multiset(s)[a] == 1 {
          assert d.typ.definition ==> a !in front && b !in front;
        }
      } else if d.typ.definition {
        var i :| 0 <= i < |front| && Has(front[i], Definition);
        assert front[i] in front;
        assert front[i] == d ==> multiset(s)[d] >= 2;
      } else {
        var a, b :| a in front && b in front && a.typ.definition && b.typ.definition && !(a == b && multiset(front)[a] == 1);
        assert a != d && multiset(s)[a] == multiset(front)[a];
      }
    }
  }

  lemma {:induction false} PartAgrees(s: seq<Declaration>, all: multiset<Declaration>, id: nat)
    requires Part(s, all, id)
    ensures Consistent(s) <==> AgreeingOn(all, id)
  {
    DefinedAtMostOnce(s);
    hide Count, Agree;
    forall d: Declaration ensures d in s <==> d in all && d.typ.identity == id {
      assert multiset(s)[d] == if d.typ.identity == id then all[d] else 0;
      assert d in s <==> d in multiset(s);
    }
    if Consistent(s) {
      forall d | d in all && d.typ.identity == id ensures id != 0 && d.index != 0 {
        assert d in s;
      }
      forall a, b | a in all && b in all && a.typ.identity == b.typ.identity == id ensures Agree(a, b) {
        assert a in s && b in s;
      }
    }
    if AgreeingOn(all, id) {
      forall i | 0 <= i < |s| ensures s[i].typ.identity != 0 && s[i].index != 0 { assert s[i] in s; }
      forall i, j | 0 <= i < |s| && 0 <= j < |s| ensures Agree(s[i], s[j]) { assert s[i] in s && s[j] in s; }
    }
  }

  lemma {:induction false} PartSize(s: seq<Declaration>, all: multiset<Declaration>, id: nat)
    requires Part(s, all, id)
    ensures |s| <= |all|
  {
    assert all == multiset(s) + (all - multiset(s));
  }

  /** What holds of all declarations holds of some of them. */
  lemma {:induction false} FewerAgree(few: multiset<Declaration>, all: multiset<Declaration>)
    requires few <= all && Agreeing(all)
    ensures Agreeing(few)
  {
    forall id ensures AgreeingOn(few, id) {
      assert AgreeingOn(all, id);
      forall d | d in few ensures d in all && few[d] <= all[d] {}
    }
  }

  // ---------- One declaration more or less ----------

  lemma {:induction false} TallyAdd(c: Construction, all: multiset<Declaration>, d: Declaration)
    requires Tallies(c, all, d.typ.identity) && |all| < MAX_U32
    ensures AddDeclaration(c, d).0.Ok? <==> AgreeingOn(all + multiset{d}, d.typ.identity)
    ensures
      !AddDeclaration(c, d).0.Ok? ==>
        AddDeclaration(c, d).0 == if d.typ.identity == 0 || d.index == 0 then InvalidArgument else SemanticConflict
    ensures AddDeclaration(c, d).0.Ok? ==> Tallies(AddDeclaration(c, d).1, all + multiset{d}, d.typ.identity)
  {
    hide Aggregates, AddDeclaration, AgreeingOn, Consistent;
    var id := d.typ.identity;
    var s :| Part(s, all, id) && Aggregates(c, s);
    PartSize(s, all, id);
    assert Part(s + [d], all + multiset{d}, id);
    PartAgrees(s + [d], all + multiset{d}, id);
    AddIsCounting(c, s, d);
  }

  lemma {:induction false} TallyRemove(c: Construction, all: multiset<Declaration>, d: Declaration)
    requires Tallies(c, all, d.typ.identity) && d in all
    ensures RemoveDeclaration(c, d).0.Ok? && c != NO_CONSTRUCTION
    ensures Tallies(RemoveDeclaration(c, d).1, all - multiset{d}, d.typ.identity)
  {
    hide RemoveDeclaration, Consistent, Labelled, Count;
    var id := d.typ.identity;
    var s :| Part(s, all, id) && Aggregates(c, s);
    assert multiset(s)[d] == all[d];
    assert d in multiset(s);
    var i := IndexOf(s, d);
    RemoveIsCounting(c, s, i);
    WithoutMultiset(s, i);
    assert Part(Without(s, i), all - multiset{d}, id);
  }

  /** The other types do not notice. */
  lemma {:induction false} TallyElsewhere(
      c: Construction, before: multiset<Declaration>, after: multiset<Declaration>, d: Declaration, id: nat)
    requires Tallies(c, before, id) && id != d.typ.identity
    requires after == before + multiset{d} || after == before - multiset{d}
    ensures Tallies(c, after, id)
  {
    hide Aggregates;
    var s :| Part(s, before, id) && Aggregates(c, s);
    forall x: Declaration ensures multiset(s)[x] == if x.typ.identity == id then after[x] else 0 {
      assert multiset(s)[x] == if x.typ.identity == id then before[x] else 0;
    }
    assert Part(s, after, id);
  }

  lemma {:induction false} TallyNothing(all: multiset<Declaration>, id: nat)
    requires forall d :: d in all ==> d.typ.identity != id
    ensures Tallies(NO_CONSTRUCTION, all, id)
  {
    hide Aggregates;
    EmptyAggregate([]);
    assert Part([], all, id);
  }

  lemma {:induction false} TallyAgrees(c: Construction, all: multiset<Declaration>, id: nat)
    requires Tallies(c, all, id)
    ensures AgreeingOn(all, id)
  {
    hide AgreeingOn, Consistent, Counted, Labelled, Part;
    var s :| Part(s, all, id) && Aggregates(c, s);
    PartAgrees(s, all, id);
  }

  // ---------- The books ----------

  /** `find_identity`: the handle of a type is one more than its position, and 0 stands for none. */
  function HandleOf(ids: seq<nat>, id: nat): (h: nat)
    ensures h <= |ids| && (h == 0 <==> id !in ids) && (h != 0 ==> ids[h - 1] == id)
  {
    if ids == [] then 0
    else
      var h := HandleOf(ids[..|ids| - 1], id);
      if h == 0 && ids[|ids| - 1] == id then |ids| else h
  }

  /** The committed slots and the patches over them. */
  datatype Ledger = Ledger(table: seq<Construction>, patches: seq<ConstructionPatch>)

  ghost function SlotAt(l: Ledger, handle: nat): Option<Construction> {
    var patched := PatchValue(l.patches, handle);
    if patched.Some? then patched else ConstructionAt(l.table, handle)
  }

  ghost function ValueAt(l: Ledger, handle: nat): Construction {
    var slot := SlotAt(l, handle);
    if slot.Some? then slot.value else NO_CONSTRUCTION
  }

  /** Every declared type is known, and every known type's slot is the aggregate of all its
      declarations. */
  ghost predicate Booked(ids: seq<nat>, l: Ledger, all: multiset<Declaration>) {
    && Distinct(ids) && 0 !in ids
    && (forall d :: d in all ==> d.typ.identity in ids)
    && (forall i :: 0 <= i < |ids| ==> Tallies(ValueAt(l, i + 1), all, ids[i]))
    && (forall h :: h > |ids| ==> ValueAt(l, h) == NO_CONSTRUCTION)
  }

  ghost predicate Posted(before: Ledger, after: Ledger, handle: nat, value: Construction) {
    ValueAt(after, handle) == value && forall other :: 0 < other != handle ==> ValueAt(after, other) == ValueAt(before, other)
  }

  lemma {:induction false} BooksAgree(ids: seq<nat>, l: Ledger, all: multiset<Declaration>)
    requires Booked(ids, l, all)
    ensures Agreeing(all)
  {
    hide Tallies, ValueAt;
    forall id ensures AgreeingOn(all, id) {
      if id in ids {
        var i :| 0 <= i < |ids| && ids[i] == id;
        TallyAgrees(ValueAt(l, i + 1), all, id);
      }
    }
  }

  /** A declaration of a type that is in the books can be taken out of them. */
  lemma {:induction false} BookRemoval(
      ids: seq<nat>, before: Ledger, after: Ledger, all: multiset<Declaration>, d: Declaration)
    requires Booked(ids, before, all) && d in all
    ensures
      var h := HandleOf(ids, d.typ.identity);
      && h != 0 && SlotAt(before, h).Some? && RemoveDeclaration(ValueAt(before, h), d).0.Ok?
      && (Posted(before, after, h, RemoveDeclaration(ValueAt(before, h), d).1) ==> Booked(ids, after, all - multiset{d}))
  {
    hide Tallies, RemoveDeclaration;
    var h := HandleOf(ids, d.typ.identity);
    assert d.typ.identity in ids;
    TallyRemove(ValueAt(before, h), all, d);
    if Posted(before, after, h, RemoveDeclaration(ValueAt(before, h), d).1) {
      forall i | 0 <= i < |ids| ensures Tallies(ValueAt(after, i + 1), all - multiset{d}, ids[i]) {
        if i != h - 1 { TallyElsewhere(ValueAt(before, i + 1), all, all - multiset{d}, d, ids[i]); }
      }
    }
  }

  /** A type not seen before gets the next handle. */
  function Known(ids: seq<nat>, id: nat): (r: seq<nat>)
    ensures ids <= r && id in r
    ensures |r| == if id in ids then |ids| else |ids| + 1
  {
    if id in ids then ids else ids + [id]
  }

  lemma {:induction false} KnownHandle(ids: seq<nat>, id: nat)
    requires Distinct(ids)
    ensures Distinct(Known(ids, id)) && HandleOf(Known(ids, id), id) != 0
    ensures id !in ids ==> HandleOf(Known(ids, id), id) == |ids| + 1
    ensures id in ids ==> HandleOf(Known(ids, id), id) == HandleOf(ids, id)
  {
    if id !in ids { assert (ids + [id])[..|ids|] == ids; }
  }

  lemma {:induction false} BookIdentity(ids: seq<nat>, l: Ledger, all: multiset<Declaration>, id: nat)
    requires Booked(ids, l, all) && id != 0
    ensures Booked(Known(ids, id), l, all)
  {
    hide Tallies, ValueAt;
    KnownHandle(ids, id);
    if id !in ids {
      TallyNothing(all, id);
      assert ValueAt(l, |ids| + 1) == NO_CONSTRUCTION;
    }
  }

  /** A declaration can be added exactly if it contradicts nothing. */
  lemma {:induction false} BookAddition(
      ids: seq<nat>, before: Ledger, after: Ledger, all: multiset<Declaration>, d: Declaration)
    requires Booked(ids, before, all) && |all| < MAX_U32 && d.typ.identity in ids
    ensures
      var h := HandleOf(ids, d.typ.identity);
      && (AddDeclaration(ValueAt(before, h), d).0.Ok? <==> AgreeingOn(all + multiset{d}, d.typ.identity))
      && (!AddDeclaration(ValueAt(before, h), d).0.Ok? ==>
            AddDeclaration(ValueAt(before, h), d).0
            == if d.typ.identity == 0 || d.index == 0 then InvalidArgument else SemanticConflict)
      && (AddDeclaration(ValueAt(before, h), d).0.Ok? && Posted(before, after, h, AddDeclaration(ValueAt(before, h), d).1) ==>
            Booked(ids, after, all + multiset{d}))
  {
    hide Tallies, AddDeclaration, AgreeingOn;
    var h := HandleOf(ids, d.typ.identity);
    TallyAdd(ValueAt(before, h), all, d);
    if AddDeclaration(ValueAt(before, h), d).0.Ok? && Posted(before, after, h, AddDeclaration(ValueAt(before, h), d).1) {
      forall i | 0 <= i < |ids| ensures Tallies(ValueAt(after, i + 1), all + multiset{d}, ids[i]) {
        if i != h - 1 { TallyElsewhere(ValueAt(before, i + 1), all, all + multiset{d}, d, ids[i]); }
      }
    }
  }
}
