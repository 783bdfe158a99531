/** What the shared arenas hold for a source, read at the absolute places a reader of the cache
    follows: the items of a stored type and the modifiers of a stored reference. */
module StoredFacts {
  import opened Wrappers
  import opened ContributionArenas
  import opened SourceFacts

  /** The same reference, with the same modifiers wherever each arena keeps them. */
  predicate SameReference(stored: TypeRef, kept: seq<Modifier>, given: TypeRef, modifiers: seq<Modifier>) {
    && stored.identity == given.identity && stored.intrinsic == given.intrinsic
    && CheckedSpan(kept, stored.modifiers) == CheckedSpan(modifiers, given.modifiers)
  }

  predicate SameMember(stored: Member, kept: seq<Modifier>, given: Member, modifiers: seq<Modifier>) {
    && stored.name == given.name && stored.access == given.access && stored.construction == given.construction
    && SameReference(stored.typ, kept, given.typ, modifiers)
  }

  predicate SameMembers(stored: seq<Member>, kept: seq<Modifier>, given: seq<Member>, modifiers: seq<Modifier>) {
    |stored| == |given| && forall i :: 0 <= i < |stored| ==> SameMember(stored[i], kept, given[i], modifiers)
  }

  predicate SameObject(stored: Object, kept: seq<Modifier>, given: Object, modifiers: seq<Modifier>) {
    && stored.identity == given.identity && stored.constructionFlags == given.constructionFlags
    && SameReference(stored.typ, kept, given.typ, modifiers)
  }

  /** The stored type is the record, and the members at its items are the record's. */
  predicate SameRecordType(t: TypeDecl, a: Arenas, f: Facts, r: RecordFact) {
    && t.kind == Record && t.identity == r.identity && t.recordKind == r.recordKind && t.definition == r.definition
    && SameMembers(CheckedSpan(a.members, t.items), a.modifiers, CheckedSpan(f.members, r.members), f.modifiers)
  }

  /** The stored type is the enumeration, and the values at its items are the enumeration's. */
  predicate SameEnumType(t: TypeDecl, a: Arenas, f: Facts, e: EnumFact) {
    && t.kind == Enumeration && t.identity == e.identity && t.underlying == e.underlying
    && t.definition == e.definition && t.scoped == e.scoped
    && CheckedSpan(a.enumValues, t.items) == CheckedSpan(f.enumValues, e.enumerators)
  }

  /** The references to records and enumerations, in order. */
  function TypesAmong(refs: seq<DeclarationRef>): seq<DeclarationRef> {
    if refs == [] then []
    else
      var last := refs[|refs| - 1];
      TypesAmong(refs[..|refs| - 1]) + if last.kind.RecordType? || last.kind.EnumType? then [last] else []
  }

  /** In declared order, or records before enumerations. */
  function DeclaredOrder(f: Facts): seq<DeclarationRef> {
    TypesAmong(if f.declarations != [] then f.declarations else DefaultRefs(|f.records|, |f.enums|))
  }

  predicate SameType(t: TypeDecl, a: Arenas, f: Facts, d: DeclarationRef) {
    if d.kind.RecordType? then d.index < |f.records| && SameRecordType(t, a, f, f.records[d.index])
    else d.index < |f.enums| && SameEnumType(t, a, f, f.enums[d.index])
  }

  /** Read from the arenas, the slices of `s` are the facts of the source. */
  predicate Stands(a: Arenas, s: State, f: Facts) {
    && s.source == f.source
    && |CheckedSpan(a.types, s.types)| == |DeclaredOrder(f)|
    && (forall k :: 0 <= k < |DeclaredOrder(f)| ==> SameType(CheckedSpan(a.types, s.types)[k], a, f, DeclaredOrder(f)[k]))
    && SameMembers(CheckedSpan(a.members, s.members), a.modifiers, f.members, f.modifiers)
    && |CheckedSpan(a.objects, s.objects)| == |f.objects|
    && (forall k :: 0 <= k < |f.objects| ==>
          SameObject(CheckedSpan(a.objects, s.objects)[k], a.modifiers, f.objects[k], f.modifiers))
    && CheckedSpan(a.enumValues, s.enumValues) == f.enumValues && CheckedSpan(a.links, s.links) == f.links
  }

  // ---------- Slices that are held stand for their facts ----------

  /** A range inside a slice, moved to where the slice starts. */
  lemma {:induction false} SpanInside<T>(values: seq<T>, slice: Range, inner: Range)
    requires Within(slice, |values|) && Within(inner, slice.count)
    ensures |CheckedSpan(values, slice)| == slice.count
    ensures CheckedSpan(values, Range(slice.begin + inner.begin, inner.count)) == CheckedSpan(CheckedSpan(values, slice), inner)
  {
    if inner.count > 0 {
      var start := slice.begin + inner.begin;
      var outer := values[slice.begin..slice.begin + slice.count];
      var x, y := outer[inner.begin..inner.begin + inner.count], values[start..start + inner.count];
      assert forall k :: 0 <= k < inner.count ==> x[k] == y[k];
      assert x == y;
    }
  }

  lemma {:induction false} ReferenceHeld(a: Arenas, s: State, f: Facts, stored: TypeRef, given: TypeRef)
    requires Holds(a, s, f.source, Normalize(f)) && Within(given.modifiers, |f.modifiers|)
    requires stored.identity == given.identity && stored.intrinsic == given.intrinsic
    requires ShiftRange(stored.modifiers, -s.modifiers.begin) == given.modifiers
    ensures SameReference(stored, a.modifiers, given, f.modifiers)
  {
    hide TypesOf;
    assert View(a, s).modifiers == f.modifiers;
    SpanInside(a.modifiers, s.modifiers, given.modifiers);
  }

  /** The members of a source, read through the arenas. */
  lemma {:induction false} MembersHeld(a: Arenas, s: State, f: Facts)
    requires Holds(a, s, f.source, Normalize(f)) && ValidFacts(f)
    ensures SameMembers(CheckedSpan(a.members, s.members), a.modifiers, f.members, f.modifiers)
  {
    hide TypesOf, SameReference, Sequenced;
    var cut := CheckedSpan(a.members, s.members);
    assert View(a, s).members == f.members;
    forall i | 0 <= i < |cut| ensures SameMember(cut[i], a.modifiers, f.members[i], f.modifiers) {
      assert ShiftMember(cut[i], -s.modifiers.begin) == f.members[i];
      ReferenceHeld(a, s, f, cut[i].typ, f.members[i].typ);
    }
  }

  lemma {:induction false} ObjectsHeld(a: Arenas, s: State, f: Facts)
    requires Holds(a, s, f.source, Normalize(f)) && ValidFacts(f)
    ensures |CheckedSpan(a.objects, s.objects)| == |f.objects|
    ensures forall k :: 0 <= k < |f.objects| ==>
      SameObject(CheckedSpan(a.objects, s.objects)[k], a.modifiers, f.objects[k], f.modifiers)
  {
    hide TypesOf, SameReference, Sequenced;
    var cut := CheckedSpan(a.objects, s.objects);
    assert View(a, s).objects == f.objects;
    forall i | 0 <= i < |cut| ensures SameObject(cut[i], a.modifiers, f.objects[i], f.modifiers) {
      assert ShiftObject(cut[i], -s.modifiers.begin) == f.objects[i];
      ReferenceHeld(a, s, f, cut[i].typ, f.objects[i].typ);
    }
  }

  /** The members at a stored record's items are the record's. */
  lemma {:induction false} RecordHeld(a: Arenas, s: State, f: Facts, t: TypeDecl, r: RecordFact)
    requires Holds(a, s, f.source, Normalize(f)) && ValidFacts(f) && Within(r.members, |f.members|)
    requires ShiftType(t, -s.members.begin, -s.enumValues.begin) == RecordDecl(r)
    ensures SameRecordType(t, a, f, r)
  {
    hide TypesOf, SameMember, Sequenced;
    MembersHeld(a, s, f);
    assert t.items == Range(s.members.begin + r.members.begin, r.members.count);
    SpanInside(a.members, s.members, r.members);
  }

  lemma {:induction false} EnumHeld(a: Arenas, s: State, f: Facts, t: TypeDecl, e: EnumFact)
    requires Holds(a, s, f.source, Normalize(f)) && Within(e.enumerators, |f.enumValues|)
    requires ShiftType(t, -s.members.begin, -s.enumValues.begin) == EnumDecl(e)
    ensures SameEnumType(t, a, f, e)
  {
    hide TypesOf;
    assert View(a, s).enumValues == f.enumValues;
    assert t.items == Range(s.enumValues.begin + e.enumerators.begin, e.enumerators.count);
    SpanInside(a.enumValues, s.enumValues, e.enumerators);
  }

  /** The normal form lists the declared types, one for each reference. */
  lemma {:induction false} TypesListed(f: Facts, refs: seq<DeclarationRef>)
    requires forall i :: 0 <= i < |refs| ==> RefInRange(f, refs[i])
    ensures |DeclaredTypes(f, refs)| == |TypesAmong(refs)|
    ensures forall k :: 0 <= k < |TypesAmong(refs)| ==>
      var d := TypesAmong(refs)[k];
      if d.kind.RecordType? then d.index < |f.records| && DeclaredTypes(f, refs)[k] == RecordDecl(f.records[d.index])
      else d.kind.EnumType? && d.index < |f.enums| && DeclaredTypes(f, refs)[k] == EnumDecl(f.enums[d.index])
  {
    if refs != [] {
      assert RefInRange(f, refs[|refs| - 1]);
      TypesListed(f, refs[..|refs| - 1]);
    }
  }

  lemma {:induction false} TypeHeld(a: Arenas, s: State, f: Facts, k: nat)
    requires Holds(a, s, f.source, Normalize(f)) && ValidFacts(f) && k < |DeclaredOrder(f)|
    ensures |CheckedSpan(a.types, s.types)| == |DeclaredOrder(f)|
    ensures SameType(CheckedSpan(a.types, s.types)[k], a, f, DeclaredOrder(f)[k])
  {
    hide Sequenced, DeclaredTypes, TypesAmong, SameRecordType, SameEnumType;
    forall i | 0 <= i < |TypeRefs(f)| ensures RefInRange(f, TypeRefs(f)[i]) {}
    TypesListed(f, TypeRefs(f));
    var cut := CheckedSpan(a.types, s.types);
    assert View(a, s).types == TypesOf(f);
    assert ShiftType(cut[k], -s.members.begin, -s.enumValues.begin) == TypesOf(f)[k];
    var d := DeclaredOrder(f)[k];
    if d.kind.RecordType? {
      RecordHeld(a, s, f, cut[k], f.records[d.index]);
    } else {
      EnumHeld(a, s, f, cut[k], f.enums[d.index]);
    }
  }

  /** Whatever a slot holds the normal form of stands in the arenas for those very facts: every
      stored record's items are its own members, every enumeration's its own values, and every
      reference's modifiers its own modifiers. */
  lemma {:induction false} HeldStands(a: Arenas, s: State, f: Facts)
    requires Holds(a, s, f.source, Normalize(f)) && ValidFacts(f)
    ensures Stands(a, s, f)
  {
    hide Sequenced, SameType, SameMembers, SameObject, DeclaredTypes, TypesAmong;
    forall i | 0 <= i < |TypeRefs(f)| ensures RefInRange(f, TypeRefs(f)[i]) {}
    TypesListed(f, TypeRefs(f));
    assert |CheckedSpan(a.types, s.types)| == |View(a, s).types| == |TypesOf(f)|;
    forall k | 0 <= k < |DeclaredOrder(f)|
      ensures SameType(CheckedSpan(a.types, s.types)[k], a, f, DeclaredOrder(f)[k])
    {
      TypeHeld(a, s, f, k);
    }
    MembersHeld(a, s, f);
    ObjectsHeld(a, s, f);
    assert View(a, s).enumValues == f.enumValues && View(a, s).links == f.links;
  }
}
