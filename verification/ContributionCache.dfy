/** The committed cache, and the test that decides whether a source may be skipped. */
module ContributionCache {
  import opened Wrappers
  import opened ContributionArenas
  import opened SourceFacts
  import opened ContributionStorage

  /** Ranges in facts are unsigned words. */
  predicate UnsignedFacts(f: Facts) {
    && (forall i :: 0 <= i < |f.members| ==> f.members[i].typ.modifiers.begin >= 0)
    && (forall i :: 0 <= i < |f.objects| ==> f.objects[i].typ.modifiers.begin >= 0)
    && (forall i :: 0 <= i < |f.records| ==> f.records[i].members.begin >= 0)
    && (forall i :: 0 <= i < |f.enums| ==> f.enums[i].enumerators.begin >= 0)
  }

  // ---------- Comparison loops ----------

  /** Compares stored references, rebased by the start of the source's modifier range. */
  method SameMembers(cached: seq<Member>, current: seq<Member>, base: int) returns (same: bool)
    requires |cached| == |current|
    requires forall i :: 0 <= i < |current| ==> current[i].typ.modifiers.begin >= 0
    ensures same == (ShiftMembers(cached, -base) == current)
  {
    for i := 0 to |cached|
      invariant forall k :: 0 <= k < i ==> ShiftMember(cached[k], -base) == current[k]
    {
      var c, n := cached[i], current[i];
      if c.typ.identity != n.typ.identity || c.typ.intrinsic != n.typ.intrinsic ||
         c.typ.modifiers.count != n.typ.modifiers.count || c.access != n.access ||
         c.construction != n.construction || c.name != n.name ||
         c.typ.modifiers.begin < base || c.typ.modifiers.begin - base != n.typ.modifiers.begin {
        assert ShiftMembers(cached, -base)[i] != current[i];
        return false;
      }
    }
    same := true;
  }

  method SameObjects(cached: seq<Object>, current: seq<Object>, base: int) returns (same: bool)
    requires |cached| == |current|
    requires forall i :: 0 <= i < |current| ==> current[i].typ.modifiers.begin >= 0
    ensures same == (ShiftObjects(cached, -base) == current)
  {
    for i := 0 to |cached|
      invariant forall k :: 0 <= k < i ==> ShiftObject(cached[k], -base) == current[k]
    {
      var c, n := cached[i], current[i];
      if c.identity != n.identity || c.typ.identity != n.typ.identity ||
         c.constructionFlags != n.constructionFlags || c.typ.intrinsic != n.typ.intrinsic ||
         c.typ.modifiers.count != n.typ.modifiers.count ||
         c.typ.modifiers.begin < base || c.typ.modifiers.begin - base != n.typ.modifiers.begin {
        assert ShiftObjects(cached, -base)[i] != current[i];
        return false;
      }
    }
    same := true;
  }

  method SameModifiers(cached: seq<Modifier>, current: seq<Modifier>) returns (same: bool)
    requires |cached| == |current|
    ensures same == (cached == current)
  {
    for i := 0 to |cached|
      invariant cached[..i] == current[..i]
    {
      if cached[i].kind != current[i].kind || cached[i].value != current[i].value { return false; }
    }
    same := true;
  }

  method SameEnumValues(cached: seq<EnumValue>, current: seq<EnumValue>) returns (same: bool)
    requires |cached| == |current|
    ensures same == (cached == current)
  {
    for i := 0 to |cached|
      invariant cached[..i] == current[..i]
    {
      if cached[i].intrinsic != current[i].intrinsic || cached[i].bits != current[i].bits ||
         cached[i].name != current[i].name { return false; }
    }
    same := true;
  }

  method SameLinks(cached: seq<Link>, current: seq<Link>) returns (same: bool)
    requires |cached| == |current|
    ensures same == (cached == current)
  {
    for i := 0 to |cached|
      invariant cached[..i] == current[..i]
    {
      if cached[i].source.owner != current[i].source.owner || cached[i].source.member != current[i].source.member ||
         cached[i].target.owner != current[i].target.owner || cached[i].target.member != current[i].target.member {
        return false;
      }
    }
    same := true;
  }

  method SameRecord(cached: TypeDecl, current: RecordFact, members: int, enumValues: int) returns (same: bool)
    requires CanonicalType(cached) && current.members.begin >= 0
    ensures same == (ShiftType(cached, -members, -enumValues) == RecordDecl(current))
  {
    same := !(cached.identity != current.identity || cached.kind != Record ||
      cached.recordKind != current.recordKind || cached.definition != current.definition ||
      cached.items.count != current.members.count || cached.items.begin < members ||
      cached.items.begin - members != current.members.begin);
  }

  method SameEnum(cached: TypeDecl, current: EnumFact, members: int, enumValues: int) returns (same: bool)
    requires CanonicalType(cached) && current.enumerators.begin >= 0
    ensures same == (ShiftType(cached, -members, -enumValues) == EnumDecl(current))
  {
    same := !(cached.identity != current.identity || cached.kind != Enumeration ||
      cached.underlying != current.underlying || cached.scoped != current.scoped ||
      cached.definition != current.definition || cached.items.count != current.enumerators.count ||
      cached.items.begin < enumValues || cached.items.begin - enumValues != current.enumerators.begin);
  }

  /** Compares the types one declaration stands for against the cached types at the cursor. */
  method SameDeclaration(
      cached: seq<TypeDecl>, position: nat, f: Facts, d: DeclarationRef, members: int, enumValues: int)
      returns (same: bool, next: nat)
    requires Canonical(cached) && UnsignedFacts(f) && position <= |cached|
    ensures same == (RefInRange(f, d) && RefTypes(f, d) <= ShiftTypes(cached, -members, -enumValues)[position..])
    ensures same ==> next == position + |RefTypes(f, d)| && next <= |cached|
  {
    next := position;
    if !RefInRange(f, d) { return false, next; }
    if !d.kind.RecordType? && !d.kind.EnumType? { return true, next; }
    if position >= |cached| { return false, next; }
    next := position + 1;
    if d.kind.RecordType? {
      same := SameRecord(cached[position], f.records[d.index], members, enumValues);
    } else {
      same := SameEnum(cached[position], f.enums[d.index], members, enumValues);
    }
  }

  lemma {:induction false} DeclaredPrefix(f: Facts, refs: seq<DeclarationRef>, k: nat)
    requires k < |refs|
    ensures DeclaredTypes(f, refs[..k + 1]) == DeclaredTypes(f, refs[..k]) + RefTypes(f, refs[k])
    ensures DeclaredTypes(f, refs[..k + 1]) <= DeclaredTypes(f, refs)
  {
    assert refs[..k + 1][..k] == refs[..k];
    if k + 1 == |refs| {
      assert refs[..k + 1] == refs;
    } else {
      var front := refs[..|refs| - 1];
      DeclaredPrefix(f, front, k);
      assert front[..k + 1] == refs[..k + 1];
    }
  }

  lemma {:induction false} DeclaredMatch(
      types: seq<TypeDecl>, f: Facts, refs: seq<DeclarationRef>, k: nat, position: nat)
    requires k < |refs| && position <= |types| && types[..position] == DeclaredTypes(f, refs[..k])
    ensures types == DeclaredTypes(f, refs) ==> RefTypes(f, refs[k]) <= types[position..]
  {
    DeclaredPrefix(f, refs, k);
    var next := DeclaredTypes(f, refs[..k + 1]);
    if types == DeclaredTypes(f, refs) {
      assert types[..|next|] == next;
      assert types[position..|next|] == RefTypes(f, refs[k]);
      assert types[position..][..|next| - position] == types[position..|next|];
    }
  }

  lemma {:induction false} DeclaredExtend(
      types: seq<TypeDecl>, f: Facts, refs: seq<DeclarationRef>, k: nat, position: nat)
    requires k < |refs| && position <= |types| && types[..position] == DeclaredTypes(f, refs[..k])
    requires RefTypes(f, refs[k]) <= types[position..]
    ensures types[..position + |RefTypes(f, refs[k])|] == DeclaredTypes(f, refs[..k + 1])
  {
    DeclaredPrefix(f, refs, k);
    var next := position + |RefTypes(f, refs[k])|;
    assert types[..next] == types[..position] + types[position..next];
    assert types[position..next] == types[position..][..next - position];
  }

  /** The type comparison: walks the declarations in order with a cursor into the cached types,
      and requires the cursor to end exactly at their end. */
  method SameTypes(cached: seq<TypeDecl>, f: Facts, members: int, enumValues: int) returns (same: bool)
    requires Canonical(cached) && UnsignedFacts(f)
    ensures same == (RefsInRange(f) && ShiftTypes(cached, -members, -enumValues) == TypesOf(f))
  {
    hide RefTypes, ShiftTypes, Canonical, UnsignedFacts;
    var refs := TypeRefs(f);
    ghost var shifted := ShiftTypes(cached, -members, -enumValues);
    var position: nat := 0;
    for i := 0 to |refs|
      invariant position <= |cached|
      invariant forall k :: 0 <= k < i ==> RefInRange(f, refs[k])
      invariant shifted[..position] == DeclaredTypes(f, refs[..i])
    {
      var one, next := SameDeclaration(cached, position, f, refs[i], members, enumValues);
      if !one {
        DeclaredMatch(shifted, f, refs, i, position);
        return false;
      }
      DeclaredExtend(shifted, f, refs, i, position);
      position := next;
    }
    assert refs[..|refs|] == refs;
    assert shifted[..|shifted|] == shifted;
    same := position == |cached|;
  }

  // ---------- The cache ----------

  class Cache {
    var committed: Storage
    var statistics: Statistics
    var complete: bool
    const baselineBacked: bool

    ghost predicate Valid()
      reads this
    {
      WellFormed(committed, statistics)
    }

    /** What the cache says about one source. */
    ghost function ViewAt(source: nat): Option<Arenas>
      reads this
    {
      StorageView(committed, source)
    }

    /** The default cache: empty and complete. */
    constructor ()
      ensures Valid() && complete && !baselineBacked
      ensures forall source :: ViewAt(source) == None
    {
      committed := Storage(Vector([], 0), Vector([], 0), Vector([], 0), Vector([], 0), Vector([], 0),
                           Vector([], 0), Vector([], 0), Vector([], 0), NO_STATISTICS);
      statistics := NO_STATISTICS;
      complete := true;
      baselineBacked := false;
    }

    /** The cache over a persisted image, given that the image is consistent with the
        statistics and completeness it records. */
    constructor FromBaseline(image: Storage, recorded: Statistics, recordedComplete: bool)
      requires WellFormed(image, recorded)
      ensures Valid() && baselineBacked && complete == recordedComplete
      ensures committed == image && statistics == recorded
    {
      committed := image;
      statistics := recorded;
      complete := recordedComplete;
      baselineBacked := true;
    }

    /** `equivalent`: true exactly when the stored slice is the one `replace` would store. */
    method Equivalent(f: Facts) returns (r: bool)
      requires Valid() && UnsignedFacts(f)
      ensures r == (RefsInRange(f) && ViewAt(f.source) == Some(Normalize(f)))
    {
      var s := Lookup(committed.sources.items, f.source);
      if s.None? { return false; }
      var cut := Cut(ArenasOf(committed), s.value);
      if |cut.members| != |f.members| || |cut.modifiers| != |f.modifiers| ||
         |cut.enumValues| != |f.enumValues| || |cut.objects| != |f.objects| || |cut.links| != |f.links| {
        return false;
      }
      r := SameModifiers(cut.modifiers, f.modifiers);
      if !r { return; }
      r := SameMembers(cut.members, f.members, s.value.modifiers.begin);
      if !r { return; }
      r := SameEnumValues(cut.enumValues, f.enumValues);
      if !r { return; }
      r := SameObjects(cut.objects, f.objects, s.value.modifiers.begin);
      if !r { return; }
      r := SameLinks(cut.links, f.links);
      if !r { return; }
      r := SameTypes(cut.types, f, s.value.members.begin, s.value.enumValues.begin);
    }
  }
}
