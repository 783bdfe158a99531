/** The parser's output for one source, as the contribution cache consumes it, and the
    loops that copy it into rebased arenas. Source spans, spellings, namespaces, aliases and
    methods never reach the cache and are not part of the record types here. */
module SourceFacts {
  import opened Wrappers
  import opened ContributionArenas

  datatype RecordFact = RecordFact(
    identity: nat, members: Range, baseCount: nat, definition: bool, recordKind: RecordKind)

  datatype EnumFact = EnumFact(
    identity: nat, enumerators: Range, underlying: nat, definition: bool, scoped: bool)

  datatype DeclarationKind = NamespaceScope | RecordType | EnumType | ObjectDeclaration | LinkDeclaration | Alias

  datatype DeclarationRef = DeclarationRef(index: nat, kind: DeclarationKind)

  datatype Facts = Facts(
    source: nat, records: seq<RecordFact>, members: seq<Member>, modifiers: seq<Modifier>,
    enums: seq<EnumFact>, enumValues: seq<EnumValue>, declarations: seq<DeclarationRef>,
    objects: seq<Object>, links: seq<Link>)

  // ---------- Validity ----------

  predicate RefInRange(f: Facts, d: DeclarationRef) {
    match d.kind
    case RecordType => d.index < |f.records|
    case EnumType => d.index < |f.enums|
    case ObjectDeclaration => d.index < |f.objects|
    case LinkDeclaration => d.index < |f.links|
    case NamespaceScope => true
    case Alias => true
  }

  predicate RefsInRange(f: Facts) {
    forall i :: 0 <= i < |f.declarations| ==> RefInRange(f, f.declarations[i])
  }

  /** How many of these references are of one kind. */
  function KindCount(refs: seq<DeclarationRef>, kind: DeclarationKind): nat {
    if refs == [] then 0
    else KindCount(refs[..|refs| - 1], kind) + if refs[|refs| - 1].kind == kind then 1 else 0
  }

  /** The references of one kind go through all `n` facts of that kind, once each and in order. */
  predicate Lists(refs: seq<DeclarationRef>, kind: DeclarationKind, n: nat) {
    && KindCount(refs, kind) == n
    && forall i :: 0 <= i < |refs| && refs[i].kind == kind ==> refs[i].index == KindCount(refs[..i], kind)
  }

  /** A declaration order, when there is one, mentions everything exactly once. */
  predicate Sequenced(f: Facts) {
    f.declarations != [] ==>
      && Lists(f.declarations, RecordType, |f.records|) && Lists(f.declarations, EnumType, |f.enums|)
      && Lists(f.declarations, ObjectDeclaration, |f.objects|) && Lists(f.declarations, LinkDeclaration, |f.links|)
  }

  /** Every type declared has an identity. */
  predicate Identified(f: Facts) {
    && (forall i :: 0 <= i < |f.records| ==> f.records[i].identity != 0)
    && (forall i :: 0 <= i < |f.enums| ==> f.enums[i].identity != 0)
  }

  /** The part of `validate_source_facts` that concerns what the cache stores: everything a record
      points at is inside the packet, modifiers belong to some member or object, types have
      identities, and the declaration order is one of all declarations. */
  predicate ValidFacts(f: Facts) {
    && 0 < f.source <= MAX_U32
    && Identified(f) && Sequenced(f)
    && (forall i :: 0 <= i < |f.members| ==> Within(f.members[i].typ.modifiers, |f.modifiers|))
    && (forall i :: 0 <= i < |f.objects| ==> Within(f.objects[i].typ.modifiers, |f.modifiers|))
    && (forall i :: 0 <= i < |f.records| ==> Within(f.records[i].members, |f.members|))
    && (forall i :: 0 <= i < |f.enums| ==> Within(f.enums[i].enumerators, |f.enumValues|))
    && (f.members == [] && f.objects == [] ==> f.modifiers == [])
    && RefsInRange(f)
  }

  predicate HasBases(f: Facts) { exists i :: 0 <= i < |f.records| && f.records[i].baseCount != 0 }

  /** The loop of both `replace` operations over the records. */
  method FindBases(f: Facts) returns (found: bool)
    ensures found == HasBases(f)
  {
    for i := 0 to |f.records|
      invariant forall k :: 0 <= k < i ==> f.records[k].baseCount == 0
    {
      if f.records[i].baseCount != 0 { return true; }
    }
    found := false;
  }

  /** What both `replace` operations accept before they copy anything. */
  predicate Acceptable(f: Facts) { ValidFacts(f) && !HasBases(f) }

  // ---------- The normalized slice ----------

  function RecordDecl(r: RecordFact): (t: TypeDecl)
    ensures CanonicalType(t)
  {
    TypeDecl(r.identity, r.members, 0, r.recordKind, Record, r.definition, false)
  }

  function EnumDecl(e: EnumFact): (t: TypeDecl)
    ensures CanonicalType(t)
  {
    TypeDecl(e.identity, e.enumerators, e.underlying, Struct, Enumeration, e.definition, e.scoped)
  }

  /** The type a declaration reference contributes, if any. */
  function RefTypes(f: Facts, d: DeclarationRef): (r: seq<TypeDecl>)
    ensures Canonical(r)
  {
    if d.kind.RecordType? && d.index < |f.records| then [RecordDecl(f.records[d.index])]
    else if d.kind.EnumType? && d.index < |f.enums| then [EnumDecl(f.enums[d.index])]
    else []
  }

  function DeclaredTypes(f: Facts, refs: seq<DeclarationRef>): (r: seq<TypeDecl>)
    ensures Canonical(r)
  {
    if refs == [] then [] else DeclaredTypes(f, refs[..|refs| - 1]) + RefTypes(f, refs[|refs| - 1])
  }

  /** The references a packet without declaration order stands for: its records, then its enums. */
  function DefaultRefs(records: nat, enums: nat): (r: seq<DeclarationRef>)
    ensures |r| == records + enums
    ensures forall i :: 0 <= i < records ==> r[i] == DeclarationRef(i, RecordType)
    ensures forall i :: records <= i < records + enums ==> r[i] == DeclarationRef(i - records, EnumType)
  {
    seq(records + enums, i requires 0 <= i < records + enums =>
      if i < records then DeclarationRef(i, RecordType) else DeclarationRef(i - records, EnumType))
  }

  /** Declaration order when the packet has one, otherwise records before enums. */
  function TypeRefs(f: Facts): seq<DeclarationRef> {
    if f.declarations != [] then f.declarations else DefaultRefs(|f.records|, |f.enums|)
  }

  function TypesOf(f: Facts): (r: seq<TypeDecl>)
    ensures Canonical(r)
  {
    DeclaredTypes(f, TypeRefs(f))
  }

  lemma {:induction false} DeclaredCount(f: Facts, refs: seq<DeclarationRef>)
    requires Identified(f) && forall i :: 0 <= i < |refs| ==> RefInRange(f, refs[i])
    ensures |DeclaredTypes(f, refs)| == KindCount(refs, RecordType) + KindCount(refs, EnumType)
    ensures forall i :: 0 <= i < |DeclaredTypes(f, refs)| ==> DeclaredTypes(f, refs)[i].identity != 0
  {
    if refs != [] {
      var last := refs[|refs| - 1];
      assert RefInRange(f, last);
      DeclaredCount(f, refs[..|refs| - 1]);
      forall i | 0 <= i < |RefTypes(f, last)| ensures RefTypes(f, last)[i].identity != 0 {}
    }
  }

  lemma {:induction false} DefaultCount(records: nat, enums: nat, k: nat)
    requires k <= records + enums
    ensures
      var refs := DefaultRefs(records, enums)[..k];
      && KindCount(refs, RecordType) == (if k <= records then k else records)
      && KindCount(refs, EnumType) == (if k <= records then 0 else k - records)
  {
    if k != 0 {
      DefaultCount(records, enums, k - 1);
      assert DefaultRefs(records, enums)[..k][..k - 1] == DefaultRefs(records, enums)[..k - 1];
    }
  }

  /** A valid packet contributes each of its records and enums once, with an identity. */
  lemma {:induction false} TypesCounted(f: Facts)
    requires ValidFacts(f)
    ensures |TypesOf(f)| == |f.records| + |f.enums|
    ensures forall i :: 0 <= i < |TypesOf(f)| ==> TypesOf(f)[i].identity != 0
  {
    var refs := TypeRefs(f);
    if f.declarations == [] {
      DefaultCount(|f.records|, |f.enums|, |refs|);
      assert refs[..|refs|] == refs;
    }
    forall i | 0 <= i < |refs| ensures RefInRange(f, refs[i]) {}
    DeclaredCount(f, refs);
  }

  /** What a source contributes, with indices relative to its own slice. */
  function Normalize(f: Facts): Arenas {
    Arenas(TypesOf(f), f.members, f.modifiers, f.enumValues, f.objects, f.links)
  }

  // ---------- Copying with rebasing ----------

  predicate MembersFit(items: seq<Member>, base: int) {
    forall i :: 0 <= i < |items| ==> base + items[i].typ.modifiers.begin <= MAX_U32
  }

  predicate ObjectsFit(items: seq<Object>, base: int) {
    forall i :: 0 <= i < |items| ==> base + items[i].typ.modifiers.begin <= MAX_U32
  }

  predicate TypeFits(t: TypeDecl, members: int, enumValues: int) {
    ShiftType(t, members, enumValues).items.begin <= MAX_U32
  }

  predicate TypesFit(s: seq<TypeDecl>, members: int, enumValues: int) {
    forall i :: 0 <= i < |s| ==> TypeFits(s[i], members, enumValues)
  }

  /** Every rebased index of the slice fits in 32 bits. */
  predicate Fits(slice: Arenas, members: int, modifiers: int, enumValues: int) {
    && MembersFit(slice.members, modifiers)
    && ObjectsFit(slice.objects, modifiers)
    && TypesFit(slice.types, members, enumValues)
  }

  method AppendMembers(target: seq<Member>, items: seq<Member>, base: nat) returns (ok: bool, out: seq<Member>)
    ensures ok == MembersFit(items, base)
    ensures ok ==> out == target + ShiftMembers(items, base)
  {
    out := target;
    for i := 0 to |items|
      invariant MembersFit(items[..i], base)
      invariant out == target + ShiftMembers(items[..i], base)
    {
      if base + items[i].typ.modifiers.begin > MAX_U32 {
        return false, out;
      }
      out := out + [ShiftMember(items[i], base)];
      assert items[..i + 1] == items[..i] + [items[i]];
      assert ShiftMembers(items[..i + 1], base) == ShiftMembers(items[..i], base) + [ShiftMember(items[i], base)];
    }
    assert items[..|items|] == items;
    ok := true;
  }

  method AppendObjects(target: seq<Object>, items: seq<Object>, base: nat) returns (ok: bool, out: seq<Object>)
    ensures ok == ObjectsFit(items, base)
    ensures ok ==> out == target + ShiftObjects(items, base)
  {
    out := target;
    for i := 0 to |items|
      invariant ObjectsFit(items[..i], base)
      invariant out == target + ShiftObjects(items[..i], base)
    {
      if base + items[i].typ.modifiers.begin > MAX_U32 {
        return false, out;
      }
      out := out + [ShiftObject(items[i], base)];
      assert items[..i + 1] == items[..i] + [items[i]];
      assert ShiftObjects(items[..i + 1], base) == ShiftObjects(items[..i], base) + [ShiftObject(items[i], base)];
    }
    assert items[..|items|] == items;
    ok := true;
  }

  lemma {:induction false} ShiftTypesAppend(a: seq<TypeDecl>, b: seq<TypeDecl>, members: int, enumValues: int)
    ensures ShiftTypes(a + b, members, enumValues) == ShiftTypes(a, members, enumValues) + ShiftTypes(b, members, enumValues)
    ensures TypesFit(a + b, members, enumValues) <==> TypesFit(a, members, enumValues) && TypesFit(b, members, enumValues)
  {
    if TypesFit(a + b, members, enumValues) {
      forall i | 0 <= i < |a| ensures TypeFits(a[i], members, enumValues) { assert (a + b)[i] == a[i]; }
      forall i | 0 <= i < |b| ensures TypeFits(b[i], members, enumValues) { assert (a + b)[|a| + i] == b[i]; }
    }
  }

  /** Appends the rebased form of what one declaration stands for. */
  method AppendOne(target: seq<TypeDecl>, one: seq<TypeDecl>, members: nat, enumValues: nat)
      returns (ok: bool, out: seq<TypeDecl>)
    requires |one| <= 1
    ensures ok == TypesFit(one, members, enumValues)
    ensures ok ==> out == target + ShiftTypes(one, members, enumValues)
  {
    if |one| == 0 { return true, target; }
    var shifted := ShiftType(one[0], members, enumValues);
    ok := shifted.items.begin <= MAX_U32;
    out := target + [shifted];
  }

  lemma {:induction false} DeclaredStep(f: Facts, refs: seq<DeclarationRef>, i: nat, members: int, enumValues: int)
    requires i < |refs|
    ensures ShiftTypes(DeclaredTypes(f, refs[..i + 1]), members, enumValues)
         == ShiftTypes(DeclaredTypes(f, refs[..i]), members, enumValues) + ShiftTypes(RefTypes(f, refs[i]), members, enumValues)
    ensures TypesFit(DeclaredTypes(f, refs[..i + 1]), members, enumValues)
        <==> TypesFit(DeclaredTypes(f, refs[..i]), members, enumValues) && TypesFit(RefTypes(f, refs[i]), members, enumValues)
  {
    assert refs[..i + 1][..i] == refs[..i];
    ShiftTypesAppend(DeclaredTypes(f, refs[..i]), RefTypes(f, refs[i]), members, enumValues);
  }

  /** The declaration loop of both engines: an index that no longer fits in 32 bits makes the
      update unavailable. References are in range because the facts were validated. */
  method AppendTypes(target: seq<TypeDecl>, f: Facts, members: nat, enumValues: nat)
      returns (result: Status, out: seq<TypeDecl>)
    requires RefsInRange(f)
    ensures result == if TypesFit(TypesOf(f), members, enumValues) then Ok else NotAvailable
    ensures result.Ok? ==> out == target + ShiftTypes(TypesOf(f), members, enumValues)
  {
    out := target;
    var refs := TypeRefs(f);
    for i := 0 to |refs|
      invariant TypesFit(DeclaredTypes(f, refs[..i]), members, enumValues)
      invariant out == target + ShiftTypes(DeclaredTypes(f, refs[..i]), members, enumValues)
    {
      DeclaredStep(f, refs, i, members, enumValues);
      var ok, next := AppendOne(out, RefTypes(f, refs[i]), members, enumValues);
      if !ok {
        DeclaredPrefixFits(f, refs, i + 1, members, enumValues);
        return NotAvailable, out;
      }
      out := next;
    }
    assert refs[..|refs|] == refs;
    result := Ok;
  }

  lemma {:induction false} DeclaredPrefixFits(
      f: Facts, refs: seq<DeclarationRef>, k: nat, members: int, enumValues: int)
    requires k <= |refs|
    ensures TypesFit(DeclaredTypes(f, refs), members, enumValues)
            ==> TypesFit(DeclaredTypes(f, refs[..k]), members, enumValues)
  {
    if k == |refs| {
      assert refs[..k] == refs;
    } else {
      var front := refs[..|refs| - 1];
      DeclaredPrefixFits(f, front, k, members, enumValues);
      assert front[..k] == refs[..k];
      ShiftTypesAppend(DeclaredTypes(f, front), RefTypes(f, refs[|refs| - 1]), members, enumValues);
    }
  }
}
