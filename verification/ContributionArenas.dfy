/** The records of the source contribution cache, and the pure algebra of slices:
    every source owns one range in each of six append-only arenas, and inside those
    ranges records point at other records by absolute index. A `Arenas` value is used
    both for the shared arenas and for one source's own slice, whose indices are then
    relative to the slice. */
module ContributionArenas {
  import opened Wrappers

  /** A half-open run of records. `begin` is an `int` so that rebasing is total. */
  datatype Range = Range(begin: int, count: int)

  // ---------- Records ----------

  datatype TypeRef = TypeRef(identity: nat, intrinsic: nat, modifiers: Range)
  datatype Access = Public | Protected | Private
  datatype ConstructionValue = ConstructionValue(low: nat, high: nat, operand: nat, kind: nat)
  datatype Member = Member(typ: TypeRef, name: nat, access: Access, construction: ConstructionValue)
  datatype Modifier = Modifier(kind: nat, value: nat)
  datatype EnumValue = EnumValue(name: nat, intrinsic: nat, bits: nat)
  datatype Object = Object(identity: nat, typ: TypeRef, constructionFlags: nat)
  datatype Endpoint = Endpoint(owner: nat, member: nat)
  datatype Link = Link(source: Endpoint, target: Endpoint)

  datatype RecordKind = Struct | Class | Union
  datatype TypeKind = Record | Enumeration

  /** One type declaration in the cache. `definition` and `scoped` are the two flag bits. */
  datatype TypeDecl = TypeDecl(
    identity: nat, items: Range, underlying: nat, recordKind: RecordKind, kind: TypeKind,
    definition: bool, scoped: bool)

  datatype Arenas = Arenas(
    types: seq<TypeDecl>, members: seq<Member>, modifiers: seq<Modifier>,
    enumValues: seq<EnumValue>, objects: seq<Object>, links: seq<Link>)

  datatype Sizes = Sizes(types: int, members: int, modifiers: int, enumValues: int, objects: int, links: int)

  const EMPTY: Arenas := Arenas([], [], [], [], [], [])

  /** The six ranges of one source; `source` is 0 in a slot nobody owns. */
  datatype State = State(
    source: nat, types: Range, members: Range, modifiers: Range,
    enumValues: Range, objects: Range, links: Range)

  const NO_STATE: State :=
    State(0, Range(0, 0), Range(0, 0), Range(0, 0), Range(0, 0), Range(0, 0), Range(0, 0))

  function SizesOf(a: Arenas): Sizes {
    Sizes(|a.types|, |a.members|, |a.modifiers|, |a.enumValues|, |a.objects|, |a.links|)
  }

  function Plus(a: Sizes, b: Sizes): Sizes {
    Sizes(a.types + b.types, a.members + b.members, a.modifiers + b.modifiers,
          a.enumValues + b.enumValues, a.objects + b.objects, a.links + b.links)
  }

  function Append(a: Arenas, b: Arenas): Arenas {
    Arenas(a.types + b.types, a.members + b.members, a.modifiers + b.modifiers,
           a.enumValues + b.enumValues, a.objects + b.objects, a.links + b.links)
  }

  lemma {:induction false} AppendAssociative(a: Arenas, b: Arenas, c: Arenas)
    ensures Append(Append(a, b), c) == Append(a, Append(b, c))
  {
    assert (a.types + b.types) + c.types == a.types + (b.types + c.types);
    assert (a.members + b.members) + c.members == a.members + (b.members + c.members);
    assert (a.modifiers + b.modifiers) + c.modifiers == a.modifiers + (b.modifiers + c.modifiers);
    assert (a.enumValues + b.enumValues) + c.enumValues == a.enumValues + (b.enumValues + c.enumValues);
    assert (a.objects + b.objects) + c.objects == a.objects + (b.objects + c.objects);
    assert (a.links + b.links) + c.links == a.links + (b.links + c.links);
  }

  // ---------- Rebasing ----------

  function ShiftRange(r: Range, d: int): Range { Range(r.begin + d, r.count) }

  function ShiftMember(m: Member, d: int): Member {
    m.(typ := m.typ.(modifiers := ShiftRange(m.typ.modifiers, d)))
  }

  function ShiftObject(o: Object, d: int): Object {
    o.(typ := o.typ.(modifiers := ShiftRange(o.typ.modifiers, d)))
  }

  /** A record's items are members, an enumeration's items are enum values. */
  function ShiftType(t: TypeDecl, members: int, enumValues: int): TypeDecl {
    t.(items := ShiftRange(t.items, if t.kind.Record? then members else enumValues))
  }

  function ShiftMembers(s: seq<Member>, d: int): (r: seq<Member>)
    ensures |r| == |s| && forall i :: 0 <= i < |s| ==> r[i] == ShiftMember(s[i], d)
  {
    seq(|s|, i requires 0 <= i < |s| => ShiftMember(s[i], d))
  }

  function ShiftObjects(s: seq<Object>, d: int): (r: seq<Object>)
    ensures |r| == |s| && forall i :: 0 <= i < |s| ==> r[i] == ShiftObject(s[i], d)
  {
    seq(|s|, i requires 0 <= i < |s| => ShiftObject(s[i], d))
  }

  function ShiftTypes(s: seq<TypeDecl>, members: int, enumValues: int): (r: seq<TypeDecl>)
    ensures |r| == |s| && forall i :: 0 <= i < |s| ==> r[i] == ShiftType(s[i], members, enumValues)
  {
    seq(|s|, i requires 0 <= i < |s| => ShiftType(s[i], members, enumValues))
  }

  /** Turns slice-relative indices into arena indices (or back, with negative bases). */
  function Shift(a: Arenas, members: int, modifiers: int, enumValues: int): Arenas {
    Arenas(ShiftTypes(a.types, members, enumValues), ShiftMembers(a.members, modifiers),
           a.modifiers, a.enumValues, ShiftObjects(a.objects, modifiers), a.links)
  }

  lemma {:induction false} UnshiftShift(a: Arenas, members: int, modifiers: int, enumValues: int)
    ensures Shift(Shift(a, members, modifiers, enumValues), -members, -modifiers, -enumValues) == a
  {
    var b := Shift(Shift(a, members, modifiers, enumValues), -members, -modifiers, -enumValues);
    assert b.types == a.types;
    assert b.members == a.members;
    assert b.objects == a.objects;
  }

  // ---------- Reading one source's slice ----------

  /** `checked_span`: nothing at all when the range is empty or leaves the arena. */
  function CheckedSpan<T>(values: seq<T>, r: Range): seq<T> {
    if r.begin < 0 || r.count <= 0 || r.begin > |values| || r.count > |values| - r.begin then []
    else values[r.begin..r.begin + r.count]
  }

  function Cut(a: Arenas, s: State): Arenas {
    Arenas(CheckedSpan(a.types, s.types), CheckedSpan(a.members, s.members),
           CheckedSpan(a.modifiers, s.modifiers), CheckedSpan(a.enumValues, s.enumValues),
           CheckedSpan(a.objects, s.objects), CheckedSpan(a.links, s.links))
  }

  /** What one source contributes, with indices relative to its own slice. */
  function View(a: Arenas, s: State): Arenas {
    Shift(Cut(a, s), -s.members.begin, -s.modifiers.begin, -s.enumValues.begin)
  }

  /** Looks a source up: the slot must exist and be owned by that source. */
  function Lookup(sources: seq<State>, source: nat): Option<State> {
    if source == 0 || source >= |sources| || sources[source].source != source then None
    else Some(sources[source])
  }

  function ViewOf(sources: seq<State>, a: Arenas, source: nat): Option<Arenas> {
    var s := Lookup(sources, source);
    if s.None? then None else Some(View(a, s.value))
  }

  // ---------- Well-formed slices ----------

  predicate Within(r: Range, size: int) { 0 <= r.begin && 0 <= r.count && r.begin + r.count <= size }

  predicate InBounds(s: State, z: Sizes) {
    && Within(s.types, z.types) && Within(s.members, z.members) && Within(s.modifiers, z.modifiers)
    && Within(s.enumValues, z.enumValues) && Within(s.objects, z.objects) && Within(s.links, z.links)
  }

  /** A record never carries an underlying type or the scoped flag, and an enumeration keeps
      the default record kind: the only shapes the two update engines produce. */
  predicate CanonicalType(t: TypeDecl) {
    if t.kind.Record? then t.underlying == 0 && !t.scoped else t.recordKind == Struct
  }

  predicate Canonical(s: seq<TypeDecl>) { forall i :: 0 <= i < |s| ==> CanonicalType(s[i]) }

  /** The state `s` stores exactly `slice` for `source`. */
  predicate Holds(a: Arenas, s: State, source: nat, slice: Arenas) {
    s.source == source && InBounds(s, SizesOf(a)) && View(a, s) == slice
  }

  lemma {:induction false} CutStable(a: Arenas, b: Arenas, s: State)
    requires InBounds(s, SizesOf(a))
    ensures Cut(Append(a, b), s) == Cut(a, s)
    ensures InBounds(s, SizesOf(Append(a, b)))
  {
  }

  /** Appending to the arenas never changes what an existing state denotes. */
  lemma {:induction false} HoldsStable(a: Arenas, b: Arenas, s: State, source: nat, slice: Arenas)
    requires Holds(a, s, source, slice)
    ensures Holds(Append(a, b), s, source, slice)
  {
    CutStable(a, b, s);
  }

  function StateOver(source: nat, base: Sizes, count: Sizes): State {
    State(source, Range(base.types, count.types), Range(base.members, count.members),
          Range(base.modifiers, count.modifiers), Range(base.enumValues, count.enumValues),
          Range(base.objects, count.objects), Range(base.links, count.links))
  }

  lemma {:induction false} CutTail(a: Arenas, b: Arenas, source: nat)
    ensures Cut(Append(a, b), StateOver(source, SizesOf(a), SizesOf(b))) == b
  {
  }

  /** A slice appended in rebased form, with a state covering it, is stored exactly. */
  lemma {:induction false} HoldsFresh(a: Arenas, slice: Arenas, source: nat)
    ensures var z := SizesOf(a);
      Holds(Append(a, Shift(slice, z.members, z.modifiers, z.enumValues)),
            StateOver(source, z, SizesOf(slice)), source, slice)
  {
    var z := SizesOf(a);
    var b := Shift(slice, z.members, z.modifiers, z.enumValues);
    CutTail(a, b, source);
    UnshiftShift(slice, z.members, z.modifiers, z.enumValues);
  }
}
