/** The per-type aggregate behind the construction slots: declarations are added and removed
    one by one, and the result must be what a recount from scratch would give. */
module ConstructionAggregate {
  import opened Wrappers
  import opened ContributionArenas
  import opened ContributionStorage

  /** One declaration of the type, at a one-based index of the type arena. */
  datatype Declaration = Declaration(typ: TypeDecl, index: nat)

  // ---------- The operations ----------

  /** `add_construction`. */
  function AddDeclaration(s: Construction, d: Declaration): (Status, Construction) {
    var t := d.typ;
    if t.identity == 0 || d.index == 0 then (InvalidArgument, s)
    else if s.declarations != 0 && s.kind != t.kind then (SemanticConflict, s)
    else if s.declarations == MAX_U32 then (NotAvailable, s)
    else
      var counted := s.(kind := t.kind, declarations := s.declarations + 1);
      var (result, merged) := if t.kind.Record? then AddRecord(counted, t) else AddEnumeration(counted, t);
      if !result.Ok? then (result, merged)
      else if !t.definition then (Ok, merged)
      else if merged.definitions != 0 then (SemanticConflict, merged)
      else (Ok, merged.(definitions := 1, definitionType := d.index))
  }

  function AddRecord(s: Construction, t: TypeDecl): (Status, Construction) {
    var count := match t.recordKind case Struct => s.recordStruct case Class => s.recordClass case Union => s.recordUnion;
    if count == MAX_U32 then (NotAvailable, s)
    else
      var r := match t.recordKind
        case Struct => s.(recordStruct := count + 1)
        case Class => s.(recordClass := count + 1)
        case Union => s.(recordUnion := count + 1);
      if r.recordUnion != 0 && (r.recordStruct != 0 || r.recordClass != 0) then (SemanticConflict, r) else (Ok, r)
  }

  function AddEnumeration(s: Construction, t: TypeDecl): (Status, Construction) {
    var count := if t.scoped then s.enumScoped else s.enumUnscoped;
    if count == MAX_U32 then (NotAvailable, s)
    else
      var r := if t.scoped then s.(enumScoped := count + 1) else s.(enumUnscoped := count + 1);
      if r.enumScoped != 0 && r.enumUnscoped != 0 then (SemanticConflict, r)
      else if t.underlying == 0 then (Ok, r)
      else if r.enumFixed != 0 && r.fixedUnderlying != t.underlying then (SemanticConflict, r)
      else if r.enumFixed == MAX_U32 then (NotAvailable, r)
      else (Ok, r.(enumFixed := r.enumFixed + 1, fixedUnderlying := t.underlying))
  }

  /** `remove_construction`. */
  function RemoveDeclaration(s: Construction, d: Declaration): (Status, Construction) {
    var t := d.typ;
    if s.declarations == 0 || s.kind != t.kind then (InvalidArgument, s)
    else if t.definition && (s.definitions != 1 || s.definitionType != d.index) then (InvalidArgument, s)
    else
      var undefined := if t.definition then s.(definitions := 0, definitionType := 0) else s;
      var (result, r) := if t.kind.Record? then RemoveRecord(undefined, t) else RemoveEnumeration(undefined, t);
      if !result.Ok? then (result, r)
      else if r.declarations == 1 then (Ok, NO_CONSTRUCTION)
      else (Ok, r.(declarations := r.declarations - 1))
  }

  function RemoveRecord(s: Construction, t: TypeDecl): (r: (Status, Construction))
    ensures r.1.declarations == s.declarations
  {
    var count := match t.recordKind case Struct => s.recordStruct case Class => s.recordClass case Union => s.recordUnion;
    if count == 0 then (InvalidArgument, s)
    else
      var r := match t.recordKind
        case Struct => s.(recordStruct := count - 1)
        case Class => s.(recordClass := count - 1)
        case Union => s.(recordUnion := count - 1);
      (Ok, r)
  }

  function RemoveEnumeration(s: Construction, t: TypeDecl): (r: (Status, Construction))
    ensures r.1.declarations == s.declarations
  {
    var count := if t.scoped then s.enumScoped else s.enumUnscoped;
    if count == 0 then (InvalidArgument, s)
    else
      var r := if t.scoped then s.(enumScoped := count - 1) else s.(enumUnscoped := count - 1);
      if t.underlying == 0 then (Ok, r)
      else if r.enumFixed == 0 || r.fixedUnderlying != t.underlying then (InvalidArgument, r)
      else if r.enumFixed == 1 then (Ok, r.(enumFixed := 0, fixedUnderlying := 0))
      else (Ok, r.(enumFixed := r.enumFixed - 1))
  }

  // ---------- Counting from scratch ----------

  datatype Feature = AnyDeclaration | RecordOf(recordKind: RecordKind) | EnumOf(scoped: bool) | FixedEnum | Definition

  predicate Has(d: Declaration, f: Feature) {
    match f
    case AnyDeclaration => true
    case RecordOf(k) => d.typ.kind.Record? && d.typ.recordKind == k
    case EnumOf(scoped) => d.typ.kind.Enumeration? && d.typ.scoped == scoped
    case FixedEnum => d.typ.kind.Enumeration? && d.typ.underlying != 0
    case Definition => d.typ.definition
  }

  function Count(s: seq<Declaration>, f: Feature): nat {
    if s == [] then 0 else Count(s[..|s| - 1], f) + if Has(s[|s| - 1], f) then 1 else 0
  }

  /** A set of declarations of one type that does not contradict itself: one kind, no union
      among structs and classes, no mix of scoped and unscoped, one underlying type, and at
      most one definition. */
  predicate Consistent(s: seq<Declaration>) {
    && (forall i :: 0 <= i < |s| ==> s[i].typ.identity != 0 && s[i].index != 0)
    && (forall i, j :: 0 <= i < |s| && 0 <= j < |s| ==> Agree(s[i], s[j]))
    && Count(s, Definition) <= 1
  }

  predicate Agree(a: Declaration, b: Declaration) {
    && a.typ.kind == b.typ.kind
    && (a.typ.kind.Record? ==> (a.typ.recordKind.Union? <==> b.typ.recordKind.Union?))
    && (a.typ.kind.Enumeration? ==>
          a.typ.scoped == b.typ.scoped
          && (a.typ.underlying != 0 && b.typ.underlying != 0 ==> a.typ.underlying == b.typ.underlying))
  }

  /** The aggregate is what counting the declarations from scratch gives. */
  predicate Aggregates(c: Construction, s: seq<Declaration>) {
    Consistent(s) && Counted(c, s) && Labelled(c, s)
  }

  predicate Counted(c: Construction, s: seq<Declaration>) {
    && c.declarations == |s|
    && c.recordStruct == Count(s, RecordOf(Struct)) && c.recordClass == Count(s, RecordOf(Class))
    && c.recordUnion == Count(s, RecordOf(Union))
    && c.enumScoped == Count(s, EnumOf(true)) && c.enumUnscoped == Count(s, EnumOf(false))
    && c.enumFixed == Count(s, FixedEnum) && c.definitions == Count(s, Definition)
  }

  predicate Labelled(c: Construction, s: seq<Declaration>) {
    && (s == [] ==> c.kind == Record)
    && (forall i :: 0 <= i < |s| ==> c.kind == s[i].typ.kind)
    && (c.enumFixed == 0 ==> c.fixedUnderlying == 0)
    && (forall i :: 0 <= i < |s| && Has(s[i], FixedEnum) ==> c.fixedUnderlying == s[i].typ.underlying)
    && (c.definitions == 0 ==> c.definitionType == 0)
    && (forall i :: 0 <= i < |s| && Has(s[i], Definition) ==> c.definitionType == s[i].index)
  }

  // ---------- Facts about counting ----------

  lemma {:induction false} CountBounds(s: seq<Declaration>, f: Feature)
    ensures Count(s, f) <= |s|
    ensures Count(s, f) == 0 <==> forall i :: 0 <= i < |s| ==> !Has(s[i], f)
  {
    if s != [] {
      CountBounds(s[..|s| - 1], f);
    }
  }

  lemma {:induction false} CountAppend(s: seq<Declaration>, d: Declaration, f: Feature)
    ensures Count(s + [d], f) == Count(s, f) + if Has(d, f) then 1 else 0
  {
    assert (s + [d])[..|s|] == s;
  }

  lemma {:induction false} CountRemove(s: seq<Declaration>, i: nat, f: Feature)
    requires i < |s|
    ensures Count(s[..i] + s[i + 1..], f) == Count(s, f) - if Has(s[i], f) then 1 else 0
  {
    var last := |s| - 1;
    if i == last {
      assert s[..i] + s[i + 1..] == s[..last];
    } else {
      var rest := s[..i] + s[i + 1..];
      assert rest[..last - 1] == s[..last][..i] + s[..last][i + 1..];
      assert rest[last - 1] == s[last];
      CountRemove(s[..last], i, f);
    }
  }

  lemma {:induction false} AppendCounts(s: seq<Declaration>, d: Declaration)
    ensures forall f :: Count(s + [d], f) == Count(s, f) + if Has(d, f) then 1 else 0
  {
    forall f ensures Count(s + [d], f) == Count(s, f) + if Has(d, f) then 1 else 0 {
      CountAppend(s, d, f);
    }
  }

  lemma {:induction false} RemoveCounts(s: seq<Declaration>, i: nat)
    requires i < |s|
    ensures forall f :: Count(s[..i] + s[i + 1..], f) == Count(s, f) - if Has(s[i], f) then 1 else 0
  {
    forall f ensures Count(s[..i] + s[i + 1..], f) == Count(s, f) - if Has(s[i], f) then 1 else 0 {
      CountRemove(s, i, f);
    }
  }

  lemma {:induction false} AllBounds(s: seq<Declaration>)
    ensures forall f :: Count(s, f) <= |s|
    ensures forall f :: Count(s, f) == 0 <==> forall i :: 0 <= i < |s| ==> !Has(s[i], f)
  {
    forall f ensures Count(s, f) <= |s| && (Count(s, f) == 0 <==> forall i :: 0 <= i < |s| ==> !Has(s[i], f)) {
      CountBounds(s, f);
    }
  }

  // ---------- Adding ----------

  /** Adding succeeds exactly when the declarations stay consistent and countable, and then the
      aggregate is that of the longer list. */
  lemma {:induction false} AddIsCounting(c: Construction, s: seq<Declaration>, d: Declaration)
    requires Aggregates(c, s) && |s| < MAX_U32
    ensures AddDeclaration(c, d).0.Ok? <==> Consistent(s + [d])
    ensures
      !AddDeclaration(c, d).0.Ok? ==>
        AddDeclaration(c, d).0 == if d.typ.identity == 0 || d.index == 0 then InvalidArgument else SemanticConflict
    ensures AddDeclaration(c, d).0.Ok? ==> Aggregates(AddDeclaration(c, d).1, s + [d])
  {
    AddAnswers(c, s, d);
    hide Consistent, Counted, Labelled, AddDeclaration, Count;
    if Consistent(s + [d]) {
      AddAccepted(c, s, d);
    }
    if AddDeclaration(c, d).0.Ok? {
      AddRefuses(c, s, d);
      AddCounts(c, s, d);
      AddLabels(c, s, d);
    }
  }

  /** No count is at its limit, so a declaration of a named type is refused only for a conflict. */
  lemma {:induction false} AddAnswers(c: Construction, s: seq<Declaration>, d: Declaration)
    requires Aggregates(c, s) && |s| < MAX_U32
    ensures
      !AddDeclaration(c, d).0.Ok? ==>
        AddDeclaration(c, d).0 == if d.typ.identity == 0 || d.index == 0 then InvalidArgument else SemanticConflict
  {
    AllBounds(s);
    hide Consistent, Labelled, Count;
  }

  lemma {:induction false} AddAccepted(c: Construction, s: seq<Declaration>, d: Declaration)
    requires Aggregates(c, s) && |s| < MAX_U32 && Consistent(s + [d])
    ensures AddDeclaration(c, d).0.Ok?
  {
    AppendCounts(s, d);
    AllBounds(s);
    var t := s + [d];
    assert t[|s|] == d;
    forall i | 0 <= i < |s| ensures Agree(s[i], d) { assert t[i] == s[i]; }
  }

  lemma {:induction false} AddFields(c: Construction, d: Declaration)
    requires AddDeclaration(c, d).0.Ok?
    ensures var r := AddDeclaration(c, d).1;
      && r.kind == d.typ.kind && (c.declarations != 0 ==> c.kind == d.typ.kind)
      && r.definitionType == (if d.typ.definition then d.index else c.definitionType)
      && r.fixedUnderlying == (if Has(d, FixedEnum) then d.typ.underlying else c.fixedUnderlying)
      && (d.typ.definition ==> c.definitions == 0)
      && (Has(d, FixedEnum) && c.enumFixed != 0 ==> c.fixedUnderlying == d.typ.underlying)
  {
  }

  lemma {:induction false} AddLabels(c: Construction, s: seq<Declaration>, d: Declaration)
    requires Aggregates(c, s) && AddDeclaration(c, d).0.Ok?
    ensures Labelled(AddDeclaration(c, d).1, s + [d])
  {
    AddFields(c, d);
    AddCounts(c, s, d);
    AllBounds(s);
    AllBounds(s + [d]);
    hide Consistent, Count, AddDeclaration;
    var t, r := s + [d], AddDeclaration(c, d).1;
    forall i | 0 <= i < |t| && Has(t[i], FixedEnum) ensures r.fixedUnderlying == t[i].typ.underlying {
      assert i < |s| ==> Has(s[i], FixedEnum);
    }
    forall i | 0 <= i < |t| && Has(t[i], Definition) ensures r.definitionType == t[i].index {
      assert i < |s| ==> Has(s[i], Definition);
    }
  }

  lemma {:induction false} AddCounts(c: Construction, s: seq<Declaration>, d: Declaration)
    requires Aggregates(c, s) && AddDeclaration(c, d).0.Ok?
    ensures Counted(AddDeclaration(c, d).1, s + [d])
  {
    hide Consistent, Labelled, Count;
    AppendCounts(s, d);
  }

  lemma {:induction false} AddAgrees(c: Construction, s: seq<Declaration>, d: Declaration, i: nat)
    requires Aggregates(c, s) && AddDeclaration(c, d).0.Ok? && i < |s|
    ensures Agree(s[i], d) && Agree(d, s[i])
  {
    AllBounds(s);
    hide Consistent, Count;
    assert Has(s[i], RecordOf(s[i].typ.recordKind)) || Has(s[i], EnumOf(s[i].typ.scoped));
    assert Has(s[i], FixedEnum) ==> Count(s, FixedEnum) != 0;
  }

  lemma {:induction false} AddRefuses(c: Construction, s: seq<Declaration>, d: Declaration)
    requires Aggregates(c, s) && AddDeclaration(c, d).0.Ok?
    ensures Consistent(s + [d])
  {
    AppendCounts(s, d);
    AddFields(c, d);
    assert d.typ.identity != 0 && d.index != 0;
    forall i | 0 <= i < |s| ensures Agree(s[i], d) && Agree(d, s[i]) {
      AddAgrees(c, s, d, i);
    }
    hide AddDeclaration, Agree, Labelled;
    assert Agree(d, d) by { AgreeReflexive(d); }
  }

  lemma {:induction false} AgreeReflexive(d: Declaration)
    ensures Agree(d, d)
  {
  }

  // ---------- Removing ----------

  function Without(s: seq<Declaration>, i: nat): seq<Declaration>
    requires i < |s|
  {
    s[..i] + s[i + 1..]
  }

  lemma {:induction false} WithoutConsistent(s: seq<Declaration>, i: nat)
    requires Consistent(s) && i < |s|
    ensures Consistent(Without(s, i))
  {
    CountRemove(s, i, Definition);
    var r := Without(s, i);
    forall k | 0 <= k < |r| ensures r[k] == s[if k < i then k else k + 1] {}
  }

  lemma {:induction false} RemoveAccepted(c: Construction, s: seq<Declaration>, i: nat)
    requires Aggregates(c, s) && i < |s|
    ensures RemoveDeclaration(c, s[i]).0.Ok?
  {
    AllBounds(s);
    var d := s[i];
    assert Has(d, RecordOf(d.typ.recordKind)) || Has(d, EnumOf(d.typ.scoped));
    assert Has(d, FixedEnum) ==> Count(s, FixedEnum) != 0;
    assert Has(d, Definition) ==> Count(s, Definition) != 0;
    assert d.typ.kind.Record? ==> Count(s, RecordOf(d.typ.recordKind)) != 0;
    assert d.typ.kind.Enumeration? ==> Count(s, EnumOf(d.typ.scoped)) != 0;
  }

  lemma {:induction false} RemoveCounted(c: Construction, s: seq<Declaration>, i: nat)
    requires Aggregates(c, s) && i < |s| && RemoveDeclaration(c, s[i]).0.Ok?
    ensures Counted(RemoveDeclaration(c, s[i]).1, Without(s, i))
  {
    hide Consistent, Labelled, Count;
    RemoveCounts(s, i);
    AllBounds(Without(s, i));
    assert |s| == 1 ==> Without(s, i) == [];
  }

  lemma {:induction false} RemoveFields(c: Construction, d: Declaration)
    requires RemoveDeclaration(c, d).0.Ok?
    ensures var r := RemoveDeclaration(c, d).1;
      && (c.declarations == 1 ==> r == NO_CONSTRUCTION)
      && (c.declarations != 1 ==>
            && r.kind == c.kind
            && r.definitionType == (if d.typ.definition then 0 else c.definitionType)
            && r.fixedUnderlying == (if Has(d, FixedEnum) && c.enumFixed == 1 then 0 else c.fixedUnderlying))
  {
  }

  lemma {:induction false} WithoutAt(s: seq<Declaration>, i: nat)
    requires i < |s|
    ensures forall k :: 0 <= k < |s| - 1 ==> Without(s, i)[k] == s[if k < i then k else k + 1]
  {
  }

  lemma {:induction false} RemoveFixedLabel(c: Construction, s: seq<Declaration>, i: nat, k: nat)
    requires Aggregates(c, s) && i < |s| && RemoveDeclaration(c, s[i]).0.Ok?
    requires k < |Without(s, i)| && Has(Without(s, i)[k], FixedEnum)
    ensures RemoveDeclaration(c, s[i]).1.fixedUnderlying == Without(s, i)[k].typ.underlying
  {
    hide Consistent, Count, RemoveDeclaration;
    WithoutAt(s, i);
    RemoveFields(c, s[i]);
    CountRemove(s, i, FixedEnum);
    CountBounds(Without(s, i), FixedEnum);
  }

  lemma {:induction false} RemoveDefinitionLabel(c: Construction, s: seq<Declaration>, i: nat, k: nat)
    requires Aggregates(c, s) && i < |s| && RemoveDeclaration(c, s[i]).0.Ok?
    requires k < |Without(s, i)| && Has(Without(s, i)[k], Definition)
    ensures RemoveDeclaration(c, s[i]).1.definitionType == Without(s, i)[k].index
  {
    assert Count(s, Definition) <= 1;
    hide Consistent, Count, RemoveDeclaration;
    WithoutAt(s, i);
    RemoveFields(c, s[i]);
    CountRemove(s, i, Definition);
    CountBounds(Without(s, i), Definition);
  }

  lemma {:induction false} RemoveLabels(c: Construction, s: seq<Declaration>, i: nat)
    requires Aggregates(c, s) && i < |s| && RemoveDeclaration(c, s[i]).0.Ok?
    ensures Labelled(RemoveDeclaration(c, s[i]).1, Without(s, i))
  {
    hide Consistent, Count, RemoveDeclaration, Has;
    var r, after := Without(s, i), RemoveDeclaration(c, s[i]).1;
    WithoutAt(s, i);
    RemoveFields(c, s[i]);
    RemoveEmptyLabels(c, s, i);
    forall k | 0 <= k < |r| && Has(r[k], FixedEnum) ensures after.fixedUnderlying == r[k].typ.underlying {
      RemoveFixedLabel(c, s, i, k);
    }
    forall k | 0 <= k < |r| && Has(r[k], Definition) ensures after.definitionType == r[k].index {
      RemoveDefinitionLabel(c, s, i, k);
    }
  }

  lemma {:induction false} RemoveEmptyLabels(c: Construction, s: seq<Declaration>, i: nat)
    requires Aggregates(c, s) && i < |s| && RemoveDeclaration(c, s[i]).0.Ok?
    ensures var r := RemoveDeclaration(c, s[i]).1;
      (r.enumFixed == 0 ==> r.fixedUnderlying == 0) && (r.definitions == 0 ==> r.definitionType == 0)
  {
  }

  /** Removing any declaration that was counted always succeeds and gives the aggregate of the
      remaining ones, whatever the order they were added in. */
  lemma {:induction false} RemoveIsCounting(c: Construction, s: seq<Declaration>, i: nat)
    requires Aggregates(c, s) && i < |s|
    ensures RemoveDeclaration(c, s[i]).0.Ok?
    ensures Aggregates(RemoveDeclaration(c, s[i]).1, Without(s, i))
  {
    hide Counted, Labelled, RemoveDeclaration, Count;
    RemoveAccepted(c, s, i);
    RemoveCounted(c, s, i);
    RemoveLabels(c, s, i);
    WithoutConsistent(s, i);
  }

  // ---------- The aggregate does not depend on the order ----------

  function IndexOf(s: seq<Declaration>, d: Declaration): (i: nat)
    requires d in s
    ensures i < |s| && s[i] == d
  {
    if s[0] == d then 0 else 1 + IndexOf(s[1..], d)
  }

  lemma {:induction false} WithoutMultiset(t: seq<Declaration>, i: nat)
    requires i < |t|
    ensures multiset(Without(t, i)) == multiset(t) - multiset{t[i]}
  {
    assert t == t[..i] + [t[i]] + t[i + 1..];
  }

  lemma {:induction false} CountWithout(s: seq<Declaration>, i: nat, f: Feature)
    requires i < |s|
    ensures Count(Without(s, i), f) == Count(s, f) - if Has(s[i], f) then 1 else 0
  {
    CountRemove(s, i, f);
  }

  lemma {:induction false} WithoutLast(s: seq<Declaration>)
    requires s != []
    ensures Without(s, |s| - 1) == s[..|s| - 1]
  {
  }

  lemma {:induction false} CountMultiset(s: seq<Declaration>, t: seq<Declaration>, f: Feature)
    requires multiset(s) == multiset(t)
    ensures Count(s, f) == Count(t, f)
  {
    hide Has, Without;
    assert |multiset(s)| == |s| == |multiset(t)| == |t|;
    if s != [] {
      var last := |s| - 1;
      assert s[last] in multiset(t);
      var i := IndexOf(t, s[last]);
      WithoutMultiset(s, last);
      WithoutMultiset(t, i);
      WithoutLast(s);
      CountMultiset(s[..last], Without(t, i), f);
      CountWithout(t, i, f);
    }
  }

  /** One aggregate per collection of declarations: however it was reached, by additions alone
      or through removals, the same declarations give the same construction slot. */
  lemma {:induction false} AggregateIsUnique(c: Construction, e: Construction, s: seq<Declaration>, t: seq<Declaration>)
    requires Aggregates(c, s) && Aggregates(e, t) && multiset(s) == multiset(t)
    ensures c == e
  {
    forall f ensures Count(s, f) == Count(t, f) { CountMultiset(s, t, f); }
    assert |s| == |multiset(s)| == |multiset(t)| == |t|;
    AllBounds(s);
    hide Count, Consistent;
    if s != [] {
      assert s[0] in multiset(t);
      assert s[0] in t;
    }
    if c.enumFixed != 0 {
      var i :| 0 <= i < |s| && Has(s[i], FixedEnum);
      assert s[i] in multiset(t);
      assert s[i] in t;
    }
    if c.definitions != 0 {
      var i :| 0 <= i < |s| && Has(s[i], Definition);
      assert s[i] in multiset(t);
      assert s[i] in t;
    }
  }

  // ---------- A whole update of one type ----------

  /** What one update does to the declarations of a type, in the order it does it. */
  datatype Edit = Insert(declaration: Declaration) | Delete(declaration: Declaration)

  /** The loop over changed sources: it stops at the first refusal. */
  function ApplyEdits(c: Construction, edits: seq<Edit>): (Status, Construction)
    decreases |edits|
  {
    if edits == [] then (Ok, c)
    else
      var (result, next) := match edits[0]
        case Insert(d) => AddDeclaration(c, d)
        case Delete(d) => RemoveDeclaration(c, d);
      if !result.Ok? then (result, next) else ApplyEdits(next, edits[1..])
  }

  /** The declarations left after each edit. */
  function EditOne(s: seq<Declaration>, e: Edit): seq<Declaration> {
    match e
    case Insert(d) => s + [d]
    case Delete(d) => if d in s then Without(s, IndexOf(s, d)) else s
  }

  function EditAll(s: seq<Declaration>, edits: seq<Edit>): seq<Declaration>
    decreases |edits|
  {
    if edits == [] then s else EditAll(EditOne(s, edits[0]), edits[1..])
  }

  /** Only counted declarations are deleted, and the counters never reach 32 bits. */
  predicate Feasible(s: seq<Declaration>, edits: seq<Edit>)
    decreases |edits|
  {
    edits == [] ||
    (match edits[0]
     case Insert(d) => |s| < MAX_U32 && Feasible(EditOne(s, edits[0]), edits[1..])
     case Delete(d) => d in s && Feasible(EditOne(s, edits[0]), edits[1..]))
  }

  /** No intermediate collection contradicts itself. */
  predicate ConsistentThroughout(s: seq<Declaration>, edits: seq<Edit>)
    decreases |edits|
  {
    Consistent(s) && (edits == [] || ConsistentThroughout(EditOne(s, edits[0]), edits[1..]))
  }

  /** A sparse update of a type succeeds exactly when every intermediate collection of its
      declarations is consistent, and then gives the aggregate of the final collection: the
      one a rebuild computes. */
  lemma {:induction false} EditsAreCounting(c: Construction, s: seq<Declaration>, edits: seq<Edit>)
    requires Aggregates(c, s) && Feasible(s, edits)
    ensures ApplyEdits(c, edits).0.Ok? <==> ConsistentThroughout(s, edits)
    ensures ApplyEdits(c, edits).0.Ok? ==> Aggregates(ApplyEdits(c, edits).1, EditAll(s, edits))
    decreases |edits|
  {
    hide Counted, Labelled, Consistent, AddDeclaration, RemoveDeclaration, Count;
    if edits != [] {
      match edits[0] {
        case Insert(d) =>
          AddIsCounting(c, s, d);
          if AddDeclaration(c, d).0.Ok? {
            EditsAreCounting(AddDeclaration(c, d).1, s + [d], edits[1..]);
          }
        case Delete(d) =>
          RemoveIsCounting(c, s, IndexOf(s, d));
          EditsAreCounting(RemoveDeclaration(c, d).1, Without(s, IndexOf(s, d)), edits[1..]);
      }
    }
  }

  function Inserts(s: seq<Declaration>): (r: seq<Edit>)
    ensures |r| == |s| && forall i :: 0 <= i < |r| ==> r[i] == Insert(s[i])
  {
    seq(|s|, i requires 0 <= i < |s| => Insert(s[i]))
  }

  lemma {:induction false} EmptyAggregate(s: seq<Declaration>)
    requires s == []
    ensures Aggregates(NO_CONSTRUCTION, s)
  {
    AllBounds(s);
    hide Count;
  }

  /** The same but for where its items are. */
  predicate SameShape(t: TypeDecl, u: TypeDecl) { t.(items := u.items) == u }

  /** The same declarations at other places of the arenas. */
  predicate Renumbered(s: seq<Declaration>, t: seq<Declaration>) {
    |s| == |t| && forall i :: 0 <= i < |s| ==> SameShape(s[i].typ, t[i].typ) && t[i].index != 0
  }

  lemma {:induction false} RenumberedCount(s: seq<Declaration>, t: seq<Declaration>, f: Feature)
    requires Renumbered(s, t)
    ensures Count(t, f) == Count(s, f)
  {
    if s != [] {
      var last := |s| - 1;
      assert SameShape(s[last].typ, t[last].typ);
      RenumberedCount(s[..last], t[..last], f);
    }
  }

  /** The order does not matter. */
  lemma {:induction false} AggregatePermuted(c: Construction, s: seq<Declaration>, t: seq<Declaration>)
    requires Aggregates(c, s) && multiset(s) == multiset(t)
    ensures Aggregates(c, t)
  {
    forall f ensures Count(s, f) == Count(t, f) { CountMultiset(s, t, f); }
    SameConsistency(s, t);
    hide Count, Consistent;
    assert |s| == |multiset(s)| == |multiset(t)| == |t|;
    forall i | 0 <= i < |t| ensures t[i] in s {
      assert t[i] in multiset(t);
      assert t[i] in multiset(s);
    }
  }

  /** Where the definition is, or 0. */
  function DefinedAt(s: seq<Declaration>): nat {
    if s == [] then 0 else if Has(s[|s| - 1], Definition) then s[|s| - 1].index else DefinedAt(s[..|s| - 1])
  }

  lemma {:induction false} DefinedOnce(s: seq<Declaration>, i: nat)
    requires Count(s, Definition) <= 1 && i < |s| && Has(s[i], Definition)
    ensures DefinedAt(s) == s[i].index
  {
    var last := |s| - 1;
    if i < last {
      CountBounds(s[..last], Definition);
      assert s[..last][i] == s[i];
      DefinedOnce(s[..last], i);
    }
  }

  lemma {:induction false} DefinedNowhere(s: seq<Declaration>)
    requires Count(s, Definition) == 0
    ensures DefinedAt(s) == 0
  {
    if s != [] { DefinedNowhere(s[..|s| - 1]); }
  }

  /** Renumbering changes where the definition is, and nothing else. */
  lemma {:induction false} RenumberedAggregate(c: Construction, s: seq<Declaration>, t: seq<Declaration>)
    requires Aggregates(c, s) && Renumbered(s, t)
    ensures Aggregates(c.(definitionType := DefinedAt(t)), t)
  {
    forall f ensures Count(t, f) == Count(s, f) { RenumberedCount(s, t, f); }
    AllBounds(t);
    hide Count;
    if c.definitions == 0 { DefinedNowhere(t); }
    forall i | 0 <= i < |t| && Has(t[i], Definition) ensures DefinedAt(t) == t[i].index { DefinedOnce(t, i); }
    forall i, j | 0 <= i < |t| && 0 <= j < |t| ensures Agree(t[i], t[j]) {
      assert Agree(s[i], s[j]);
    }
  }

  lemma {:induction false} DefinedByLabel(c: Construction, s: seq<Declaration>)
    requires Aggregates(c, s)
    ensures c.definitionType == DefinedAt(s)
  {
    AllBounds(s);
    hide Count;
    if c.definitions == 0 {
      DefinedNowhere(s);
    } else {
      var i :| 0 <= i < |s| && Has(s[i], Definition);
      DefinedOnce(s, i);
    }
  }

  lemma {:induction false} ConsistentPrefix(s: seq<Declaration>, n: nat)
    requires Consistent(s) && n <= |s|
    ensures Consistent(s[..n])
  {
    if n == |s| {
      assert s[..n] == s;
    } else {
      var front := s[..|s| - 1];
      assert forall i :: 0 <= i < |front| ==> front[i] == s[i];
      ConsistentPrefix(front, n);
      assert front[..n] == s[..n];
    }
  }

  /** Every part of a consistent collection is consistent, so counting it up is never refused. */
  lemma {:induction false} InsertsConsistent(s: seq<Declaration>, n: nat)
    requires Consistent(s) && n <= |s|
    ensures ConsistentThroughout(s[..n], Inserts(s[n..]))
    decreases |s| - n
  {
    hide Consistent;
    ConsistentPrefix(s, n);
    if n < |s| {
      InsertsConsistent(s, n + 1);
      assert Inserts(s[n..])[1..] == Inserts(s[n + 1..]);
      assert s[..n] + [s[n]] == s[..n + 1];
    } else {
      assert s[..n] == s;
    }
  }

  lemma {:induction false} InsertsFeasible(s: seq<Declaration>, rest: seq<Declaration>)
    requires |s| + |rest| <= MAX_U32
    ensures Feasible(s, Inserts(rest))
    decreases |rest|
  {
    if rest != [] {
      assert Inserts(rest)[1..] == Inserts(rest[1..]);
      InsertsFeasible(s + [rest[0]], rest[1..]);
    }
  }

  lemma {:induction false} SameConsistency(s: seq<Declaration>, t: seq<Declaration>)
    requires Consistent(s) && multiset(s) == multiset(t)
    ensures Consistent(t)
  {
    CountMultiset(s, t, Definition);
    hide Count;
    assert forall i :: 0 <= i < |t| ==> t[i] in multiset(t);
    forall i, j | 0 <= i < |t| && 0 <= j < |t| ensures Agree(t[i], t[j]) {
      assert t[i] in s && t[j] in s;
    }
  }

  /** After an accepted update a rebuild is accepted too, whatever order it visits the
      declarations in and whatever indices it gives them; the slots are the same but for the
      index of the definition, which is its index in each. */
  lemma {:induction false} UpdateAgreesWithRebuild(
      c: Construction, s: seq<Declaration>, edits: seq<Edit>, numbered: seq<Declaration>, order: seq<Declaration>)
    requires Aggregates(c, s) && Feasible(s, edits) && ApplyEdits(c, edits).0.Ok?
    requires Renumbered(EditAll(s, edits), numbered) && multiset(order) == multiset(numbered) && |order| <= MAX_U32
    ensures
      var updated, rebuilt := ApplyEdits(c, edits), ApplyEdits(NO_CONSTRUCTION, Inserts(order));
      && rebuilt.0.Ok?
      && rebuilt.1 == updated.1.(definitionType := DefinedAt(numbered))
      && updated.1.definitionType == DefinedAt(EditAll(s, edits))
  {
    var final, u := EditAll(s, edits), ApplyEdits(c, edits).1;
    EmptyAggregate([]);
    InsertsFeasible([], order);
    EditsAreCounting(c, s, edits);
    DefinedByLabel(u, final);
    RenumberedAggregate(u, final, numbered);
    SameConsistency(numbered, order);
    InsertsConsistent(order, 0);
    assert order[..0] == [] && order[0..] == order;
    hide Aggregates, ApplyEdits, EditAll, Feasible;
    EditsAreCounting(NO_CONSTRUCTION, [], Inserts(order));
    EditInserts([], order);
    assert [] + order == order;
    AggregateIsUnique(
      ApplyEdits(NO_CONSTRUCTION, Inserts(order)).1, u.(definitionType := DefinedAt(numbered)), order, numbered);
  }

  lemma {:induction false} EditInserts(s: seq<Declaration>, order: seq<Declaration>)
    ensures EditAll(s, Inserts(order)) == s + order
    decreases |order|
  {
    if order != [] {
      assert Inserts(order)[1..] == Inserts(order[1..]);
      EditInserts(s + [order[0]], order[1..]);
      assert s + order == s + [order[0]] + order[1..];
    } else {
      assert s + order == s;
    }
  }

  /** But success itself does depend on the order: a definition that moves to a source visited
      earlier is refused by the update, although the final collection is consistent and a
      rebuild accepts it. */
  lemma {:induction false} MovedDefinitionIsRefused()
    ensures
      var t := TypeDecl(7, Range(0, 0), 0, Struct, Record, true, false);
      var here, there := Declaration(t, 1), Declaration(t, 2);
      var c := AddDeclaration(NO_CONSTRUCTION, here).1;
      && Aggregates(c, [here])
      && ApplyEdits(c, [Insert(there), Delete(here)]).0 == SemanticConflict
      && ApplyEdits(c, [Delete(here), Insert(there)]).0 == Ok
      && ApplyEdits(NO_CONSTRUCTION, [Insert(there)]).0 == Ok
      && Consistent(EditAll([here], [Insert(there), Delete(here)]))
  {
    var t := TypeDecl(7, Range(0, 0), 0, Struct, Record, true, false);
    var here, there := Declaration(t, 1), Declaration(t, 2);
    EmptyAggregate([]);
    SingleConsistent(here);
    SingleConsistent(there);
    AddIsCounting(NO_CONSTRUCTION, [], here);
    hide Aggregates, Consistent;
    assert [] + [here] == [here] && [] + [there] == [there];
    var c := AddDeclaration(NO_CONSTRUCTION, here).1;
    assert AddDeclaration(c, there).0 == SemanticConflict;
    assert RemoveDeclaration(c, here) == (Ok, NO_CONSTRUCTION);
    assert ApplyEdits(NO_CONSTRUCTION, [Insert(there)]).0 == Ok;
    assert EditOne([here], Insert(there)) == [here, there];
    assert Without([here, there], 0) == [there];
    assert EditAll([here, there], [Delete(here)]) == [there];
    assert [Insert(there), Delete(here)][1..] == [Delete(here)];
    assert [Delete(here), Insert(there)][1..] == [Insert(there)];
  }

  lemma {:induction false} SingleConsistent(d: Declaration)
    requires d.typ.identity != 0 && d.index != 0
    ensures Consistent([] + [d])
  {
    CountAppend([], d, Definition);
  }
}
