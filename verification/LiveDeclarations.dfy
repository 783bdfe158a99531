/** The type declarations of all live sources, as the slot table holds them and as a model of facts
    does, and when they contradict each other. */
module LiveDeclarations {
  import opened Wrappers
  import opened ContributionArenas
  import opened SourceFacts
  import opened ContributionStorage
  import opened ContributionModel
  import opened ConstructionAggregate
  import opened ConstructionLedger

  // ---------- In the slot table ----------

  /** The declarations in a range of the type arena, each with its one-based index. */
  function DeclarationsAt(types: seq<TypeDecl>, r: Range): (s: seq<Declaration>)
    ensures |s| == |CheckedSpan(types, r)|
    ensures forall k :: 0 <= k < |s| ==> r.begin >= 0 && s[k] == Declaration(CheckedSpan(types, r)[k], r.begin + k + 1)
  {
    var span := CheckedSpan(types, r);
    seq(|span|, k requires 0 <= k < |span| => Declaration(span[k], r.begin + k + 1))
  }

  /** What the slot at `index` declares: only its owner counts. */
  function SlotDeclarations(types: seq<TypeDecl>, s: State, index: nat): seq<Declaration> {
    if index != 0 && s.source == index then DeclarationsAt(types, s.types) else []
  }

  /** The declarations of all live sources. */
  function Live(sources: seq<State>, types: seq<TypeDecl>): multiset<Declaration> {
    if sources == [] then multiset{}
    else
      var last := |sources| - 1;
      Live(sources[..last], types) + multiset(SlotDeclarations(types, sources[last], last))
  }

  lemma {:induction false} LiveUpdate(sources: seq<State>, types: seq<TypeDecl>, index: nat, s: State)
    requires index < |sources|
    ensures multiset(SlotDeclarations(types, sources[index], index)) <= Live(sources, types)
    ensures Live(sources[index := s], types)
         == Live(sources, types) - multiset(SlotDeclarations(types, sources[index], index))
            + multiset(SlotDeclarations(types, s, index))
  {
    hide SlotDeclarations;
    var last := |sources| - 1;
    if index == last {
      assert sources[index := s][..last] == sources[..last];
    } else {
      assert sources[index := s][..last] == sources[..last][index := s];
      LiveUpdate(sources[..last], types, index, s);
    }
  }

  lemma {:induction false} NothingDeclared(types: seq<TypeDecl>, index: nat)
    ensures SlotDeclarations(types, NO_STATE, index) == []
  {}

  lemma {:induction false} LivePadded(sources: seq<State>, types: seq<TypeDecl>, extra: nat)
    ensures Live(sources + seq(extra, _ => NO_STATE), types) == Live(sources, types)
  {
    hide SlotDeclarations;
    var padded := sources + seq(extra, _ => NO_STATE);
    if extra == 0 {
      assert padded == sources;
    } else {
      NothingDeclared(types, |padded| - 1);
      assert padded[..|padded| - 1] == sources + seq(extra - 1, _ => NO_STATE);
      LivePadded(sources, types, extra - 1);
    }
  }

  /** Appending to the arena leaves the declarations alone. */
  lemma {:induction false} LiveStable(sources: seq<State>, types: seq<TypeDecl>, more: seq<TypeDecl>, z: Sizes)
    requires SourcesInBounds(sources, z) && z.types == |types|
    ensures Live(sources, types + more) == Live(sources, types)
  {
    if sources != [] {
      var last := |sources| - 1;
      LiveStable(sources[..last], types, more, z);
      if last != 0 && sources[last].source == last {
        var r := sources[last].types;
        assert Within(r, |types|);
        assert CheckedSpan(types + more, r) == CheckedSpan(types, r);
        assert DeclarationsAt(types + more, r) == DeclarationsAt(types, r);
      }
    }
  }

  lemma {:induction false} SlotCount(s: State, types: seq<TypeDecl>, z: Sizes, index: nat)
    requires index != 0 && s.source == index ==> InBounds(s, z) && z.types == |types|
    ensures |SlotDeclarations(types, s, index)| == SlotStatistics(s, index).counts.types
  {}

  lemma {:induction false} LiveCount(sources: seq<State>, types: seq<TypeDecl>, z: Sizes)
    requires SourcesInBounds(sources, z) && z.types == |types|
    ensures |Live(sources, types)| == Totals(sources).counts.types
  {
    hide InBounds, SlotDeclarations, SlotStatistics;
    if sources != [] {
      var last := |sources| - 1;
      LiveCount(sources[..last], types, z);
      SlotCount(sources[last], types, z, last);
    }
  }

  // ---------- Where a declaration occurs ----------

  predicate Occurs(sources: seq<State>, types: seq<TypeDecl>, index: nat, k: nat, d: Declaration) {
    index < |sources| && k < |SlotDeclarations(types, sources[index], index)|
    && SlotDeclarations(types, sources[index], index)[k] == d
  }

  lemma {:induction false} OccurrenceIsLive(
      sources: seq<State>, types: seq<TypeDecl>, index: nat, k: nat, d: Declaration)
    requires Occurs(sources, types, index, k, d)
    ensures d in Live(sources, types)
  {
    hide SlotDeclarations;
    LiveUpdate(sources, types, index, sources[index]);
    assert d in SlotDeclarations(types, sources[index], index);
    assert d in multiset(SlotDeclarations(types, sources[index], index));
  }

  lemma {:induction false} LiveOccurs(
      sources: seq<State>, types: seq<TypeDecl>, d: Declaration) returns (index: nat, k: nat)
    requires d in Live(sources, types)
    ensures Occurs(sources, types, index, k, d)
  {
    hide SlotDeclarations;
    var last := |sources| - 1;
    if d in Live(sources[..last], types) {
      index, k := LiveOccurs(sources[..last], types, d);
    } else {
      assert d in SlotDeclarations(types, sources[last], last);
      index, k :| index == last && 0 <= k < |SlotDeclarations(types, sources[last], last)|
        && SlotDeclarations(types, sources[last], last)[k] == d;
    }
  }

  /** Within one slot the indices tell the declarations apart. */
  lemma {:induction false} OnceInSlot(types: seq<TypeDecl>, s: State, index: nat, d: Declaration)
    ensures multiset(SlotDeclarations(types, s, index))[d] <= 1
  {
    var all := SlotDeclarations(types, s, index);
    if k :| 0 <= k < |all| && all[k] == d {
      assert all == all[..k] + [d] + all[k + 1..];
      assert d !in all[..k] && d !in all[k + 1..];
    }
  }

  lemma {:induction false} LiveTwice(sources: seq<State>, types: seq<TypeDecl>, d: Declaration)
      returns (a: nat, i: nat, b: nat, j: nat)
    requires Live(sources, types)[d] >= 2
    ensures Occurs(sources, types, a, i, d) && Occurs(sources, types, b, j, d) && a != b
  {
    hide SlotDeclarations;
    var last := |sources| - 1;
    OnceInSlot(types, sources[last], last, d);
    a, i := LiveOccurs(sources[..last], types, d);
    if d in SlotDeclarations(types, sources[last], last) {
      b, j :| b == last && 0 <= j < |SlotDeclarations(types, sources[last], last)|
        && SlotDeclarations(types, sources[last], last)[j] == d;
    } else {
      a, i, b, j := LiveTwice(sources[..last], types, d);
    }
  }

  lemma {:induction false} TwiceIsLive(
      sources: seq<State>, types: seq<TypeDecl>, a: nat, i: nat, b: nat, j: nat, d: Declaration)
    requires Occurs(sources, types, a, i, d) && Occurs(sources, types, b, j, d) && a < b
    ensures Live(sources, types)[d] >= 2
  {
    hide SlotDeclarations;
    var last := |sources| - 1;
    if b == last {
      OccurrenceIsLive(sources[..last], types, a, i, d);
      assert d in SlotDeclarations(types, sources[last], last);
      assert d in multiset(SlotDeclarations(types, sources[last], last));
    } else {
      TwiceIsLive(sources[..last], types, a, i, b, j, d);
    }
  }

  // ---------- In a model ----------

  predicate Declares(m: Model, source: nat, k: nat) { source in m && k < |TypesOf(m[source])| }

  function TypeAt(m: Model, source: nat, k: nat): TypeDecl
    requires Declares(m, source, k)
  {
    TypesOf(m[source])[k]
  }

  /** Two declarations of one type fit together. */
  predicate Compatible(t: TypeDecl, u: TypeDecl) { Agree(Declaration(t, 1), Declaration(u, 1)) }

  /** Declarations of one type fit together, and different ones are not both definitions. */
  predicate PairAgrees(t: TypeDecl, u: TypeDecl, same: bool) {
    t.identity != 0 && (t.identity == u.identity ==> Compatible(t, u) && (t.definition && u.definition ==> same))
  }

  /** No two declarations in the sources of the model contradict each other. */
  ghost predicate Agrees(m: Model) {
    forall a, i, b, j :: Declares(m, a, i) && Declares(m, b, j) ==>
      PairAgrees(TypeAt(m, a, i), TypeAt(m, b, j), a == b && i == j)
  }

  lemma {:induction false} PartAgreesToo(few: Model, m: Model)
    requires Agrees(m) && forall source :: source in few ==> source in m && few[source] == m[source]
    ensures Agrees(few)
  {
    forall a, i, b, j | Declares(few, a, i) && Declares(few, b, j)
      ensures PairAgrees(TypeAt(few, a, i), TypeAt(few, b, j), a == b && i == j)
    {
      assert Declares(m, a, i) && Declares(m, b, j);
    }
  }

  /** Only the views matter. */
  lemma {:induction false} SameViewsAgree(m: Model, n: Model)
    requires Agrees(m) && forall source :: ModelView(m, source) == ModelView(n, source)
    ensures Agrees(n)
  {
    forall a, i, b, j | Declares(n, a, i) && Declares(n, b, j)
      ensures PairAgrees(TypeAt(n, a, i), TypeAt(n, b, j), a == b && i == j)
    {
      assert ModelView(m, a) == ModelView(n, a) && ModelView(m, b) == ModelView(n, b);
      assert Declares(m, a, i) && Declares(m, b, j);
    }
  }

  // ---------- The two are the same ----------

  ghost predicate Views(sources: seq<State>, a: Arenas, m: Model) {
    forall source :: ViewOf(sources, a, source) == ModelView(m, source)
  }

  lemma {:induction false} ShapesAgree(t: TypeDecl, u: TypeDecl, v: TypeDecl, w: TypeDecl, same: bool)
    requires SameShape(t, v) && SameShape(u, w)
    ensures PairAgrees(t, u, same) <==> PairAgrees(v, w, same)
  {
  }

  /** A live slot declares what the model says, at other places of the arenas. */
  lemma {:induction false} SlotShows(sources: seq<State>, a: Arenas, m: Model, index: nat)
    requires Views(sources, a, m) && index < |sources|
    ensures
      var s := SlotDeclarations(a.types, sources[index], index);
      && (index in m ==>
            |s| == |TypesOf(m[index])| && forall k :: 0 <= k < |s| ==> SameShape(s[k].typ, TypesOf(m[index])[k]))
      && (index !in m ==> s == [])
  {
    hide TypesOf;
    assert ViewOf(sources, a, index) == ModelView(m, index);
  }

  lemma {:induction false} ModelOccurs(
      sources: seq<State>, a: Arenas, m: Model, source: nat, k: nat) returns (d: Declaration)
    requires Views(sources, a, m) && Declares(m, source, k)
    ensures Occurs(sources, a.types, source, k, d) && SameShape(d.typ, TypeAt(m, source, k))
    ensures d.index == sources[source].types.begin + k + 1
  {
    assert ViewOf(sources, a, source) == ModelView(m, source);
    SlotShows(sources, a, m, source);
    d := SlotDeclarations(a.types, sources[source], source)[k];
  }

  lemma {:induction false} OccursInModel(sources: seq<State>, a: Arenas, m: Model, index: nat, k: nat, d: Declaration)
    requires Views(sources, a, m) && Occurs(sources, a.types, index, k, d)
    ensures Declares(m, index, k) && SameShape(d.typ, TypeAt(m, index, k)) && d.index != 0
    ensures d.index == sources[index].types.begin + k + 1
  {
    SlotShows(sources, a, m, index);
  }

  lemma {:induction false} LivePair(
      sources: seq<State>, arenas: Arenas, m: Model, a: nat, i: nat, b: nat, j: nat, d: Declaration, e: Declaration)
    requires Views(sources, arenas, m) && Agreeing(Live(sources, arenas.types))
    requires Occurs(sources, arenas.types, a, i, d) && Occurs(sources, arenas.types, b, j, e)
    ensures PairAgrees(d.typ, e.typ, a == b && i == j)
  {
    hide SlotDeclarations;
    OccurrenceIsLive(sources, arenas.types, a, i, d);
    OccurrenceIsLive(sources, arenas.types, b, j, e);
    assert AgreeingOn(Live(sources, arenas.types), d.typ.identity);
    if d.typ.identity == e.typ.identity && d.typ.definition && e.typ.definition {
      assert d == e;
      OccursInModel(sources, arenas, m, a, i, d);
      OccursInModel(sources, arenas, m, b, j, e);
      if a < b { TwiceIsLive(sources, arenas.types, a, i, b, j, d); }
      if b < a { TwiceIsLive(sources, arenas.types, b, j, a, i, d); }
    }
  }

  lemma {:induction false} AgreeingMeans(sources: seq<State>, arenas: Arenas, m: Model)
    requires Views(sources, arenas, m) && Agreeing(Live(sources, arenas.types))
    ensures Agrees(m)
  {
    hide Views, Occurs, Declares, PairAgrees, SameShape;
    forall a, i, b, j | Declares(m, a, i) && Declares(m, b, j)
      ensures PairAgrees(TypeAt(m, a, i), TypeAt(m, b, j), a == b && i == j)
    {
      var d := ModelOccurs(sources, arenas, m, a, i);
      var e := ModelOccurs(sources, arenas, m, b, j);
      LivePair(sources, arenas, m, a, i, b, j, d, e);
      ShapesAgree(d.typ, e.typ, TypeAt(m, a, i), TypeAt(m, b, j), a == b && i == j);
    }
  }

  lemma {:induction false} ModelPair(
      sources: seq<State>, arenas: Arenas, m: Model, a: nat, i: nat, b: nat, j: nat, d: Declaration, e: Declaration)
    requires Views(sources, arenas, m) && Agrees(m)
    requires Occurs(sources, arenas.types, a, i, d) && Occurs(sources, arenas.types, b, j, e)
    ensures PairAgrees(d.typ, e.typ, a == b && i == j) && d.index != 0
  {
    hide Views, Occurs, PairAgrees, SameShape;
    OccursInModel(sources, arenas, m, a, i, d);
    OccursInModel(sources, arenas, m, b, j, e);
    ShapesAgree(d.typ, e.typ, TypeAt(m, a, i), TypeAt(m, b, j), a == b && i == j);
  }

  /** What is live at one place only is there once. */
  lemma {:induction false} LiveOnce(sources: seq<State>, arenas: Arenas, m: Model, d: Declaration)
    requires Views(sources, arenas, m) && Agrees(m) && d in Live(sources, arenas.types) && d.typ.definition
    ensures Live(sources, arenas.types)[d] == 1
  {
    hide Views, Occurs, Agrees;
    if Live(sources, arenas.types)[d] >= 2 {
      var a, i, b, j := LiveTwice(sources, arenas.types, d);
      ModelPair(sources, arenas, m, a, i, b, j, d, d);
    }
  }

  lemma {:induction false} AgreesMeans(sources: seq<State>, arenas: Arenas, m: Model)
    requires Views(sources, arenas, m) && Agrees(m)
    ensures Agreeing(Live(sources, arenas.types))
  {
    hide Views, Occurs, Agrees, SlotDeclarations, Live;
    var all := Live(sources, arenas.types);
    forall d, e | d in all && e in all
      ensures d.typ.identity != 0 && d.index != 0
      ensures d.typ.identity == e.typ.identity ==>
        Agree(d, e) && (d.typ.definition && e.typ.definition ==> d == e && all[d] == 1)
    {
      var a, i := LiveOccurs(sources, arenas.types, d);
      var b, j := LiveOccurs(sources, arenas.types, e);
      ModelPair(sources, arenas, m, a, i, b, j, d, e);
      if d.typ.definition { LiveOnce(sources, arenas, m, d); }
      SamePlace(sources, arenas.types, a, i, d, e);
    }
  }

  lemma {:induction false} SamePlace(
      sources: seq<State>, types: seq<TypeDecl>, index: nat, k: nat, d: Declaration, e: Declaration)
    requires Occurs(sources, types, index, k, d)
    ensures Occurs(sources, types, index, k, e) ==> d == e
  {}

  /** The declarations behind the slots agree exactly if those of the model do. */
  lemma {:induction false} LiveAgrees(sources: seq<State>, arenas: Arenas, m: Model)
    requires Views(sources, arenas, m)
    ensures Agreeing(Live(sources, arenas.types)) <==> Agrees(m)
  {
    hide Views, Agrees, Agreeing, Live;
    if Agreeing(Live(sources, arenas.types)) { AgreeingMeans(sources, arenas, m); }
    if Agrees(m) { AgreesMeans(sources, arenas, m); }
  }

  // ---------- The same model in two places ----------

  /** The declarations of one type, in order. */
  function Of(ds: seq<Declaration>, id: nat): seq<Declaration> {
    if ds == [] then []
    else Of(ds[..|ds| - 1], id) + if ds[|ds| - 1].typ.identity == id then [ds[|ds| - 1]] else []
  }

  /** The declarations of one type in the first `n` sources. */
  function Gathered(sources: seq<State>, types: seq<TypeDecl>, n: nat, id: nat): seq<Declaration> {
    if n == 0 then []
    else
      Gathered(sources, types, n - 1, id)
      + if n - 1 < |sources| then Of(SlotDeclarations(types, sources[n - 1], n - 1), id) else []
  }

  lemma {:induction false} OfIsPart(ds: seq<Declaration>, id: nat)
    ensures Part(Of(ds, id), multiset(ds), id)
  {
    if ds != [] {
      var front, d := ds[..|ds| - 1], ds[|ds| - 1];
      OfIsPart(front, id);
      assert ds == front + [d];
      assert multiset(ds) == multiset(front) + multiset{d};
    }
  }

  lemma {:induction false} PartsJoin(
      s: seq<Declaration>, a: multiset<Declaration>, t: seq<Declaration>, b: multiset<Declaration>, id: nat)
    requires Part(s, a, id) && Part(t, b, id)
    ensures Part(s + t, a + b, id)
  {
    forall d: Declaration ensures multiset(s + t)[d] == if d.typ.identity == id then (a + b)[d] else 0 {
      assert multiset(s)[d] == if d.typ.identity == id then a[d] else 0;
      assert multiset(t)[d] == if d.typ.identity == id then b[d] else 0;
    }
  }

  lemma {:induction false} GatheredIsPart(sources: seq<State>, types: seq<TypeDecl>, n: nat, id: nat)
    ensures
      var m := if n <= |sources| then n else |sources|;
      Part(Gathered(sources, types, n, id), Live(sources[..m], types), id)
  {
    hide SlotDeclarations, Part, Of, Live;
    if n == 0 {
      NothingIsPart(sources, types, id);
    } else if n <= |sources| {
      GatheredIsPart(sources, types, n - 1, id);
      var ds := SlotDeclarations(types, sources[n - 1], n - 1);
      OfIsPart(ds, id);
      LiveTake(sources, types, n);
      PartsJoin(Gathered(sources, types, n - 1, id), Live(sources[..n - 1], types), Of(ds, id), multiset(ds), id);
    } else {
      GatheredIsPart(sources, types, n - 1, id);
      assert Gathered(sources, types, n, id) == Gathered(sources, types, n - 1, id);
    }
  }

  lemma {:induction false} NothingIsPart(sources: seq<State>, types: seq<TypeDecl>, id: nat)
    ensures Part([], Live(sources[..0], types), id)
  {}

  lemma {:induction false} LiveTake(sources: seq<State>, types: seq<TypeDecl>, n: nat)
    requires 0 < n <= |sources|
    ensures Live(sources[..n], types)
         == Live(sources[..n - 1], types) + multiset(SlotDeclarations(types, sources[n - 1], n - 1))
  {
    hide SlotDeclarations;
    assert sources[..n][..n - 1] == sources[..n - 1];
  }

  lemma {:induction false} SameEnds(s: seq<Declaration>, t: seq<Declaration>)
    requires Renumbered(s, t) && s != []
    ensures
      var last := |s| - 1;
      && Renumbered(s[..last], t[..last]) && Renumbered([s[last]], [t[last]])
      && s[last].typ.identity == t[last].typ.identity
  {}

  lemma {:induction false} SameOf(s: seq<Declaration>, t: seq<Declaration>, id: nat)
    requires Renumbered(s, t)
    ensures Renumbered(Of(s, id), Of(t, id))
  {
    hide SameShape;
    if s != [] {
      var last := |s| - 1;
      SameOf(s[..last], t[..last], id);
      SameEnds(s, t);
      RenumberedJoin(Of(s[..last], id), Of(t[..last], id),
        if s[last].typ.identity == id then [s[last]] else [], if t[last].typ.identity == id then [t[last]] else []);
    }
  }

  lemma {:induction false} RenumberedJoin(
      a: seq<Declaration>, b: seq<Declaration>, c: seq<Declaration>, d: seq<Declaration>)
    requires Renumbered(a, b) && Renumbered(c, d)
    ensures Renumbered(a + c, b + d)
  {}

  /** A source declares the same in both places. */
  lemma {:induction false} SameSlot(
      sources: seq<State>, a: Arenas, others: seq<State>, b: Arenas, m: Model, index: nat)
    requires Views(sources, a, m) && Views(others, b, m)
    ensures
      var s := if index < |sources| then SlotDeclarations(a.types, sources[index], index) else [];
      var t := if index < |others| then SlotDeclarations(b.types, others[index], index) else [];
      Renumbered(s, t)
  {
    assert ViewOf(sources, a, index) == ModelView(m, index) && ViewOf(others, b, index) == ModelView(m, index);
    hide SlotDeclarations, Views, TypesOf, View;
    if index < |sources| { SlotShows(sources, a, m, index); }
    if index < |others| {
      SlotShows(others, b, m, index);
      IndexedFromOne(b.types, others[index], index);
    }
    forall k | index in m && 0 <= k < |TypesOf(m[index])| && index < |sources| && index < |others|
      ensures
        SameShape(SlotDeclarations(a.types, sources[index], index)[k].typ,
                  SlotDeclarations(b.types, others[index], index)[k].typ)
    {
      assert SameShape(SlotDeclarations(a.types, sources[index], index)[k].typ, TypesOf(m[index])[k]);
      assert SameShape(SlotDeclarations(b.types, others[index], index)[k].typ, TypesOf(m[index])[k]);
    }
  }

  lemma {:induction false} IndexedFromOne(types: seq<TypeDecl>, s: State, index: nat)
    ensures forall k :: 0 <= k < |SlotDeclarations(types, s, index)| ==> SlotDeclarations(types, s, index)[k].index != 0
  {}

  lemma {:induction false} SameGathered(
      sources: seq<State>, a: Arenas, others: seq<State>, b: Arenas, m: Model, n: nat, id: nat)
    requires Views(sources, a, m) && Views(others, b, m)
    ensures Renumbered(Gathered(sources, a.types, n, id), Gathered(others, b.types, n, id))
  {
    hide Views, SlotDeclarations, Renumbered;
    if n == 0 {
      NothingRenumbered();
    } else {
      SameGathered(sources, a, others, b, m, n - 1, id);
      SameSlot(sources, a, others, b, m, n - 1);
      var s := if n - 1 < |sources| then SlotDeclarations(a.types, sources[n - 1], n - 1) else [];
      var t := if n - 1 < |others| then SlotDeclarations(b.types, others[n - 1], n - 1) else [];
      SameOf(s, t, id);
      RenumberedJoin(Gathered(sources, a.types, n - 1, id), Gathered(others, b.types, n - 1, id), Of(s, id), Of(t, id));
    }
  }

  lemma {:induction false} NothingRenumbered()
    ensures Renumbered([], [])
  {}

  lemma {:induction false} TallyOver(c: Construction, all: multiset<Declaration>, s: seq<Declaration>, id: nat)
    requires Tallies(c, all, id) && Part(s, all, id)
    ensures Aggregates(c, s)
  {
    hide Aggregates;
    var t :| Part(t, all, id) && Aggregates(c, t);
    assert multiset(s) == multiset(t);
    AggregatePermuted(c, t, s);
  }

  /** However a cache came to show a model, the aggregate of each type is the same, but for the
      index of the definition, which is where this cache keeps it. */
  lemma {:induction false} SameAggregates(
      sources: seq<State>, a: Arenas, others: seq<State>, b: Arenas, m: Model, id: nat, c: Construction, e: Construction)
    requires Views(sources, a, m) && Views(others, b, m)
    requires Tallies(c, Live(sources, a.types), id) && Tallies(e, Live(others, b.types), id)
    ensures e == c.(definitionType := e.definitionType)
  {
    hide Views, Tallies, Aggregates, Gathered, Live, Part, Renumbered;
    var n := if |sources| <= |others| then |others| else |sources|;
    var s, t := Gathered(sources, a.types, n, id), Gathered(others, b.types, n, id);
    GatheredIsPart(sources, a.types, n, id);
    GatheredIsPart(others, b.types, n, id);
    assert sources[..|sources|] == sources && others[..|others|] == others;
    TallyOver(c, Live(sources, a.types), s, id);
    TallyOver(e, Live(others, b.types), t, id);
    SameGathered(sources, a, others, b, m, n, id);
    RenumberedAggregate(c, s, t);
    AggregateIsUnique(e, c.(definitionType := DefinedAt(t)), t, t);
  }
}
