/** The cache as the simple thing it speeds up: a map from source to facts, and what a list of
    changes does to the view it gives. */
module ContributionModel {
  import opened Wrappers
  import opened ContributionArenas
  import opened SourceFacts
  import opened ContributionStorage
  import opened ContributionPatches
  import opened ContributionCache
  import opened ContributionSparse
  import opened ContributionSparseUpdate
  import opened PatchIndex

  // ---------- The simple thing the cache speeds up ----------

  type Model = map<nat, Facts>

  function ModelView(m: Model, source: nat): Option<Arenas> {
    if source in m then Some(Normalize(m[source])) else None
  }

  ghost predicate Shows(c: Cache, m: Model)
    reads c
  {
    forall source :: c.ViewAt(source) == ModelView(m, source)
  }

  function StoreAll(m: Model, facts: seq<Facts>): Model {
    if facts == [] then m
    else
      var last := facts[|facts| - 1];
      StoreAll(m, facts[..|facts| - 1])[last.source := last]
  }

  function DropAll(m: Model, sources: seq<nat>): Model { map s | s in m && s !in sources :: m[s] }

  // ---------- What a list of changes does to a view ----------

  /** The changes a transaction makes for these replacements and removals. */
  function ChangesFor(replacements: seq<Facts>, removals: seq<nat>): (r: seq<Change>)
    ensures |r| == |replacements| + |removals|
    ensures forall i :: 0 <= i < |replacements| ==> r[i] == Change(replacements[i].source, Some(Normalize(replacements[i])))
    ensures forall i :: 0 <= i < |removals| ==> r[|replacements| + i] == Change(removals[i], None)
  {
    seq(|replacements|, i requires 0 <= i < |replacements| =>
      Change(replacements[i].source, Some(Normalize(replacements[i])))) +
    seq(|removals|, i requires 0 <= i < |removals| => Change(removals[i], None))
  }

  predicate DistinctChanges(changes: seq<Change>) {
    forall i, j :: 0 <= i < j < |changes| ==> changes[i].source != changes[j].source
  }

  lemma {:induction false} StoreAllAt(m: Model, facts: seq<Facts>, i: nat)
    requires i < |facts| && forall j :: i < j < |facts| ==> facts[j].source != facts[i].source
    ensures facts[i].source in StoreAll(m, facts) && StoreAll(m, facts)[facts[i].source] == facts[i]
  {
    var front := facts[..|facts| - 1];
    if i < |front| {
      StoreAllAt(m, front, i);
    }
  }

  lemma {:induction false} StoreAllElsewhere(m: Model, facts: seq<Facts>, source: nat)
    requires forall j :: 0 <= j < |facts| ==> facts[j].source != source
    ensures source in StoreAll(m, facts) <==> source in m
    ensures source in m ==> StoreAll(m, facts)[source] == m[source]
  {
    if facts != [] {
      StoreAllElsewhere(m, facts[..|facts| - 1], source);
    }
  }

  function Updated(m: Model, replacements: seq<Facts>, removals: seq<nat>): Model {
    DropAll(StoreAll(m, replacements), removals)
  }

  lemma {:induction false} UpdatedChanged(m: Model, replacements: seq<Facts>, removals: seq<nat>, i: nat)
    requires DistinctChanges(ChangesFor(replacements, removals)) && i < |replacements| + |removals|
    ensures var c := ChangesFor(replacements, removals)[i];
      ModelView(Updated(m, replacements, removals), c.source) == c.slice
  {
    var changes := ChangesFor(replacements, removals);
    if i < |replacements| {
      forall j | i < j < |replacements| ensures replacements[j].source != replacements[i].source {
        assert changes[i].source != changes[j].source;
      }
      StoreAllAt(m, replacements, i);
      forall j | 0 <= j < |removals| ensures removals[j] != replacements[i].source {
        assert changes[|replacements| + j].source != changes[i].source;
      }
    } else {
      assert changes[|replacements| + (i - |replacements|)] == Change(removals[i - |replacements|], None);
      assert removals[i - |replacements|] in removals;
    }
  }

  lemma {:induction false} UpdatedElsewhere(m: Model, replacements: seq<Facts>, removals: seq<nat>, source: nat)
    requires forall i :: 0 <= i < |replacements| + |removals| ==> ChangesFor(replacements, removals)[i].source != source
    ensures ModelView(Updated(m, replacements, removals), source) == ModelView(m, source)
  {
    var changes := ChangesFor(replacements, removals);
    forall j | 0 <= j < |replacements| ensures replacements[j].source != source {
      assert changes[j].source != source;
    }
    StoreAllElsewhere(m, replacements, source);
    forall j | 0 <= j < |removals| ensures removals[j] != source {
      assert changes[|replacements| + j].source != source;
    }
  }

  // ---------- What publication does to the view ----------

  ghost predicate StorageShows(s: Storage, m: Model) {
    forall source :: StorageView(s, source) == ModelView(m, source)
  }

  lemma {:induction false} ShowsAfterPublish(
      before: Storage, after: Storage, m: Model, replacements: seq<Facts>, removals: seq<nat>)
    requires StorageShows(before, m)
    requires var changes := ChangesFor(replacements, removals);
      && DistinctChanges(changes)
      && (forall i :: 0 <= i < |changes| ==> StorageView(after, changes[i].source) == changes[i].slice)
      && (forall source :: source !in ChangeKeys(changes) ==> StorageView(after, source) == StorageView(before, source))
    ensures StorageShows(after, Updated(m, replacements, removals))
  {
    hide StorageView, Updated, ModelView;
    var changes := ChangesFor(replacements, removals);
    forall source: nat ensures StorageView(after, source) == ModelView(Updated(m, replacements, removals), source) {
      if source in ChangeKeys(changes) {
        var i :| 0 <= i < |changes| && ChangeKeys(changes)[i] == source;
        UpdatedChanged(m, replacements, removals, i);
      } else {
        forall i | 0 <= i < |changes| ensures changes[i].source != source {
          assert ChangeKeys(changes)[i] in ChangeKeys(changes);
        }
        UpdatedElsewhere(m, replacements, removals, source);
      }
    }
  }

  lemma {:induction false} SameView(a: Storage, b: Storage)
    requires SameItems(a, b)
    ensures forall source :: StorageView(a, source) == StorageView(b, source)
  {
  }

  lemma {:induction false} DistinctKeys(changes: seq<Change>)
    requires Distinct(ChangeKeys(changes))
    ensures DistinctChanges(changes)
  {
    forall i, j | 0 <= i < j < |changes| ensures changes[i].source != changes[j].source {
      assert ChangeKeys(changes)[i] != ChangeKeys(changes)[j];
    }
  }

  lemma {:induction false} ChangesForStep(replacements: seq<Facts>, f: Facts)
    ensures ChangesFor(replacements + [f], []) == ChangesFor(replacements, []) + [Change(f.source, Some(Normalize(f)))]
  {
    assert forall i :: 0 <= i < |replacements| ==> ChangesFor(replacements + [f], [])[i] == ChangesFor(replacements, [])[i];
  }

  lemma {:induction false} RemovalsStep(replacements: seq<Facts>, removals: seq<nat>, source: nat)
    ensures ChangesFor(replacements, removals + [source]) == ChangesFor(replacements, removals) + [Change(source, None)]
  {
    var a, b := ChangesFor(replacements, removals + [source]), ChangesFor(replacements, removals) + [Change(source, None)];
    assert a[..|replacements|] == b[..|replacements|];
    assert a[|replacements|..] == b[|replacements|..];
    assert a == a[..|replacements|] + a[|replacements|..];
    assert b == b[..|replacements|] + b[|replacements|..];
  }
}
