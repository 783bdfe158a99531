/** What a generation of sources is: files, sources by number, the include graph between them, and
    when they are well built. */
module Generation {
  import opened Wrappers
  import opened IncludeGraph

  /** A file's content, which its hash identifies, and its stamp: write time and size. */
  datatype File = Missing | Present(hash: nat, stamp: nat)

  /** The stamp carries no meaning. */
  predicate SameFile(a: File, b: File) { if a.Missing? || b.Missing? then a == b else a.hash == b.hash }

  lemma {:induction false} SameFileSelf(f: File)
    ensures SameFile(f, f)
  {}

  /** What a file says, if it is there. */
  function ContentOf(f: File): Option<nat> { if f.Missing? then None else Some(f.hash) }

  lemma {:induction false} SameContent(a: File, b: File)
    ensures SameFile(a, b) <==> ContentOf(a) == ContentOf(b)
  {}

  datatype Source = Source(path: nat, file: File)

  /** What a generation means: the configuration it was built under and every source as it was
      seen, in the order of their numbers. */
  datatype Content = Content(fingerprint: nat, sources: seq<Source>)

  predicate SameMeaning(a: Content, b: Content) {
    && a.fingerprint == b.fingerprint && |a.sources| == |b.sources|
    && forall i :: 0 <= i < |a.sources| ==>
         a.sources[i].path == b.sources[i].path && SameFile(a.sources[i].file, b.sources[i].file)
  }

  /** An item of a configuration: a file, or another project. */
  datatype Item = Item(path: nat, project: bool)

  /** Why a configuration text is refused. */
  type Failure = s: Status | s !in {Ok, NotFound, RebuildRequired, InvalidState} witness ConfigurationFailed

  /** What texts say: the fingerprint of a configuration text, or nothing if it is not a valid
      configuration, and then why it is refused; the items of the configuration of a fingerprint; and
      what a file of this path and content includes. */
  datatype Reading = Reading(
    means: nat -> Option<nat>,
    refuses: nat -> Failure,
    items: nat -> seq<Item>,
    imports: (nat, nat) -> seq<nat>)

  // ---------- Sources by number ----------

  function PathsOf(sources: seq<Source>): (r: seq<nat>)
    ensures |r| == |sources| && forall i :: 0 <= i < |r| ==> r[i] == sources[i].path
  {
    seq(|sources|, i requires 0 <= i < |sources| => sources[i].path)
  }

  predicate Includes(reading: Reading, s: Source, path: nat) {
    s.file.Present? && path in reading.imports(s.path, s.file.hash)
  }

  /** Everything source `i` includes is among the sources. */
  predicate ImportsKnown(reading: Reading, sources: seq<Source>, i: nat)
    requires i < |sources|
  {
    sources[i].file.Present? ==>
      forall p :: p in reading.imports(sources[i].path, sources[i].file.hash) ==> p in PathsOf(sources)
  }

  /** From number `n` on, no path comes twice. */
  predicate DistinctFrom(sources: seq<Source>, n: nat) {
    forall i, j :: n <= i < |sources| && 0 <= j < i ==> sources[i].path != sources[j].path
  }

  function NumberOf(sources: seq<Source>, path: nat): (i: nat)
    requires path in PathsOf(sources)
    ensures i < |sources| && sources[i].path == path
  {
    var last := |sources| - 1;
    if sources[last].path == path then last
    else
      assert forall j :: 0 <= j < last ==> PathsOf(sources[..last])[j] == PathsOf(sources)[j];
      NumberOf(sources[..last], path)
  }

  lemma {:induction false} OnlyNumber(sources: seq<Source>, i: nat)
    requires DistinctFrom(sources, 0) && i < |sources|
    ensures sources[i].path in PathsOf(sources) && NumberOf(sources, sources[i].path) == i
  {
    assert PathsOf(sources)[i] == sources[i].path;
  }

  // ---------- The include graph ----------

  /** The numbers of the paths that are known. */
  function NumbersOf(sources: seq<Source>, paths: seq<nat>): (r: seq<nat>)
    ensures Within(r, |sources|)
    ensures
      forall j ::
        j in r <==> exists k :: 0 <= k < |paths| && paths[k] in PathsOf(sources) && NumberOf(sources, paths[k]) == j
  {
    if paths == [] then []
    else
      var last := |paths| - 1;
      var front := NumbersOf(sources, paths[..last]);
      assert forall k :: 0 <= k < last ==> paths[..last][k] == paths[k];
      if paths[last] in PathsOf(sources) then front + [NumberOf(sources, paths[last])] else front
  }

  function EdgesOf(reading: Reading, sources: seq<Source>, s: Source): (r: seq<nat>)
    ensures Within(r, |sources|)
  {
    if s.file.Missing? then [] else NumbersOf(sources, reading.imports(s.path, s.file.hash))
  }

  /** Which source includes which, by their numbers. */
  function GraphOf(reading: Reading, sources: seq<Source>): (g: Graph)
    ensures |g| == |sources| && Closed(g)
    ensures forall i :: 0 <= i < |g| ==> g[i] == EdgesOf(reading, sources, sources[i])
  {
    seq(|sources|, i requires 0 <= i < |sources| => EdgesOf(reading, sources, sources[i]))
  }

  function Presence(sources: seq<Source>): (r: seq<bool>)
    ensures |r| == |sources| && forall i :: 0 <= i < |r| ==> r[i] == sources[i].file.Present?
  {
    seq(|sources|, i requires 0 <= i < |sources| => sources[i].file.Present?)
  }

  lemma {:induction false} EdgeMeans(reading: Reading, sources: seq<Source>, s: Source, j: nat)
    requires DistinctFrom(sources, 0) && j < |sources|
    ensures j in EdgesOf(reading, sources, s) <==> Includes(reading, s, sources[j].path)
  {
    OnlyNumber(sources, j);
    if s.file.Present? {
      var paths := reading.imports(s.path, s.file.hash);
      if Includes(reading, s, sources[j].path) {
        var k :| 0 <= k < |paths| && paths[k] == sources[j].path;
        assert paths[k] in PathsOf(sources) && NumberOf(sources, paths[k]) == j;
      }
    }
  }

  // ---------- Well-built generations ----------

  /** No path comes twice, everything a present source includes is a present source, and no source
      includes itself, directly or through others. */
  predicate WellBuilt(reading: Reading, sources: seq<Source>) {
    && DistinctFrom(sources, 0)
    && (forall i :: 0 <= i < |sources| ==> ImportsKnown(reading, sources, i))
    && Complete(GraphOf(reading, sources), Presence(sources))
    && Layered(GraphOf(reading, sources), Numbers(|sources|))
  }

  lemma {:induction false} WellBuiltMeans(reading: Reading, sources: seq<Source>)
    ensures
      WellBuilt(reading, sources) <==>
      && DistinctFrom(sources, 0)
      && (forall i :: 0 <= i < |sources| ==> ImportsKnown(reading, sources, i))
      && Complete(GraphOf(reading, sources), Presence(sources))
      && Acyclic(GraphOf(reading, sources))
  {
    LayeredExactly(GraphOf(reading, sources));
  }

  /** What makes a generation well built, said of the sources themselves. */
  lemma {:induction false} WellBuiltIncludes(reading: Reading, sources: seq<Source>, i: nat, path: nat)
    requires WellBuilt(reading, sources) && i < |sources| && Includes(reading, sources[i], path)
    ensures exists j :: 0 <= j < |sources| && sources[j].path == path && sources[j].file.Present? && j != i
  {
    WellBuiltMeans(reading, sources);
    assert ImportsKnown(reading, sources, i);
    var g := GraphOf(reading, sources);
    var j := NumberOf(sources, path);
    EdgeMeans(reading, sources, sources[i], j);
    assert CompleteAt(g, Presence(sources), i);
    var k :| 0 <= k < |g[i]| && g[i][k] == j;
    if i == j { LeadsStep(g, i, i); }
  }

  /** The sources with these numbers are those whose content changed. */
  predicate ChangedAre(sources: seq<Source>, now: seq<Source>, changed: seq<nat>)
    requires |now| == |sources|
  {
    && (forall k :: 0 <= k < |changed| ==> changed[k] < |sources|)
    && forall i :: 0 <= i < |sources| ==> (i in changed <==> !SameFile(sources[i].file, now[i].file))
  }

  /** The changed sources and all new ones. */
  function Touched(changed: seq<nat>, n: nat, all: nat): (r: seq<nat>)
    requires n <= all
    ensures forall u: nat :: u in r <==> u in changed || n <= u < all
  {
    if all == n then changed else Touched(changed, n, all - 1) + [all - 1]
  }

  /** How an update makes a generation: the old sources with what changed of them, and new ones. */
  predicate Updates(reading: Reading, sources: seq<Source>, all: seq<Source>, changed: seq<nat>) {
    && |sources| <= |all| && ChangedAre(sources, all[..|sources|], changed)
    && (forall i :: 0 <= i < |sources| ==> all[i].path == sources[i].path)
    && DistinctFrom(all, 0)
    && forall i :: i in Touched(changed, |sources|, |all|) ==> ImportsKnown(reading, all, i)
  }

  /** An update changes the include graph only at the changed sources. */
  lemma {:induction false} UpdateGrows(reading: Reading, sources: seq<Source>, all: seq<Source>, changed: seq<nat>)
    requires WellBuilt(reading, sources) && Updates(reading, sources, all, changed)
    ensures Grown(GraphOf(reading, sources), GraphOf(reading, all), Touched(changed, |sources|, |all|))
    ensures
      forall u :: 0 <= u < |sources| && u !in Touched(changed, |sources|, |all|) ==>
                    Presence(all)[u] == Presence(sources)[u]
    ensures forall u :: 0 <= u < |all| ==> ImportsKnown(reading, all, u)
  {
    hide Touched, Layered;
    var touched := Touched(changed, |sources|, |all|);
    forall u | 0 <= u < |sources| && u !in touched
      ensures EdgesOf(reading, all, all[u]) == EdgesOf(reading, sources, sources[u])
      ensures Presence(all)[u] == Presence(sources)[u] && ImportsKnown(reading, all, u)
    {
      UnchangedEdges(reading, sources, all, changed, u);
    }
    forall u | |sources| <= u < |all| ensures u in touched { TouchedNew(changed, |sources|, |all|, u); }
  }

  lemma {:induction false} TouchedNew(changed: seq<nat>, n: nat, all: nat, u: nat)
    requires n <= u < all
    ensures u in Touched(changed, n, all)
  {}

  lemma {:induction false} UnchangedEdges(
      reading: Reading, sources: seq<Source>, all: seq<Source>, changed: seq<nat>, u: nat)
    requires WellBuilt(reading, sources) && Updates(reading, sources, all, changed) && u < |sources|
    requires u !in Touched(changed, |sources|, |all|)
    ensures EdgesOf(reading, all, all[u]) == EdgesOf(reading, sources, sources[u])
    ensures all[u].file.Present? <==> sources[u].file.Present?
    ensures ImportsKnown(reading, all, u)
  {
    hide Layered, Complete;
    assert all[..|sources|][u] == all[u] && SameFile(sources[u].file, all[u].file);
    assert ImportsKnown(reading, sources, u);
    if sources[u].file.Present? {
      var paths := reading.imports(sources[u].path, sources[u].file.hash);
      assert forall k :: 0 <= k < |paths| ==> paths[k] in paths;
      SameNumbers(sources, all, paths);
    }
  }

  lemma {:induction false} SameNumbers(sources: seq<Source>, all: seq<Source>, paths: seq<nat>)
    requires |sources| <= |all| && DistinctFrom(all, 0)
    requires forall i :: 0 <= i < |sources| ==> all[i].path == sources[i].path
    requires forall k :: 0 <= k < |paths| ==> paths[k] in PathsOf(sources)
    ensures NumbersOf(all, paths) == NumbersOf(sources, paths)
    ensures forall k :: 0 <= k < |paths| ==> paths[k] in PathsOf(all)
  {
    if paths != [] {
      var last := |paths| - 1;
      SameNumbers(sources, all, paths[..last]);
      var i := NumberOf(sources, paths[last]);
      OnlyNumber(all, i);
      forall k | 0 <= k < |paths| ensures paths[k] in PathsOf(all) {
        if k < last { assert paths[..last][k] == paths[k]; }
      }
    }
  }

  /** The two checks of an update together tell whether the new generation is well built. */
  lemma {:induction false} ChecksDecide(
      reading: Reading, sources: seq<Source>, all: seq<Source>, changed: seq<nat>, affected: seq<nat>)
    requires WellBuilt(reading, sources) && Updates(reading, sources, all, changed)
    requires Within(affected, |all|)
    requires
      forall u: nat ::
        u in affected <==>
        u in Touched(changed, |sources|, |all|) || exists c :: c in changed && Leads(GraphOf(reading, sources), u, c)
    ensures
      var g, touched := GraphOf(reading, all), Touched(changed, |sources|, |all|);
      WellBuilt(reading, all) <==>
      && (forall c :: c in touched ==> !Leads(g, c, c))
      && forall u :: u in affected ==> CompleteAt(g, Presence(all), u)
  {
    UpdateGrows(reading, sources, all, changed);
    WellBuiltMeans(reading, sources);
    WellBuiltMeans(reading, all);
    hide WellBuilt, Layered, Updates, EdgesOf, ImportsKnown, Leads;
    var before, g, touched := GraphOf(reading, sources), GraphOf(reading, all), Touched(changed, |sources|, |all|);
    ChangedDecideCycles(before, g, touched);
    forall u: nat, c | u < |g| && c in touched && Leads(before, u, c) ensures u in affected {
      if c !in changed { LeadsWithin(before, u, c); }
    }
    AffectedDecideMissing(before, Presence(sources), g, Presence(all), touched, affected);
  }

  /** What is left to check of an update is the graph. */
  lemma {:induction false} UpdateBuiltExactly(
      reading: Reading, sources: seq<Source>, all: seq<Source>, changed: seq<nat>)
    requires WellBuilt(reading, sources) && Updates(reading, sources, all, changed)
    ensures
      WellBuilt(reading, all) <==> Complete(GraphOf(reading, all), Presence(all)) && Acyclic(GraphOf(reading, all))
  {
    UpdateGrows(reading, sources, all, changed);
    WellBuiltMeans(reading, all);
    hide EdgesOf, ImportsKnown, Complete, Layered, Grown, Acyclic, WellBuilt, Touched;
  }

  // ---------- What the checks rely on ----------

  lemma {:induction false} TouchedFits(changed: seq<nat>, n: nat, all: nat)
    requires n <= all && Within(changed, n)
    ensures Within(Touched(changed, n, all), all) && (Distinct(changed) ==> Distinct(Touched(changed, n, all)))
  {
    if all > n { TouchedFits(changed, n, all - 1); }
  }

  lemma {:induction false} UpdateFits(reading: Reading, sources: seq<Source>, all: seq<Source>, changed: seq<nat>)
    requires Updates(reading, sources, all, changed)
    ensures |sources| <= |all| && Within(changed, |sources|)
  {}

  lemma {:induction false} UpdateIsAcyclic(reading: Reading, sources: seq<Source>, all: seq<Source>, changed: seq<nat>)
    requires WellBuilt(reading, sources) && Updates(reading, sources, all, changed)
    requires forall c :: c in Touched(changed, |sources|, |all|) ==> !Leads(GraphOf(reading, all), c, c)
    ensures Acyclic(GraphOf(reading, all))
  {
    UpdateGrows(reading, sources, all, changed);
    WellBuiltMeans(reading, sources);
    hide WellBuilt, Updates, EdgesOf, ImportsKnown, Leads;
    ChangedDecideCycles(GraphOf(reading, sources), GraphOf(reading, all), Touched(changed, |sources|, |all|));
  }

  lemma {:induction false} AffectedFits(g: Graph, changed: seq<nat>, affected: seq<nat>, n: nat, all: nat)
    requires n <= all && forall u: nat :: u in affected <==> Affected(g, changed, u)
    ensures
      forall u: nat ::
        u in Touched(affected, n, all) <==> u in Touched(changed, n, all) || exists c :: c in changed && Leads(g, u, c)
  {
    hide Leads;
    forall u: nat
      ensures
        u in Touched(affected, n, all) <==> u in Touched(changed, n, all) || exists c :: c in changed && Leads(g, u, c)
    {
      assert u in affected <==> Affected(g, changed, u);
    }
  }

  lemma {:induction false} AllPresent(reading: Reading, all: seq<Source>)
    requires forall i :: 0 <= i < |all| ==> all[i].file.Present?
    ensures Complete(GraphOf(reading, all), Presence(all))
  {
    hide EdgesOf;
    var g := GraphOf(reading, all);
    forall i, k | 0 <= i < |g| && 0 <= k < |g[i]| ensures Presence(all)[g[i][k]] { assert Within(g[i], |g|); }
  }

  /** Other stamps change nothing. */
  lemma {:induction false} NothingChanged(reading: Reading, sources: seq<Source>, now: seq<Source>)
    requires WellBuilt(reading, sources) && |now| == |sources| && ChangedAre(sources, now, [])
    requires forall i :: 0 <= i < |sources| ==> now[i].path == sources[i].path
    ensures WellBuilt(reading, now)
  {
    assert now[..|sources|] == now;
    assert Updates(reading, sources, now, []);
    hide WellBuilt, EdgesOf, Leads;
    ChecksDecide(reading, sources, now, [], []);
  }

  /** With the changed and the new sources followed it is an update. */
  lemma {:induction false} IsUpdate(
      reading: Reading, sources: seq<Source>, now: seq<Source>, all: seq<Source>, changed: seq<nat>, affected: seq<nat>)
    requires |now| == |sources| <= |all| && all[..|now|] == now && ChangedAre(sources, now, changed)
    requires forall i :: 0 <= i < |sources| ==> now[i].path == sources[i].path
    requires DistinctFrom(all, 0) && Within(affected, |now|) && forall c :: c in changed ==> c in affected
    requires forall k :: 0 <= k < |affected| ==> ImportsKnown(reading, all, affected[k])
    requires forall i :: |now| <= i < |all| ==> ImportsKnown(reading, all, i)
    ensures Updates(reading, sources, all, changed)
  {
    hide ImportsKnown, DistinctFrom;
    forall i | 0 <= i < |sources| ensures all[i].path == sources[i].path { assert all[i] == all[..|now|][i]; }
    forall i | i in Touched(changed, |sources|, |all|) ensures i < |all| && ImportsKnown(reading, all, i) {
      if i in changed { assert i in affected; }
    }
  }

  lemma {:induction false} NewSourcesDiffer(reading: Reading, sources: seq<Source>, now: seq<Source>, all: seq<Source>)
    requires WellBuilt(reading, sources) && |now| == |sources| <= |all| && all[..|now|] == now
    requires forall i :: 0 <= i < |sources| ==> now[i].path == sources[i].path
    requires DistinctFrom(all, |now|)
    ensures DistinctFrom(all, 0)
  {
    hide Layered, Complete, ImportsKnown;
    assert forall i :: 0 <= i < |now| ==> all[i] == all[..|now|][i];
  }
}
