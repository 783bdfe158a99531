/** What a build reads: the roots and, one after another, everything that is included; and when the
    generation found so can be built. */
module SourceDiscovery {
  import opened Wrappers
  import opened IncludeGraph
  import opened Generation
  import opened ProjectWorld

  // ---------- Following includes ----------

  /** The path is a root, or included by one of the sources from number `n` up to `m`. */
  predicate Derivable(reading: Reading, roots: seq<nat>, sources: seq<Source>, n: nat, m: nat, path: nat)
    requires m <= |sources|
  {
    path in roots || exists j :: n <= j < m && Includes(reading, sources[j], path)
  }

  /** From number `n` on, every source is a root or included by an earlier one. */
  predicate Derived(reading: Reading, roots: seq<nat>, sources: seq<Source>, n: nat) {
    forall i :: n <= i < |sources| ==> Derivable(reading, roots, sources, n, i, sources[i].path)
  }

  /** Why another file is not read: there are too many sources, reading fails, or it is missing. */
  predicate Refused(o: Outside, files: map<nat, seq<File>>, sources: seq<Source>, path: nat, status: Status) {
    && path !in PathsOf(sources)
    && if |sources| >= MAX_U32 then status == NotAvailable
       else if o.read(|sources|).fault != Ok then status == o.read(|sources|).fault
       else FileOf(files, path).Missing? && status == NotFound
  }

  /** A source from number `n` on, or one that includes nothing but roots and known sources. */
  ghost predicate Followable(reading: Reading, sources: seq<Source>, n: nat, roots: seq<nat>, i: nat)
    requires n <= |sources| && i < |sources|
  {
    i >= n || forall p :: Includes(reading, sources[i], p) ==> p in roots || p in PathsOf(sources[..n])
  }

  lemma {:induction false} DerivedMore(
      reading: Reading, roots: seq<nat>, sources: seq<Source>, all: seq<Source>, n: nat, i: nat)
    requires n <= |sources| && i < |sources| <= |all| && all[..|sources|] == sources
    requires Derived(reading, roots, sources, n)
    requires Followable(reading, sources, n, roots, i) && DistinctFrom(all, n)
    requires forall k :: |sources| <= k < |all| ==> Includes(reading, sources[i], all[k].path)
    ensures Derived(reading, roots, all, n)
  {
    hide Includes;
    assert forall j :: 0 <= j < |sources| ==> all[j] == all[..|sources|][j];
    forall k | n <= k < |all| ensures Derivable(reading, roots, all, n, k, all[k].path) {
      if k < |sources| {
        assert Derivable(reading, roots, sources, n, k, sources[k].path);
        if sources[k].path !in roots {
          var j :| n <= j < k && Includes(reading, sources[j], sources[k].path);
          assert Includes(reading, all[j], all[k].path);
        }
      } else {
        assert Includes(reading, all[i], all[k].path);
        assert forall j :: 0 <= j < n ==> PathsOf(sources[..n])[j] == all[j].path;
      }
    }
  }

  lemma {:induction false} DerivableBy(reading: Reading, roots: seq<nat>, all: seq<Source>, n: nat, i: nat, path: nat)
    requires n <= |all| && i < |all| && Includes(reading, all[i], path) && path !in PathsOf(all)
    requires Followable(reading, all, n, roots, i)
    ensures Derivable(reading, roots, all, n, |all|, path)
  {
    assert forall j :: 0 <= j < n ==> PathsOf(all[..n])[j] == PathsOf(all)[j];
  }

  lemma {:induction false} DistinctNext(sources: seq<Source>, s: Source, n: nat)
    requires DistinctFrom(sources, n) && s.path !in PathsOf(sources)
    ensures DistinctFrom(sources + [s], n)
  {
    assert forall j :: 0 <= j < |sources| ==> PathsOf(sources)[j] == sources[j].path;
  }

  // ---------- What there is to read ----------

  /** A way to the last path of the chain: from a root, each included by the one before as it is
      now, and none of them known already. */
  predicate Chain(reading: Reading, files: map<nat, seq<File>>, roots: seq<nat>, known: seq<nat>, chain: seq<nat>)
    decreases |chain|
  {
    |chain| > 0 &&
    var last, front := chain[|chain| - 1], chain[..|chain| - 1];
    && last !in known
    && if front == [] then last in roots
       else
         && Chain(reading, files, roots, known, front)
         && Includes(reading, Source(front[|front| - 1], FileOf(files, front[|front| - 1])), last)
  }

  ghost predicate Wanted(reading: Reading, files: map<nat, seq<File>>, roots: seq<nat>, known: seq<nat>, path: nat) {
    exists chain :: Chain(reading, files, roots, known, chain) && chain[|chain| - 1] == path
  }

  /** Every file that is wanted is there, and with what is known they can be numbered in 32 bits. */
  ghost predicate Gatherable(reading: Reading, files: map<nat, seq<File>>, roots: seq<nat>, known: seq<nat>) {
    && (forall path :: Wanted(reading, files, roots, known, path) ==> FileOf(files, path).Present?)
    && forall paths: set<nat> | paths != {} && (forall p :: p in paths ==> Wanted(reading, files, roots, known, p)) ::
         |known| + |paths| <= MAX_U32
  }

  /** A file that is wanted is missing. */
  ghost predicate Absent(reading: Reading, files: map<nat, seq<File>>, roots: seq<nat>, known: seq<nat>) {
    exists path :: Wanted(reading, files, roots, known, path) && FileOf(files, path).Missing?
  }

  /** With what is known, more files are wanted than can be numbered in 32 bits. */
  ghost predicate Crowded(reading: Reading, files: map<nat, seq<File>>, roots: seq<nat>, known: seq<nat>) {
    exists paths: set<nat> ::
      paths != {} && (forall p :: p in paths ==> Wanted(reading, files, roots, known, p)) && |known| + |paths| > MAX_U32
  }

  lemma {:induction false} GatherableMeans(
      reading: Reading, files: map<nat, seq<File>>, roots: seq<nat>, known: seq<nat>)
    ensures
      Gatherable(reading, files, roots, known)
      <==> !Absent(reading, files, roots, known) && !Crowded(reading, files, roots, known)
  {
    hide Wanted, FileOf;
  }

  /** From number `n` on, the sources are as the files are now. */
  predicate FreshFrom(files: map<nat, seq<File>>, sources: seq<Source>, n: nat) {
    forall i :: n <= i < |sources| ==> sources[i].file.Present? && sources[i].file == FileOf(files, sources[i].path)
  }

  lemma {:induction false} ReadAtOnce(files: map<nat, seq<File>>, sources: seq<Source>, n: nat)
    requires ReadFrom(files, files, sources, n)
    ensures FreshFrom(files, sources, n)
  {
    forall i | n <= i < |sources| ensures sources[i].file == FileOf(files, sources[i].path) {
      assert ReadDuring(files, files, sources[i].path, sources[i].file);
    }
  }

  lemma {:induction false} WantedNext(
      reading: Reading, files: map<nat, seq<File>>, roots: seq<nat>, known: seq<nat>, path: nat, next: nat)
    requires Wanted(reading, files, roots, known, path) && Includes(reading, Source(path, FileOf(files, path)), next)
    requires next !in known
    ensures Wanted(reading, files, roots, known, next)
  {
    var chain :| Chain(reading, files, roots, known, chain) && chain[|chain| - 1] == path;
    var longer := chain + [next];
    assert longer[..|longer| - 1] == chain;
    assert Chain(reading, files, roots, known, longer);
  }

  lemma {:induction false} WantedRoot(
      reading: Reading, files: map<nat, seq<File>>, roots: seq<nat>, known: seq<nat>, path: nat)
    requires path in roots && path !in known
    ensures Wanted(reading, files, roots, known, path)
  {
    assert [path][..|[path]| - 1] == [];
    assert Chain(reading, files, roots, known, [path]);
  }

  /** What can be derived is wanted. */
  lemma {:induction false} DerivableIsWanted(
      reading: Reading, files: map<nat, seq<File>>, roots: seq<nat>, sources: seq<Source>, n: nat, m: nat, path: nat)
    requires n <= m <= |sources| && Derived(reading, roots, sources, n) && FreshFrom(files, sources, n)
    requires DistinctFrom(sources, n)
    requires Derivable(reading, roots, sources, n, m, path) && path !in PathsOf(sources[..n])
    ensures Wanted(reading, files, roots, PathsOf(sources[..n]), path)
    decreases m
  {
    hide Wanted, Includes, FileOf;
    var known := PathsOf(sources[..n]);
    if path in roots {
      WantedRoot(reading, files, roots, known, path);
    } else {
      var j :| n <= j < m && Includes(reading, sources[j], path);
      NewIsUnknown(sources, n, j);
      DerivableIsWanted(reading, files, roots, sources, n, j, sources[j].path);
      assert sources[j] == Source(sources[j].path, FileOf(files, sources[j].path));
      WantedNext(reading, files, roots, known, sources[j].path, path);
    }
  }

  lemma {:induction false} NewIsUnknown(sources: seq<Source>, n: nat, i: nat)
    requires n <= i < |sources| && DistinctFrom(sources, n)
    ensures sources[i].path !in PathsOf(sources[..n])
  {
    assert forall j :: 0 <= j < n ==> PathsOf(sources[..n])[j] == sources[j].path;
  }

  /** When everything is followed, what is wanted is among the new sources. */
  lemma {:induction false} WantedIsNew(
      reading: Reading, files: map<nat, seq<File>>, roots: seq<nat>, sources: seq<Source>, n: nat, chain: seq<nat>)
    returns (i: nat)
    requires n <= |sources| && FreshFrom(files, sources, n)
    requires forall p :: p in roots ==> p in PathsOf(sources)
    requires forall k :: n <= k < |sources| ==> ImportsKnown(reading, sources, k)
    requires Chain(reading, files, roots, PathsOf(sources[..n]), chain)
    ensures n <= i < |sources| && sources[i].path == chain[|chain| - 1]
    decreases |chain|
  {
    hide FileOf;
    var last, front := chain[|chain| - 1], chain[..|chain| - 1];
    if front != [] {
      var j := WantedIsNew(reading, files, roots, sources, n, front);
      assert ImportsKnown(reading, sources, j);
      assert sources[j] == Source(front[|front| - 1], FileOf(files, front[|front| - 1]));
    }
    assert last in PathsOf(sources);
    assert forall k :: 0 <= k < n ==> PathsOf(sources[..n])[k] == PathsOf(sources)[k];
    i :| 0 <= i < |sources| && PathsOf(sources)[i] == last;
  }

  function NewPaths(sources: seq<Source>, n: nat): set<nat>
    requires n <= |sources|
  {
    set i | n <= i < |sources| :: sources[i].path
  }

  lemma {:induction false} NewPathsCount(sources: seq<Source>, n: nat)
    requires n <= |sources|
    ensures |NewPaths(sources, n)| <= |sources| - n
    ensures DistinctFrom(sources, n) ==> |NewPaths(sources, n)| == |sources| - n
  {
    if n < |sources| {
      var last := |sources| - 1;
      NewPathsCount(sources[..last], n);
      assert NewPaths(sources, n) == NewPaths(sources[..last], n) + {sources[last].path};
    } else {
      assert NewPaths(sources, n) == {};
    }
  }

  lemma {:induction false} SubsetCount(a: set<nat>, b: set<nat>)
    requires a <= b
    ensures |a| <= |b|
  {
    assert b == a + (b - a);
  }

  /** Everything was followed: nothing that is wanted is missing. */
  lemma {:induction false} FollowedIsGatherable(
      reading: Reading, files: map<nat, seq<File>>, roots: seq<nat>, sources: seq<Source>, n: nat)
    requires n <= |sources| && FreshFrom(files, sources, n) && (|sources| <= MAX_U32 || |sources| == n)
    requires forall p :: p in roots ==> p in PathsOf(sources)
    requires forall k :: n <= k < |sources| ==> ImportsKnown(reading, sources, k)
    ensures Gatherable(reading, files, roots, PathsOf(sources[..n]))
  {
    hide ImportsKnown, Includes;
    var known := PathsOf(sources[..n]);
    forall path | Wanted(reading, files, roots, known, path)
      ensures path in NewPaths(sources, n) && FileOf(files, path).Present?
    {
      var chain :| Chain(reading, files, roots, known, chain) && chain[|chain| - 1] == path;
      var i := WantedIsNew(reading, files, roots, sources, n, chain);
    }
    forall paths: set<nat> | paths != {} && (forall p :: p in paths ==> Wanted(reading, files, roots, known, p))
      ensures |known| + |paths| <= MAX_U32
    {
      assert paths <= NewPaths(sources, n);
      SubsetCount(paths, NewPaths(sources, n));
      NewPathsCount(sources, n);
      var p :| p in paths;
      assert p in NewPaths(sources, n);
    }
  }

  /** Something was refused: it is wanted, and it is missing or one too many. */
  lemma {:induction false} RefusedTells(
      reading: Reading, o: Outside, files: map<nat, seq<File>>, roots: seq<nat>, sources: seq<Source>, n: nat,
      culprit: nat, status: Status)
    requires n <= |sources| && FreshFrom(files, sources, n) && Derived(reading, roots, sources, n)
    requires DistinctFrom(sources, n)
    requires Derivable(reading, roots, sources, n, |sources|, culprit) && Refused(o, files, sources, culprit, status)
    requires o.read(|sources|).fault == Ok
    ensures
      || (status == NotFound && Absent(reading, files, roots, PathsOf(sources[..n])))
      || (status == NotAvailable && Crowded(reading, files, roots, PathsOf(sources[..n])))
  {
    hide Wanted, Derivable, Derived, FreshFrom, DistinctFrom, FileOf;
    var known := PathsOf(sources[..n]);
    assert forall j :: 0 <= j < |sources| ==> PathsOf(sources)[j] == sources[j].path;
    assert forall j :: 0 <= j < n ==> known[j] == PathsOf(sources)[j];
    DerivableIsWanted(reading, files, roots, sources, n, |sources|, culprit);
    if |sources| >= MAX_U32 {
      NewAreWanted(reading, files, roots, sources, n);
      NewPathsCount(sources, n);
      var paths := NewPaths(sources, n) + {culprit};
      assert culprit !in NewPaths(sources, n);
      assert |known| + |paths| > MAX_U32;
    }
  }

  lemma {:induction false} NewAreWanted(
      reading: Reading, files: map<nat, seq<File>>, roots: seq<nat>, sources: seq<Source>, n: nat)
    requires n <= |sources| && FreshFrom(files, sources, n) && Derived(reading, roots, sources, n)
    requires DistinctFrom(sources, n)
    ensures forall p :: p in NewPaths(sources, n) ==> Wanted(reading, files, roots, PathsOf(sources[..n]), p)
  {
    hide Wanted, Derivable, FreshFrom, DistinctFrom;
    forall p | p in NewPaths(sources, n) ensures Wanted(reading, files, roots, PathsOf(sources[..n]), p) {
      var i :| n <= i < |sources| && sources[i].path == p;
      NewIsUnknown(sources, n, i);
      DerivableIsWanted(reading, files, roots, sources, n, i, p);
    }
  }

  // ---------- What can be built ----------

  /** The file behind a path, as an update of the known sources `now` sees it. */
  function Shown(files: map<nat, seq<File>>, now: seq<Source>, path: nat): File {
    if path in PathsOf(now) then now[NumberOf(now, path)].file else FileOf(files, path)
  }

  /** Each path is included by the one before. */
  predicate Trail(reading: Reading, files: map<nat, seq<File>>, now: seq<Source>, w: seq<nat>) {
    forall k :: 0 <= k < |w| - 1 ==> Includes(reading, Source(w[k], Shown(files, now, w[k])), w[k + 1])
  }

  /** The paths that will belong to the generation: known sources that are there, and what is
      wanted besides. */
  ghost predicate Part(reading: Reading, files: map<nat, seq<File>>, roots: seq<nat>, now: seq<Source>, path: nat) {
    || Wanted(reading, files, roots, PathsOf(now), path)
    || (path in PathsOf(now) && Shown(files, now, path).Present?)
  }

  /** Nothing that belongs to the generation includes a file that is missing, or itself through
      others. */
  ghost predicate Coherent(reading: Reading, files: map<nat, seq<File>>, roots: seq<nat>, now: seq<Source>) {
    && (forall p, q :: Part(reading, files, roots, now, p) && Includes(reading, Source(p, Shown(files, now, p)), q) ==>
          Shown(files, now, q).Present?)
    && forall w :: Trail(reading, files, now, w) && |w| >= 2 && Part(reading, files, roots, now, w[0]) ==>
         w[0] != w[|w| - 1]
  }

  /** Something that belongs to the generation includes a file that is missing. */
  ghost predicate Dangling(reading: Reading, files: map<nat, seq<File>>, roots: seq<nat>, now: seq<Source>) {
    exists p, q :: Part(reading, files, roots, now, p) && Includes(reading, Source(p, Shown(files, now, p)), q)
                   && Shown(files, now, q).Missing?
  }

  /** Something that belongs to the generation includes itself, directly or through others. */
  ghost predicate Circular(reading: Reading, files: map<nat, seq<File>>, roots: seq<nat>, now: seq<Source>) {
    exists w :: Trail(reading, files, now, w) && |w| >= 2 && Part(reading, files, roots, now, w[0])
                && w[0] == w[|w| - 1]
  }

  /** Something that belongs to the generation includes itself directly. */
  ghost predicate Selfish(reading: Reading, files: map<nat, seq<File>>, roots: seq<nat>, now: seq<Source>) {
    exists p :: Part(reading, files, roots, now, p) && Includes(reading, Source(p, Shown(files, now, p)), p)
  }

  lemma {:induction false} CoherentMeans(
      reading: Reading, files: map<nat, seq<File>>, roots: seq<nat>, now: seq<Source>)
    ensures
      Coherent(reading, files, roots, now)
      <==> !Dangling(reading, files, roots, now) && !Circular(reading, files, roots, now)
    ensures Selfish(reading, files, roots, now) ==> Circular(reading, files, roots, now)
  {
    hide Part, Shown, Includes;
    if Selfish(reading, files, roots, now) {
      var p :| Part(reading, files, roots, now, p) && Includes(reading, Source(p, Shown(files, now, p)), p);
      assert Trail(reading, files, now, [p, p]);
    }
  }

  ghost predicate Buildable(reading: Reading, files: map<nat, seq<File>>, roots: seq<nat>, now: seq<Source>) {
    Gatherable(reading, files, roots, PathsOf(now)) && Coherent(reading, files, roots, now)
  }

  /** All that an exploration has read so far is new, as it is now, and read for a reason. */
  predicate Gathered(reading: Reading, files: map<nat, seq<File>>, roots: seq<nat>, all: seq<Source>, n: nat)
    requires n <= |all|
  {
    && n <= |all| && FreshFrom(files, all, n) && Derived(reading, roots, all, n) && DistinctFrom(all, 0)
  }

  lemma {:induction false} ShownIs(
      reading: Reading, files: map<nat, seq<File>>, roots: seq<nat>, all: seq<Source>, n: nat, i: nat)
    requires n <= |all| && Gathered(reading, files, roots, all, n) && i < |all|
    ensures Shown(files, all[..n], all[i].path) == all[i].file
  {
    hide FileOf;
    if i < n { OnlyNumber(all[..n], i); } else { NewIsUnknown(all, n, i); }
  }

  /** What has been read, and what is known and there, belongs to the generation. */
  lemma {:induction false} IsPart(
      reading: Reading, files: map<nat, seq<File>>, roots: seq<nat>, all: seq<Source>, n: nat, i: nat)
    requires n <= |all| && Gathered(reading, files, roots, all, n) && i < |all| && all[i].file.Present?
    ensures Part(reading, files, roots, all[..n], all[i].path)
  {
    hide FileOf, Wanted, Derived, FreshFrom;
    if i < n {
      ShownIs(reading, files, roots, all, n, i);
      assert PathsOf(all[..n])[i] == all[i].path;
    } else {
      NewAreWanted(reading, files, roots, all, n);
      assert all[i].path in NewPaths(all, n);
    }
  }

  /** Everything has been read: the roots and all that a source includes are known. */
  predicate Followed(reading: Reading, roots: seq<nat>, all: seq<Source>) {
    && (forall p :: p in roots ==> p in PathsOf(all))
    && forall i :: 0 <= i < |all| ==> ImportsKnown(reading, all, i)
  }

  lemma {:induction false} PartIs(
      reading: Reading, files: map<nat, seq<File>>, roots: seq<nat>, all: seq<Source>, n: nat, path: nat)
    returns (i: nat)
    requires n <= |all| && Gathered(reading, files, roots, all, n) && Followed(reading, roots, all)
    requires Part(reading, files, roots, all[..n], path)
    ensures i < |all| && all[i].path == path && all[i].file.Present?
  {
    hide FileOf, Derived;
    var known := PathsOf(all[..n]);
    if Wanted(reading, files, roots, known, path) {
      var chain :| Chain(reading, files, roots, known, chain) && chain[|chain| - 1] == path;
      i := WantedIsNew(reading, files, roots, all, n, chain);
    } else {
      i := NumberOf(all[..n], path);
      ShownIs(reading, files, roots, all, n, i);
    }
  }

  lemma {:induction false} SelfIsSelfish(
      reading: Reading, files: map<nat, seq<File>>, roots: seq<nat>, all: seq<Source>, n: nat, i: nat)
    requires n <= |all| && Gathered(reading, files, roots, all, n)
    requires i < |all| && Includes(reading, all[i], all[i].path)
    ensures Selfish(reading, files, roots, all[..n])
  {
    hide Part, Gathered;
    ShownIs(reading, files, roots, all, n, i);
    IsPart(reading, files, roots, all, n, i);
    assert Source(all[i].path, Shown(files, all[..n], all[i].path)) == all[i];
  }

  lemma {:induction false} SelfishExactly(
      reading: Reading, files: map<nat, seq<File>>, roots: seq<nat>, all: seq<Source>, n: nat)
    requires n <= |all| && Gathered(reading, files, roots, all, n) && Followed(reading, roots, all)
    ensures
      Selfish(reading, files, roots, all[..n])
      <==> exists i :: 0 <= i < |all| && Includes(reading, all[i], all[i].path)
  {
    hide Part, Gathered, Followed, Includes, Shown;
    if Selfish(reading, files, roots, all[..n]) {
      var p :| Part(reading, files, roots, all[..n], p) && Includes(reading, Source(p, Shown(files, all[..n], p)), p);
      var i := PartIs(reading, files, roots, all, n, p);
      ShownIs(reading, files, roots, all, n, i);
      assert Source(p, Shown(files, all[..n], p)) == all[i];
    }
    if i :| 0 <= i < |all| && Includes(reading, all[i], all[i].path) {
      SelfIsSelfish(reading, files, roots, all, n, i);
    }
  }

  /** A walk along the numbers is a trail along the paths. */
  lemma {:induction false} WalkIsTrail(
      reading: Reading, files: map<nat, seq<File>>, roots: seq<nat>, all: seq<Source>, n: nat, w: seq<nat>)
    requires n <= |all| && Gathered(reading, files, roots, all, n)
    requires Steps(GraphOf(reading, all), w) && Within(w, |all|)
    ensures Trail(reading, files, all[..n], seq(|w|, k requires 0 <= k < |w| => all[w[k]].path))
  {
    hide Shown, Includes, EdgesOf;
    var trail := seq(|w|, k requires 0 <= k < |w| => all[w[k]].path);
    forall k | 0 <= k < |trail| - 1
      ensures Includes(reading, Source(trail[k], Shown(files, all[..n], trail[k])), trail[k + 1])
    {
      ShownIs(reading, files, roots, all, n, w[k]);
      EdgeMeans(reading, all, all[w[k]], w[k + 1]);
    }
  }

  /** A trail from a source that is there stays among the sources and is a walk along their numbers. */
  lemma {:induction false} TrailIsWalk(
      reading: Reading, files: map<nat, seq<File>>, roots: seq<nat>, all: seq<Source>, n: nat, trail: seq<nat>, i: nat)
    returns (w: seq<nat>)
    requires n <= |all| && Gathered(reading, files, roots, all, n) && Followed(reading, roots, all)
    requires Trail(reading, files, all[..n], trail) && trail != [] && i < |all| && all[i].path == trail[0]
    ensures |w| == |trail| && Steps(GraphOf(reading, all), w) && Within(w, |all|)
    ensures forall k :: 0 <= k < |w| ==> all[w[k]].path == trail[k]
    ensures w[0] == i
  {
    hide Shown, EdgesOf;
    if |trail| == 1 {
      w := [i];
    } else {
      ShownIs(reading, files, roots, all, n, i);
      assert Includes(reading, Source(trail[0], Shown(files, all[..n], trail[0])), trail[1]);
      assert Source(trail[0], Shown(files, all[..n], trail[0])) == all[i];
      assert ImportsKnown(reading, all, i);
      var j := NumberOf(all, trail[1]);
      EdgeMeans(reading, all, all[i], j);
      var rest := trail[1..];
      assert Trail(reading, files, all[..n], rest) by {
        forall k | 0 <= k < |rest| - 1
          ensures Includes(reading, Source(rest[k], Shown(files, all[..n], rest[k])), rest[k + 1])
        {
          assert rest[k] == trail[k + 1] && rest[k + 1] == trail[k + 2];
        }
      }
      var tail := TrailIsWalk(reading, files, roots, all, n, rest, j);
      StepsFront(GraphOf(reading, all), i, tail);
      w := [i] + tail;
    }
  }

  lemma {:induction false} FollowedMeans(
      reading: Reading, files: map<nat, seq<File>>, roots: seq<nat>, all: seq<Source>, n: nat)
    requires n <= |all| && Gathered(reading, files, roots, all, n) && Followed(reading, roots, all)
    ensures DistinctFrom(all, 0) && forall i :: 0 <= i < |all| ==> ImportsKnown(reading, all, i)
  {}

  /** Once everything has been read, the include graph tells whether a missing file is included. */
  lemma {:induction false} DanglingExactly(
      reading: Reading, files: map<nat, seq<File>>, roots: seq<nat>, all: seq<Source>, n: nat)
    requires n <= |all| && Gathered(reading, files, roots, all, n) && Followed(reading, roots, all)
    ensures Dangling(reading, files, roots, all[..n]) <==> !Complete(GraphOf(reading, all), Presence(all))
  {
    FollowedMeans(reading, files, roots, all, n);
    hide Gathered, Followed, Part, Trail, Shown, EdgesOf, DistinctFrom, Includes;
    var g, now := GraphOf(reading, all), all[..n];
    if !Complete(g, Presence(all)) {
      var i :| 0 <= i < |g| && !CompleteAt(g, Presence(all), i);
      var k :| 0 <= k < |g[i]| && !Presence(all)[g[i][k]];
      var j := g[i][k];
      assert Within(g[i], |g|) && j in g[i];
      EdgeMeans(reading, all, all[i], j);
      ShownIs(reading, files, roots, all, n, i);
      ShownIs(reading, files, roots, all, n, j);
      IsPart(reading, files, roots, all, n, i);
      assert Source(all[i].path, Shown(files, now, all[i].path)) == all[i];
    }
    if Dangling(reading, files, roots, now) {
      var p, q :| Part(reading, files, roots, now, p) && Includes(reading, Source(p, Shown(files, now, p)), q)
                  && Shown(files, now, q).Missing?;
      var i := PartIs(reading, files, roots, all, n, p);
      ShownIs(reading, files, roots, all, n, i);
      assert Source(p, Shown(files, now, p)) == all[i];
      DanglingEdge(reading, files, roots, all, n, i, q);
    }
  }

  lemma {:induction false} DanglingEdge(
      reading: Reading, files: map<nat, seq<File>>, roots: seq<nat>, all: seq<Source>, n: nat, i: nat, q: nat)
    requires n <= |all| && Gathered(reading, files, roots, all, n) && Followed(reading, roots, all)
    requires i < |all| && Includes(reading, all[i], q) && Shown(files, all[..n], q).Missing?
    ensures !Complete(GraphOf(reading, all), Presence(all))
  {
    FollowedMeans(reading, files, roots, all, n);
    hide Gathered, Followed, Shown, EdgesOf, DistinctFrom;
    assert ImportsKnown(reading, all, i);
    var j := NumberOf(all, q);
    EdgeMeans(reading, all, all[i], j);
    ShownIs(reading, files, roots, all, n, j);
    var g := GraphOf(reading, all);
    var k :| 0 <= k < |g[i]| && g[i][k] == j;
    assert !CompleteAt(g, Presence(all), i);
  }

  /** And whether something includes itself through others. */
  lemma {:induction false} CircularExactly(
      reading: Reading, files: map<nat, seq<File>>, roots: seq<nat>, all: seq<Source>, n: nat)
    requires n <= |all| && Gathered(reading, files, roots, all, n) && Followed(reading, roots, all)
    ensures Circular(reading, files, roots, all[..n]) <==> !Acyclic(GraphOf(reading, all))
  {
    hide Gathered, Followed, Part, Trail, Shown, EdgesOf, GraphOf, Steps;
    var g, now := GraphOf(reading, all), all[..n];
    if v :| Leads(g, v, v) {
      var w :| Steps(g, w) && |w| >= 2 && w[0] == v && w[|w| - 1] == v;
      CycleIsCircular(reading, files, roots, all, n, w);
    }
    if Circular(reading, files, roots, now) {
      var trail :| Trail(reading, files, now, trail) && |trail| >= 2 && Part(reading, files, roots, now, trail[0])
                   && trail[0] == trail[|trail| - 1];
      var i := PartIs(reading, files, roots, all, n, trail[0]);
      var w := TrailIsWalk(reading, files, roots, all, n, trail, i);
      var last := |w| - 1;
      assert w[0] == w[last] by {
        FollowedMeans(reading, files, roots, all, n);
        SamePath(all, w[0], w[last]);
      }
      WalkLeads(g, w, 0, last);
    }
  }

  lemma {:induction false} CycleIsCircular(
      reading: Reading, files: map<nat, seq<File>>, roots: seq<nat>, all: seq<Source>, n: nat, w: seq<nat>)
    requires n <= |all| && Gathered(reading, files, roots, all, n) && Followed(reading, roots, all)
    requires Steps(GraphOf(reading, all), w) && |w| >= 2 && w[0] == w[|w| - 1]
    ensures Circular(reading, files, roots, all[..n])
  {
    hide Gathered, Followed, Part, Trail, Shown, EdgesOf, DistinctFrom, Includes, Steps, GraphOf;
    FollowedMeans(reading, files, roots, all, n);
    ClosedWalkFits(GraphOf(reading, all), w);
    WalkIsTrail(reading, files, roots, all, n, w);
    var trail := seq(|w|, k requires 0 <= k < |w| => all[w[k]].path);
    GraphEdges(reading, all, w[0]);
    EdgeMeans(reading, all, all[w[0]], w[1]);
    IsIncluder(reading, all[w[0]], all[w[1]].path);
    IsPart(reading, files, roots, all, n, w[0]);
    assert trail[0] == trail[|trail| - 1];
  }

  /** Once everything has been read, the generation is well built exactly if it is coherent. */
  lemma {:induction false} CoherentIsWellBuilt(
      reading: Reading, files: map<nat, seq<File>>, roots: seq<nat>, all: seq<Source>, n: nat)
    requires n <= |all| && Gathered(reading, files, roots, all, n) && Followed(reading, roots, all)
    ensures Coherent(reading, files, roots, all[..n]) <==> WellBuilt(reading, all)
  {
    WellBuiltMeans(reading, all);
    FollowedMeans(reading, files, roots, all, n);
    hide Gathered, Followed, Coherent, Dangling, Circular, WellBuilt, Complete, Acyclic, DistinctFrom, ImportsKnown;
    CoherentMeans(reading, files, roots, all[..n]);
    DanglingExactly(reading, files, roots, all, n);
    CircularExactly(reading, files, roots, all, n);
  }

  lemma {:induction false} GraphEdges(reading: Reading, all: seq<Source>, i: nat)
    requires i < |all|
    ensures GraphOf(reading, all)[i] == EdgesOf(reading, all, all[i])
  {}

  lemma {:induction false} ClosedWalkFits(g: Graph, w: seq<nat>)
    requires Steps(g, w) && |w| >= 2 && w[0] == w[|w| - 1]
    ensures Within(w, |g|) && w[1] in g[w[0]]
  {
    forall k | 0 <= k < |w| ensures w[k] < |g| {
      if k == |w| - 1 { assert w[0] < |g|; } else { assert w[k] < |g|; }
    }
    assert w[0] < |g| && w[1] in g[w[0]];
  }

  lemma {:induction false} IsIncluder(reading: Reading, s: Source, path: nat)
    requires Includes(reading, s, path)
    ensures s.file.Present?
  {}

  lemma {:induction false} SamePath(all: seq<Source>, i: nat, j: nat)
    requires i < |all| && j < |all| && (DistinctFrom(all, 0) ==> all[i].path == all[j].path)
    ensures DistinctFrom(all, 0) ==> i == j
  {}

  /** Why following the includes stopped: at a file that is not read, or at a source that includes
      itself. */
  ghost predicate Stopped(
      reading: Reading, o: Outside, files: map<nat, seq<File>>, roots: seq<nat>, all: seq<Source>, n: nat, culprit: nat,
      status: Status)
  {
    || (Derivable(reading, roots, all, n, |all|, culprit) && Refused(o, files, all, culprit, status))
    || (status == InvalidArgument
        && exists i :: 0 <= i < |all| && all[i].path == culprit && Includes(reading, all[i], culprit))
  }

  lemma {:induction false} RefusedStops(
      reading: Reading, o: Outside, files: map<nat, seq<File>>, roots: seq<nat>, sources: seq<Source>, all: seq<Source>,
      n: nat, i: nat, culprit: nat, status: Status)
    requires n <= |sources| <= |all| && all[..|sources|] == sources && i < |sources|
    requires Followable(reading, sources, n, roots, i) && Includes(reading, sources[i], culprit)
    requires Refused(o, files, all, culprit, status)
    ensures Stopped(reading, o, files, roots, all, n, culprit, status)
  {
    hide Includes;
    assert all[i] == all[..|sources|][i] && all[..n] == sources[..n];
    DerivableBy(reading, roots, all, n, i, culprit);
  }

  /** In a quiet world following the includes stops only at a file that is missing, at one file too
      many or at a file that includes itself, and the answer tells which. */
  ghost predicate ToldWhy(
      reading: Reading, files: map<nat, seq<File>>, roots: seq<nat>, now: seq<Source>, status: Status)
  {
    || (status == NotFound && Absent(reading, files, roots, PathsOf(now)))
    || (status == NotAvailable && Crowded(reading, files, roots, PathsOf(now)))
    || (status == InvalidArgument && Selfish(reading, files, roots, now))
  }

  lemma {:induction false} StoppedTells(
      reading: Reading, o: Outside, w: World, roots: seq<nat>, all: seq<Source>, n: nat, culprit: nat, status: Status)
    requires Quiet(reading, w, o) && n <= |all| && ReadFrom(w.files, w.files, all, n)
    requires Derived(reading, roots, all, n) && DistinctFrom(all, 0)
    requires Stopped(reading, o, w.files, roots, all, n, culprit, status)
    ensures ToldWhy(reading, w.files, roots, all[..n], status) && !Buildable(reading, w.files, roots, all[..n])
  {
    hide ReadFrom, FreshFrom, Derived, Derivable, Gatherable, Coherent, Includes, Changed, Refused, Absent, Crowded,
      Selfish, Circular, Dangling;
    ReadAtOnce(w.files, all, n);
    GatherableMeans(reading, w.files, roots, PathsOf(all[..n]));
    CoherentMeans(reading, w.files, roots, all[..n]);
    if Derivable(reading, roots, all, n, |all|, culprit) && Refused(o, w.files, all, culprit, status) {
      RefusedTells(reading, o, w.files, roots, all, n, culprit, status);
    } else {
      var i :| 0 <= i < |all| && all[i].path == culprit && Includes(reading, all[i], culprit);
      SelfIsSelfish(reading, w.files, roots, all, n, i);
    }
  }

  /** What an undisturbed build of these files answers: what stops the reading, if anything does; and
      else whether something includes itself through others or a missing file. */
  ghost predicate Told(
      reading: Reading, files: map<nat, seq<File>>, roots: seq<nat>, now: seq<Source>, status: Status)
  {
    if Gatherable(reading, files, roots, PathsOf(now)) && !Selfish(reading, files, roots, now) then
      status == if Circular(reading, files, roots, now) then SemanticConflict
                else if Dangling(reading, files, roots, now) then NotFound else Ok
    else ToldWhy(reading, files, roots, now, status)
  }

  lemma {:induction false} StoppedIsTold(
      reading: Reading, files: map<nat, seq<File>>, roots: seq<nat>, now: seq<Source>, status: Status)
    requires ToldWhy(reading, files, roots, now, status)
    ensures Told(reading, files, roots, now, status)
  {
    hide Gatherable, Absent, Crowded, Selfish;
    GatherableMeans(reading, files, roots, PathsOf(now));
  }

  /** Everything could be read, and nothing includes itself directly: the graph tells the rest. */
  lemma {:induction false} FollowedIsTold(
      reading: Reading, o: Outside, w: World, roots: seq<nat>, all: seq<Source>, n: nat, status: Status)
    requires Quiet(reading, w, o) && n <= |all| && ReadFrom(w.files, w.files, all, n)
    requires Derived(reading, roots, all, n) && DistinctFrom(all, 0) && Followed(reading, roots, all)
    requires |all| <= MAX_U32 || |all| == n
    requires forall i :: 0 <= i < |all| ==> !Includes(reading, all[i], all[i].path)
    requires status == CheckStatus(reading, all)
    ensures Told(reading, w.files, roots, all[..n], status)
  {
    hide ReadFrom, FreshFrom, Derived, Gatherable, Quiet, ImportsKnown, DistinctFrom, Complete, Acyclic, GraphOf,
      Selfish, Circular, Dangling, Includes;
    ReadAtOnce(w.files, all, n);
    FollowedIsGatherable(reading, w.files, roots, all, n);
    SelfishExactly(reading, w.files, roots, all, n);
    DanglingExactly(reading, w.files, roots, all, n);
    CircularExactly(reading, w.files, roots, all, n);
  }

  /** What the checks of a complete graph answer. */
  ghost function CheckStatus(reading: Reading, all: seq<Source>): Status {
    if !Acyclic(GraphOf(reading, all)) then SemanticConflict
    else if !Complete(GraphOf(reading, all), Presence(all)) then NotFound else Ok
  }

  /** What is told decides exactly whether the build succeeds. */
  lemma {:induction false} ToldDecides(
      reading: Reading, files: map<nat, seq<File>>, roots: seq<nat>, now: seq<Source>, status: Status)
    requires Told(reading, files, roots, now, status)
    ensures status == Ok <==> Buildable(reading, files, roots, now)
    ensures status in {Ok, NotFound, NotAvailable, InvalidArgument, SemanticConflict}
  {
    hide Gatherable, Coherent, Absent, Crowded, Selfish, Circular, Dangling;
    GatherableMeans(reading, files, roots, PathsOf(now));
    CoherentMeans(reading, files, roots, now);
  }

  /** The sources to follow: those pending at first, and then all that came after the first ones. */
  predicate Queued(queue: seq<nat>, pending: seq<nat>, first: nat, all: nat) {
    && first <= all && |queue| == |pending| + (all - first)
    && (forall k :: 0 <= k < |pending| ==> queue[k] == pending[k] < first)
    && forall k :: |pending| <= k < |queue| ==> queue[k] == first + (k - |pending|)
  }

  /** From number `n` on, every source was read during the stretch of time. */
  ghost predicate ReadFrom(a: map<nat, seq<File>>, b: map<nat, seq<File>>, sources: seq<Source>, n: nat) {
    forall i :: n <= i < |sources| ==> sources[i].file.Present? && ReadDuring(a, b, sources[i].path, sources[i].file)
  }

  lemma {:induction false} ReadFromLonger(
      a: map<nat, seq<File>>, b: map<nat, seq<File>>, c: map<nat, seq<File>>, sources: seq<Source>, n: nat)
    requires FilesLater(a, a) && FilesLater(b, c) && ReadFrom(a, b, sources, n)
    ensures ReadFrom(a, c, sources, n)
  {
    hide FilesLater;
    forall i | n <= i < |sources|
      ensures sources[i].file.Present? && ReadDuring(a, c, sources[i].path, sources[i].file)
    {
      ReadLonger(a, a, b, c, sources[i].path, sources[i].file);
    }
  }
}
