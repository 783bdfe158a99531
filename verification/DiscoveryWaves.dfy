/** How a full build reads its files: wave after wave, each wave what the one before includes. First
    a whole wave is read and then its includes are numbered, which decides what is noticed first. */
module DiscoveryWaves {
  import opened Wrappers
  import opened IncludeGraph
  import opened Generation
  import opened ProjectWorld
  import opened SourceDiscovery

  // ---------- Numbers before files ----------

  /** The paths that have a number, of which the first have been read: each is a root or included by
      an earlier source. */
  predicate Numbered(reading: Reading, roots: seq<nat>, sources: seq<Source>, known: seq<nat>) {
    && |sources| <= |known| && PathsOf(sources) == known[..|sources|] && Distinct(known)
    && forall i :: 0 <= i < |known| ==>
         Derivable(reading, roots, sources, 0, if i < |sources| then i else |sources|, known[i])
  }

  lemma {:induction false} NumberedMeans(reading: Reading, roots: seq<nat>, sources: seq<Source>, known: seq<nat>)
    requires Numbered(reading, roots, sources, known)
    ensures Derived(reading, roots, sources, 0) && DistinctFrom(sources, 0) && |sources| <= |known|
  {
    hide Derivable;
    assert forall i :: 0 <= i < |sources| ==> known[i] == PathsOf(sources)[i] == sources[i].path;
  }

  lemma {:induction false} NothingNumbered(reading: Reading, roots: seq<nat>, known: seq<nat>)
    requires Distinct(known) && forall p :: p in known ==> p in roots
    ensures Numbered(reading, roots, [], known)
  {}

  lemma {:induction false} NumberedMore(
      reading: Reading, roots: seq<nat>, sources: seq<Source>, known: seq<nat>, more: seq<nat>)
    requires Numbered(reading, roots, sources, known) && known <= more && Distinct(more)
    requires forall k :: |known| <= k < |more| ==> Derivable(reading, roots, sources, 0, |sources|, more[k])
    ensures Numbered(reading, roots, sources, more)
  {
    hide Derivable;
    assert more[..|sources|] == known[..|sources|];
  }

  lemma {:induction false} NumberedRead(
      reading: Reading, roots: seq<nat>, sources: seq<Source>, known: seq<nat>, all: seq<Source>)
    requires Numbered(reading, roots, sources, known) && |sources| < |known|
    requires |all| == |sources| + 1 && all[..|sources|] == sources && all[|sources|].path == known[|sources|]
    ensures Numbered(reading, roots, all, known)
  {
    hide Includes;
    assert forall j :: 0 <= j < |sources| ==> all[j] == all[..|sources|][j];
    assert PathsOf(all) == PathsOf(sources) + [known[|sources|]] == known[..|all|];
    forall i | 0 <= i < |known|
      ensures Derivable(reading, roots, all, 0, if i < |all| then i else |all|, known[i])
    {
      assert Derivable(reading, roots, sources, 0, if i < |sources| then i else |sources|, known[i]);
    }
  }

  /** No further path can be numbered. */
  predicate Full(reading: Reading, roots: seq<nat>, sources: seq<Source>, known: seq<nat>, culprit: nat) {
    |known| >= MAX_U32 && culprit !in known && Derivable(reading, roots, sources, 0, |sources|, culprit)
  }

  /** The next path cannot be read. */
  predicate Lost(o: Outside, files: map<nat, seq<File>>, sources: seq<Source>, known: seq<nat>, culprit: nat,
                 status: Status)
  {
    && |sources| < |known| && culprit == known[|sources|]
    && if o.read(|sources|).fault != Ok then status == o.read(|sources|).fault
       else FileOf(files, culprit).Missing? && status == NotFound
  }

  predicate Selfing(reading: Reading, sources: seq<Source>, culprit: nat) {
    exists i :: 0 <= i < |sources| && sources[i].path == culprit && Includes(reading, sources[i], culprit)
  }

  /** Why a full build stops reading. */
  predicate StoppedInFull(
      reading: Reading, o: Outside, files: map<nat, seq<File>>, roots: seq<nat>, sources: seq<Source>, known: seq<nat>,
      culprit: nat, status: Status)
  {
    && Numbered(reading, roots, sources, known)
    && (|| (status == NotAvailable && Full(reading, roots, sources, known, culprit))
        || Lost(o, files, sources, known, culprit, status)
        || (status == InvalidArgument && Selfing(reading, sources, culprit)))
  }

  function Elements(s: seq<nat>): set<nat> { set x | x in s }

  lemma {:induction false} DistinctCount(s: seq<nat>)
    requires Distinct(s)
    ensures |Elements(s)| == |s|
  {
    if s != [] {
      var last := |s| - 1;
      DistinctCount(s[..last]);
      assert Elements(s) == Elements(s[..last]) + {s[last]};
    }
  }

  lemma {:induction false} NumberedAreWanted(
      reading: Reading, files: map<nat, seq<File>>, roots: seq<nat>, sources: seq<Source>, known: seq<nat>)
    requires Numbered(reading, roots, sources, known) && FreshFrom(files, sources, 0)
    ensures forall p :: p in known ==> Wanted(reading, files, roots, [], p)
  {
    NumberedMeans(reading, roots, sources, known);
    hide Derivable, Derived, DistinctFrom, FreshFrom, Wanted;
    assert PathsOf(sources[..0]) == [];
    forall p | p in known ensures Wanted(reading, files, roots, [], p) {
      var i :| 0 <= i < |known| && known[i] == p;
      DerivableIsWanted(reading, files, roots, sources, 0, if i < |sources| then i else |sources|, p);
    }
  }

  lemma {:induction false} FullIsCrowded(
      reading: Reading, files: map<nat, seq<File>>, roots: seq<nat>, sources: seq<Source>, known: seq<nat>, culprit: nat)
    requires Numbered(reading, roots, sources, known) && FreshFrom(files, sources, 0)
    requires Full(reading, roots, sources, known, culprit)
    ensures Crowded(reading, files, roots, [])
  {
    NumberedMeans(reading, roots, sources, known);
    NumberedAreWanted(reading, files, roots, sources, known);
    DistinctCount(known);
    hide Derivable, Derived, DistinctFrom, FreshFrom, Wanted;
    assert PathsOf(sources[..0]) == [];
    DerivableIsWanted(reading, files, roots, sources, 0, |sources|, culprit);
    var paths := Elements(known) + {culprit};
    assert culprit !in Elements(known);
    assert |paths| > MAX_U32;
  }

  /** Why a full build stops is told by its answer. */
  lemma {:induction false} StoppedInFullTells(
      reading: Reading, o: Outside, w: World, roots: seq<nat>, sources: seq<Source>, known: seq<nat>, culprit: nat,
      status: Status)
    requires Quiet(reading, w, o) && ReadFrom(w.files, w.files, sources, 0)
    requires StoppedInFull(reading, o, w.files, roots, sources, known, culprit, status)
    ensures ToldWhy(reading, w.files, roots, [], status)
  {
    NumberedMeans(reading, roots, sources, known);
    ReadAtOnce(w.files, sources, 0);
    NumberedAreWanted(reading, w.files, roots, sources, known);
    hide ReadFrom, FreshFrom, Changed, Wanted, Crowded, Selfish, Numbered, Derived, DistinctFrom, FileOf, Full;
    assert sources[..0] == [] && PathsOf([]) == [];
    if status == NotAvailable && Full(reading, roots, sources, known, culprit) {
      FullIsCrowded(reading, w.files, roots, sources, known, culprit);
    } else if Lost(o, w.files, sources, known, culprit, status) {
      assert o.read(|sources|).fault == Ok;
    } else {
      var i :| 0 <= i < |sources| && sources[i].path == culprit && Includes(reading, sources[i], culprit);
      SelfIsSelfish(reading, w.files, roots, sources, 0, i);
    }
  }

  // ---------- Waves ----------

  /** The path is at most `n` includes away from a root. */
  ghost predicate Near(reading: Reading, files: map<nat, seq<File>>, roots: seq<nat>, n: nat, path: nat)
    decreases n
  {
    || path in roots
    || (n > 0
        && exists q ::
             Near(reading, files, roots, n - 1, q) && Includes(reading, Source(q, FileOf(files, q)), path))
  }

  lemma {:induction false} NearLonger(
      reading: Reading, files: map<nat, seq<File>>, roots: seq<nat>, n: nat, m: nat, path: nat)
    requires n <= m && Near(reading, files, roots, n, path)
    ensures Near(reading, files, roots, m, path)
    decreases n
  {
    hide Includes, FileOf;
    if path !in roots {
      var q :| Near(reading, files, roots, n - 1, q) && Includes(reading, Source(q, FileOf(files, q)), path);
      NearLonger(reading, files, roots, n - 1, m - 1, q);
    }
  }

  lemma {:induction false} NearIsWanted(
      reading: Reading, files: map<nat, seq<File>>, roots: seq<nat>, n: nat, path: nat)
    requires Near(reading, files, roots, n, path)
    ensures Wanted(reading, files, roots, [], path)
    decreases n
  {
    hide Includes, FileOf, Wanted;
    if path in roots {
      WantedRoot(reading, files, roots, [], path);
    } else {
      var q :| Near(reading, files, roots, n - 1, q) && Includes(reading, Source(q, FileOf(files, q)), path);
      NearIsWanted(reading, files, roots, n - 1, q);
      WantedNext(reading, files, roots, [], q, path);
    }
  }

  predicate IncludesItself(reading: Reading, files: map<nat, seq<File>>, path: nat) {
    Includes(reading, Source(path, FileOf(files, path)), path)
  }

  /** A file `n` includes away is missing, and none nearer includes itself. */
  ghost predicate AbsentAt(reading: Reading, files: map<nat, seq<File>>, roots: seq<nat>, n: nat, path: nat) {
    && Near(reading, files, roots, n, path) && FileOf(files, path).Missing?
    && (n > 0 ==> forall q :: Near(reading, files, roots, n - 1, q) ==> !IncludesItself(reading, files, q))
  }

  /** A file `n` includes away includes itself, and none as near is missing. */
  ghost predicate SelfishAt(reading: Reading, files: map<nat, seq<File>>, roots: seq<nat>, n: nat, path: nat) {
    && Near(reading, files, roots, n, path) && IncludesItself(reading, files, path)
    && forall q :: Near(reading, files, roots, n, q) ==> FileOf(files, q).Present?
  }

  lemma {:induction false} NotBoth(
      reading: Reading, files: map<nat, seq<File>>, roots: seq<nat>, n: nat, path: nat, m: nat, other: nat)
    requires AbsentAt(reading, files, roots, n, path)
    ensures !SelfishAt(reading, files, roots, m, other)
  {
    hide Near, IncludesItself, FileOf;
    if SelfishAt(reading, files, roots, m, other) {
      if n <= m {
        NearLonger(reading, files, roots, n, m, path);
      } else {
        NearLonger(reading, files, roots, m, n - 1, other);
      }
    }
  }

  /** Which comes first decides the answer. */
  ghost predicate ToldFirst(reading: Reading, files: map<nat, seq<File>>, roots: seq<nat>, status: Status) {
    && (status == NotFound <==> exists n: nat, p :: AbsentAt(reading, files, roots, n, p))
    && (status == InvalidArgument <==> exists n: nat, p :: SelfishAt(reading, files, roots, n, p))
  }

  /** What an undisturbed full build of these files answers: `Told`, and of a missing file and one
      that includes itself the nearer to the roots counts, or the missing one if they are as near. */
  ghost predicate ToldInFull(reading: Reading, files: map<nat, seq<File>>, roots: seq<nat>, status: Status) {
    && Told(reading, files, roots, [], status)
    && (!Crowded(reading, files, roots, []) ==> ToldFirst(reading, files, roots, status))
  }

  /** The file the reading stopped at is the first one. */
  ghost predicate StoppedFirst(
      reading: Reading, files: map<nat, seq<File>>, roots: seq<nat>, culprit: nat, status: Status)
  {
    && (status == NotFound ==> exists n: nat :: AbsentAt(reading, files, roots, n, culprit))
    && (status == InvalidArgument ==> exists n: nat :: SelfishAt(reading, files, roots, n, culprit))
  }

  lemma {:induction false} StoppedInFullIsTold(
      reading: Reading, files: map<nat, seq<File>>, roots: seq<nat>, culprit: nat, status: Status)
    requires ToldWhy(reading, files, roots, [], status) && StoppedFirst(reading, files, roots, culprit, status)
    ensures ToldInFull(reading, files, roots, status)
  {
    hide AbsentAt, SelfishAt, Told, Absent, Crowded, Selfish;
    StoppedIsTold(reading, files, roots, [], status);
    assert PathsOf([]) == [];
    if status == NotFound {
      var n: nat :| AbsentAt(reading, files, roots, n, culprit);
      forall m: nat, q ensures !SelfishAt(reading, files, roots, m, q) {
        NotBoth(reading, files, roots, n, culprit, m, q);
      }
    } else if status == InvalidArgument {
      var n: nat :| SelfishAt(reading, files, roots, n, culprit);
      forall m: nat, q ensures !AbsentAt(reading, files, roots, m, q) {
        if AbsentAt(reading, files, roots, m, q) { NotBoth(reading, files, roots, m, q, n, culprit); }
      }
    }
  }

  lemma {:induction false} FollowedInFullIsTold(
      reading: Reading, files: map<nat, seq<File>>, roots: seq<nat>, status: Status)
    requires Told(reading, files, roots, [], status) && status in {Ok, SemanticConflict}
    ensures ToldInFull(reading, files, roots, status)
  {
    assert PathsOf([]) == [];
    hide Crowded, Near, FileOf, Wanted, Circular, Dangling;
    GatherableMeans(reading, files, roots, []);
    hide Gatherable;
    forall n: nat, p ensures !AbsentAt(reading, files, roots, n, p) && !SelfishAt(reading, files, roots, n, p) {
      if Near(reading, files, roots, n, p) {
        NearIsWanted(reading, files, roots, n, p);
        assert Shown(files, [], p) == FileOf(files, p);
        assert Part(reading, files, roots, [], p);
      }
    }
  }

  /** The paths at most `n` includes away are those with a number. */
  ghost predicate Level(reading: Reading, files: map<nat, seq<File>>, roots: seq<nat>, known: seq<nat>, n: nat) {
    forall p :: p in known <==> Near(reading, files, roots, n, p)
  }

  /** Before wave `n` is read. */
  ghost predicate AtWave(
      reading: Reading, files: map<nat, seq<File>>, roots: seq<nat>, sources: seq<Source>, known: seq<nat>, n: nat)
  {
    && Level(reading, files, roots, known, n)
    && if n == 0 then sources == [] else Level(reading, files, roots, PathsOf(sources), n - 1)
  }

  /** A source whose includes have been numbered. */
  ghost predicate Settled(reading: Reading, s: Source, known: seq<nat>) {
    !Includes(reading, s, s.path) && forall p :: Includes(reading, s, p) ==> p in known
  }

  lemma {:induction false} FirstWave(reading: Reading, files: map<nat, seq<File>>, roots: seq<nat>, known: seq<nat>)
    requires forall p :: p in known <==> p in roots
    ensures AtWave(reading, files, roots, [], known, 0)
  {}

  lemma {:induction false} NextWave(
      reading: Reading, files: map<nat, seq<File>>, roots: seq<nat>, sources: seq<Source>, known: seq<nat>,
      more: seq<nat>, n: nat)
    requires FreshFrom(files, sources, 0) && PathsOf(sources) == known && known <= more
    requires Level(reading, files, roots, known, n)
    requires forall i :: 0 <= i < |sources| ==> Settled(reading, sources[i], more)
    requires forall p :: p in more ==> p in known || exists i :: 0 <= i < |sources| && Includes(reading, sources[i], p)
    ensures AtWave(reading, files, roots, sources, more, n + 1)
  {
    hide Includes, FileOf;
    forall p ensures p in more <==> Near(reading, files, roots, n + 1, p) {
      if p in more {
        if p in known {
          NearLonger(reading, files, roots, n, n + 1, p);
        } else {
          var i :| 0 <= i < |sources| && Includes(reading, sources[i], p);
          assert known[i] == sources[i].path && known[i] in known;
          assert sources[i] == Source(sources[i].path, FileOf(files, sources[i].path));
        }
      }
      if Near(reading, files, roots, n + 1, p) {
        if p in roots {
          assert Near(reading, files, roots, n, p);
          assert p in known;
        } else {
          var q :| Near(reading, files, roots, n, q) && Includes(reading, Source(q, FileOf(files, q)), p);
          assert q in known;
          var i :| 0 <= i < |sources| && PathsOf(sources)[i] == q;
          assert Settled(reading, sources[i], more);
        }
      }
    }
  }

  lemma {:induction false} LostFirst(
      reading: Reading, files: map<nat, seq<File>>, roots: seq<nat>, sources: seq<Source>, known: seq<nat>, n: nat,
      culprit: nat)
    requires AtWave(reading, files, roots, sources, known, n) && FreshFrom(files, sources, 0)
    requires forall i :: 0 <= i < |sources| ==> Settled(reading, sources[i], known)
    requires culprit in known && FileOf(files, culprit).Missing?
    ensures AbsentAt(reading, files, roots, n, culprit)
  {
    hide Includes, FileOf, Near;
    if n > 0 {
      forall q | Near(reading, files, roots, n - 1, q) ensures !IncludesItself(reading, files, q) {
        assert q in PathsOf(sources);
        var i :| 0 <= i < |sources| && PathsOf(sources)[i] == q;
        assert Settled(reading, sources[i], known);
        assert sources[i] == Source(q, FileOf(files, q));
      }
    }
  }

  lemma {:induction false} SelfingFirst(
      reading: Reading, files: map<nat, seq<File>>, roots: seq<nat>, sources: seq<Source>, known: seq<nat>, n: nat,
      culprit: nat)
    requires Level(reading, files, roots, known, n) && PathsOf(sources) == known && FreshFrom(files, sources, 0)
    requires Selfing(reading, sources, culprit)
    ensures SelfishAt(reading, files, roots, n, culprit)
  {
    hide Includes, FileOf, Near;
    var i :| 0 <= i < |sources| && sources[i].path == culprit && Includes(reading, sources[i], culprit);
    assert known[i] == culprit && culprit in known;
    assert sources[i] == Source(culprit, FileOf(files, culprit));
    forall q | Near(reading, files, roots, n, q) ensures FileOf(files, q).Present? {
      assert q in known;
      var j :| 0 <= j < |sources| && PathsOf(sources)[j] == q;
      assert sources[j] == Source(q, FileOf(files, q));
    }
  }

  /** What a stop in the middle of a wave means. */
  lemma {:induction false} LostInWave(
      reading: Reading, o: Outside, w: World, roots: seq<nat>, before: seq<Source>, sources: seq<Source>,
      known: seq<nat>, n: nat, culprit: nat, status: Status)
    requires Quiet(reading, w, o) && AtWave(reading, w.files, roots, before, known, n)
    requires |before| <= |sources| && sources[..|before|] == before && FreshFrom(w.files, sources, 0)
    requires forall i :: 0 <= i < |before| ==> Settled(reading, before[i], known)
    requires Lost(o, w.files, sources, known, culprit, status)
    ensures StoppedFirst(reading, w.files, roots, culprit, status)
  {
    hide Changed, AtWave, Settled, AbsentAt, SelfishAt, FileOf;
    assert o.read(|sources|).fault == Ok;
    assert forall i :: 0 <= i < |before| ==> before[i] == sources[i];
    LostFirst(reading, w.files, roots, before, known, n, culprit);
  }

  lemma {:induction false} AtLevel(
      reading: Reading, files: map<nat, seq<File>>, roots: seq<nat>, sources: seq<Source>, known: seq<nat>, n: nat)
    requires AtWave(reading, files, roots, sources, known, n)
    ensures Level(reading, files, roots, known, n)
  {
    hide Level;
  }

  lemma {:induction false} NextNumber(reading: Reading, roots: seq<nat>, sources: seq<Source>, known: seq<nat>)
    requires Numbered(reading, roots, sources, known) && |sources| < |known|
    ensures known[|sources|] !in PathsOf(sources) && DistinctFrom(sources, 0)
  {
    hide Derivable;
    NumberedMeans(reading, roots, sources, known);
  }

  lemma {:induction false} AllNumbered(reading: Reading, roots: seq<nat>, sources: seq<Source>, known: seq<nat>)
    requires Numbered(reading, roots, sources, known) && |sources| >= |known|
    ensures PathsOf(sources) == known
  {
    hide Derivable;
    assert known[..|known|] == known;
  }

  lemma {:induction false} RootIsFull(reading: Reading, roots: seq<nat>, known: seq<nat>, culprit: nat)
    requires |known| >= MAX_U32 && culprit in roots && culprit !in known
    ensures Full(reading, roots, [], known, culprit)
  {}

  lemma {:induction false} SettledMeans(reading: Reading, sources: seq<Source>, i: nat)
    requires i < |sources| && Settled(reading, sources[i], PathsOf(sources))
    ensures ImportsKnown(reading, sources, i) && !Includes(reading, sources[i], sources[i].path)
  {}

  // ---------- Numbering ----------

  /** Gives a number to every path that has none. */
  method NumberPaths(known: seq<nat>, paths: seq<nat>) returns (ok: bool, more: seq<nat>, ghost culprit: nat)
    requires Distinct(known)
    ensures known <= more && Distinct(more) && (|more| <= MAX_U32 || |more| == |known|)
    ensures forall k :: |known| <= k < |more| ==> more[k] in paths
    ensures
      if ok then forall p :: p in more <==> p in known || p in paths
      else |more| >= MAX_U32 && culprit in paths && culprit !in more
  {
    more, culprit := known, 0;
    for k := 0 to |paths|
      invariant known <= more && Distinct(more) && (|more| <= MAX_U32 || |more| == |known|)
      invariant forall j :: |known| <= j < |more| ==> more[j] in paths
      invariant forall p :: p in more <==> p in known || p in paths[..k]
    {
      if paths[k] !in more {
        if |more| >= MAX_U32 { return false, more, paths[k]; }
        more := more + [paths[k]];
      }
      assert paths[..k + 1] == paths[..k] + [paths[k]];
    }
    assert paths[..|paths|] == paths;
    ok := true;
  }

  /** Numbers what the sources of a wave include. None of them may include itself. */
  method NumberWave(reading: Reading, sources: seq<Source>, begin: nat, known: seq<nat>, ghost roots: seq<nat>)
    returns (status: Status, more: seq<nat>, ghost culprit: nat)
    requires begin <= |sources| && Numbered(reading, roots, sources, known) && |known| <= MAX_U32
    requires forall i :: 0 <= i < begin ==> Settled(reading, sources[i], known)
    ensures known <= more && Numbered(reading, roots, sources, more) && |more| <= MAX_U32
    ensures
      if status == Ok then
        && (forall i :: 0 <= i < |sources| ==> Settled(reading, sources[i], more))
        && forall p :: p in more ==> p in known || exists i :: 0 <= i < |sources| && Includes(reading, sources[i], p)
      else
        || (status == NotAvailable && Full(reading, roots, sources, more, culprit))
        || (status == InvalidArgument && Selfing(reading, sources, culprit))
  {
    hide Numbered, Derivable, Distinct;
    more, culprit, status := known, 0, Ok;
    for i := begin to |sources|
      invariant known <= more && Numbered(reading, roots, sources, more) && |more| <= MAX_U32
      invariant forall j :: 0 <= j < i ==> Settled(reading, sources[j], more)
      invariant
        forall p :: p in more ==> p in known || exists j :: 0 <= j < |sources| && Includes(reading, sources[j], p)
    {
      var source := sources[i];
      if source.file.Present? {
        var imports := reading.imports(source.path, source.file.hash);
        ghost var before := more;
        var ok;
        NumberedDistinct(reading, roots, sources, more);
        ok, more, culprit := NumberPaths(more, imports);
        ImportsDerivable(reading, roots, sources, i);
        NumberedMore(reading, roots, sources, before, more);
        if !ok { return NotAvailable, more, culprit; }
        if source.path in imports { return InvalidArgument, more, source.path; }
        assert forall j :: 0 <= j < i ==> Settled(reading, sources[j], before);
      }
      assert Settled(reading, source, more);
    }
  }

  lemma {:induction false} NumberedDistinct(reading: Reading, roots: seq<nat>, sources: seq<Source>, known: seq<nat>)
    requires Numbered(reading, roots, sources, known)
    ensures Distinct(known)
  {}

  lemma {:induction false} ImportsDerivable(reading: Reading, roots: seq<nat>, sources: seq<Source>, i: nat)
    requires i < |sources|
    ensures forall p :: Includes(reading, sources[i], p) ==> Derivable(reading, roots, sources, 0, |sources|, p)
  {}
}
