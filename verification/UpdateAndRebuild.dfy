/** An undisturbed update of a generation against a rebuild of the same files. */
module UpdateAndRebuild {
  import opened Wrappers
  import opened IncludeGraph
  import opened Generation
  import opened ProjectWorld
  import opened SourceDiscovery
  import opened ProjectSaving

  /** Every source is as the files are. */
  predicate Faithful(files: map<nat, seq<File>>, sources: seq<Source>) {
    forall i :: 0 <= i < |sources| ==> AsSeen(files, sources[i])
  }

  /** Every source that differs is looked at again, and none holds another content with its stamp. */
  predicate AllNoticed(files: map<nat, seq<File>>, sources: seq<Source>, dirty: seq<nat>) {
    && NamesAll(files, sources, dirty)
    && forall i :: 0 <= i < |sources| ==> !Collides(sources[i].file, FileOf(files, sources[i].path))
  }

  lemma {:induction false} RereadIsFaithful(files: map<nat, seq<File>>, sources: seq<Source>, dirty: seq<nat>)
    requires AllNoticed(files, sources, dirty)
    ensures Faithful(files, RereadOf(files, sources, dirty))
  {
    hide FileOf;
    forall i | 0 <= i < |sources| ensures AsSeen(files, RereadOf(files, sources, dirty)[i]) {
      if i in dirty { RereadExactly(sources[i].file, FileOf(files, sources[i].path)); }
    }
  }

  lemma {:induction false} ShownFaithfully(files: map<nat, seq<File>>, now: seq<Source>, path: nat)
    requires Faithful(files, now)
    ensures SameFile(Shown(files, now, path), FileOf(files, path))
  {
    hide FileOf;
    SameFileSelf(FileOf(files, path));
    if path in PathsOf(now) { assert AsSeen(files, now[NumberOf(now, path)]); }
  }

  lemma {:induction false} ShownIncludes(reading: Reading, files: map<nat, seq<File>>, now: seq<Source>, p: nat, q: nat)
    requires Faithful(files, now)
    ensures
      Includes(reading, Source(p, Shown(files, now, p)), q) <==> Includes(reading, Source(p, FileOf(files, p)), q)
    ensures Shown(files, now, p).Present? <==> FileOf(files, p).Present?
  {
    ShownFaithfully(files, now, p);
    hide Shown, FileOf;
  }

  /** The known sources are closed: what a present one includes is known or a root of the update. */
  ghost predicate ClosedBut(reading: Reading, files: map<nat, seq<File>>, roots: seq<nat>, now: seq<Source>) {
    forall i, q :: 0 <= i < |now| && Includes(reading, now[i], q) ==> q in roots || q in PathsOf(now)
  }

  /** What belongs to a generation passes on to what it includes. */
  lemma {:induction false} PartNext(
      reading: Reading, files: map<nat, seq<File>>, roots: seq<nat>, now: seq<Source>, p: nat, q: nat)
    requires Faithful(files, now) && ClosedBut(reading, files, roots, now) && Coherent(reading, files, roots, now)
    requires Part(reading, files, roots, now, p) && Includes(reading, Source(p, FileOf(files, p)), q)
    ensures Part(reading, files, roots, now, q)
  {
    ShownIncludes(reading, files, now, p, q);
    assert Shown(files, now, q).Present?;
    hide FileOf, Coherent;
    if q !in PathsOf(now) {
      if Wanted(reading, files, roots, PathsOf(now), p) {
        WantedNext(reading, files, roots, PathsOf(now), p, q);
      } else {
        var i := NumberOf(now, p);
        assert Includes(reading, now[i], q);
        WantedRoot(reading, files, roots, PathsOf(now), q);
      }
    }
  }

  /** Everything a rebuild wants belongs to the updated generation. */
  lemma {:induction false} WantedIsPart(
      reading: Reading, files: map<nat, seq<File>>, roots: seq<nat>, now: seq<Source>, first: seq<nat>, chain: seq<nat>)
    requires Faithful(files, now) && ClosedBut(reading, files, roots, now) && Coherent(reading, files, roots, now)
    requires forall p :: p in first ==> p in PathsOf(now) && FileOf(files, p).Present?
    requires Chain(reading, files, first, [], chain)
    ensures Part(reading, files, roots, now, chain[|chain| - 1])
    decreases |chain|
  {
    var last, front := chain[|chain| - 1], chain[..|chain| - 1];
    hide FileOf, Coherent, Faithful, ClosedBut, Shown, Wanted, Includes;
    if front == [] {
      ShownIncludes(reading, files, now, last, last);
    } else {
      WantedIsPart(reading, files, roots, now, first, front);
      PartNext(reading, files, roots, now, front[|front| - 1], last);
    }
  }

  /** A generation that is updated successfully, or left as it is, is coherent with the files. */
  lemma {:induction false} UpdatableIsBuildable(
      reading: Reading, files: map<nat, seq<File>>, sources: seq<Source>, dirty: seq<nat>)
    requires WellBuilt(reading, sources) && Updatable(reading, files, sources, dirty)
    ensures
      var now := RereadOf(files, sources, dirty);
      && Buildable(reading, files, ImportedBy(reading, sources, now), now)
      && ClosedBut(reading, files, ImportedBy(reading, sources, now), now)
  {
    hide WellBuilt, Buildable, ClosedBut, ImportedBy, SameSources, StillThere;
    var now := RereadOf(files, sources, dirty);
    RereadIsClosed(reading, files, sources, now);
    if SameSources(sources, now) {
      NoImports(reading, sources, now);
      UnchangedIsBuildable(reading, files, sources, now);
    }
  }

  lemma {:induction false} NoImports(reading: Reading, sources: seq<Source>, now: seq<Source>)
    requires SameSources(sources, now)
    ensures ImportedBy(reading, sources, now) == []
  {
    if sources != [] {
      var last := |sources| - 1;
      NoImports(reading, sources[..last], now[..last]);
    }
  }

  lemma {:induction false} RereadIsClosed(
      reading: Reading, files: map<nat, seq<File>>, sources: seq<Source>, now: seq<Source>)
    requires WellBuilt(reading, sources) && |now| == |sources|
    requires forall i :: 0 <= i < |sources| ==> now[i].path == sources[i].path
    ensures ClosedBut(reading, files, ImportedBy(reading, sources, now), now)
  {
    hide ImportedBy, Layered, Complete, DistinctFrom;
    assert PathsOf(now) == PathsOf(sources);
    forall i, q | 0 <= i < |now| && Includes(reading, now[i], q)
      ensures q in ImportedBy(reading, sources, now) || q in PathsOf(now)
    {
      if SameFile(sources[i].file, now[i].file) {
        assert ImportsKnown(reading, sources, i);
      } else {
        ImportedMeans(reading, sources, now, q);
      }
    }
  }

  lemma {:induction false} UnchangedIsBuildable(
      reading: Reading, files: map<nat, seq<File>>, sources: seq<Source>, now: seq<Source>)
    requires WellBuilt(reading, sources) && SameSources(sources, now)
    ensures Buildable(reading, files, [], now)
  {
    hide WellBuilt, ImportsKnown, Coherent;
    NothingChanged(reading, sources, now);
    assert now[..|now|] == now;
    NothingToGather(reading, files, PathsOf(now));
    WellBuiltMeans(reading, now);
    assert Gathered(reading, files, [], now, |now|) && Followed(reading, [], now);
    hide Gathered, Followed, DistinctFrom, EdgesOf, SameSources, Complete, Acyclic, Gatherable;
    CoherentIsWellBuilt(reading, files, [], now, |now|);
  }

  lemma {:induction false} NothingToGather(reading: Reading, files: map<nat, seq<File>>, known: seq<nat>)
    ensures Gatherable(reading, files, [], known)
  {
    hide Wanted;
    forall path ensures !Wanted(reading, files, [], known, path) { NothingWanted(reading, files, known, path); }
  }

  lemma {:induction false} NothingWanted(reading: Reading, files: map<nat, seq<File>>, known: seq<nat>, path: nat)
    ensures !Wanted(reading, files, [], known, path)
  {
    if chain :| Chain(reading, files, [], known, chain) && chain[|chain| - 1] == path {
      ChainStarts(reading, files, [], known, chain);
    }
  }

  lemma {:induction false} ChainStarts(
      reading: Reading, files: map<nat, seq<File>>, roots: seq<nat>, known: seq<nat>, chain: seq<nat>)
    requires Chain(reading, files, roots, known, chain)
    ensures roots != []
    decreases |chain|
  {
    var front := chain[..|chain| - 1];
    if front != [] { ChainStarts(reading, files, roots, known, front); }
  }

  /** The sources of the updated generation can be numbered. */
  lemma {:induction false} PartsFit(
      reading: Reading, files: map<nat, seq<File>>, roots: seq<nat>, now: seq<Source>, paths: set<nat>)
    requires Gatherable(reading, files, roots, PathsOf(now)) && |now| <= MAX_U32
    requires forall p :: p in paths ==> Part(reading, files, roots, now, p)
    ensures |paths| <= MAX_U32
  {
    hide Part, Gatherable;
    var all := Elements(PathsOf(now));
    var known, wanted := paths * all, paths - all;
    SubsetCount(known, all);
    SplitCount(paths, all);
    forall p | p in wanted ensures Wanted(reading, files, roots, PathsOf(now), p) {
      UnknownPart(reading, files, roots, now, p);
    }
    if wanted != {} { WantedFit(reading, files, roots, PathsOf(now), wanted); }
  }

  lemma {:induction false} SplitCount(a: set<nat>, b: set<nat>)
    ensures |a| == |a * b| + |a - b|
  {
    assert a == a * b + (a - b);
  }

  lemma {:induction false} UnknownPart(
      reading: Reading, files: map<nat, seq<File>>, roots: seq<nat>, now: seq<Source>, p: nat)
    requires Part(reading, files, roots, now, p) && p !in PathsOf(now)
    ensures Wanted(reading, files, roots, PathsOf(now), p)
  {}

  lemma {:induction false} WantedFit(
      reading: Reading, files: map<nat, seq<File>>, roots: seq<nat>, known: seq<nat>, paths: set<nat>)
    requires Gatherable(reading, files, roots, known) && paths != {}
    requires forall p :: p in paths ==> Wanted(reading, files, roots, known, p)
    ensures |known| + |paths| <= MAX_U32
  {}

  /** Where an update of everything that differs succeeds, a rebuild of the same files succeeds exactly
      if the roots are still there: an update drops a missing root, a rebuild refuses it. */
  lemma {:induction false} RebuildAfterUpdate(
      reading: Reading, files: map<nat, seq<File>>, fingerprint: nat, sources: seq<Source>, dirty: seq<nat>)
    requires WellBuilt(reading, sources) && |sources| <= MAX_U32 && AllNoticed(files, sources, dirty)
    requires RootsOk(reading.items(fingerprint))
    requires forall p :: p in RootsOf(reading.items(fingerprint)) ==> p in PathsOf(sources)
    requires Updatable(reading, files, sources, dirty)
    ensures
      BuildableUnder(reading, files, fingerprint) <==>
      forall p :: p in RootsOf(reading.items(fingerprint)) ==> FileOf(files, p).Present?
  {
    hide RereadOf, WellBuilt, Updatable, AllNoticed, ClosedBut, Faithful, Buildable, FileOf, ImportedBy, RootsOf;
    UpdatableIsBuildable(reading, files, sources, dirty);
    RereadIsFaithful(files, sources, dirty);
    var now, first := RereadOf(files, sources, dirty), RootsOf(reading.items(fingerprint));
    assert PathsOf(now) == PathsOf(sources) by { RereadPaths(files, sources, dirty); }
    if p :| p in first && FileOf(files, p).Missing? {
      RootMissing(reading, files, first, p);
    } else {
      RebuildIsBuildable(reading, files, ImportedBy(reading, sources, now), now, first);
    }
  }

  lemma {:induction false} RereadPaths(files: map<nat, seq<File>>, sources: seq<Source>, dirty: seq<nat>)
    ensures PathsOf(RereadOf(files, sources, dirty)) == PathsOf(sources)
  {}

  lemma {:induction false} RootMissing(reading: Reading, files: map<nat, seq<File>>, roots: seq<nat>, path: nat)
    requires path in roots && FileOf(files, path).Missing?
    ensures !Buildable(reading, files, roots, [])
  {
    hide FileOf, Coherent;
    WantedRoot(reading, files, roots, PathsOf([]), path);
    MissingIsNotGatherable(reading, files, roots, PathsOf([]), path);
  }

  lemma {:induction false} RebuildIsBuildable(
      reading: Reading, files: map<nat, seq<File>>, roots: seq<nat>, now: seq<Source>, first: seq<nat>)
    requires Faithful(files, now) && ClosedBut(reading, files, roots, now) && |now| <= MAX_U32
    requires Buildable(reading, files, roots, now)
    requires forall p :: p in first ==> p in PathsOf(now) && FileOf(files, p).Present?
    ensures Buildable(reading, files, first, [])
  {
    hide Part, FileOf, Faithful, ClosedBut, Coherent, Gatherable, Wanted;
    RebuildIsGatherable(reading, files, roots, now, first);
    forall p | Part(reading, files, first, [], p) ensures Part(reading, files, roots, now, p) {
      NothingKnown(reading, files, first, p);
    }
    assert Faithful(files, []) by { NoneFaithful(files); }
    CoherentToo(reading, files, roots, now, first, []);
  }

  lemma {:induction false} NoneFaithful(files: map<nat, seq<File>>)
    ensures Faithful(files, [])
  {}

  lemma {:induction false} NothingKnown(reading: Reading, files: map<nat, seq<File>>, roots: seq<nat>, p: nat)
    ensures Part(reading, files, roots, [], p) <==> Wanted(reading, files, roots, PathsOf([]), p)
  {}

  lemma {:induction false} MissingIsNotGatherable(
      reading: Reading, files: map<nat, seq<File>>, roots: seq<nat>, known: seq<nat>, path: nat)
    requires Wanted(reading, files, roots, known, path) && FileOf(files, path).Missing?
    ensures !Gatherable(reading, files, roots, known)
  {}

  lemma {:induction false} PartIsPresent(
      reading: Reading, files: map<nat, seq<File>>, roots: seq<nat>, now: seq<Source>, p: nat)
    requires Faithful(files, now) && Gatherable(reading, files, roots, PathsOf(now)) && Part(reading, files, roots, now, p)
    ensures FileOf(files, p).Present?
  {
    ShownIncludes(reading, files, now, p, p);
  }

  lemma {:induction false} RebuildIsGatherable(
      reading: Reading, files: map<nat, seq<File>>, roots: seq<nat>, now: seq<Source>, first: seq<nat>)
    requires Faithful(files, now) && ClosedBut(reading, files, roots, now) && |now| <= MAX_U32
    requires Buildable(reading, files, roots, now)
    requires forall p :: p in first ==> p in PathsOf(now) && FileOf(files, p).Present?
    ensures Gatherable(reading, files, first, PathsOf([]))
    ensures forall p :: Wanted(reading, files, first, PathsOf([]), p) ==> Part(reading, files, roots, now, p)
  {
    var none := PathsOf([]);
    assert none == [];
    hide Part, FileOf, Faithful, ClosedBut, Coherent;
    forall p | Wanted(reading, files, first, none, p)
      ensures Part(reading, files, roots, now, p) && FileOf(files, p).Present?
    {
      var chain :| Chain(reading, files, first, none, chain) && chain[|chain| - 1] == p;
      WantedIsPart(reading, files, roots, now, first, chain);
      PartIsPresent(reading, files, roots, now, p);
    }
    forall paths: set<nat> | paths != {} && (forall p :: p in paths ==> Wanted(reading, files, first, none, p))
      ensures |none| + |paths| <= MAX_U32
    {
      PartsFit(reading, files, roots, now, paths);
    }
  }

  /** A generation all of whose parts belong to a coherent one, over the same files, is coherent. */
  lemma {:induction false} CoherentToo(
      reading: Reading, files: map<nat, seq<File>>, roots: seq<nat>, now: seq<Source>, others: seq<nat>, before: seq<Source>)
    requires Faithful(files, now) && Faithful(files, before) && Coherent(reading, files, roots, now)
    requires forall p :: Part(reading, files, others, before, p) ==> Part(reading, files, roots, now, p)
    ensures Coherent(reading, files, others, before)
  {
    hide Part, Shown, FileOf, Faithful, Includes, Trail;
    forall p, q | Part(reading, files, others, before, p) && Includes(reading, Source(p, Shown(files, before, p)), q)
      ensures Shown(files, before, q).Present?
    {
      ShownIncludes(reading, files, before, p, q);
      ShownIncludes(reading, files, now, p, q);
      ShownIncludes(reading, files, before, q, q);
      ShownIncludes(reading, files, now, q, q);
    }
    forall w | Trail(reading, files, before, w) && |w| >= 2 && Part(reading, files, others, before, w[0])
      ensures w[0] != w[|w| - 1]
    {
      TrailToo(reading, files, before, now, w);
    }
  }

  lemma {:induction false} TrailToo(
      reading: Reading, files: map<nat, seq<File>>, before: seq<Source>, now: seq<Source>, w: seq<nat>)
    requires Faithful(files, before) && Faithful(files, now) && Trail(reading, files, before, w)
    ensures Trail(reading, files, now, w)
  {
    hide Faithful, Includes, FileOf, Shown;
    forall k | 0 <= k < |w| - 1 ensures Includes(reading, Source(w[k], Shown(files, now, w[k])), w[k + 1]) {
      ShownIncludes(reading, files, before, w[k], w[k + 1]);
      ShownIncludes(reading, files, now, w[k], w[k + 1]);
    }
  }

  // ---------- The other direction ----------

  /** What belongs to the updated generation is wanted by a rebuild, if every known source that is
      there still is. */
  lemma {:induction false} PartIsWanted(
      reading: Reading, files: map<nat, seq<File>>, roots: seq<nat>, now: seq<Source>, first: seq<nat>, chain: seq<nat>)
    requires Faithful(files, now) && NoOrphans(reading, files, first, now) && OnlyIncluded(reading, roots, now)
    requires Chain(reading, files, roots, PathsOf(now), chain)
    ensures Wanted(reading, files, first, PathsOf([]), chain[|chain| - 1])
    decreases |chain|
  {
    var last, front := chain[|chain| - 1], chain[..|chain| - 1];
    hide FileOf, Wanted, Shown, Includes;
    if front == [] {
      var i :| 0 <= i < |now| && Includes(reading, now[i], last);
      assert now[i].file.Present? by { IncludesPresent(reading, now[i], last); }
      assert AsSeen(files, now[i]);
      SameIncludes(reading, now[i], FileOf(files, now[i].path), last);
      WantedNext(reading, files, first, PathsOf([]), now[i].path, last);
    } else {
      PartIsWanted(reading, files, roots, now, first, front);
      WantedNext(reading, files, first, PathsOf([]), front[|front| - 1], last);
    }
  }

  lemma {:induction false} IncludesPresent(reading: Reading, s: Source, path: nat)
    requires Includes(reading, s, path)
    ensures s.file.Present?
  {}

  lemma {:induction false} SameIncludes(reading: Reading, s: Source, file: File, path: nat)
    requires SameFile(s.file, file) && Includes(reading, s, path)
    ensures Includes(reading, Source(s.path, file), path)
  {}

  /** Every known source that is there can still be reached from the roots. */
  ghost predicate NoOrphans(reading: Reading, files: map<nat, seq<File>>, first: seq<nat>, now: seq<Source>) {
    forall i :: 0 <= i < |now| && now[i].file.Present? ==> Wanted(reading, files, first, PathsOf([]), now[i].path)
  }

  /** The roots of an update are included by known sources. */
  ghost predicate OnlyIncluded(reading: Reading, roots: seq<nat>, now: seq<Source>) {
    forall p :: p in roots ==> exists i :: 0 <= i < |now| && Includes(reading, now[i], p)
  }

  /** There are numbers left for what an update reads. */
  ghost predicate NumbersLeft(reading: Reading, files: map<nat, seq<File>>, roots: seq<nat>, known: seq<nat>) {
    forall paths: set<nat> | paths != {} && (forall p :: p in paths ==> Wanted(reading, files, roots, known, p)) ::
      |known| + |paths| <= MAX_U32
  }

  lemma {:induction false} ImportedAreIncluded(reading: Reading, sources: seq<Source>, now: seq<Source>)
    requires |now| == |sources|
    ensures OnlyIncluded(reading, ImportedBy(reading, sources, now), now)
  {
    hide ImportedBy;
    forall p | p in ImportedBy(reading, sources, now) ensures exists i :: 0 <= i < |now| && Includes(reading, now[i], p) {
      ImportedMeans(reading, sources, now, p);
    }
  }

  lemma {:induction false} PartsAreWanted(
      reading: Reading, files: map<nat, seq<File>>, roots: seq<nat>, now: seq<Source>, first: seq<nat>)
    requires Faithful(files, now) && NoOrphans(reading, files, first, now) && OnlyIncluded(reading, roots, now)
    ensures forall p :: Part(reading, files, roots, now, p) ==> Wanted(reading, files, first, PathsOf([]), p)
    ensures
      forall p :: Wanted(reading, files, roots, PathsOf(now), p) ==> Wanted(reading, files, first, PathsOf([]), p)
  {
    hide FileOf, Faithful, OnlyIncluded;
    forall p | Part(reading, files, roots, now, p) ensures Wanted(reading, files, first, PathsOf([]), p) {
      if chain :| Chain(reading, files, roots, PathsOf(now), chain) && chain[|chain| - 1] == p {
        PartIsWanted(reading, files, roots, now, first, chain);
      } else {
        assert now[NumberOf(now, p)].file.Present?;
      }
    }
  }

  lemma {:induction false} RebuildableIsBuildable(
      reading: Reading, files: map<nat, seq<File>>, roots: seq<nat>, now: seq<Source>, first: seq<nat>)
    requires Faithful(files, now) && NoOrphans(reading, files, first, now) && OnlyIncluded(reading, roots, now)
    requires NumbersLeft(reading, files, roots, PathsOf(now)) && Buildable(reading, files, first, [])
    ensures Buildable(reading, files, roots, now)
  {
    hide Part, Wanted, FileOf, Faithful, NoOrphans, OnlyIncluded, Coherent, NumbersLeft;
    PartsAreWanted(reading, files, roots, now, first);
    WantedAreThere(reading, files, roots, now, first);
    forall p | Part(reading, files, roots, now, p) ensures Part(reading, files, first, [], p) {
      NothingKnown(reading, files, first, p);
    }
    assert Faithful(files, []) by { NoneFaithful(files); }
    CoherentToo(reading, files, first, [], roots, now);
  }

  lemma {:induction false} WantedAreThere(
      reading: Reading, files: map<nat, seq<File>>, roots: seq<nat>, now: seq<Source>, first: seq<nat>)
    requires NumbersLeft(reading, files, roots, PathsOf(now)) && Gatherable(reading, files, first, PathsOf([]))
    requires
      forall p :: Wanted(reading, files, roots, PathsOf(now), p) ==> Wanted(reading, files, first, PathsOf([]), p)
    ensures Gatherable(reading, files, roots, PathsOf(now))
  {
    hide Wanted, FileOf;
  }

  /** An update and a rebuild of the same files succeed in the same cases, as long as the roots are
      there, every other source that is there can still be reached from them, no dirty source is
      missing twice, and there are numbers left. */
  lemma {:induction false} UpdateAgreesWithRebuild(
      reading: Reading, files: map<nat, seq<File>>, fingerprint: nat, sources: seq<Source>, dirty: seq<nat>)
    requires WellBuilt(reading, sources) && |sources| <= MAX_U32 && AllNoticed(files, sources, dirty)
    requires RootsOk(reading.items(fingerprint))
    requires
      forall p :: p in RootsOf(reading.items(fingerprint)) ==> p in PathsOf(sources) && FileOf(files, p).Present?
    requires forall k :: 0 <= k < |dirty| ==> StillThere(files, sources, dirty[k])
    requires
      var now := RereadOf(files, sources, dirty);
      && NoOrphans(reading, files, RootsOf(reading.items(fingerprint)), now)
      && NumbersLeft(reading, files, ImportedBy(reading, sources, now), PathsOf(now))
    ensures Updatable(reading, files, sources, dirty) <==> BuildableUnder(reading, files, fingerprint)
  {
    hide RereadOf, WellBuilt, AllNoticed, Faithful, Buildable, FileOf, ImportedBy, RootsOf, StillThere, NoOrphans,
      NumbersLeft, OnlyIncluded, SameSources;
    if Updatable(reading, files, sources, dirty) {
      RebuildAfterUpdate(reading, files, fingerprint, sources, dirty);
    } else if BuildableUnder(reading, files, fingerprint) {
      var now := RereadOf(files, sources, dirty);
      RereadIsFaithful(files, sources, dirty);
      ImportedAreIncluded(reading, sources, now);
      RebuildableIsBuildable(
        reading, files, ImportedBy(reading, sources, now), now, RootsOf(reading.items(fingerprint)));
    }
  }

  // ---------- Where they differ ----------

  /** The root, file 1, includes file 2 if its content is 1, and file 2 includes itself if its content
      is 9. */
  const SMALL: Reading := Reading(
    _ => Some(1), _ => ConfigurationFailed, _ => [Item(1, false)],
    (path, hash) => if (path == 1 && hash == 1) || (path == 2 && hash == 9) then [2] else [])

  const ALONE: seq<Source> := [Source(1, Present(3, 0))]
  const GONE: map<nat, seq<File>> := map[1 := [Present(3, 0), Missing]]

  /** The root of a project of one file is deleted: the update goes on without it, a rebuild fails. */
  lemma {:induction false} DeletedRoot()
    ensures WellBuilt(SMALL, ALONE) && Differing(GONE, ALONE) == [0]
    ensures Updatable(SMALL, GONE, ALONE, [0]) && !BuildableUnder(SMALL, GONE, 1)
  {
    assert FileOf(GONE, 1) == Missing;
    assert !AsSeen(GONE, ALONE[0]) && Differing(GONE, ALONE[..0]) == [];
    hide WellBuilt, Buildable, Updatable;
    LoneSource(ALONE[0]);
    UpdateDropsRoot();
    assert RootsOf(SMALL.items(1)) == [1];
    RootMissing(SMALL, GONE, [1], 1);
  }

  lemma {:induction false} UpdateDropsRoot()
    ensures Updatable(SMALL, GONE, ALONE, [0])
  {
    hide WellBuilt, Buildable, SameSources;
    var now := [Source(1, Missing)];
    assert FileOf(GONE, 1) == Missing;
    assert RereadOf(GONE, ALONE, [0]) == now;
    assert ImportedBy(SMALL, ALONE[..0], now[..0]) == [];
    assert ImportedBy(SMALL, ALONE, now) == [];
    assert StillThere(GONE, ALONE, 0);
    LoneBuildable(GONE, Source(1, Missing));
  }

  lemma {:induction false} LoneBuildable(files: map<nat, seq<File>>, s: Source)
    requires forall p :: !Includes(SMALL, s, p)
    ensures Buildable(SMALL, files, [], [s])
  {
    hide WellBuilt, Coherent, Gatherable, ImportsKnown;
    LoneSource(s);
    NothingToGather(SMALL, files, PathsOf([s]));
    assert [s][..1] == [s];
    CoherentIsWellBuilt(SMALL, files, [], [s], 1);
  }

  lemma {:induction false} LoneSource(s: Source)
    requires forall p :: !Includes(SMALL, s, p)
    ensures WellBuilt(SMALL, [s]) && ImportsKnown(SMALL, [s], 0)
  {
    if s.file.Present? {
      var paths := SMALL.imports(s.path, s.file.hash);
      assert paths != [] ==> Includes(SMALL, s, paths[0]);
    }
    assert GraphOf(SMALL, [s]) == [[]];
    OrderedIsAcyclic([[]], [0]);
    WellBuiltMeans(SMALL, [s]);
  }

  const PAIR: seq<Source> := [Source(1, Present(1, 0)), Source(2, Present(5, 0))]
  const APART: map<nat, seq<File>> :=
    map[1 := [Present(1, 0), Present(2, 1)], 2 := [Present(5, 0), Present(9, 1)]]

  /** The root stops including file 2, which at the same time is made to include itself: a rebuild does
      not look at it, and an update fails. */
  lemma {:induction false} BrokenOrphan()
    ensures WellBuilt(SMALL, PAIR) && Differing(APART, PAIR) == [0, 1]
    ensures !Updatable(SMALL, APART, PAIR, [0, 1]) && BuildableUnder(SMALL, APART, 1)
  {
    hide WellBuilt, Buildable, Updatable, Differing;
    BothDiffer();
    PairIsWellBuilt();
    OrphanIsRefused();
    assert RootsOf(SMALL.items(1)) == [1];
    LoneRoot();
  }

  lemma {:induction false} BothDiffer()
    ensures Differing(APART, PAIR) == [0, 1]
  {
    assert FileOf(APART, 1) == Present(2, 1) && FileOf(APART, 2) == Present(9, 1);
    assert !AsSeen(APART, PAIR[0]) && !AsSeen(APART, PAIR[1]);
    assert PAIR[..1] == [PAIR[0]] && PAIR[..1][..0] == [];
    assert Differing(APART, PAIR[..1]) == [0];
  }

  lemma {:induction false} PairIsWellBuilt()
    ensures WellBuilt(SMALL, PAIR)
  {
    hide EdgesOf, Layered, WellBuilt;
    PairGraph();
    assert [0, 1][..1] == [0];
    OrderedIsAcyclic([[1], []], [0, 1]);
    assert PathsOf(PAIR)[1] == 2;
    WellBuiltMeans(SMALL, PAIR);
  }

  lemma {:induction false} PairGraph()
    ensures GraphOf(SMALL, PAIR) == [[1], []]
  {
    assert PathsOf(PAIR)[1] == 2 && NumberOf(PAIR, 2) == 1;
    assert NumbersOf(PAIR, [2][..0]) == [];
    assert NumbersOf(PAIR, [2]) == [1];
    assert EdgesOf(SMALL, PAIR, PAIR[0]) == [1] && EdgesOf(SMALL, PAIR, PAIR[1]) == [];
  }

  lemma {:induction false} OrphanIsRefused()
    ensures !Updatable(SMALL, APART, PAIR, [0, 1])
  {
    var now := [Source(1, Present(2, 1)), Source(2, Present(9, 1))];
    assert FileOf(APART, 1) == Present(2, 1) && FileOf(APART, 2) == Present(9, 1);
    assert RereadOf(APART, PAIR, [0, 1]) == now;
    assert !SameFile(PAIR[0].file, now[0].file);
    assert PathsOf(now)[1] == 2 && NumberOf(now, 2) == 1 && Shown(APART, now, 2) == Present(9, 1);
    assert Trail(SMALL, APART, now, [2, 2]);
    assert !Coherent(SMALL, APART, ImportedBy(SMALL, PAIR, now), now) by {
      hide Wanted, ImportedBy;
      assert Part(SMALL, APART, ImportedBy(SMALL, PAIR, now), now, 2);
    }
  }

  /** The root, which includes nothing any more, is all a rebuild wants. */
  lemma {:induction false} LoneRoot()
    ensures Buildable(SMALL, APART, [1], [])
  {
    assert FileOf(APART, 1) == Present(2, 1);
    forall p | Wanted(SMALL, APART, [1], PathsOf([]), p) ensures p == 1 {
      var chain :| Chain(SMALL, APART, [1], PathsOf([]), chain) && chain[|chain| - 1] == p;
      OnlyRoot(chain);
    }
    hide Wanted;
    forall paths: set<nat> | paths != {} && (forall p :: p in paths ==> Wanted(SMALL, APART, [1], PathsOf([]), p))
      ensures |PathsOf([])| + |paths| <= MAX_U32
    {
      assert paths <= {1};
      SubsetCount(paths, {1});
    }
    NoIncludesIsCoherent(SMALL, APART, [1], []);
  }

  lemma {:induction false} NoIncludesIsCoherent(
      reading: Reading, files: map<nat, seq<File>>, roots: seq<nat>, now: seq<Source>)
    requires
      forall p, q :: Part(reading, files, roots, now, p) ==> !Includes(reading, Source(p, Shown(files, now, p)), q)
    ensures Coherent(reading, files, roots, now)
  {
    hide Part, Includes, Shown;
    if w :| Trail(reading, files, now, w) && |w| >= 2 && Part(reading, files, roots, now, w[0]) && w[0] == w[|w| - 1] {
      TrailStarts(reading, files, now, w);
    }
  }

  lemma {:induction false} TrailStarts(reading: Reading, files: map<nat, seq<File>>, now: seq<Source>, w: seq<nat>)
    requires Trail(reading, files, now, w) && |w| >= 2
    ensures Includes(reading, Source(w[0], Shown(files, now, w[0])), w[1])
  {}

  lemma {:induction false} OnlyRoot(chain: seq<nat>)
    requires Chain(SMALL, APART, [1], PathsOf([]), chain)
    ensures chain[|chain| - 1] == 1
    decreases |chain|
  {
    var front := chain[..|chain| - 1];
    if front != [] { OnlyRoot(front); }
  }
}
