/** LOAD, BUILD, REBUILD, SAVE and UNLOAD of one project, in a world that others change at any
    moment. Reading a configuration text up to its fingerprint, the change journal, what a source
    includes and every failing system call are parameters. */
module ProjectSaving {
  import opened Wrappers
  import opened Generation
  import opened ProjectWorld
  import opened SourceDiscovery
  import opened DiscoveryWaves

  // ---------- The project ----------

  datatype Lifecycle = Unloaded | Constructing | Ready

  /** The storage of the active project: a construction overlay, a finalized generation, or the
      baseline transaction alone. `remembered` is the transaction a SAVE recorded, or the baseline
      an update found to be unchanged. */
  datatype Project = Project(
    fingerprint: nat,
    compiled: Option<Content>,
    finalized: Option<Content>,
    baseline: Option<nat>,
    remembered: Option<nat>,
    proof: Option<Proof>,
    hasPath: bool)
  {
    /** The transaction known to hold the active state. */
    function Persisted(): Option<nat> {
      if remembered.Some? then remembered else if compiled.None? then baseline else None
    }
  }

  /** The content queries see. */
  function Active(w: World, p: Project): Content {
    if p.compiled.Some? then p.compiled.value
    else if p.finalized.Some? then p.finalized.value
    else if p.baseline.Some? && p.baseline.value in w.records then w.records[p.baseline.value].content
    else Content(0, [])
  }

  /** The transaction stands for the active content, under the project's fingerprint. */
  predicate Holds(w: World, t: nat, p: Project) {
    t in w.records && w.records[t].fingerprint == p.fingerprint && SameMeaning(w.records[t].content, Active(w, p))
  }

  predicate OwnContent(reading: Reading, p: Project, c: Content) {
    c.fingerprint == p.fingerprint && WellBuilt(reading, c.sources)
  }

  predicate ProjectOk(reading: Reading, w: World, p: Project) {
    && (p.baseline.Some? ==> p.baseline.value in w.records && w.records[p.baseline.value].fingerprint == p.fingerprint)
    && (p.compiled.Some? ==> OwnContent(reading, p, p.compiled.value) && p.finalized.None?)
    && (p.finalized.Some? ==> OwnContent(reading, p, p.finalized.value) && p.baseline.None?)
    && (p.compiled.None? && p.finalized.None? ==> p.baseline.Some?)
    && (p.proof.Some? ==> ProofOk(reading, w.history, p.fingerprint, p.proof.value))
    && (p.remembered.Some? ==> Holds(w, p.remembered.value, p))
  }

  lemma {:induction false} ProjectLater(reading: Reading, a: World, b: World, p: Project)
    requires ProjectOk(reading, a, p) && Later(a, b)
    ensures ProjectOk(reading, b, p) && Active(b, p) == Active(a, p)
  {
    hide FilesLater, SameMeaning;
  }

  /** What queries see is a well-built generation. */
  lemma {:induction false} ActiveIsWellBuilt(reading: Reading, w: World, p: Project)
    requires WorldOk(reading, w) && ProjectOk(reading, w, p)
    ensures WellBuilt(reading, Active(w, p).sources)
  {
    hide WellBuilt;
    if p.compiled.None? && p.finalized.None? { assert RecordOk(reading, w.history, w.records[p.baseline.value]); }
  }

  /** A persisted transaction stands for the active content, under the fingerprint the project was
      built with. */
  lemma {:induction false} PersistedHoldsActive(reading: Reading, w: World, p: Project)
    requires WorldOk(reading, w) && ProjectOk(reading, w, p) && p.Persisted().Some?
    ensures Holds(w, p.Persisted().value, p)
  {}

  /** A commit of the manager: the fingerprint and content it wrote and those that were active. */
  datatype Commit = Commit(transaction: nat, record: Record, fingerprint: nat, active: Content)

  predicate CommitOk(c: Commit) { c.record.fingerprint == c.fingerprint && c.record.content == c.active }

  // ---------- The manager at one moment ----------

  /** The manager's own commits among the events, and as the log has them. */
  function OwnEvents(events: seq<Event>): seq<Event> {
    if events == [] then []
    else OwnEvents(events[..|events| - 1]) + if events[|events| - 1].Own? then [events[|events| - 1]] else []
  }

  function Logged(log: seq<Commit>): seq<Event> {
    if log == [] then []
    else Logged(log[..|log| - 1]) + [Own(log[|log| - 1].transaction, log[|log| - 1].record)]
  }

  /** The world is the replay of the events, and the log is exactly what the manager committed. */
  ghost predicate Recorded(reading: Reading, initial: World, world: World, events: seq<Event>, log: seq<Commit>) {
    && world == Replay(reading, initial, events)
    && OwnEvents(events) == Logged(log)
    && forall i :: 0 <= i < |log| ==> CommitOk(log[i])
  }

  /** What has happened so far, and what of it the manager has committed. */
  datatype Past = Past(world: World, events: seq<Event>, log: seq<Commit>)

  datatype Moment = Moment(world: World, lifecycle: Lifecycle, project: Option<Project>, events: seq<Event>, log: seq<Commit>) {
    function Here(): Past { Past(world, events, log) }
  }

  lemma {:induction false} RecordedOther(
      reading: Reading, initial: World, world: World, events: seq<Event>, log: seq<Commit>, c: Change)
    requires Recorded(reading, initial, world, events, log)
    ensures Recorded(reading, initial, Changed(reading, world, c), events + [Others(c)], log)
  {
    hide Changed;
    ReplayStep(reading, initial, events, Others(c));
    assert (events + [Others(c)])[..|events|] == events;
  }

  /** The world with a new transaction, which is CURRENT. */
  function WithCommit(w: World, c: Commit): World {
    w.(records := w.records[c.transaction := c.record], current := Some(c.transaction))
  }

  function Committed(m: Moment, c: Commit): Moment {
    m.(world := WithCommit(m.world, c), events := m.events + [Own(c.transaction, c.record)], log := m.log + [c])
  }

  lemma {:induction false} RecordedOwn(
      reading: Reading, initial: World, world: World, events: seq<Event>, log: seq<Commit>, c: Commit)
    requires Recorded(reading, initial, world, events, log) && CommitOk(c)
    ensures Recorded(reading, initial, WithCommit(world, c), events + [Own(c.transaction, c.record)], log + [c])
  {
    hide Changed;
    var e := Own(c.transaction, c.record);
    ReplayStep(reading, initial, events, e);
    assert (events + [e])[..|events|] == events;
    assert (log + [c])[..|log|] == log;
  }

  /** Between the two moments only others acted on the world. */
  ghost predicate Passed(o: Outside, a: Past, b: Past) {
    && Later(a.world, b.world) && b.log == a.log && a.events <= b.events
    && forall i :: |a.events| <= i < |b.events| ==> Outer(o, b.events[i])
  }

  lemma {:induction false} PassedSelf(o: Outside, a: Past)
    ensures Passed(o, a, a)
  {}

  lemma {:induction false} PassedHistory(o: Outside, a: Past, b: Past)
    requires Passed(o, a, b)
    ensures a.world.history <= b.world.history && KeptRecords(a.world, b.world)
  {}

  /** The transactions there were are as they were. */
  predicate KeptRecords(
      a: World, b: World) { forall t | t in a.records :: t in b.records && b.records[t] == a.records[t] }

  lemma {:induction false} PassedEvents(o: Outside, a: Past, b: Past)
    requires Passed(o, a, b)
    ensures a.events <= b.events
  {}

  lemma {:induction false} PassedFiles(o: Outside, a: Past, b: Past)
    requires Passed(o, a, b)
    ensures FilesLater(a.world.files, b.world.files)
  {}

  lemma {:induction false} PassedTwice(o: Outside, a: Past, b: Past, c: Past)
    requires Passed(o, a, b) && Passed(o, b, c)
    ensures Passed(o, a, c)
  {
    LaterTwice(a.world, b.world, c.world);
    hide Later, Outer;
    forall i | |a.events| <= i < |c.events| ensures Outer(o, c.events[i]) {
      if i < |b.events| { assert c.events[i] == b.events[i]; }
    }
  }

  /** Every record that is new was brought by one of the new events. */
  lemma {:induction false} NewRecords(reading: Reading, w: World, a: seq<Event>, b: seq<Event>, t: nat)
    requires a <= b && t in Replay(reading, w, b).records && t !in Replay(reading, w, a).records
    ensures exists i :: |a| <= i < |b| && Provides(b[i], t, Replay(reading, w, b).records[t])
  {
    if a != b {
      assert |a| == |b| ==> a == b;
      var front, e := b[..|b| - 1], b[|b| - 1];
      var r := Replay(reading, w, b).records[t];
      if Provides(e, t, r) {
        assert b[|b| - 1] == e;
      } else {
        assert t in Replay(reading, w, front).records && Replay(reading, w, front).records[t] == r;
        NewRecords(reading, w, a, front, t);
        var i :| |a| <= i < |front| && Provides(front[i], t, r);
        assert b[i] == front[i];
      }
    }
  }

  /** With nobody else at work the world stays as it is. */
  lemma {:induction false} QuietReplay(reading: Reading, w: World, o: Outside, a: seq<Event>, b: seq<Event>)
    requires a <= b && Quiet(reading, Replay(reading, w, a), o)
    requires forall i :: |a| <= i < |b| ==> Outer(o, b[i])
    ensures Replay(reading, w, b) == Replay(reading, w, a)
  {
    if a != b {
      assert |a| == |b| ==> a == b;
      var front := b[..|b| - 1];
      QuietReplay(reading, w, o, a, front);
      assert Outer(o, b[|b| - 1]);
    }
  }

  lemma {:induction false} QuietPassed(reading: Reading, initial: World, o: Outside, a: Past, b: Past)
    requires Recorded(reading, initial, a.world, a.events, a.log) && Recorded(reading, initial, b.world, b.events, b.log)
    requires Passed(o, a, b) && Quiet(reading, a.world, o)
    ensures b.world == a.world
  {
    QuietReplay(reading, initial, o, a.events, b.events);
  }

  // ---------- Configuration ----------

  lemma {:induction false} KeptText(a: seq<nat>, b: seq<nat>, i: nat)
    requires a <= b && i < |a|
    ensures b[i] == a[i]
  {}

  lemma {:induction false} ProofLater(reading: Reading, a: seq<nat>, b: seq<nat>, fingerprint: nat, p: Proof)
    requires a <= b && ProofOk(reading, a, fingerprint, p)
    ensures ProofOk(reading, b, fingerprint, p)
  {}

  lemma {:induction false} ProofStands(reading: Reading, history: seq<nat>, p: Proof)
    requires reading.means(p.text).Some?
    requires p.token.Some? ==> p.token.value < |history| && history[p.token.value] == p.text
    ensures ProofOk(reading, history, reading.means(p.text).value, p)
  {}

  /** The configuration file is there and still means the fingerprint. */
  predicate StillMeans(reading: Reading, w: World, fingerprint: nat) {
    w.history != [] && w.present && reading.means(w.history[|w.history| - 1]) == Some(fingerprint)
  }

  /** The state is persisted but CURRENT selects another transaction. */
  predicate MovedAway(w: World, p: Project) {
    p.hasPath && p.Persisted().Some? && w.current.Some? && w.current != p.Persisted()
  }

  /** During the stretch of time the configuration file had, at revision `at`, a text that means the
      fingerprint. */
  predicate MeantDuring(reading: Reading, a: World, b: World, at: nat, fingerprint: nat) {
    a.history != [] && |a.history| - 1 <= at < |b.history| && reading.means(b.history[at]) == Some(fingerprint)
  }

  lemma {:induction false} MeantLonger(
      reading: Reading, a: World, b: World, c: World, d: World, at: nat, fingerprint: nat)
    requires a.history != [] && a.history <= b.history && c.history <= d.history
    requires MeantDuring(reading, b, c, at, fingerprint)
    ensures MeantDuring(reading, a, d, at, fingerprint)
  {
    KeptText(c.history, d.history, at);
  }

  // ---------- Sources ----------

  /** The numbers of the sources that are not as they were seen. */
  function Differing(files: map<nat, seq<File>>, sources: seq<Source>): seq<nat> {
    if sources == [] then []
    else
      var last := |sources| - 1;
      Differing(files, sources[..last]) + if AsSeen(files, sources[last]) then [] else [last]
  }

  /** `found` is what a scan read, source by source, during the stretch of time, and `dirty` the
      numbers of those it found to differ. */
  ghost predicate Scanned(
      a: map<nat, seq<File>>, b: map<nat, seq<File>>, sources: seq<Source>, found: seq<File>, dirty: seq<nat>)
    requires |found| == |sources|
  {
    && (forall i :: 0 <= i < |sources| ==> ReadDuring(a, b, sources[i].path, found[i]))
    && (forall i :: 0 <= i < |sources| ==> (i in dirty <==> !SameFile(sources[i].file, found[i])))
    && forall k :: 0 <= k < |dirty| ==> dirty[k] < |sources|
  }

  lemma {:induction false} NothingScanned(a: map<nat, seq<File>>, b: map<nat, seq<File>>, sources: seq<Source>)
    ensures Scanned(a, b, sources[..0], [], []) && Differing(b, sources[..0]) == []
  {}

  lemma {:induction false} ScannedLonger(
      a: map<nat, seq<File>>, b: map<nat, seq<File>>, c: map<nat, seq<File>>, sources: seq<Source>, found: seq<File>,
      dirty: seq<nat>)
    requires |found| == |sources| && Scanned(a, b, sources, found, dirty) && FilesLater(b, c)
    ensures Scanned(a, c, sources, found, dirty)
  {
    FilesLaterSelf(a);
    hide FilesLater;
    forall i | 0 <= i < |sources| ensures ReadDuring(a, c, sources[i].path, found[i]) {
      ReadLonger(a, a, b, c, sources[i].path, found[i]);
    }
  }

  /** One more source is read now. */
  lemma {:induction false} ScannedNext(
      a: map<nat, seq<File>>, b: map<nat, seq<File>>, sources: seq<Source>, found: seq<File>, dirty: seq<nat>, i: nat)
    requires i < |sources| && |found| == i && Scanned(a, b, sources[..i], found, dirty) && FilesLater(a, b)
    ensures
      var now := FileOf(b, sources[i].path);
      Scanned(a, b, sources[..i + 1], found + [now], if SameFile(sources[i].file, now) then dirty else dirty + [i])
  {
    ReadNow(a, b, sources[i].path);
    hide FilesLater, ReadDuring, FileOf;
    var now := FileOf(b, sources[i].path);
    var after := if SameFile(sources[i].file, now) then dirty else dirty + [i];
    forall j | 0 <= j < i + 1
      ensures ReadDuring(a, b, sources[..i + 1][j].path, (found + [now])[j])
      ensures j in after <==> !SameFile(sources[..i + 1][j].file, (found + [now])[j])
    {
      if j < i { assert sources[..i + 1][j] == sources[..i][j]; }
    }
  }

  /** Every source but the dirty ones was as it was seen at some time. */
  ghost predicate SeenUnless(a: map<nat, seq<File>>, b: map<nat, seq<File>>, sources: seq<Source>, dirty: seq<nat>) {
    forall i :: 0 <= i < |sources| && i !in dirty ==> SeenDuring(a, b, sources[i])
  }

  lemma {:induction false} ScannedAreSeen(
      a: map<nat, seq<File>>, b: map<nat, seq<File>>, sources: seq<Source>, found: seq<File>, dirty: seq<nat>)
    requires |found| == |sources| && Scanned(a, b, sources, found, dirty)
    ensures SeenUnless(a, b, sources, dirty)
  {
    hide ReadDuring, SameFile;
    forall i | 0 <= i < |sources| && i !in dirty ensures SeenDuring(a, b, sources[i]) {
      assert ReadDuring(a, b, sources[i].path, found[i]) && SameFile(sources[i].file, found[i]);
    }
  }

  lemma {:induction false} NamedAreSeen(
      a: map<nat, seq<File>>, b: map<nat, seq<File>>, sources: seq<Source>, dirty: seq<nat>)
    requires NamesAll(b, sources, dirty) && FilesLater(a, b)
    ensures SeenUnless(a, b, sources, dirty)
  {
    hide FilesLater, FileOf;
    forall i | 0 <= i < |sources| && i !in dirty ensures SeenDuring(a, b, sources[i]) {
      assert AsSeen(b, sources[i]);
      ReadNow(a, b, sources[i].path);
    }
  }

  lemma {:induction false} SeenUnlessLonger(
      a: map<nat, seq<File>>, b: map<nat, seq<File>>, c: map<nat, seq<File>>, sources: seq<Source>, dirty: seq<nat>)
    requires SeenUnless(a, b, sources, dirty) && FilesLater(b, c)
    ensures SeenUnless(a, c, sources, dirty)
  {
    FilesLaterSelf(a);
    hide FilesLater;
    forall i | 0 <= i < |sources| && i !in dirty ensures SeenDuring(a, c, sources[i]) {
      SeenLonger(a, a, b, c, sources[i]);
    }
  }

  /** The sources a quiet detection looks at again. */
  function Suspects(d: Detector, c: Content, w: World): seq<nat> {
    match d.journal(c, w)
    case NoEntries => []
    case CannotTell => Differing(w.files, c.sources)
    case Entries(resolved) => if resolved.Some? then resolved.value else Differing(w.files, c.sources)
  }

  /** An update reads a source again only if its stamp differs from the one it was seen with. */
  function Reread(seen: File, now: File): File {
    if seen.Present? && now.Present? && seen.stamp == now.stamp then seen else now
  }

  /** Another content with the stamp of the one that was seen. */
  predicate Collides(seen: File, now: File) {
    seen.Present? && now.Present? && seen.stamp == now.stamp && seen.hash != now.hash
  }

  /** What an update takes for the source's content is what the file holds, exactly unless another
      content came with the same stamp. */
  lemma {:induction false} RereadExactly(seen: File, now: File)
    ensures SameFile(Reread(seen, now), now) <==> !Collides(seen, now)
  {}

  ghost predicate CollidedDuring(a: map<nat, seq<File>>, b: map<nat, seq<File>>, s: Source) {
    exists file :: ReadDuring(a, b, s.path, file) && Collides(s.file, file)
  }

  /** `now` is what an update makes of the sources: the dirty ones as they were when they were read
      again, the others as they were seen. */
  ghost predicate Reacquired(
      a: map<nat, seq<File>>, b: map<nat, seq<File>>, sources: seq<Source>, now: seq<Source>, dirty: seq<nat>)
    requires |now| == |sources|
  {
    forall i :: 0 <= i < |sources| ==>
      && now[i].path == sources[i].path
      && if i in dirty then ReacquiredOne(a, b, sources[i], now[i]) else now[i] == sources[i]
  }

  ghost predicate ReacquiredOne(a: map<nat, seq<File>>, b: map<nat, seq<File>>, s: Source, now: Source) {
    exists file :: ReadDuring(a, b, s.path, file) && now.file == Reread(s.file, file)
  }

  /** A dirty source that was missing and still is cannot be read again. */
  predicate StillThere(files: map<nat, seq<File>>, sources: seq<Source>, i: nat) {
    i < |sources| && (sources[i].file.Present? || FileOf(files, sources[i].path).Present?)
  }

  predicate RereadAll(files: map<nat, seq<File>>, sources: seq<Source>, now: seq<Source>, dirty: seq<nat>)
    requires |now| == |sources|
  {
    forall i :: 0 <= i < |sources| ==>
      now[i].file == if i in dirty then Reread(sources[i].file, FileOf(files, sources[i].path)) else sources[i].file
  }

  lemma {:induction false} NothingReacquired(
      a: map<nat, seq<File>>, b: map<nat, seq<File>>, sources: seq<Source>, dirty: seq<nat>)
    ensures Reacquired(a, b, sources, sources, dirty[..0]) && ChangedAre(sources, sources, [])
    ensures RereadAll(b, sources, sources, dirty[..0])
  {}

  lemma {:induction false} NotThere(files: map<nat, seq<File>>, sources: seq<Source>, i: nat)
    requires i < |sources| ==> sources[i].file.Missing? && FileOf(files, sources[i].path).Missing?
    ensures !StillThere(files, sources, i)
  {}

  lemma {:induction false} AgainReacquired(
      a: map<nat, seq<File>>, b: map<nat, seq<File>>, sources: seq<Source>, now: seq<Source>, dirty: seq<nat>, i: nat)
    requires |now| == |sources| && i in dirty
    ensures Reacquired(a, b, sources, now, dirty) <==> Reacquired(a, b, sources, now, dirty + [i])
    ensures RereadAll(b, sources, now, dirty) <==> RereadAll(b, sources, now, dirty + [i])
  {
    assert forall j :: j in dirty <==> j in dirty + [i];
    hide ReacquiredOne, Reread, FileOf;
  }

  lemma {:induction false} ReacquiredLonger(
      a: map<nat, seq<File>>, b: map<nat, seq<File>>, c: map<nat, seq<File>>, sources: seq<Source>, now: seq<Source>,
      dirty: seq<nat>)
    requires |now| == |sources| && Reacquired(a, b, sources, now, dirty) && FilesLater(b, c)
    ensures Reacquired(a, c, sources, now, dirty)
  {
    FilesLaterSelf(a);
    hide FilesLater, Reread;
    forall i | 0 <= i < |sources| && i in dirty ensures ReacquiredOne(a, c, sources[i], now[i]) {
      var file :| ReadDuring(a, b, sources[i].path, file) && now[i].file == Reread(sources[i].file, file);
      ReadLonger(a, a, b, c, sources[i].path, file);
    }
  }

  lemma {:induction false} ReacquiredNext(
      a: map<nat, seq<File>>, b: map<nat, seq<File>>, sources: seq<Source>, now: seq<Source>, dirty: seq<nat>,
      changed: seq<nat>, i: nat)
    requires |now| == |sources| && Reacquired(a, b, sources, now, dirty) && ChangedAre(sources, now, changed)
    requires i < |sources| && i !in dirty && FilesLater(a, b)
    ensures
      var taken := Reread(sources[i].file, FileOf(b, sources[i].path));
      var after := now[i := Source(sources[i].path, taken)];
      && Reacquired(a, b, sources, after, dirty + [i])
      && ChangedAre(sources, after, if SameFile(sources[i].file, taken) then changed else changed + [i])
      && (RereadAll(b, sources, now, dirty) ==> RereadAll(b, sources, after, dirty + [i]))
  {
    ReadNow(a, b, sources[i].path);
    assert now[i] == sources[i];
    hide FilesLater, ReadDuring, FileOf, Reread;
    var taken := Reread(sources[i].file, FileOf(b, sources[i].path));
    assert ReacquiredOne(a, b, sources[i], Source(sources[i].path, taken));
    SameFileSelf(sources[i].file);
  }

  // ---------- What each operation answers when undisturbed ----------

  /** What reading the configuration file comes to; `missing` is the answer if it is not there. */
  function ReadStatus(reading: Reading, w: World, missing: Status): Status {
    if w.history == [] || !w.present then missing
    else
      var text := w.history[|w.history| - 1];
      if reading.means(text).None? then reading.refuses(text) else Ok
  }

  /** And beside a project or transaction of this fingerprint. */
  function MatchStatus(reading: Reading, w: World, missing: Status, fingerprint: nat): Status {
    var read := ReadStatus(reading, w, missing);
    if read != Ok || w.history == [] || reading.means(w.history[|w.history| - 1]) == Some(fingerprint) then read
    else RebuildRequired
  }

  lemma {:induction false} MatchMeans(reading: Reading, w: World, missing: Status, fingerprint: nat)
    requires missing != Ok
    ensures MatchStatus(reading, w, missing, fingerprint) == Ok <==> StillMeans(reading, w, fingerprint)
    ensures ReadStatus(reading, w, missing) == Ok
      <==> w.history != [] && w.present && reading.means(w.history[|w.history| - 1]).Some?
  {}

  /** LOAD: the file is looked at before CURRENT is missed. */
  function LoadStatus(reading: Reading, w: World): Status {
    var read := ReadStatus(reading, w, IoFailed);
    if read != Ok then read
    else if w.current.None? || w.current.value !in w.records then NotFound
    else MatchStatus(reading, w, IoFailed, w.records[w.current.value].fingerprint)
  }

  lemma {:induction false} LoadStatusMeans(reading: Reading, w: World)
    ensures
      LoadStatus(reading, w) == Ok
      <==> w.current.Some? && w.current.value in w.records && StillMeans(reading, w, w.records[w.current.value].fingerprint)
  {}

  /** SAVE: CURRENT is looked at before the file. */
  function SaveStatus(reading: Reading, w: World, project: Option<Project>): Status {
    if project.None? || !project.value.hasPath then InvalidState
    else if project.value.Persisted().Some? && w.current.None? then NotFound
    else if project.value.Persisted().Some? && w.current != project.value.Persisted() then RebuildRequired
    else MatchStatus(reading, w, NotFound, project.value.fingerprint)
  }

  /** A full build under a configuration: its items are looked at first. */
  ghost predicate ToldUnder(reading: Reading, files: map<nat, seq<File>>, fingerprint: nat, status: Status) {
    var items := reading.items(fingerprint);
    if exists k :: 0 <= k < |items| && items[k].project then status == NotAvailable
    else if items == [] then status == InvalidArgument
    else ToldInFull(reading, files, RootsOf(items), status)
  }

  /** A full build under the configuration file. */
  ghost predicate ToldNow(reading: Reading, w: World, status: Status) {
    if ReadStatus(reading, w, NotFound) != Ok then status == ReadStatus(reading, w, NotFound)
    else ToldUnder(reading, w.files, reading.means(w.history[|w.history| - 1]).value, status)
  }

  /** Reading the dirty sources again: their numbers are looked at before the files. */
  ghost function RereadStatus(files: map<nat, seq<File>>, sources: seq<Source>, dirty: seq<nat>): Status {
    if exists k :: 0 <= k < |dirty| && dirty[k] >= |sources| then InvalidArgument
    else if exists k :: 0 <= k < |dirty| && !StillThere(files, sources, dirty[k]) then NotFound
    else Ok
  }

  lemma {:induction false} RereadStatusMeans(files: map<nat, seq<File>>, sources: seq<Source>, dirty: seq<nat>)
    ensures
      RereadStatus(files, sources, dirty) == Ok
      <==> forall k :: 0 <= k < |dirty| ==> StillThere(files, sources, dirty[k])
  {
    hide FileOf;
  }

  /** An update: once the dirty sources are read again, what they include decides. */
  ghost predicate ToldOfUpdate(
      reading: Reading, files: map<nat, seq<File>>, sources: seq<Source>, dirty: seq<nat>, status: Status)
  {
    var now := RereadOf(files, sources, dirty);
    if RereadStatus(files, sources, dirty) != Ok then status == RereadStatus(files, sources, dirty)
    else if SameSources(sources, now) then status == Ok
    else Told(reading, files, ImportedBy(reading, sources, now), now, status)
  }

  // ---------- What each operation promises ----------

  /** A record some change by others brings. */
  ghost predicate Brought(o: Outside, t: nat, r: Record) {
    exists c :: DoneBy(o, c) && Provides(Others(c), t, r)
  }

  /** What every call of SAVE keeps: the active project but for the remembered transaction, the old
      transactions, and, beside what others do, at most one commit of its own. */
  ghost predicate SaveKeeps(o: Outside, a: Moment, b: Moment) {
    && Later(a.world, b.world) && b.lifecycle == a.lifecycle
    && a.events <= b.events && a.log <= b.log && |b.log| <= |a.log| + 1
    && (forall i :: |a.events| <= i < |b.events| ==>
          Outer(o, b.events[i]) || (b.log != a.log && b.events[i] == Own(b.log[|a.log|].transaction, b.log[|a.log|].record)))
    && (b.project.Some? <==> a.project.Some?)
    && (b.project.Some? ==>
          && b.project.value == a.project.value.(remembered := b.project.value.remembered)
          && Active(b.world, b.project.value) == Active(a.world, a.project.value))
  }

  /** SAVE. Success means that the transaction returned stands for the active content under the
      project's fingerprint. A state that is persisted is never written again, and if CURRENT has
      moved away from it nothing is written at all. What is written is exactly the active content,
      and every other new record comes from others. */
  ghost predicate Saved(
      reading: Reading, o: Outside, a: Moment, status: Status, transaction: Option<nat>, written: bool, b: Moment)
  {
    && SaveKeeps(o, a, b)
    && (status == Ok ==> b.project.Some? && transaction.Some? && Holds(b.world, transaction.value, b.project.value))
    && (if written then
          && status == Ok && |b.log| == |a.log| + 1 && transaction.value !in a.world.records
          && a.project.value.Persisted().None?
          && b.log[|a.log|].transaction == transaction.value
          && b.world.records[transaction.value] == b.log[|a.log|].record
          && b.log[|a.log|].record.content == Active(a.world, a.project.value)
          && b.project.value.remembered == (if o.faults(9) == Ok then transaction else None)
        else
          && Passed(o, a.Here(), b.Here()) && b.project == a.project
          && (status == Ok ==> transaction == a.project.value.Persisted()))
    && (forall t | t in b.world.records && t !in a.world.records ::
          (written && transaction == Some(t)) || Brought(o, t, b.world.records[t]))
    && (Quiet(reading, a.world, o) ==>
          && (!written ==> b.world == a.world)
          && (a.project.Some? ==>
                && (status == Ok <==>
                      && a.project.value.hasPath && StillMeans(reading, a.world, a.project.value.fingerprint)
                      && (a.project.value.Persisted().Some? ==> a.world.current == a.project.value.Persisted()))
                && (MovedAway(a.world, a.project.value) ==> status == RebuildRequired))
          && status == SaveStatus(reading, a.world, a.project))
    && (a.project.None? || !a.project.value.hasPath ==> status == InvalidState)
  }

  /** The exits of an operation that constructs: refused because another state is there, or READY
      exactly on success and else UNLOADED. Only others act on the store. */
  ghost predicate Constructed(o: Outside, a: Moment, status: Status, b: Moment) {
    && Passed(o, a.Here(), b.Here())
    && (if a.lifecycle != Unloaded then status == InvalidState && b.lifecycle == a.lifecycle && b.project == a.project
        else b.lifecycle == (if status == Ok then Ready else Unloaded))
  }

  /** The active project is a transaction of the store alone, and at some time during the call the
      configuration file meant its fingerprint. */
  ghost predicate OnBaseline(reading: Reading, a: Moment, b: Moment) {
    && b.project.Some? && b.project.value.baseline.Some? && b.project.value.baseline.value in b.world.records
    && b.project.value
       == Project(b.project.value.fingerprint, None, None, b.project.value.baseline, None, None, true)
    && exists at :: MeantDuring(reading, a.world, b.world, at, b.project.value.fingerprint)
  }

  ghost predicate AfterLoad(reading: Reading, o: Outside, a: Moment, status: Status, b: Moment) {
    && Constructed(o, a, status, b)
    && (status == Ok ==> OnBaseline(reading, a, b))
    && (Quiet(reading, a.world, o) && a.lifecycle == Unloaded ==>
          && b.world == a.world
          && (status == Ok <==>
                a.world.current.Some? && a.world.current.value in a.world.records &&
                StillMeans(reading, a.world, a.world.records[a.world.current.value].fingerprint))
          && status == LoadStatus(reading, a.world))
  }

  /** A generation built in full: unsaved, every source of it read during the call, and with it
      everything it includes; it is well built. */
  ghost predicate BuiltInFull(reading: Reading, a: map<nat, seq<File>>, b: Moment) {
    && b.project.Some? && b.project.value.finalized.Some? && b.project.value.Persisted().None?
    && var items, c := reading.items(b.project.value.fingerprint), b.project.value.finalized.value;
       && ReadFrom(a, b.world.files, c.sources, 0) && WellBuilt(reading, c.sources)
       && RootsOk(items) && (forall p :: p in RootsOf(items) ==> p in PathsOf(c.sources))
  }

  /** A configuration can be built if it has items and none of them is another project. */
  predicate RootsOk(items: seq<Item>) { items != [] && forall k :: 0 <= k < |items| ==> !items[k].project }

  function RootsOf(items: seq<Item>): (r: seq<nat>)
    ensures |r| == |items| && forall k :: 0 <= k < |r| ==> r[k] == items[k].path
  {
    seq(|items|, k requires 0 <= k < |items| => items[k].path)
  }

  /** Everything a full build under the configuration wants is there and can be built. */
  ghost predicate BuildableUnder(reading: Reading, files: map<nat, seq<File>>, fingerprint: nat) {
    RootsOk(reading.items(fingerprint)) && Buildable(reading, files, RootsOf(reading.items(fingerprint)), [])
  }

  ghost predicate AfterRebuild(reading: Reading, o: Outside, a: Moment, status: Status, b: Moment) {
    && Constructed(o, a, status, b)
    && (status == Ok ==>
          && BuiltInFull(reading, a.world.files, b) && b.project.value.hasPath
          && exists at :: MeantDuring(reading, a.world, b.world, at, b.project.value.fingerprint))
    && (Quiet(reading, a.world, o) && a.lifecycle == Unloaded ==>
          && b.world == a.world && (status == Ok <==> BuildableNow(reading, a.world))
          && ToldNow(reading, a.world, status))
  }

  /** The configuration file can be read, and a full build under it finds all it wants. */
  ghost predicate BuildableNow(reading: Reading, w: World) {
    && w.history != [] && w.present && reading.means(w.history[|w.history| - 1]).Some?
    && BuildableUnder(reading, w.files, reading.means(w.history[|w.history| - 1]).value)
  }

  ghost predicate AfterRebuildInMemory(
      reading: Reading, o: Outside, fingerprint: nat, a: Moment, status: Status, b: Moment)
  {
    && Constructed(o, a, status, b)
    && (status == Ok ==>
          && BuiltInFull(reading, a.world.files, b)
          && b.project.value.fingerprint == fingerprint && !b.project.value.hasPath)
    && (Quiet(reading, a.world, o) && a.lifecycle == Unloaded ==>
          && b.world == a.world && (status == Ok <==> BuildableUnder(reading, a.world.files, fingerprint))
          && ToldUnder(reading, a.world.files, fingerprint, status))
  }

  predicate AfterUnload(a: Moment, status: Status, b: Moment) {
    && b.world == a.world && b.log == a.log && b.events == a.events
    && if a.lifecycle == Ready then status == Ok && b.lifecycle == Unloaded
       else status == InvalidState && b.lifecycle == a.lifecycle && b.project == a.project
  }

  /** Each source was, at some time during the call, as the generation has it. */
  ghost predicate AllSeen(a: map<nat, seq<File>>, b: map<nat, seq<File>>, sources: seq<Source>) {
    forall i :: 0 <= i < |sources| ==> SeenDuring(a, b, sources[i])
  }

  /** At one moment during the call all sources were as the generation has them. */
  ghost predicate AllSeenAtOnce(reading: Reading, initial: World, a: Moment, b: Moment, sources: seq<Source>) {
    exists k :: |a.events| <= k <= |b.events| && NamesAll(Replay(reading, initial, b.events[..k]).files, sources, [])
  }

  /** The source as it is at some time, unless another content came with the stamp it was seen with:
      then as it was. */
  ghost predicate Renewed(a: map<nat, seq<File>>, b: map<nat, seq<File>>, seen: Source, s: Source) {
    s.path == seen.path && (SeenDuring(a, b, s) || (s == seen && CollidedDuring(a, b, seen)))
  }

  lemma {:induction false} RenewedLonger(
      a: map<nat, seq<File>>, b: map<nat, seq<File>>, c: map<nat, seq<File>>, seen: Source, s: Source)
    requires FilesLater(a, a) && FilesLater(b, c) && Renewed(a, b, seen, s)
    ensures Renewed(a, c, seen, s)
  {
    if SeenDuring(a, b, s) {
      SeenLonger(a, a, b, c, s);
    } else {
      var file :| ReadDuring(a, b, seen.path, file) && Collides(seen.file, file);
      ReadLonger(a, a, b, c, seen.path, file);
    }
  }

  ghost predicate AllRenewed(a: map<nat, seq<File>>, b: map<nat, seq<File>>, seen: seq<Source>, now: seq<Source>) {
    |seen| <= |now| && forall i :: 0 <= i < |seen| ==> Renewed(a, b, seen[i], now[i])
  }

  lemma {:induction false} RenewedAfter(
      a: map<nat, seq<File>>, b: map<nat, seq<File>>, c: map<nat, seq<File>>, seen: seq<Source>, now: seq<Source>,
      all: seq<Source>)
    requires AllRenewed(a, b, seen, now) && FilesLater(b, c) && |now| <= |all| && all[..|now|] == now
    ensures AllRenewed(a, c, seen, all)
  {
    FilesLaterSelf(a);
    hide FilesLater, Renewed;
    forall i | 0 <= i < |seen| ensures Renewed(a, c, seen[i], all[i]) {
      assert all[i] == all[..|now|][i];
      RenewedLonger(a, b, c, seen[i], now[i]);
    }
  }

  lemma {:induction false} ReacquiredRenews(
      a: map<nat, seq<File>>, b: map<nat, seq<File>>, sources: seq<Source>, now: seq<Source>, dirty: seq<nat>)
    requires |now| == |sources| && Reacquired(a, b, sources, now, dirty) && SeenUnless(a, b, sources, dirty)
    ensures AllRenewed(a, b, sources, now) && forall i :: 0 <= i < |sources| ==> now[i].path == sources[i].path
  {
    hide SeenDuring, ReadDuring, Reread, Collides;
    forall i | 0 <= i < |sources| ensures Renewed(a, b, sources[i], now[i]) {
      if i in dirty { RereadRenews(a, b, sources[i], now[i]); }
    }
  }

  lemma {:induction false} RereadRenews(a: map<nat, seq<File>>, b: map<nat, seq<File>>, s: Source, now: Source)
    requires now.path == s.path && ReacquiredOne(a, b, s, now)
    ensures Renewed(a, b, s, now)
  {
    var file :| ReadDuring(a, b, s.path, file) && now.file == Reread(s.file, file);
    RereadExactly(s.file, file);
    hide ReadDuring;
    if Collides(s.file, file) {
      assert now == s;
    } else {
      assert SameFile(now.file, file);
    }
  }

  /** The same sources with the same content, whatever their stamps. */
  predicate SameSources(seen: seq<Source>, now: seq<Source>) {
    |seen| == |now| && forall i :: 0 <= i < |seen| ==> seen[i].path == now[i].path && SameFile(seen[i].file, now[i].file)
  }

  lemma {:induction false} SameSourcesMean(seen: Content, c: Content)
    requires c.fingerprint == seen.fingerprint
    ensures SameMeaning(seen, c) <==> SameSources(seen.sources, c.sources)
  {}

  /** A changed source makes the generation mean something else, whatever is read besides. */
  lemma {:induction false} ChangedMeansParsed(
      sources: seq<Source>, now: seq<Source>, all: seq<Source>, changed: seq<nat>)
    requires |now| == |sources| && ChangedAre(sources, now, changed)
    requires forall i :: 0 <= i < |sources| ==> now[i].path == sources[i].path
    requires |now| <= |all| && all[..|now|] == now && (changed == [] ==> all == now)
    ensures SameSources(sources, all) <==> changed == []
  {
    hide SameFile;
    if changed != [] {
      var i := changed[0];
      assert i in changed && all[i] == all[..|now|][i];
    } else if |sources| > 0 {
      forall i | 0 <= i < |sources| ensures SameFile(sources[i].file, now[i].file) { assert i !in changed; }
    }
  }

  /** The sources after an undisturbed reread of the dirty ones. */
  function RereadOf(files: map<nat, seq<File>>, sources: seq<Source>, dirty: seq<nat>): (r: seq<Source>)
    ensures |r| == |sources|
  {
    seq(|sources|, i requires 0 <= i < |sources| =>
      if i in dirty then sources[i].(file := Reread(sources[i].file, FileOf(files, sources[i].path))) else sources[i])
  }

  lemma {:induction false} RereadIs(files: map<nat, seq<File>>, sources: seq<Source>, now: seq<Source>, dirty: seq<nat>)
    requires |now| == |sources| && RereadAll(files, sources, now, dirty)
    requires forall i :: 0 <= i < |sources| ==> now[i].path == sources[i].path
    ensures now == RereadOf(files, sources, dirty)
  {
    hide Reread, FileOf;
  }

  /** What the changed sources include. */
  function ImportedBy(reading: Reading, sources: seq<Source>, now: seq<Source>): seq<nat>
    requires |now| == |sources|
  {
    if sources == [] then []
    else
      var last := |sources| - 1;
      ImportedBy(reading, sources[..last], now[..last])
      + if now[last].file.Missing? || SameFile(sources[last].file, now[last].file) then []
        else reading.imports(now[last].path, now[last].file.hash)
  }

  lemma {:induction false} ImportedMeans(reading: Reading, sources: seq<Source>, now: seq<Source>, path: nat)
    requires |now| == |sources|
    ensures
      path in ImportedBy(reading, sources, now) <==>
      exists i :: 0 <= i < |sources| && !SameFile(sources[i].file, now[i].file) && Includes(reading, now[i], path)
  {
    hide SameFile;
    if sources != [] {
      var last := |sources| - 1;
      ImportedMeans(reading, sources[..last], now[..last], path);
      if i :| 0 <= i < |sources| && !SameFile(sources[i].file, now[i].file) && Includes(reading, now[i], path) {
        if i < last { assert sources[..last][i] == sources[i] && now[..last][i] == now[i]; }
      }
      if i :| 0 <= i < last && !SameFile(sources[..last][i].file, now[..last][i].file)
            && Includes(reading, now[..last][i], path) {
        assert sources[..last][i] == sources[i] && now[..last][i] == now[i];
      }
    }
  }

  /** With every changed source followed, the roots of the update are known. */
  lemma {:induction false} RootsFollowed(
      reading: Reading, sources: seq<Source>, now: seq<Source>, changed: seq<nat>, all: seq<Source>)
    requires |now| == |sources| && ChangedAre(sources, now, changed) && |now| <= |all| && all[..|now|] == now
    requires forall k :: 0 <= k < |changed| ==> ImportsKnown(reading, all, changed[k])
    ensures forall p :: p in ImportedBy(reading, sources, now) ==> p in PathsOf(all)
  {
    forall p | p in ImportedBy(reading, sources, now) ensures p in PathsOf(all) {
      ImportedMeans(reading, sources, now, p);
      var i :| 0 <= i < |sources| && !SameFile(sources[i].file, now[i].file) && Includes(reading, now[i], p);
      var k :| 0 <= k < |changed| && changed[k] == i;
      assert ImportsKnown(reading, all, changed[k]) && all[i] == all[..|now|][i];
    }
  }

  /** When an undisturbed update succeeds: no dirty source is missing twice, and if any of them has
      changed, everything new that is wanted is there, nothing includes a file that is missing, and
      no file includes itself through others. */
  ghost predicate Updatable(reading: Reading, files: map<nat, seq<File>>, sources: seq<Source>, dirty: seq<nat>) {
    && (forall k :: 0 <= k < |dirty| ==> StillThere(files, sources, dirty[k]))
    && var now := RereadOf(files, sources, dirty);
       SameSources(sources, now) || Buildable(reading, files, ImportedBy(reading, sources, now), now)
  }

  lemma {:induction false} NothingToUpdate(reading: Reading, files: map<nat, seq<File>>, sources: seq<Source>)
    ensures Updatable(reading, files, sources, []) && SameSources(sources, RereadOf(files, sources, []))
  {
    forall i | 0 <= i < |sources| ensures SameFile(sources[i].file, sources[i].file) { SameFileSelf(sources[i].file); }
    assert RereadOf(files, sources, []) == sources;
  }

  lemma {:induction false} ChangedNumbers(sources: seq<Source>, now: seq<Source>, changed: seq<nat>)
    requires |now| == |sources| && ChangedAre(sources, now, changed)
    ensures forall k :: 0 <= k < |changed| ==> changed[k] < |now|
  {}

  /** A generation updated from transaction `t`: every old source is renewed, and every new one was
      read; it is well built. It counts as persisted exactly if it still means what the transaction
      means. */
  ghost predicate UpdatedFrom(reading: Reading, a: map<nat, seq<File>>, t: nat, b: Moment) {
    && b.project.Some? && b.project.value.compiled.Some? && b.project.value.baseline == Some(t) && t in b.world.records
    && var seen, c := b.world.records[t].content, b.project.value.compiled.value;
       && AllRenewed(a, b.world.files, seen.sources, c.sources)
       && ReadFrom(a, b.world.files, c.sources, |seen.sources|)
       && WellBuilt(reading, c.sources)
       && b.project.value.Persisted() == (if SameMeaning(seen, c) then Some(t) else None)
  }

  /** BUILD. `reused` tells that it ended on the baseline alone: then each source was at some time
      during the call as the baseline has it, and where the journal vouched for them (`journalled`),
      all of them at one moment. */
  ghost predicate AfterBuild(
      reading: Reading, initial: World, d: Detector, o: Outside, a: Moment, status: Status, reused: bool, journalled: bool,
      b: Moment)
  {
    && Constructed(o, a, status, b)
    && (status == Ok && reused ==>
          && OnBaseline(reading, a, b)
          && var sources := b.world.records[b.project.value.baseline.value].content.sources;
             && AllSeen(a.world.files, b.world.files, sources)
             && (journalled ==> AllSeenAtOnce(reading, initial, a, b, sources)))
    && (status == Ok && !reused ==>
          BuiltInFull(reading, a.world.files, b) || exists t :: UpdatedFrom(reading, a.world.files, t, b))
    && (Quiet(reading, a.world, o) && a.lifecycle == Unloaded ==>
          b.world == a.world && QuietBuild(reading, d, a.world, status, reused, b.project))
  }

  /** Exactly what an undisturbed BUILD does: beside a configuration file that still means CURRENT's
      fingerprint it reuses CURRENT if there is nothing to look at again, and else updates it; then
      the state is persisted exactly if what was read again has not changed. Otherwise everything is
      built. */
  ghost predicate QuietBuild(
      reading: Reading, d: Detector, w: World, status: Status, reused: bool, project: Option<Project>)
  {
    if w.current.Some? && w.current.value in w.records && StillMeans(reading, w, w.records[w.current.value].fingerprint) then
      var t := w.current.value;
      var record := w.records[t];
      var suspects := Suspects(d, record.content, w);
      && (status == Ok <==> Updatable(reading, w.files, record.content.sources, suspects))
      && ToldOfUpdate(reading, w.files, record.content.sources, suspects, status)
      && (status == Ok && reused <==> suspects == [])
      && (status == Ok ==>
            && project.Some? && project.value.hasPath && project.value.fingerprint == record.fingerprint
            && project.value.Persisted()
               == (if SameSources(record.content.sources, RereadOf(w.files, record.content.sources, suspects)) then Some(t)
                   else None))
    else
      (status == Ok <==> BuildableNow(reading, w)) && ToldNow(reading, w, status) && (status == Ok ==> !reused)
  }
}
