/** The project manager: the operations themselves, each against what it promises, and whole runs
    of them. */
module ProjectManager {
  import opened Wrappers
  import opened IncludeGraph
  import opened Generation
  import opened ProjectWorld
  import opened SourceDiscovery
  import opened DiscoveryWaves
  import opened ProjectSaving

  class Manager {
    const reading: Reading
    /** The world as it was when the manager started. */
    ghost const initial: World
    var world: World
    var lifecycle: Lifecycle
    var project: Option<Project>
    /** Everything that has happened since, and what of it the manager has committed. */
    ghost var events: seq<Event>
    ghost var log: seq<Commit>

    ghost function Now(): Moment
      reads this
    {
      Moment(world, lifecycle, project, events, log)
    }

    ghost function Here(): Past
      reads this
    {
      Past(world, events, log)
    }

    ghost predicate Valid()
      reads this
    {
      && WorldOk(reading, world)
      && (lifecycle == Ready <==> project.Some?)
      && (project.Some? ==> ProjectOk(reading, world, project.value))
      && Recorded(reading, initial, world, events, log)
    }

    lemma {:induction false} HasHistory()
      requires Valid()
      ensures world.history != [] && (world.current.Some? ==> world.current.value in world.records)
    {
      hide WellBuilt, Recorded, ProjectOk, RecordOk;
    }

    constructor (reading: Reading, world: World)
      requires WorldOk(reading, world)
      ensures Valid() && this.reading == reading && initial == world && this.world == world
      ensures lifecycle == Unloaded && events == [] && log == []
    {
      this.reading, initial, this.world := reading, world, world;
      lifecycle, project := Unloaded, None;
      events, log := [], [];
    }

    /** Others act; the manager's own state is not theirs to change. */
    method Act(c: Change, ghost o: Outside)
      requires Valid() && DoneBy(o, c)
      modifies `world, `events
      ensures Valid() && Passed(o, old(Here()), Here()) && world == Changed(reading, old(world), c)
      ensures project.Some? ==> Active(world, project.value) == old(Active(world, project.value))
    {
      hide WellBuilt, Recorded, Changed, RecordOk, ProjectOk, Active, DoneBy, FilesLater;
      var after := Changed(reading, world, c);
      ChangedIsLater(reading, world, c);
      if project.Some? { ProjectLater(reading, world, after, project.value); }
      RecordedOther(reading, initial, world, events, log, c);
      world := after;
      events := events + [Others(c)];
    }

    method Interfere(o: Outside, n: nat)
      requires Valid()
      modifies `world, `events
      ensures Valid() && Passed(o, old(Here()), Here()) && world == Changed(reading, old(world), o.changes(n))
      ensures Quiet(reading, old(world), o) ==> world == old(world)
      ensures project.Some? ==> Active(world, project.value) == old(Active(world, project.value))
    {
      hide Recorded, Changed, RecordOk, ProjectOk, Active, Later;
      Act(o.changes(n), o);
    }

    /** A new transaction, written under an unused name, becomes CURRENT. */
    method CommitRecord(record: Record, ghost p: Project) returns (transaction: nat)
      requires Valid() && RecordOk(reading, world.history, record)
      requires project == Some(p) && record.fingerprint == p.fingerprint && record.content == Active(world, p)
      modifies `world, `events, `log
      ensures Valid() && Later(old(world), world)
      ensures transaction !in old(world.records)
      ensures Now() == Committed(old(Now()), Commit(transaction, record, p.fingerprint, Active(old(world), p)))
    {
      hide WellBuilt, Recorded, RecordOk, ProjectOk, Active;
      transaction := FreshName(world.records.Keys);
      ghost var before := world;
      ghost var commit := Commit(transaction, record, p.fingerprint, Active(before, p));
      RecordedOwn(reading, initial, world, events, log, commit);
      world := world.(records := world.records[transaction := record], current := Some(transaction));
      CommitLater(before, world, transaction);
      ProjectLater(reading, before, world, p);
      events, log := events + [Own(transaction, record)], log + [commit];
    }

    method FreshName(used: set<nat>) returns (n: nat)
      ensures n !in used
    {
      n := 0;
      ghost var below: set<nat> := {};
      while n in used
        invariant below <= used && |below| == n && forall k :: k in below <==> 0 <= k < n
        decreases |used - below|
      {
        assert n !in below && n in used - below;
        assert used - (below + {n}) == (used - below) - {n};
        below := below + {n};
        n := n + 1;
      }
    }

    /** The configuration file is as the token says. */
    function Unchanged(token: nat): bool
      reads this
      requires world.history != []
    {
      world.present && token == world.Revision()
    }

    // ----- SAVE -----

    /** The decision without reading the configuration: an already persisted state that CURRENT
        still selects, with the file proved untouched. `None` means: go on. */
    method FastGate(o: Outside) returns (decided: Option<Status>)
      requires Valid() && project.Some? && project.value.Persisted().Some?
      modifies `world, `events
      ensures Valid() && Passed(o, old(Here()), Here())
      ensures Active(world, project.value) == old(Active(world, project.value))
      ensures decided == Some(Ok) ==> world.current == project.value.Persisted()
      ensures
        Quiet(reading, old(world), o) ==>
          && world == old(world)
          && (decided == Some(Ok) ==> StillMeans(reading, world, project.value.fingerprint))
          && (world.current == project.value.Persisted() ==> decided in {Some(Ok), None})
          && (world.current.Some? && world.current != project.value.Persisted() ==> decided == Some(RebuildRequired))
          && (world.current.None? ==> decided == Some(NotFound))
    {
      hide WellBuilt, Recorded, Changed, Later, Outer, SameMeaning;
      Interfere(o, 0);
      if o.faults(0) != Ok { return Some(o.faults(0)); }
      if world.current.None? { return Some(NotFound); }
      var probe := world.current.value;
      var record := world.records[probe];
      PersistedHoldsActive(reading, world, project.value);
      if record.fingerprint != project.value.fingerprint || Some(probe) != project.value.Persisted() {
        return Some(RebuildRequired);
      }
      if record.configuration.Some? && record.configuration.value.token.Some? {
        if o.faults(1) == Ok {
          if Unchanged(record.configuration.value.token.value) { return Some(Ok); }
        } else if o.faults(1) != NotFound {
          return Some(o.faults(1));
        }
      }
      return None;
    }

    /** The second look at the token: the text read is bound to it only if it still stands. */
    method ProveAgain(text: nat, token: nat, ghost at: nat, o: Outside, n: nat) returns (status: Status, proof: Proof)
      requires Valid() && token <= at <= world.Revision() && world.history[at] == text
      modifies `world, `events
      ensures Valid() && Passed(o, old(Here()), Here())
      ensures project.Some? ==> Active(world, project.value) == old(Active(world, project.value))
      ensures
        status == Ok ==>
          && at <= world.Revision() && world.history[at] == text && proof.text == text
          && (proof.token.Some? ==> proof.token.value < |world.history| && world.history[proof.token.value] == text)
      ensures
        Quiet(reading, old(world), o) ==>
          world == old(world) && (world.present && token == world.Revision() ==> status == Ok)
    {
      hide Recorded, Changed, RecordOk, ProjectOk, Active, Passed, Quiet;
      proof := Proof(text, None);
      QuietFaults(reading, world, o, n);
      ghost var start := Here();
      Interfere(o, n);
      PassedHistory(o, start, Here());
      KeptText(start.world.history, world.history, at);
      if o.faults(n) != Ok { return if o.faults(n) == NotFound then Ok else o.faults(n), proof; }
      if !Unchanged(token) { return RebuildRequired, proof; }
      return Ok, Proof(text, Some(token));
    }

    /** A token, if one can be had, and then the text. */
    method ReadText(o: Outside, n: nat) returns (status: Status, text: nat, token: Option<nat>, ghost at: nat)
      requires Valid()
      modifies `world, `events
      ensures Valid() && Passed(o, old(Here()), Here())
      ensures project.Some? ==> Active(world, project.value) == old(Active(world, project.value))
      ensures token.Some? ==> token.value == old(world).Revision()
      ensures status == Ok ==> old(world).Revision() <= at <= world.Revision() && world.history[at] == text
      ensures
        Quiet(reading, old(world), o) ==>
          world == old(world) && status == (if world.present then Ok else NotFound) && at == world.Revision()
    {
      hide Recorded, Changed, RecordOk, ProjectOk, Active, Passed, Quiet;
      ghost var start := Here();
      PassedSelf(o, start);
      QuietFaults(reading, world, o, n);
      text, token, at := 0, None, world.Revision();
      if o.faults(n) == Ok {
        token := Some(world.Revision());
      } else if o.faults(n) != NotFound {
        return o.faults(n), text, token, at;
      }
      Interfere(o, n);
      PassedHistory(o, start, Here());
      if o.faults(n + 1) != Ok { return o.faults(n + 1), text, token, at; }
      if !world.present { return NotFound, text, token, at; }
      text, at := world.Text(), world.Revision();
      ghost var seen := Here();
      Interfere(o, n + 1);
      PassedTwice(o, start, seen, Here());
      PassedHistory(o, seen, Here());
      KeptText(seen.world.history, world.history, at);
      status := Ok;
    }

    /** Token, text, then the token again: an edit in between is noticed. */
    method ReadConfiguration(o: Outside, n: nat) returns (status: Status, proof: Proof, ghost at: nat)
      requires Valid()
      modifies `world, `events
      ensures Valid() && Passed(o, old(Here()), Here())
      ensures project.Some? ==> Active(world, project.value) == old(Active(world, project.value))
      ensures
        status == Ok ==>
          && old(world).Revision() <= at <= world.Revision() && world.history[at] == proof.text
          && reading.means(proof.text).Some?
          && ProofOk(reading, world.history, reading.means(proof.text).value, proof)
      ensures
        Quiet(reading, old(world), o) ==>
          && world == old(world) && status == ReadStatus(reading, world, NotFound)
          && (status == Ok ==> proof.text == world.Text())
    {
      hide Recorded, Changed, RecordOk, ProjectOk, Active, ProofOk, Passed, Quiet;
      ghost var start := Here();
      var text, token;
      status, text, token, at := ReadText(o, n);
      proof := Proof(text, None);
      if status != Ok { return; }
      if reading.means(text).None? { return reading.refuses(text), proof, at; }
      if token.Some? {
        ghost var again := Here();
        status, proof := ProveAgain(text, token.value, at, o, n + 2);
        PassedTwice(o, start, again, Here());
        if status != Ok { return; }
      }
      ProofStands(reading, world.history, proof);
    }

    /** The configuration identity a commit will carry: the generation's own proof if the file is
        still the one it was built from, and else the file read again. */
    method ProveConfiguration(o: Outside) returns (status: Status, proof: Proof)
      requires Valid() && project.Some?
      modifies `world, `events
      ensures Valid() && Passed(o, old(Here()), Here())
      ensures Active(world, project.value) == old(Active(world, project.value))
      ensures status == Ok ==> ProofOk(reading, world.history, project.value.fingerprint, proof)
      ensures
        Quiet(reading, old(world), o) ==>
          world == old(world) && status == MatchStatus(reading, world, NotFound, project.value.fingerprint)
    {
      hide WellBuilt, Recorded, Changed, RecordOk, Active, Outer, FilesLater, SameMeaning;
      proof := Proof(0, None);
      ghost var start := Here();
      Interfere(o, 1);
      var own := project.value.proof;
      if own.Some? && own.value.token.Some? {
        if o.faults(2) == Ok {
          if Unchanged(own.value.token.value) { return Ok, own.value; }
        } else if o.faults(2) != NotFound {
          return o.faults(2), proof;
        }
      }
      ghost var middle := Here();
      ghost var at;
      status, proof, at := ReadConfiguration(o, 3);
      PassedTwice(o, start, middle, Here());
      if status == Ok && reading.means(proof.text) != Some(project.value.fingerprint) { status := RebuildRequired; }
    }

    /** The commit, and the transaction remembered with the project unless that fails. */
    method CommitAndRemember(o: Outside, content: Content, proof: Proof) returns (transaction: Option<nat>)
      requires Valid() && project.Some? && content == Active(world, project.value)
      requires content.fingerprint == project.value.fingerprint
      requires ProofOk(reading, world.history, project.value.fingerprint, proof)
      modifies this
      ensures Valid() && project.Some? && transaction.Some? && transaction.value !in old(world.records)
      ensures
        var record := Record(project.value.fingerprint, content, Some(proof));
        var commit := Commit(transaction.value, record, project.value.fingerprint, content);
        Now() == Committed(old(Now()), commit).(
                   project := Some(old(project).value.(remembered := if o.faults(9) == Ok then transaction else None)))
      ensures Later(old(world), world) && Holds(world, transaction.value, project.value)
      ensures Active(world, project.value) == old(Active(world, project.value))
    {
      hide WellBuilt, Recorded, Later;
      var p := project.value;
      ActiveIsWellBuilt(reading, world, p);
      var id := CommitRecord(Record(p.fingerprint, content, Some(proof)), p);
      project := Some(p.(remembered := if o.faults(9) == Ok then Some(id) else None));
      transaction := Some(id);
    }

    /** The part of SAVE that writes: a project that is not persisted has a generation of its own. */
    method Write(o: Outside, proof: Proof) returns (status: Status, transaction: Option<nat>, written: bool)
      requires Valid() && project.Some? && project.value.Persisted().None?
      requires ProofOk(reading, world.history, project.value.fingerprint, proof)
      modifies this
      ensures Valid() && written == (status == Ok)
      ensures Quiet(reading, old(world), o) ==> status == Ok
      ensures if written then Wrote(o, old(Now()), transaction, Now()) else Now() == old(Now())
    {
      hide WellBuilt, Recorded, ProofOk, Later, SameMeaning;
      transaction, written := None, false;
      QuietFaults(reading, world, o, 7);
      if project.value.finalized.Some? {
        if o.faults(8) != Ok { return o.faults(8), None, false; }
        transaction := CommitAndRemember(o, project.value.finalized.value, proof);
        return Ok, transaction, true;
      }
      if project.value.compiled.Some? {
        if o.faults(7) != Ok { return o.faults(7), None, false; }
        if o.faults(8) != Ok { return o.faults(8), None, false; }
        transaction := CommitAndRemember(o, project.value.compiled.value, proof);
        return Ok, transaction, true;
      }
      // A baseline alone is always persisted, so the re-commit of a found transaction that
      // follows in the source is never reached.
      assert false;
    }

    /** SAVE. */
    method Save(o: Outside) returns (status: Status, transaction: Option<nat>, written: bool)
      requires Valid()
      modifies this
      ensures Valid() && Saved(reading, o, old(Now()), status, transaction, written, Now())
    {
      hide WellBuilt, Recorded, Changed, RecordOk, ProjectOk, Active, ProofOk, Passed, Holds, Brought, Later,
        SameMeaning, Saved, Quiet, Wrote;
      transaction, written := None, false;
      ghost var start := Now();
      PassedSelf(o, start.Here());
      NothingBrought(o, start, start);
      QuietFaults(reading, world, o, 6);
      if lifecycle != Ready || !project.value.hasPath {
        NotWritten(reading, o, start, InvalidState, None, start);
        return InvalidState, None, false;
      }
      if project.value.Persisted().Some? {
        var decided := FastGate(o);
        BroughtByOthers(reading, initial, o, start.Here(), Here());
        PersistedHoldsActive(reading, world, project.value);
        if decided == Some(Ok) {
          NotWritten(reading, o, start, Ok, project.value.Persisted(), Now());
          return Ok, project.value.Persisted(), false;
        }
        if decided.Some? {
          NotWritten(reading, o, start, decided.value, None, Now());
          return decided.value, None, false;
        }
      }
      ghost var middle := Here();
      var proof;
      status, proof := ProveConfiguration(o);
      ghost var proved := Here();
      PassedTwice(o, start.Here(), middle, proved);
      if status != Ok {
        BroughtByOthers(reading, initial, o, start.Here(), proved);
        NotWritten(reading, o, start, status, None, Now());
        return;
      }
      Interfere(o, 7);
      PassedTwice(o, start.Here(), proved, Here());
      PassedHistory(o, proved, Here());
      ProofLater(reading, proved.world.history, world.history, project.value.fingerprint, proof);
      BroughtByOthers(reading, initial, o, start.Here(), Here());
      if project.value.Persisted().Some? {
        PersistedHoldsActive(reading, world, project.value);
        status, transaction := SecondGate(o);
        NotWritten(reading, o, start, status, transaction, Now());
        return;
      }
      ghost var ready := Now();
      status, transaction, written := Write(o, proof);
      if written {
        Written(reading, o, start, ready, transaction, Now());
      } else {
        NotWritten(reading, o, start, status, transaction, Now());
      }
    }

    /** CURRENT again, once the configuration is proved: it must still be the persisted one. */
    method SecondGate(o: Outside) returns (status: Status, transaction: Option<nat>)
      requires Valid() && project.Some? && project.value.Persisted().Some?
      ensures status == Ok ==> transaction == project.value.Persisted()
      ensures
        o.faults(6) == Ok ==>
          && (status == Ok <==> world.current == project.value.Persisted())
          && (world.current.Some? && world.current != project.value.Persisted() ==> status == RebuildRequired)
          && (world.current.None? ==> status == NotFound)
    {
      hide WellBuilt, Recorded, RecordOk, SameMeaning;
      PersistedHoldsActive(reading, world, project.value);
      if o.faults(6) != Ok { return o.faults(6), None; }
      if world.current.None? { return NotFound, None; }
      var probe := world.current.value;
      if world.records[probe].fingerprint != project.value.fingerprint || Some(probe) != project.value.Persisted() {
        return RebuildRequired, None;
      }
      return Ok, Some(probe);
    }

    // ----- LOAD -----

    method Abandon()
      requires Valid() && lifecycle == Constructing
      modifies `lifecycle
      ensures Valid() && lifecycle == Unloaded
    {
      lifecycle := Unloaded;
    }

    method ActivateBaseline(transaction: nat, o: Outside) returns (status: Status)
      requires Valid() && lifecycle == Constructing && transaction in world.records
      modifies `lifecycle, `project
      ensures Valid() && lifecycle == (if status == Ok then Ready else Unloaded)
      ensures o.faults(30) == Ok ==> status == Ok
      ensures status == Ok ==>
        project == Some(Project(world.records[transaction].fingerprint, None, None, Some(transaction), None, None, true))
    {
      hide WellBuilt, Recorded;
      if o.faults(30) != Ok {
        Abandon();
        return o.faults(30);
      }
      project := Some(Project(world.records[transaction].fingerprint, None, None, Some(transaction), None, None, true));
      lifecycle := Ready;
      status := Ok;
    }

    /** Whether the file is still the one the transaction was written beside. */
    method ProveSnapshot(transaction: nat, o: Outside) returns (status: Status, fast: bool, ghost at: nat)
      requires Valid() && lifecycle == Constructing && transaction in world.records
      modifies `world, `events
      ensures Valid() && Passed(o, old(Here()), Here())
      ensures
        status == Ok && fast ==>
          MeantDuring(reading, old(world), world, at, old(world).records[transaction].fingerprint)
      ensures
        Quiet(reading, old(world), o) ==>
          && world == old(world) && status == Ok
          && (fast ==> StillMeans(reading, world, world.records[transaction].fingerprint))
    {
      hide WellBuilt, Recorded, Changed, Quiet, Passed, Active;
      at, fast := 0, false;
      ghost var start := Here();
      PassedSelf(o, start);
      QuietFaults(reading, world, o, 1);
      var record := world.records[transaction];
      assert RecordOk(reading, world.history, record);
      var configuration := record.configuration;
      if configuration.None? || configuration.value.token.None? { return Ok, false, at; }
      if o.faults(1) != Ok { return ArtifactCorrupt, false, at; }
      Interfere(o, 1);
      PassedHistory(o, start, Here());
      at := world.Revision();
      if o.faults(2) == Ok {
        fast := Unchanged(configuration.value.token.value);
      } else if o.faults(2) != NotFound {
        return o.faults(2), false, at;
      }
      status := Ok;
    }

    /** The fingerprint of the configuration file as it is read now. */
    method ReadFingerprint(o: Outside) returns (status: Status, fingerprint: nat, ghost at: nat)
      requires Valid()
      modifies `world, `events
      ensures Valid() && Passed(o, old(Here()), Here())
      ensures status == Ok ==> MeantDuring(reading, old(world), world, at, fingerprint)
      ensures
        Quiet(reading, old(world), o) ==>
          && world == old(world) && status == ReadStatus(reading, world, IoFailed)
          && (status == Ok ==> reading.means(world.Text()) == Some(fingerprint))
    {
      hide WellBuilt, Recorded, Changed, Quiet, Passed, Active, RecordOk;
      at, fingerprint := 0, 0;
      ghost var start := Here();
      QuietFaults(reading, world, o, 3);
      Interfere(o, 2);
      PassedHistory(o, start, Here());
      if o.faults(3) != Ok { return o.faults(3), fingerprint, at; }
      if !world.present { return IoFailed, fingerprint, at; }
      at := world.Revision();
      var meaning := reading.means(world.Text());
      if meaning.None? { return reading.refuses(world.Text()), fingerprint, at; }
      fingerprint := meaning.value;
      ghost var seen := Here();
      Interfere(o, 3);
      PassedTwice(o, start, seen, Here());
      PassedHistory(o, seen, Here());
      KeptText(seen.world.history, world.history, at);
      status := Ok;
    }

    /** The transaction whose fingerprint is that of the configuration file read now: the one
        already found, or CURRENT. */
    method MatchConfiguration(found: Option<nat>, o: Outside) returns (status: Status, snapshot: nat, ghost at: nat)
      requires Valid() && (found.Some? ==> found.value in world.records)
      modifies `world, `events
      ensures Valid() && Passed(o, old(Here()), Here())
      ensures
        status == Ok ==>
          && snapshot in world.records && MeantDuring(reading, old(world), world, at, world.records[snapshot].fingerprint)
          && (found.Some? ==> snapshot == found.value)
      ensures
        Quiet(reading, old(world), o) ==>
          && world == old(world)
          && status ==
             (if ReadStatus(reading, world, IoFailed) != Ok then ReadStatus(reading, world, IoFailed)
              else if found.None? && world.current.None? then NotFound
              else
                var t := if found.Some? then found.value else world.current.value;
                MatchStatus(reading, world, IoFailed, world.records[t].fingerprint))
          && (status == Ok && found.None? ==> world.current == Some(snapshot))
    {
      hide WellBuilt, Recorded, Changed, Quiet, Passed, Active, RecordOk, MeantDuring;
      snapshot := 0;
      ghost var start := Here();
      var fingerprint;
      QuietFaults(reading, world, o, 4);
      status, fingerprint, at := ReadFingerprint(o);
      PassedHistory(o, start, Here());
      if status != Ok { return; }
      if found.Some? {
        snapshot := found.value;
      } else {
        if o.faults(4) != Ok { return o.faults(4), snapshot, at; }
        if world.current.None? { return NotFound, snapshot, at; }
        snapshot := world.current.value;
      }
      if fingerprint != world.records[snapshot].fingerprint { status := RebuildRequired; }
    }

    /** The transaction to load: CURRENT, beside a configuration file that still means its
        fingerprint. */
    method FindSnapshot(o: Outside) returns (status: Status, snapshot: nat, ghost at: nat)
      requires Valid() && lifecycle == Constructing
      modifies `world, `events
      ensures Valid() && Passed(o, old(Here()), Here())
      ensures
        status == Ok ==>
          && snapshot in world.records && MeantDuring(reading, old(world), world, at, world.records[snapshot].fingerprint)
      ensures
        Quiet(reading, old(world), o) ==>
          && world == old(world)
          && status == LoadStatus(reading, world) && (status == Ok ==> world.current == Some(snapshot))
    {
      hide WellBuilt, Recorded, Changed, RecordOk, ProjectOk, Active, Passed, Quiet, MeantDuring, Later, StillMeans;
      at, snapshot := 0, 0;
      ghost var start := Here();
      QuietFaults(reading, world, o, 0);
      Interfere(o, 0);
      PassedHistory(o, start, Here());
      var found := if o.faults(0) == Ok then world.current else None;
      if found.Some? {
        snapshot := found.value;
        ghost var first := Here();
        var fast;
        status, fast, at := ProveSnapshot(snapshot, o);
        PassedTwice(o, start, first, Here());
        PassedHistory(o, first, Here());
        if status != Ok { return; }
        if fast {
          MatchMeans(reading, world, IoFailed, world.records[snapshot].fingerprint);
          MeantLonger(reading, start.world, first.world, world, world, at, world.records[snapshot].fingerprint);
          return;
        }
      }
      ghost var second := Here();
      PassedHistory(o, start, second);
      status, snapshot, at := MatchConfiguration(found, o);
      PassedTwice(o, start, second, Here());
      if status == Ok {
        MeantLonger(reading, start.world, second.world, world, world, at, world.records[snapshot].fingerprint);
      }
    }

    /** LOAD: the current transaction, if the configuration file still means its fingerprint. */
    method Load(o: Outside) returns (status: Status)
      requires Valid()
      modifies this
      ensures Valid() && AfterLoad(reading, o, old(Now()), status, Now())
    {
      hide WellBuilt, Recorded, Changed, RecordOk, ProjectOk, Active, Passed, Quiet, MeantDuring, Later, StillMeans;
      PassedSelf(o, Here());
      if lifecycle != Unloaded { return InvalidState; }
      lifecycle := Constructing;
      QuietFaults(reading, world, o, 30);
      var snapshot;
      ghost var at;
      status, snapshot, at := FindSnapshot(o);
      LoadStatusMeans(reading, old(world));
      if status != Ok {
        Abandon();
        return;
      }
      status := ActivateBaseline(snapshot, o);
    }

    // ----- Reading sources -----

    /** One more file, which nobody has read yet: appended if it is there. */
    method ReadNew(sources: seq<Source>, path: nat, o: Outside, ghost start: Past, n: nat)
      returns (status: Status, all: seq<Source>)
      requires Valid() && Passed(o, start, Here()) && ReadFrom(start.world.files, world.files, sources, n)
      requires path !in PathsOf(sources) && DistinctFrom(sources, n)
      modifies `world, `events
      ensures Valid() && Passed(o, start, Here()) && old(world).history <= world.history
      ensures FilesLater(old(world).files, world.files) && KeptRecords(old(world), world)
      ensures ReadFrom(start.world.files, world.files, all, n) && DistinctFrom(all, n)
      ensures
        if status == Ok then
          && |sources| < MAX_U32 && |all| == |sources| + 1 && all[..|sources|] == sources && all[|sources|].path == path
        else all == sources && Refused(o, world.files, sources, path, status)
    {
      hide Recorded, Changed, RecordOk, ProjectOk, Active, Passed, ReadDuring, DistinctFrom;
      all := sources;
      FilesLaterSelf(world.files);
      if |sources| >= MAX_U32 { return NotAvailable, all; }
      ghost var here := Here();
      Act(o.read(|sources|).before, o);
      PassedTwice(o, start, here, Here());
      PassedFiles(o, start, here);
      PassedFiles(o, here, Here());
      PassedFiles(o, start, Here());
      PassedHistory(o, here, Here());
      FilesLaterSelf(start.world.files);
      ReadFromLonger(start.world.files, here.world.files, world.files, sources, n);
      if o.read(|sources|).fault != Ok { return o.read(|sources|).fault, all; }
      var file := FileOf(world.files, path);
      if file.Missing? { return NotFound, all; }
      all := sources + [Source(path, file)];
      status := Ok;
      DistinctNext(sources, Source(path, file), n);
      ReadNow(start.world.files, world.files, path);
    }

    /** What one source includes: every file of it not known yet is read. */
    method ReadImports(sources: seq<Source>, imports: seq<nat>, o: Outside, ghost start: Past, n: nat)
      returns (status: Status, all: seq<Source>, ghost culprit: nat)
      requires Valid() && Passed(o, start, Here()) && ReadFrom(start.world.files, world.files, sources, n)
      requires DistinctFrom(sources, n)
      modifies `world, `events
      ensures Valid() && Passed(o, start, Here()) && old(world).history <= world.history
      ensures FilesLater(old(world).files, world.files) && KeptRecords(old(world), world)
      ensures |sources| <= |all| && all[..|sources|] == sources && (|all| <= MAX_U32 || |all| == |sources|)
      ensures ReadFrom(start.world.files, world.files, all, n) && DistinctFrom(all, n)
      ensures forall i :: |sources| <= i < |all| ==> all[i].path in imports
      ensures
        if status == Ok then forall p :: p in imports ==> p in PathsOf(all)
        else culprit in imports && Refused(o, world.files, all, culprit, status)
    {
      hide Recorded, Changed, RecordOk, ProjectOk, Active, Passed, ReadDuring, ReadFrom, FilesLater, Refused,
        DistinctFrom;
      all, culprit := sources, 0;
      status := Ok;
      FilesLaterSelf(world.files);
      for k := 0 to |imports|
        invariant Valid() && Passed(o, start, Here()) && old(world).history <= world.history
        invariant FilesLater(old(world).files, world.files) && KeptRecords(old(world), world)
        invariant |sources| <= |all| && all[..|sources|] == sources && (|all| <= MAX_U32 || |all| == |sources|)
        invariant ReadFrom(start.world.files, world.files, all, n) && DistinctFrom(all, n)
        invariant forall i :: |sources| <= i < |all| ==> all[i].path in imports
        invariant forall j :: 0 <= j < k ==> imports[j] in PathsOf(all)
      {
        if imports[k] !in PathsOf(all) {
          ghost var known, files := all, world.files;
          culprit := imports[k];
          status, all := ReadNew(all, imports[k], o, start, n);
          FilesLaterTwice(old(world).files, files, world.files);
          if status != Ok { return; }
          assert PathsOf(all)[..|known|] == PathsOf(known);
          assert PathsOf(all)[|known|] == imports[k];
          assert forall i :: 0 <= i < |known| ==> all[i] == all[..|known|][i];
        }
      }
      status := Ok;
    }

    /** Source `i` with everything it includes. One whose includes are recorded anew must not include
        itself. */
    method FollowOne(
        sources: seq<Source>, i: nat, anew: bool, o: Outside, ghost start: Past, n: nat, ghost roots: seq<nat>)
      returns (status: Status, all: seq<Source>, ghost culprit: nat)
      requires Valid() && Passed(o, start, Here()) && ReadFrom(start.world.files, world.files, sources, n)
      requires n <= |sources| && i < |sources| && Derived(reading, roots, sources, n) && DistinctFrom(sources, n)
      requires Followable(reading, sources, n, roots, i)
      modifies `world, `events
      ensures Valid() && Passed(o, start, Here()) && old(world).history <= world.history
      ensures FilesLater(old(world).files, world.files) && KeptRecords(old(world), world)
      ensures |sources| <= |all| && all[..|sources|] == sources && (|all| <= MAX_U32 || |all| == |sources|)
      ensures ReadFrom(start.world.files, world.files, all, n) && Derived(reading, roots, all, n) && DistinctFrom(all, n)
      ensures
        if status == Ok then
          && ImportsKnown(reading, all, i) && (anew ==> !Includes(reading, sources[i], sources[i].path))
          && forall j :: 0 <= j < |sources| && ImportsKnown(reading, sources, j) ==> ImportsKnown(reading, all, j)
        else Stopped(reading, o, world.files, roots, all, n, culprit, status)
    {
      hide Recorded, Changed, RecordOk, ProjectOk, Active, Passed, ReadDuring, ReadFrom, ImportsKnown, FilesLater,
        Refused, Derived, Derivable, DistinctFrom;
      all, status, culprit := sources, Ok, 0;
      FilesLaterSelf(world.files);
      var source := sources[i];
      if source.file.Present? {
        var imports := reading.imports(source.path, source.file.hash);
        status, all, culprit := ReadImports(sources, imports, o, start, n);
        DerivedMore(reading, roots, sources, all, n, i);
        assert all[i] == all[..|sources|][i];
        if status != Ok {
          RefusedStops(reading, o, world.files, roots, sources, all, n, i, culprit, status);
          return;
        }
        if anew && source.path in imports {
          culprit := source.path;
          return InvalidArgument, all, culprit;
        }
      }
      ImportsStay(reading, sources, all);
      assert all[i] == all[..|sources|][i];
      ImportsNow(reading, all, i);
    }

    /** Follows the includes of the sources in `pending` and of everything that is read on the way.
        The includes of the `changed` ones and of new sources are recorded anew. */
    method Explore(first: seq<Source>, pending: seq<nat>, changed: seq<nat>, o: Outside, ghost start: Past, n: nat,
                   ghost roots: seq<nat>)
      returns (status: Status, all: seq<Source>, ghost culprit: nat)
      requires Valid() && Passed(o, start, Here()) && ReadFrom(start.world.files, world.files, first, n)
      requires n <= |first| && Derived(reading, roots, first, n) && DistinctFrom(first, n) && Within(pending, |first|)
      requires forall k :: 0 <= k < |pending| ==> Followable(reading, first, n, roots, pending[k])
      modifies `world, `events
      ensures Valid() && Passed(o, start, Here()) && old(world).history <= world.history
      ensures FilesLater(old(world).files, world.files) && KeptRecords(old(world), world)
      ensures |first| <= |all| && all[..|first|] == first && (|all| <= MAX_U32 || |all| == |first|)
      ensures ReadFrom(start.world.files, world.files, all, n) && Derived(reading, roots, all, n) && DistinctFrom(all, n)
      ensures
        if status == Ok then
          && (forall k :: 0 <= k < |pending| ==>
                ImportsKnown(reading, all, pending[k])
                && (pending[k] in changed ==> !Includes(reading, all[pending[k]], all[pending[k]].path)))
          && forall i :: |first| <= i < |all| ==>
               ImportsKnown(reading, all, i) && !Includes(reading, all[i], all[i].path)
        else Stopped(reading, o, world.files, roots, all, n, culprit, status)
    {
      hide Recorded, Changed, RecordOk, ProjectOk, Active, Passed, ReadDuring, ReadFrom, ImportsKnown, FilesLater,
        Stopped, Derived, Derivable, DistinctFrom;
      all, status, culprit := first, Ok, 0;
      FilesLaterSelf(world.files);
      var queue := pending;
      var cursor := 0;
      while cursor < |queue|
        invariant Valid() && Passed(o, start, Here()) && ReadFrom(start.world.files, world.files, all, n)
        invariant old(world).history <= world.history
        invariant FilesLater(old(world).files, world.files) && KeptRecords(old(world), world)
        invariant 0 <= cursor <= |queue| && |queue| - |pending| == |all| - |first|
        invariant |first| <= |all| && all[..|first|] == first && (|all| <= MAX_U32 || |all| == |first|)
        invariant Derived(reading, roots, all, n) && DistinctFrom(all, n)
        invariant Queued(queue, pending, |first|, |all|)
        invariant forall k :: 0 <= k < cursor ==>
          ImportsKnown(reading, all, queue[k])
          && (queue[k] >= n || queue[k] in changed ==> !Includes(reading, all[queue[k]], all[queue[k]].path))
        decreases |pending| + (if |first| <= MAX_U32 then MAX_U32 - |first| else 0) - cursor
      {
        var known := all;
        FollowableNext(reading, first, all, n, roots, pending, queue, cursor);
        ghost var files := world.files;
        var anew := queue[cursor] >= n || queue[cursor] in changed;
        status, all, culprit := FollowOne(all, queue[cursor], anew, o, start, n, roots);
        FilesLaterTwice(old(world).files, files, world.files);
        assert all[..|first|] == all[..|known|][..|first|];
        if status != Ok { return; }
        queue := Enqueued(queue, pending, |first|, |known|, |all|);
        cursor := cursor + 1;
      }
      status := Ok;
      forall i | |first| <= i < |all|
        ensures ImportsKnown(reading, all, i) && !Includes(reading, all[i], all[i].path)
      {
        assert queue[|pending| + (i - |first|)] == i;
      }
      forall k | 0 <= k < |pending|
        ensures ImportsKnown(reading, all, pending[k])
        ensures pending[k] in changed ==> !Includes(reading, all[pending[k]], all[pending[k]].path)
      {
        assert queue[k] == pending[k];
      }
    }

    /** The checks after everything has been read: the include graph and, in its order, the parsing. */
    method CheckFull(all: seq<Source>) returns (status: Status)
      requires DistinctFrom(all, 0) && forall i :: 0 <= i < |all| ==> ImportsKnown(reading, all, i)
      requires forall i :: 0 <= i < |all| ==> all[i].file.Present?
      ensures status == CheckStatus(reading, all) && (status == Ok <==> WellBuilt(reading, all))
      ensures status in {Ok, SemanticConflict}
    {
      hide DistinctFrom, ImportsKnown, WellBuilt, EdgesOf, Acyclic;
      var g, present := GraphOf(reading, all), Presence(all);
      AllPresent(reading, all);
      WellBuiltMeans(reading, all);
      TouchedFits([], 0, |all|);
      status := ValidateSourceGraph(g);
      if status == Ok { status := ParseAffected(g, present, Touched([], 0, |all|)); }
    }

    /** The checks after an update, from what has changed and what that affects. */
    method CheckUpdate(ghost sources: seq<Source>, all: seq<Source>, changed: seq<nat>, affected: seq<nat>, n: nat)
      returns (status: Status)
      requires n == |sources| && WellBuilt(reading, sources) && Updates(reading, sources, all, changed)
      requires Within(affected, n) && Distinct(affected)
      requires forall u: nat :: u in affected <==> Affected(GraphOf(reading, sources), changed, u)
      ensures status == CheckStatus(reading, all) && (status == Ok <==> WellBuilt(reading, all))
    {
      hide WellBuilt, EdgesOf, Updates, Affected, Complete, Acyclic;
      UpdateFits(reading, sources, all, changed);
      UpdateBuiltExactly(reading, sources, all, changed);
      var g, touched, whole := GraphOf(reading, all), Touched(changed, n, |all|), Touched(affected, n, |all|);
      TouchedFits(changed, n, |all|);
      TouchedFits(affected, n, |all|);
      AffectedFits(GraphOf(reading, sources), changed, affected, n, |all|);
      ChecksDecide(reading, sources, all, changed, whole);
      status := ValidateChangedSourceGraph(g, touched);
      if status != Ok {
        NotAcyclic(g, touched);
      } else {
        UpdateIsAcyclic(reading, sources, all, changed);
        status := ParseAffected(g, Presence(all), whole);
      }
    }

    lemma {:induction false} NotAcyclic(g: Graph, touched: seq<nat>)
      requires !forall c :: c in touched ==> !Leads(g, c, c)
      ensures !Acyclic(g)
    {
      hide Leads;
    }

    // ----- REBUILD and UNLOAD -----

    /** A full build under a configuration already read: a finalized generation, not yet saved. */
    method Construct(fingerprint: nat, proof: Option<Proof>, hasPath: bool, o: Outside, ghost start: Past)
      returns (status: Status)
      requires Valid() && lifecycle == Constructing && Passed(o, start, Here())
      requires Recorded(reading, initial, start.world, start.events, start.log)
      requires proof.Some? ==> ProofOk(reading, world.history, fingerprint, proof.value)
      modifies this
      ensures Valid() && Passed(o, start, Here()) && lifecycle == (if status == Ok then Ready else Unloaded)
      ensures old(world).history <= world.history
      ensures
        status == Ok ==>
          && BuiltInFull(reading, start.world.files, Now())
          && project.value.fingerprint == fingerprint && project.value.hasPath == hasPath
      ensures
        Quiet(reading, start.world, o) ==>
          && world == start.world && (status == Ok <==> BuildableUnder(reading, world.files, fingerprint))
          && ToldUnder(reading, world.files, fingerprint, status)
    {
      hide Recorded, Changed, RecordOk, Active, Passed, ReadDuring, ReadFrom, ProofOk, FilesLater, Quiet,
        BuildableUnder, ToldUnder, WellBuilt, RootsOk;
      ghost var here := Here();
      var sources;
      status, sources := Generate(fingerprint, o, start);
      ghost var before := Here();
      Interfere(o, 21);
      PassedTwice(o, start, before, Here());
      PassedHistory(o, before, Here());
      QuietStays(o, start);
      QuietFaults(reading, start.world, o, 20);
      if status == Ok { status := o.faults(20); }
      if status != Ok {
        Abandon();
        return;
      }
      if proof.Some? { ProofLater(reading, here.world.history, world.history, fingerprint, proof.value); }
      PassedFiles(o, before, Here());
      FilesLaterSelf(start.world.files);
      ReadFromLonger(start.world.files, before.world.files, world.files, sources, 0);
      project := Some(Project(fingerprint, None, Some(Content(fingerprint, sources)), None, None, proof, hasPath));
      lifecycle := Ready;
    }

    /** The items of a configuration as roots: there must be one, and none that is a project. */
    static method CollectRoots(items: seq<Item>) returns (status: Status, roots: seq<nat>)
      ensures
        status ==
        if exists k :: 0 <= k < |items| && items[k].project then NotAvailable
        else if items == [] then InvalidArgument else Ok
      ensures status == Ok ==> RootsOk(items) && roots == RootsOf(items)
    {
      roots := [];
      for k := 0 to |items|
        invariant |roots| == k && forall j :: 0 <= j < k ==> !items[j].project && roots[j] == items[j].path
      {
        if items[k].project { return NotAvailable, roots; }
        roots := roots + [items[k].path];
      }
      status := if roots == [] then InvalidArgument else Ok;
    }

    /** The sources of a full build: the roots and everything they include, checked as a whole. */
    method Generate(fingerprint: nat, o: Outside, ghost start: Past) returns (status: Status, sources: seq<Source>)
      requires Valid() && Passed(o, start, Here())
      requires Recorded(reading, initial, start.world, start.events, start.log)
      modifies `world, `events
      ensures Valid() && Passed(o, start, Here()) && old(world).history <= world.history
      ensures
        status == Ok ==>
          && ReadFrom(start.world.files, world.files, sources, 0) && WellBuilt(reading, sources)
          && RootsOk(reading.items(fingerprint))
          && forall p :: p in RootsOf(reading.items(fingerprint)) ==> p in PathsOf(sources)
      ensures
        Quiet(reading, start.world, o) ==>
          && world == start.world && (status == Ok <==> BuildableUnder(reading, world.files, fingerprint))
          && ToldUnder(reading, world.files, fingerprint, status)
    {
      hide Recorded, Changed, RecordOk, ProjectOk, Active, Passed, ReadDuring, ReadFrom, ImportsKnown, Derived,
        FilesLater, Quiet, Buildable, WellBuilt, DistinctFrom, StoppedInFull, StoppedFirst, Told, ToldWhy,
        ToldInFull, Includes;
      sources := [];
      var roots;
      QuietStays(o, start);
      status, roots := CollectRoots(reading.items(fingerprint));
      if status != Ok { return; }
      ghost var known, culprit;
      status, sources, known, culprit := Discover(roots, o, start);
      QuietStays(o, start);
      if status != Ok {
        if Quiet(reading, start.world, o) {
          StoppedInFullTells(reading, o, world, roots, sources, known, culprit, status);
          StoppedInFullIsTold(reading, world.files, roots, culprit, status);
          StoppedIsTold(reading, world.files, roots, [], status);
          ToldDecides(reading, world.files, roots, [], status);
        }
        return;
      }
      AllRead(start.world.files, world.files, sources);
      status := CheckFull(sources);
      if Quiet(reading, start.world, o) { GeneratedExactly(reading, o, world, roots, sources, status); }
    }

    /** Reads one wave: every file that has a number already. */
    method ReadWave(sources: seq<Source>, known: seq<nat>, o: Outside, ghost start: Past, ghost roots: seq<nat>)
      returns (status: Status, all: seq<Source>, ghost culprit: nat)
      requires Valid() && Passed(o, start, Here()) && ReadFrom(start.world.files, world.files, sources, 0)
      requires Numbered(reading, roots, sources, known) && |known| <= MAX_U32
      modifies `world, `events
      ensures Valid() && Passed(o, start, Here()) && old(world).history <= world.history
      ensures ReadFrom(start.world.files, world.files, all, 0) && Numbered(reading, roots, all, known)
      ensures |sources| <= |all| && all[..|sources|] == sources
      ensures
        if status == Ok then PathsOf(all) == known
        else Lost(o, world.files, all, known, culprit, status)
    {
      hide Recorded, Changed, RecordOk, ProjectOk, Active, Passed, ReadDuring, ReadFrom, Numbered, FilesLater,
        DistinctFrom;
      all, status, culprit := sources, Ok, 0;
      while |all| < |known|
        invariant Valid() && Passed(o, start, Here()) && old(world).history <= world.history
        invariant status == Ok
        invariant ReadFrom(start.world.files, world.files, all, 0) && Numbered(reading, roots, all, known)
        invariant |sources| <= |all| && all[..|sources|] == sources
        decreases |known| - |all|
      {
        ghost var before := all;
        NextNumber(reading, roots, all, known);
        culprit := known[|all|];
        status, all := ReadNew(all, known[|all|], o, start, 0);
        if status != Ok { return; }
        NumberedRead(reading, roots, before, known, all);
        assert all[..|sources|] == all[..|before|][..|sources|];
      }
      AllNumbered(reading, roots, all, known);
    }

    /** Reads the roots and everything they include, wave after wave. */
    method Discover(roots: seq<nat>, o: Outside, ghost start: Past)
      returns (status: Status, sources: seq<Source>, ghost paths: seq<nat>, ghost culprit: nat)
      requires Valid() && Passed(o, start, Here())
      requires Recorded(reading, initial, start.world, start.events, start.log)
      modifies `world, `events
      ensures Valid() && Passed(o, start, Here()) && old(world).history <= world.history
      ensures ReadFrom(start.world.files, world.files, sources, 0) && |sources| <= MAX_U32
      ensures Derived(reading, roots, sources, 0) && DistinctFrom(sources, 0)
      ensures
        if status == Ok then
          && (forall p :: p in roots ==> p in PathsOf(sources))
          && forall i :: 0 <= i < |sources| ==>
               ImportsKnown(reading, sources, i) && !Includes(reading, sources[i], sources[i].path)
        else StoppedInFull(reading, o, world.files, roots, sources, paths, culprit, status)
      ensures
        Quiet(reading, start.world, o) && status != Ok ==>
          StoppedFirst(reading, world.files, roots, culprit, status)
    {
      hide Recorded, Changed, RecordOk, ProjectOk, Active, Passed, ReadDuring, ReadFrom, ImportsKnown, Derived,
        Derivable, FilesLater, Quiet, Numbered, Settled, Level, AtWave, Lost, Full, Selfing, AbsentAt, SelfishAt,
        DistinctFrom, Includes;
      NothingRead(start.world.files, world.files);
      sources, status, culprit := [], Ok, 0;
      var ok, known;
      ok, known, culprit := NumberPaths([], roots);
      NothingNumbered(reading, roots, known);
      NumberedMeans(reading, roots, sources, known);
      if !ok {
        RootIsFull(reading, roots, known, culprit);
        return NotAvailable, sources, known, culprit;
      }
      ghost var wave := 0;
      QuietStays(o, start);
      FirstWave(reading, world.files, roots, known);
      while |sources| < |known|
        invariant Valid() && Passed(o, start, Here()) && old(world).history <= world.history
        invariant status == Ok
        invariant ReadFrom(start.world.files, world.files, sources, 0) && Numbered(reading, roots, sources, known)
        invariant |sources| <= |known| <= MAX_U32 && forall p :: p in roots ==> p in known
        invariant forall i :: 0 <= i < |sources| ==> Settled(reading, sources[i], known)
        invariant Quiet(reading, start.world, o) ==> AtWave(reading, world.files, roots, sources, known, wave)
        decreases MAX_U32 - |sources|
      {
        var before := sources;
        QuietStays(o, start);
        status, sources, culprit := ReadWave(sources, known, o, start, roots);
        QuietStays(o, start);
        NumberedMeans(reading, roots, sources, known);
        if Quiet(reading, start.world, o) { ReadAtOnce(world.files, sources, 0); }
        if status != Ok {
          paths := known;
          if Quiet(reading, start.world, o) {
            LostInWave(reading, o, world, roots, before, sources, known, wave, culprit, status);
          }
          return;
        }
        ghost var read := known;
        assert forall i :: 0 <= i < |before| ==> sources[i] == sources[..|before|][i];
        status, known, culprit := NumberWave(reading, sources, |before|, known, roots);
        NumberedMeans(reading, roots, sources, known);
        if status != Ok {
          paths := known;
          if Quiet(reading, start.world, o) && status == InvalidArgument {
            AtLevel(reading, world.files, roots, before, read, wave);
            SelfingFirst(reading, world.files, roots, sources, read, wave, culprit);
          }
          return;
        }
        if Quiet(reading, start.world, o) {
          AtLevel(reading, world.files, roots, before, read, wave);
          NextWave(reading, world.files, roots, sources, read, known, wave);
        }
        wave := wave + 1;
      }
      paths := known;
      NumberedMeans(reading, roots, sources, known);
      AllNumbered(reading, roots, sources, known);
      forall i | 0 <= i < |sources|
        ensures ImportsKnown(reading, sources, i) && !Includes(reading, sources[i], sources[i].path)
      {
        SettledMeans(reading, sources, i);
      }
    }

    method Rebuild(o: Outside) returns (status: Status)
      requires Valid()
      modifies this
      ensures Valid() && AfterRebuild(reading, o, old(Now()), status, Now())
    {
      hide Recorded, Changed, RecordOk, ProjectOk, Active, Passed, BuiltInFull, ProofOk, Quiet, BuildableUnder, ToldUnder;
      ghost var start := Here();
      PassedSelf(o, start);
      if lifecycle != Unloaded { return InvalidState; }
      lifecycle := Constructing;
      var proof;
      ghost var at;
      status, proof, at := ReadConfiguration(o, 3);
      if status != Ok {
        Abandon();
        return;
      }
      ghost var read := world;
      status := Construct(reading.means(proof.text).value, Some(proof), true, o, start);
      MeantLonger(reading, start.world, start.world, read, world, at, reading.means(proof.text).value);
    }

    /** A rebuild under a configuration given by the program has no file to save beside. */
    method RebuildInMemory(fingerprint: nat, o: Outside) returns (status: Status)
      requires Valid()
      modifies this
      ensures Valid() && AfterRebuildInMemory(reading, o, fingerprint, old(Now()), status, Now())
    {
      hide Recorded, Changed, RecordOk, ProjectOk, Active, Passed, BuiltInFull, ProofOk, Quiet, BuildableUnder, ToldUnder;
      ghost var start := Here();
      PassedSelf(o, start);
      if lifecycle != Unloaded { return InvalidState; }
      lifecycle := Constructing;
      status := Construct(fingerprint, None, false, o, start);
    }

    method Unload() returns (status: Status)
      requires Valid()
      modifies this
      ensures Valid() && AfterUnload(old(Now()), status, Now())
    {
      hide WellBuilt, Recorded;
      if lifecycle != Ready { return InvalidState; }
      lifecycle, project := Unloaded, None;
      status := Ok;
    }

    // ----- BUILD: which sources to look at again -----

    /** The full scan: every source is read once, one after the other, and compared by content. */
    method ScanSources(sources: seq<Source>, o: Outside, ghost start: Past)
      returns (status: Status, dirty: seq<nat>, ghost found: seq<File>)
      requires Valid() && Passed(o, start, Here())
      modifies `world, `events
      ensures Valid() && Passed(o, start, Here()) && old(world).history <= world.history && KeptRecords(old(world), world)
      ensures status == Ok ==> |found| == |sources| && Scanned(start.world.files, world.files, sources, found, dirty)
      ensures Quiet(reading, old(world), o) ==> world == old(world) && status == Ok && dirty == Differing(world.files, sources)
    {
      hide Recorded, Changed, RecordOk, ProjectOk, Active, Passed, Scanned, Quiet, AsSeen, FilesLater;
      dirty, found, status := [], [], Ok;
      NothingScanned(start.world.files, world.files, sources);
      for i := 0 to |sources|
        invariant Valid() && Passed(o, start, Here()) && old(world).history <= world.history
        invariant KeptRecords(old(world), world)
        invariant |found| == i && Scanned(start.world.files, world.files, sources[..i], found, dirty)
        invariant Quiet(reading, old(world), o) ==> world == old(world) && dirty == Differing(world.files, sources[..i])
      {
        ghost var here := Here();
        QuietGlances(reading, world, o, i);
        Act(o.scan(i).before, o);
        PassedTwice(o, start, here, Here());
        PassedHistory(o, here, Here());
        PassedFiles(o, here, Here());
        PassedFiles(o, start, Here());
        if o.scan(i).fault != Ok { return o.scan(i).fault, dirty, found; }
        var now := FileOf(world.files, sources[i].path);
        ScannedLonger(start.world.files, here.world.files, world.files, sources[..i], found, dirty);
        ScannedNext(start.world.files, world.files, sources, found, dirty, i);
        assert sources[..i + 1][..i] == sources[..i];
        assert AsSeen(world.files, sources[i]) <==> SameFile(sources[i].file, now) by { AsSeenMeans(world.files, sources[i]); }
        found := found + [now];
        if !SameFile(sources[i].file, now) { dirty := dirty + [i]; }
      }
      assert sources[..|sources|] == sources;
    }

    /** What the journal says of the sources and of the configuration file, asked once. */
    method AskJournal(transaction: nat, fast: bool, d: Detector, o: Outside)
      returns (status: Status, answer: Answer, proven: bool)
      requires Valid() && transaction in world.records
      requires
        fast ==>
          && world.records[transaction].configuration.Some?
          && world.records[transaction].configuration.value.token.Some?
      ensures status == Ok && answer != CannotTell ==> answer == d.journal(world.records[transaction].content, world)
      ensures
        proven ==>
          fast &&
          var token := world.records[transaction].configuration.value.token.value;
          d.configuration(token, world).0 && !d.configuration(token, world).1
      ensures Quiet(reading, world, o) ==> status == Ok && answer == d.journal(world.records[transaction].content, world)
    {
      hide WellBuilt, Recorded, Quiet, RecordOk, ProjectOk;
      proven, answer := false, CannotTell;
      QuietFaults(reading, world, o, 7);
      QuietFaults(reading, world, o, 16);
      if fast {
        if o.faults(16) == Ok {
          var about := d.configuration(world.records[transaction].configuration.value.token.value, world);
          proven := about.0 && !about.1;
        } else if o.faults(16) != NotFound {
          return o.faults(16), answer, false;
        }
      }
      if o.faults(7) == Ok {
        answer := d.journal(world.records[transaction].content, world);
      } else if o.faults(7) != NotFound {
        return o.faults(7), answer, false;
      }
      if answer.CannotTell? { proven := false; }
      status := Ok;
    }

    /** The sources to look at again: what the journal names, or what a full scan finds when it
        cannot tell. `at` is the revision of the configuration file the journal vouched for, and
        `moment` the point in time at which it was asked. */
    method Detect(transaction: nat, fast: bool, d: Detector, o: Outside, ghost start: Past)
      returns (status: Status, dirty: seq<nat>, proven: bool, journalled: bool, ghost at: nat, ghost moment: nat)
      requires Valid() && transaction in world.records && Sound(d) && Passed(o, start, Here())
      requires
        fast ==>
          && world.records[transaction].configuration.Some?
          && world.records[transaction].configuration.value.token.Some?
      modifies `world, `events
      ensures Valid() && Passed(o, start, Here()) && old(world).history <= world.history && KeptRecords(old(world), world)
      ensures
        status == Ok ==>
          var sources := old(world).records[transaction].content.sources;
          && SeenUnless(start.world.files, world.files, sources, dirty)
          && (journalled ==>
                && moment == |old(events)| && old(events) <= events
                && NamesAll(Replay(reading, initial, events[..moment]).files, sources, dirty))
      ensures
        proven ==>
          && fast && at == old(world).Revision() && old(world).present
          && old(world).records[transaction].configuration.value.token.value == at
          && old(world).records[transaction].configuration.value.text == old(world).Text()
          && reading.means(old(world).Text()).Some?
      ensures
        Quiet(reading, old(world), o) ==>
          && world == old(world) && status == Ok
          && dirty == Suspects(d, world.records[transaction].content, world)
    {
      hide Recorded, Changed, RecordOk, ProjectOk, Active, Passed, NamesAll, Replay, FilesLater, SeenUnless, Differing,
        Scanned, Quiet;
      var content := world.records[transaction].content;
      at, moment, journalled, dirty := world.Revision(), |events|, false, [];
      QuietFaults(reading, world, o, 15);
      PassedSelf(o, Here());
      assert world == Replay(reading, initial, events) by { WorldIsReplay(); }
      assert events[..moment] == events;
      var answer;
      status, answer, proven := AskJournal(transaction, fast, d, o);
      if proven { ProvenMeans(reading, world, transaction); }
      if status != Ok { return; }
      PassedFiles(o, start, Here());
      if answer.NoEntries? {
        journalled := true;
        NamedAreSeen(start.world.files, world.files, content.sources, []);
        return;
      }
      if !answer.Entries? || answer.resolved.None? || fast {
        if o.faults(15) != Ok { return o.faults(15), dirty, proven, journalled, at, moment; }
      }
      if answer.Entries? && answer.resolved.Some? {
        dirty, journalled := answer.resolved.value, true;
        NamedAreSeen(start.world.files, world.files, content.sources, dirty);
        return;
      }
      ghost var found;
      status, dirty, found := ScanSources(content.sources, o, start);
      if status == Ok { ScannedAreSeen(start.world.files, world.files, content.sources, found, dirty); }
    }

    lemma {:induction false} ValidInOrder()
      requires Valid()
      ensures InOrder(reading, initial, Now())
    {
      hide WellBuilt, Recorded, SameMeaning;
      if project.Some? {
        ActiveIsWellBuilt(reading, world, project.value);
        if project.value.Persisted().Some? { PersistedHoldsActive(reading, world, project.value); }
      }
      forall t | t in world.records ensures WellBuilt(reading, world.records[t].content.sources) {
        assert RecordOk(reading, world.history, world.records[t]);
      }
    }

    lemma {:induction false} WorldIsReplay()
      requires Valid()
      ensures world == Replay(reading, initial, events)
    {
      hide Replay, WorldOk, ProjectOk, OwnEvents, Logged, CommitOk;
    }

    // ----- BUILD: the update -----

    /** The dirty sources are read again, but each only if its stamp differs from the one it was
        seen with. `changed` are those whose content then differs. */
    method Reacquire(sources: seq<Source>, dirty: seq<nat>, o: Outside, ghost start: Past)
      returns (status: Status, now: seq<Source>, changed: seq<nat>)
      requires Valid() && Passed(o, start, Here())
      modifies `world, `events
      ensures Valid() && Passed(o, start, Here()) && old(world).history <= world.history && KeptRecords(old(world), world)
      ensures FilesLater(old(world).files, world.files)
      ensures
        status == Ok ==>
          && |now| == |sources| && Reacquired(start.world.files, world.files, sources, now, dirty)
          && ChangedAre(sources, now, changed)
      ensures
        Quiet(reading, old(world), o) ==>
          && world == old(world)
          && status == RereadStatus(world.files, sources, dirty)
          && (status == Ok ==> RereadAll(world.files, sources, now, dirty))
    {
      hide Recorded, Changed, RecordOk, ProjectOk, Active, Passed, Quiet, FilesLater, Reacquired, ChangedAre,
        StillThere, RereadAll, Reread;
      now, changed, status := sources, [], Ok;
      FilesLaterSelf(world.files);
      NothingReacquired(start.world.files, world.files, sources, dirty);
      var k := 0;
      while k < |dirty|
        invariant 0 <= k <= |dirty| && forall j :: 0 <= j < k ==> dirty[j] < |sources|
      {
        if dirty[k] >= |sources| {
          NotThere(world.files, sources, dirty[k]);
          return InvalidArgument, now, changed;
        }
        k := k + 1;
      }
      k := 0;
      while k < |dirty|
        invariant 0 <= k <= |dirty|
        invariant Valid() && Passed(o, start, Here()) && old(world).history <= world.history
        invariant KeptRecords(old(world), world) && FilesLater(old(world).files, world.files)
        invariant |now| == |sources| && Reacquired(start.world.files, world.files, sources, now, dirty[..k])
        invariant ChangedAre(sources, now, changed)
        invariant
          Quiet(reading, old(world), o) ==>
            && world == old(world) && RereadAll(world.files, sources, now, dirty[..k])
            && forall j :: 0 <= j < k ==> StillThere(world.files, sources, dirty[j])
      {
        var i := dirty[k];
        assert dirty[..k + 1] == dirty[..k] + [i];
        if i in dirty[..k] {
          AgainReacquired(start.world.files, world.files, sources, now, dirty[..k], i);
          var j :| 0 <= j < k && dirty[j] == i;
        } else {
          ghost var here := Here();
          QuietGlances(reading, world, o, i);
          Act(o.read(i).before, o);
          PassedTwice(o, start, here, Here());
          PassedHistory(o, here, Here());
          PassedFiles(o, here, Here());
          PassedFiles(o, start, Here());
          FilesLaterTwice(old(world).files, here.world.files, world.files);
          ReacquiredLonger(start.world.files, here.world.files, world.files, sources, now, dirty[..k]);
          if o.read(i).fault != Ok { return o.read(i).fault, now, changed; }
          var file := FileOf(world.files, sources[i].path);
          if sources[i].file.Missing? && file.Missing? {
            NotThere(world.files, sources, i);
            return NotFound, now, changed;
          }
          IsThere(world.files, sources, i);
          ReacquiredNext(start.world.files, world.files, sources, now, dirty[..k], changed, i);
          var taken := Reread(sources[i].file, file);
          now := now[i := Source(sources[i].path, taken)];
          if !SameFile(sources[i].file, taken) { changed := changed + [i]; }
        }
        k := k + 1;
      }
      assert dirty[..|dirty|] == dirty;
    }

    /** The sources after an update: the dirty ones read again and, if any of them differs, what the
        changed ones include, with everything they affect checked. */
    method ReadDirty(sources: seq<Source>, dirty: seq<nat>, o: Outside, ghost start: Past)
      returns (status: Status, all: seq<Source>, parsed: bool)
      requires Valid() && Passed(o, start, Here()) && SeenUnless(start.world.files, world.files, sources, dirty)
      requires Recorded(reading, initial, start.world, start.events, start.log) && WellBuilt(reading, sources)
      modifies `world, `events
      ensures Valid() && Passed(o, start, Here()) && old(world).history <= world.history
      ensures FilesLater(old(world).files, world.files) && KeptRecords(old(world), world)
      ensures
        status == Ok ==>
          && AllRenewed(start.world.files, world.files, sources, all)
          && ReadFrom(start.world.files, world.files, all, |sources|)
          && WellBuilt(reading, all) && (parsed <==> !SameSources(sources, all))
      ensures
        Quiet(reading, start.world, o) ==>
          && world == start.world && (status == Ok <==> Updatable(reading, world.files, sources, dirty))
          && ToldOfUpdate(reading, world.files, sources, dirty, status)
          && (status == Ok ==> (parsed <==> !SameSources(sources, RereadOf(world.files, sources, dirty))))
    {
      hide Recorded, Changed, RecordOk, ProjectOk, Active, Passed, Quiet, FilesLater, Reacquired, ChangedAre,
        StillThere, RereadAll, SeenUnless, AllRenewed, ReadFrom, SameSources, RereadOf, Buildable, WellBuilt;
      ghost var here := Here();
      QuietStays(o, start);
      var changed;
      status, all, changed := Reacquire(sources, dirty, o, start);
      RereadStatusMeans(world.files, sources, dirty);
      parsed := false;
      if status != Ok { return; }
      var now := all;
      ghost var middle := Here();
      SeenUnlessLonger(start.world.files, here.world.files, world.files, sources, dirty);
      ReacquiredRenews(start.world.files, world.files, sources, now, dirty);
      if Quiet(reading, start.world, o) { RereadIs(world.files, sources, now, dirty); }
      NothingReadBehind(start.world.files, world.files, now);
      parsed := changed != [];
      ChangedMeansParsed(sources, now, now, changed);
      if parsed {
        status, all := ReadIncluded(sources, now, changed, o, start);
        FilesLaterTwice(here.world.files, middle.world.files, world.files);
        if status == Ok {
          ChangedMeansParsed(sources, now, all, changed);
          RenewedAfter(start.world.files, middle.world.files, world.files, sources, now, all);
        }
      } else {
        NothingChanged(reading, sources, now);
      }
    }

    /** What the changed sources include is read, and what they affect is checked. */
    method ReadIncluded(sources: seq<Source>, now: seq<Source>, changed: seq<nat>, o: Outside, ghost start: Past)
      returns (status: Status, all: seq<Source>)
      requires Valid() && Passed(o, start, Here()) && |now| == |sources| && ChangedAre(sources, now, changed)
      requires WellBuilt(reading, sources) && forall i :: 0 <= i < |sources| ==> now[i].path == sources[i].path
      requires Recorded(reading, initial, start.world, start.events, start.log)
      modifies `world, `events
      ensures Valid() && Passed(o, start, Here()) && old(world).history <= world.history
      ensures FilesLater(old(world).files, world.files) && KeptRecords(old(world), world)
      ensures
        status == Ok ==>
          && |now| <= |all| && all[..|now|] == now && ReadFrom(start.world.files, world.files, all, |now|)
          && WellBuilt(reading, all)
      ensures
        Quiet(reading, start.world, o) ==>
          && world == start.world
          && (status == Ok <==> Buildable(reading, world.files, ImportedBy(reading, sources, now), now))
          && Told(reading, world.files, ImportedBy(reading, sources, now), now, status)
    {
      hide Recorded, Changed, RecordOk, ProjectOk, Active, Passed, Quiet, FilesLater, ReadFrom, ImportsKnown, Derived,
        Derivable, Stopped, ChangedAre, ImportedBy, Includes, Buildable, WellBuilt, DistinctFrom, Updates, Affected,
        EdgesOf, Followable, Told, ToldWhy, CheckStatus;
      ghost var culprit;
      ghost var roots := ImportedBy(reading, sources, now);
      NothingReadBehind(start.world.files, world.files, now);
      NothingNew(reading, roots, now);
      ChangedNumbers(sources, now, changed);
      var affected := CollectAffected(GraphOf(reading, sources), changed);
      AffectedFollowable(reading, sources, now, changed, affected);
      status, all, culprit := Explore(now, affected, changed, o, start, |now|, roots);
      QuietStays(o, start);
      NewSourcesDiffer(reading, sources, now, all);
      if status != Ok {
        if Quiet(reading, start.world, o) {
          StoppedTells(reading, o, world, roots, all, |now|, culprit, status);
          StoppedIsTold(reading, world.files, roots, now, status);
        }
        return;
      }
      assert Updates(reading, sources, all, changed) by { IsUpdate(reading, sources, now, all, changed, affected); }
      status := CheckUpdate(sources, all, changed, affected, |now|);
      if Quiet(reading, start.world, o) {
        ChangedDiffer(reading, sources, now, all, changed, affected);
        IncludedExactly(reading, o, world, sources, now, all, changed, status);
      }
    }

    /** A sparse build over a baseline. One that finds no semantic change leaves the state persisted. */
    method UpdateFrom(transaction: nat, dirty: seq<nat>, proof: Option<Proof>, o: Outside, ghost start: Past)
      returns (status: Status)
      requires Valid() && lifecycle == Constructing && transaction in world.records && Passed(o, start, Here())
      requires Recorded(reading, initial, start.world, start.events, start.log)
      requires SeenUnless(start.world.files, world.files, world.records[transaction].content.sources, dirty)
      requires proof.Some? ==> ProofOk(reading, world.history, world.records[transaction].fingerprint, proof.value)
      modifies this
      ensures Valid() && Passed(o, start, Here()) && lifecycle == (if status == Ok then Ready else Unloaded)
      ensures
        status == Ok ==>
          && UpdatedFrom(reading, start.world.files, transaction, Now()) && project.value.hasPath
          && project.value.fingerprint == old(world).records[transaction].fingerprint
      ensures
        Quiet(reading, start.world, o) ==>
          var sources := old(world).records[transaction].content.sources;
          && world == start.world && (status == Ok <==> Updatable(reading, world.files, sources, dirty))
          && ToldOfUpdate(reading, world.files, sources, dirty, status)
          && (status == Ok ==>
                project.value.Persisted()
                == if SameSources(sources, RereadOf(world.files, sources, dirty)) then Some(transaction) else None)
    {
      hide WellBuilt, Recorded, Changed, Passed, Quiet, FilesLater, SeenUnless, AllRenewed, ReadFrom, SameSources,
        Updatable, RereadOf, ProofOk, SameMeaning, UpdatedFrom;
      ghost var before := world.history;
      var record := world.records[transaction];
      QuietStays(o, start);
      QuietFaults(reading, start.world, o, 14);
      assert RecordOk(reading, world.history, record);
      var sources, parsed;
      if o.faults(14) != Ok {
        Abandon();
        return o.faults(14);
      }
      status, sources, parsed := ReadDirty(record.content.sources, dirty, o, start);
      if status == Ok { status := o.faults(15); }
      if status != Ok {
        Abandon();
        return;
      }
      if proof.Some? { ProofLater(reading, before, world.history, record.fingerprint, proof.value); }
      var content := Content(record.fingerprint, sources);
      SameSourcesMean(record.content, content);
      project := Some(Project(record.fingerprint, Some(content), None, Some(transaction),
                              if parsed then None else Some(transaction), proof, true));
      lifecycle := Ready;
      assert UpdatedFrom(reading, start.world.files, transaction, Now()) by {
        IsUpdated(reading, start.world.files, transaction, Now());
      }
    }

    // ----- BUILD -----

    /** How BUILD starts: the transaction to compare with and what is known of the configuration
        file, or that everything has to be constructed. */
    method OpenForBuild(o: Outside)
      returns (status: Status, fast: bool, snapshot: Option<nat>, proof: Option<Proof>, ghost at: nat)
      requires Valid() && lifecycle == Constructing
      modifies `world, `events
      ensures Valid() && Passed(o, old(Here()), Here())
      ensures
        status == Ok && fast ==>
          && snapshot.Some? && snapshot.value in world.records && proof.None?
          && world.records[snapshot.value].configuration.Some?
          && world.records[snapshot.value].configuration.value.token.Some?
      ensures status != Ok ==> !fast
      ensures
        status == Ok && !fast ==>
          && proof.Some? && reading.means(proof.value.text).Some?
          && ProofOk(reading, world.history, reading.means(proof.value.text).value, proof.value)
          && MeantDuring(reading, old(world), world, at, reading.means(proof.value.text).value)
          && (snapshot.Some? ==>
                snapshot.value in world.records &&
                reading.means(proof.value.text) == Some(world.records[snapshot.value].fingerprint))
      ensures
        Quiet(reading, old(world), o) ==>
          && world == old(world) && (snapshot.Some? ==> snapshot == world.current)
          && (world.current.Some? && StillMeans(reading, world, world.records[world.current.value].fingerprint) ==>
                status == Ok && snapshot == world.current)
          && (!fast ==>
                && status == ReadStatus(reading, world, NotFound)
                && (status == Ok ==> reading.means(proof.value.text) == reading.means(world.Text())))
    {
      hide WellBuilt, Recorded, Changed, RecordOk, ProjectOk, Active, Passed, Quiet, ProofOk;
      at, fast, proof := 0, false, None;
      ghost var start := Here();
      QuietFaults(reading, world, o, 0);
      QuietFaults(reading, world, o, 5);
      Interfere(o, 0);
      PassedHistory(o, start, Here());
      snapshot := if o.faults(0) == Ok then world.current else None;
      if snapshot.Some? && world.records[snapshot.value].configuration.Some? &&
         world.records[snapshot.value].configuration.value.token.Some? {
        if o.faults(1) != Ok { return ArtifactCorrupt, false, snapshot, proof, at; }
        return Ok, true, snapshot, None, at;
      }
      snapshot := None;
      ghost var first := Here();
      var read;
      status, read, at := ReadConfiguration(o, 2);
      PassedTwice(o, start, first, Here());
      if status != Ok { return; }
      proof := Some(read);
      ghost var second := Here();
      Interfere(o, 5);
      PassedTwice(o, start, second, Here());
      PassedHistory(o, second, Here());
      KeptText(second.world.history, world.history, at);
      ProofLater(reading, second.world.history, world.history, reading.means(read.text).value, read);
      if o.faults(5) != Ok {
        if o.faults(5) != NotFound && o.faults(5) != RebuildRequired { return o.faults(5), false, None, proof, at; }
      } else if world.current.Some? && reading.means(read.text) == Some(world.records[world.current.value].fingerprint) {
        snapshot := world.current;
      }
    }

    /** What the file beside a transaction means now, where the journal did not vouch for it. */
    method ConfirmConfiguration(transaction: nat, proven: bool, ghost vouched: nat, o: Outside)
      returns (status: Status, proof: Proof, ghost at: nat)
      requires Valid() && lifecycle == Constructing && transaction in world.records
      requires world.records[transaction].configuration.Some?
      requires
        proven ==>
          && world.records[transaction].configuration.value.token == Some(vouched) && vouched < |world.history|
      modifies `world, `events
      ensures Valid() && Passed(o, old(Here()), Here())
      ensures
        status == Ok ==>
          && reading.means(proof.text).Some? && ProofOk(reading, world.history, reading.means(proof.text).value, proof)
          && (if proven then at == vouched else old(world).Revision() <= at)
          && at <= world.Revision() && reading.means(world.history[at]) == reading.means(proof.text)
      ensures proven ==> status == Ok && Some(proof) == old(world).records[transaction].configuration
      ensures
        Quiet(reading, old(world), o) ==>
          && world == old(world)
          && (!proven ==>
                && status == ReadStatus(reading, world, NotFound)
                && (status == Ok ==> proof.text == world.Text()))
    {
      hide WellBuilt, Recorded, Changed, ProjectOk, Active, Passed, Quiet;
      PassedSelf(o, Here());
      if proven {
        assert RecordOk(reading, world.history, world.records[transaction]);
        return Ok, world.records[transaction].configuration.value, vouched;
      }
      status, proof, at := ReadConfiguration(o, 8);
    }

    /** The configuration file once the sources are known: as it was read before, or confirmed now. */
    method SettleConfiguration(transaction: nat, fast: bool, known: Option<Proof>, ghost knownAt: nat, proven: bool,
                               ghost vouched: nat, o: Outside, ghost start: Past)
      returns (status: Status, proof: Proof, ghost at: nat)
      requires Valid() && lifecycle == Constructing && transaction in world.records && Passed(o, start, Here())
      requires start.world.history != []
      requires
        if fast then
          && known.None? && world.records[transaction].configuration.Some?
          && (proven ==>
                && world.records[transaction].configuration.value.token == Some(vouched)
                && |start.world.history| - 1 <= vouched < |world.history|)
        else
          && known.Some? && reading.means(known.value.text) == Some(world.records[transaction].fingerprint)
          && ProofOk(reading, world.history, world.records[transaction].fingerprint, known.value)
          && MeantDuring(reading, start.world, world, knownAt, world.records[transaction].fingerprint)
      modifies `world, `events
      ensures Valid() && Passed(o, old(Here()), Here()) && Passed(o, start, Here())
      ensures
        status == Ok ==>
          && reading.means(proof.text).Some? && ProofOk(reading, world.history, reading.means(proof.text).value, proof)
          && MeantDuring(reading, start.world, world, at, reading.means(proof.text).value)
      ensures fast && proven ==> status == Ok && Some(proof) == old(world).records[transaction].configuration
      ensures !fast ==> status == Ok && proof == known.value
      ensures
        Quiet(reading, old(world), o) ==>
          && world == old(world)
          && (fast && !proven ==>
                && status == ReadStatus(reading, world, NotFound)
                && (status == Ok ==> proof.text == world.Text()))
    {
      hide Recorded, Changed, RecordOk, ProjectOk, Active, Passed, Quiet, ProofOk, MeantDuring;
      PassedSelf(o, Here());
      if !fast { return Ok, known.value, knownAt; }
      ghost var third := Here();
      PassedHistory(o, start, third);
      status, proof, at := ConfirmConfiguration(transaction, proven, vouched, o);
      PassedTwice(o, start, third, Here());
      if status == Ok { MeantAt(reading, start.world, world, at, reading.means(proof.text).value); }
    }

    /** What BUILD finds out once it has a transaction: which sources to look at again, and then what
        the configuration file means, if that is not known yet. */
    method Investigate(transaction: nat, fast: bool, known: Option<Proof>, ghost knownAt: nat, d: Detector, o: Outside,
                       ghost start: Past)
      returns (status: Status, dirty: seq<nat>, proof: Proof, journalled: bool, ghost at: nat, ghost moment: nat)
      requires Valid() && lifecycle == Constructing && Sound(d) && transaction in world.records && Passed(o, start, Here())
      requires start.world.history != []
      requires
        fast ==>
          && known.None? && world.records[transaction].configuration.Some?
          && world.records[transaction].configuration.value.token.Some?
      requires
        !fast ==>
          && known.Some? && reading.means(known.value.text) == Some(world.records[transaction].fingerprint)
          && ProofOk(reading, world.history, world.records[transaction].fingerprint, known.value)
          && MeantDuring(reading, start.world, world, knownAt, world.records[transaction].fingerprint)
      modifies `world, `events
      ensures Valid() && Passed(o, start, Here())
      ensures transaction in world.records && world.records[transaction] == old(world).records[transaction]
      ensures
        status == Ok ==>
          var sources := world.records[transaction].content.sources;
          && reading.means(proof.text).Some? && ProofOk(reading, world.history, reading.means(proof.text).value, proof)
          && MeantDuring(reading, start.world, world, at, reading.means(proof.text).value)
          && SeenUnless(start.world.files, world.files, sources, dirty)
          && (journalled ==>
                |start.events| <= moment <= |events|
                && NamesAll(Replay(reading, initial, events[..moment]).files, sources, dirty))
      ensures
        Quiet(reading, old(world), o) ==>
          && world == old(world)
          && (status == Ok ==> dirty == Suspects(d, world.records[transaction].content, world))
          && (fast ==>
                && status == ReadStatus(reading, world, NotFound)
                && (status == Ok ==> reading.means(proof.text) == reading.means(world.Text())))
          && (!fast ==> status == Ok && proof == known.value)
    {
      hide Manager.Valid, Changed, Active, Passed, Quiet, ProofOk, SeenUnless, NamesAll, Replay, Suspects, FilesLater,
        MeantDuring, Sound, Later;
      HasHistory();
      dirty, proof, journalled, at, moment := [], Proof(0, None), false, knownAt, 0;
      QuietFaults(reading, world, o, 6);
      ghost var first := Here();
      Interfere(o, 6);
      PassedTwice(o, start, first, Here());
      PassedHistory(o, first, Here());
      PassedHistory(o, start, Here());
      if o.faults(6) != Ok {
        status := o.faults(6);
        return;
      }
      ghost var second := Here();
      PassedEvents(o, start, second);
      var proven;
      ghost var vouched;
      status, dirty, proven, journalled, vouched, moment := Detect(transaction, fast, d, o, start);
      PassedEvents(o, start, Here());
      if status != Ok { return; }
      ghost var sources, third := world.records[transaction].content.sources, Here();
      PassedHistory(o, start, third);
      if !fast {
        ProofLater(reading, first.world.history, world.history, world.records[transaction].fingerprint, known.value);
        MeantLonger(reading, start.world, start.world, first.world, world, at, world.records[transaction].fingerprint);
      }
      status, proof, at := SettleConfiguration(transaction, fast, known, knownAt, proven, vouched, o, start);
      PassedHistory(o, third, Here());
      PassedFiles(o, third, Here());
      PassedEvents(o, third, Here());
      SeenUnlessLonger(start.world.files, third.world.files, world.files, sources, dirty);
      assert journalled ==> events[..moment] == third.events[..moment];
    }

    /** BUILD once a transaction is found: reuse it or update it, or construct everything under a
        configuration that has changed. */
    method BuildOn(transaction: nat, fast: bool, known: Option<Proof>, ghost knownAt: nat, d: Detector, o: Outside,
                   ghost start: Past)
      returns (status: Status, reused: bool, journalled: bool)
      requires Valid() && lifecycle == Constructing && Sound(d) && transaction in world.records && Passed(o, start, Here())
      requires start.world.history != [] && Recorded(reading, initial, start.world, start.events, start.log)
      requires
        fast ==>
          && known.None? && world.records[transaction].configuration.Some?
          && world.records[transaction].configuration.value.token.Some?
      requires
        !fast ==>
          && known.Some? && reading.means(known.value.text) == Some(world.records[transaction].fingerprint)
          && ProofOk(reading, world.history, world.records[transaction].fingerprint, known.value)
          && MeantDuring(reading, start.world, world, knownAt, world.records[transaction].fingerprint)
      modifies this
      ensures Valid() && Passed(o, start, Here()) && lifecycle == (if status == Ok then Ready else Unloaded)
      ensures status == Ok && reused ==> Reused(transaction, journalled, start)
      ensures
        status == Ok && !reused ==>
          BuiltInFull(reading, start.world.files, Now()) || UpdatedFrom(reading, start.world.files, transaction, Now())
      ensures
        Quiet(reading, start.world, o) && start.world.current == Some(transaction) &&
        (!fast ==> StillMeans(reading, start.world, old(world).records[transaction].fingerprint)) ==>
          world == start.world && QuietBuild(reading, d, world, status, reused, project)
    {
      hide Recorded, Changed, RecordOk, ProjectOk, Active, Passed, Quiet, ProofOk, SeenUnless, NamesAll, Replay,
        Suspects, FilesLater, MeantDuring, Sound, BuiltInFull, UpdatedFrom, Updatable, SameSources, RereadOf, AllSeen,
        BuildableUnder;
      reused, journalled := false, false;
      QuietStays(o, start);
      QuietFaults(reading, start.world, o, 30);
      QuietFaults(reading, start.world, o, 13);
      var dirty, proof;
      ghost var at, moment;
      status, dirty, proof, journalled, at, moment := Investigate(transaction, fast, known, knownAt, d, o, start);
      QuietStays(o, start);
      if status != Ok {
        Abandon();
        return;
      }
      var record := world.records[transaction];
      if reading.means(proof.text) != Some(record.fingerprint) {
        status := Construct(reading.means(proof.text).value, Some(proof), true, o, start);
        return;
      }
      if dirty == [] {
        NothingDirty(start.world.files, world.files, record.content.sources);
        NothingToUpdate(reading, world.files, record.content.sources);
        reused := true;
        status := ActivateBaseline(transaction, o);
        return;
      }
      if o.faults(13) != Ok {
        Abandon();
        status := o.faults(13);
        return;
      }
      status := UpdateFrom(transaction, dirty, Some(proof), o, start);
    }

    /** On the baseline alone, and rightly so. */
    ghost predicate Reused(transaction: nat, journalled: bool, start: Past)
      reads this
    {
      && transaction in world.records
      && project == Some(Project(world.records[transaction].fingerprint, None, None, Some(transaction), None, None, true))
      && (exists at :: MeantDuring(reading, start.world, world, at, world.records[transaction].fingerprint))
      && AllSeen(start.world.files, world.files, world.records[transaction].content.sources)
      && (journalled ==>
            exists k :: |start.events| <= k <= |events| &&
              NamesAll(Replay(reading, initial, events[..k]).files, world.records[transaction].content.sources, []))
    }

    /** BUILD. */
    method Build(d: Detector, o: Outside) returns (status: Status, reused: bool, journalled: bool)
      requires Valid() && Sound(d)
      modifies this
      ensures Valid() && AfterBuild(reading, initial, d, o, old(Now()), status, reused, journalled, Now())
    {
      hide Recorded, Changed, RecordOk, ProjectOk, Active, Passed, Quiet, ProofOk, NamesAll, Replay, Suspects,
        FilesLater, MeantDuring, Sound, BuiltInFull, UpdatedFrom, Updatable, SameSources, RereadOf, AllSeen,
        BuildableUnder;
      reused, journalled := false, false;
      ghost var start := Here();
      PassedSelf(o, start);
      if lifecycle != Unloaded { return InvalidState, false, false; }
      lifecycle := Constructing;
      var fast, snapshot, proof;
      ghost var at;
      status, fast, snapshot, proof, at := OpenForBuild(o);
      PassedHistory(o, start, Here());
      if status != Ok {
        Abandon();
        return;
      }
      if snapshot.None? {
        status := Construct(reading.means(proof.value.text).value, proof, true, o, start);
      } else {
        status, reused, journalled := BuildOn(snapshot.value, fast, proof, at, d, o, start);
      }
    }

    lemma {:induction false} QuietStays(o: Outside, start: Past)
      requires Valid() && Passed(o, start, Here())
      requires Recorded(reading, initial, start.world, start.events, start.log)
      ensures Quiet(reading, start.world, o) ==> world == start.world
    {
      if Quiet(reading, start.world, o) { QuietPassed(reading, initial, o, start, Here()); }
    }
  }

  /** A SAVE that writes nothing. */
  lemma {:induction false} NotWritten(
      reading: Reading, o: Outside, a: Moment, status: Status, transaction: Option<nat>, b: Moment)
    requires Passed(o, a.Here(), b.Here()) && b.project == a.project && b.lifecycle == a.lifecycle
    requires a.project.Some? ==> Active(b.world, a.project.value) == Active(a.world, a.project.value)
    requires forall t | t in b.world.records && t !in a.world.records :: Brought(o, t, b.world.records[t])
    requires
      status == Ok ==>
        && a.project.Some? && a.project.value.Persisted().Some? && transaction == a.project.value.Persisted()
        && Holds(b.world, transaction.value, a.project.value)
    requires
      Quiet(reading, a.world, o) ==>
        && b.world == a.world
        && (a.project.Some? ==>
              && (status == Ok <==>
                    && a.project.value.hasPath && StillMeans(reading, a.world, a.project.value.fingerprint)
                    && (a.project.value.Persisted().Some? ==> a.world.current == a.project.value.Persisted()))
              && (MovedAway(a.world, a.project.value) ==> status == RebuildRequired))
        && status == SaveStatus(reading, a.world, a.project)
    requires a.project.None? || !a.project.value.hasPath ==> status == InvalidState
    ensures Saved(reading, o, a, status, transaction, false, b)
  {
    hide Later, Outer, Holds, Brought, Active, Quiet, StillMeans, MovedAway;
  }

  lemma {:induction false} SameAsItself(c: Content)
    ensures SameMeaning(c, c)
  {}

  /** A SAVE that writes. */
  lemma {:induction false} Written(
      reading: Reading, o: Outside, a: Moment, m: Moment, transaction: Option<nat>, b: Moment)
    requires Passed(o, a.Here(), m.Here()) && m.project == a.project && m.lifecycle == a.lifecycle && a.project.Some?
    requires Active(m.world, a.project.value) == Active(a.world, a.project.value)
    requires forall t | t in m.world.records && t !in a.world.records :: Brought(o, t, m.world.records[t])
    requires Wrote(o, m, transaction, b) && a.project.value.Persisted().None? && a.project.value.hasPath
    requires
      Quiet(reading, a.world, o) ==>
        StillMeans(reading, a.world, a.project.value.fingerprint)
    ensures Saved(reading, o, a, Ok, transaction, true, b)
  {
    var p, t := a.project.value, transaction.value;
    LaterTwice(a.world, m.world, b.world);
    SameAsItself(Active(a.world, p));
    PassedHistory(o, a.Here(), m.Here());
    MatchMeans(reading, a.world, NotFound, p.fingerprint);
    assert t !in a.world.records;
    hide Later, Outer, Brought, Quiet, StillMeans, SameMeaning;
    forall u | u in b.world.records && u !in a.world.records
      ensures transaction == Some(u) || Brought(o, u, b.world.records[u])
    {
      if u != t { assert u in m.world.records && b.world.records[u] == m.world.records[u]; }
    }
    forall i | |a.events| <= i < |b.events|
      ensures Outer(o, b.events[i]) || b.events[i] == Own(b.log[|a.log|].transaction, b.log[|a.log|].record)
    {
      if i < |m.events| { assert b.events[i] == m.events[i]; }
    }
  }

  /** One commit of exactly the active content, and nothing else. */
  ghost predicate Wrote(o: Outside, a: Moment, transaction: Option<nat>, b: Moment) {
    && a.project.Some? && transaction.Some? && transaction.value !in a.world.records && Later(a.world, b.world)
    && var p, t := a.project.value, transaction.value;
       && Active(b.world, p) == Active(a.world, p)
       && exists proof ::
            b == Committed(
                   a, Commit(t, Record(p.fingerprint, Active(a.world, p), Some(proof)), p.fingerprint, Active(a.world, p)))
                   .(project := Some(p.(remembered := if o.faults(9) == Ok then transaction else None)))
  }

  lemma {:induction false} FollowableNext(
      reading: Reading, first: seq<Source>, all: seq<Source>, n: nat, roots: seq<nat>, pending: seq<nat>, queue: seq<nat>,
      k: nat)
    requires n <= |first| <= |all| && all[..|first|] == first && Queued(queue, pending, |first|, |all|) && k < |queue|
    requires Within(pending, |first|)
    requires forall j :: 0 <= j < |pending| ==> Followable(reading, first, n, roots, pending[j])
    ensures queue[k] < |all| && Followable(reading, all, n, roots, queue[k])
  {
    hide Includes;
    assert all[..n] == first[..n];
    if k < |pending| {
      assert Followable(reading, first, n, roots, pending[k]) && all[queue[k]] == all[..|first|][queue[k]];
    }
  }

  /** The queue after more sources have been appended. */
  function Enqueued(queue: seq<nat>, pending: seq<nat>, first: nat, known: nat, all: nat): (r: seq<nat>)
    requires Queued(queue, pending, first, known) && known <= all
    ensures queue <= r && Queued(r, pending, first, all)
  {
    queue + seq(all - known, k requires 0 <= k => known + k)
  }

  lemma {:induction false} QuietGlances(reading: Reading, w: World, o: Outside, n: nat)
    ensures
      Quiet(reading, w, o) ==>
        && o.scan(n).fault == Ok && Changed(reading, w, o.scan(n).before) == w
        && o.read(n).fault == Ok && Changed(reading, w, o.read(n).before) == w
  {
    hide Changed;
  }

  lemma {:induction false} AsSeenMeans(files: map<nat, seq<File>>, s: Source)
    ensures AsSeen(files, s) <==> SameFile(s.file, FileOf(files, s.path))
  {}

  lemma {:induction false} ProvenMeans(reading: Reading, w: World, t: nat)
    requires WorldOk(reading, w) && t in w.records && w.records[t].configuration.Some?
    requires w.records[t].configuration.value.token == Some(w.Revision())
    ensures w.records[t].configuration.value.text == w.Text() && reading.means(w.Text()) == Some(w.records[t].fingerprint)
  {
    hide WellBuilt;
    assert RecordOk(reading, w.history, w.records[t]);
  }

  lemma {:induction false} IsThere(files: map<nat, seq<File>>, sources: seq<Source>, i: nat)
    requires i < |sources| && (sources[i].file.Present? || FileOf(files, sources[i].path).Present?)
    ensures StillThere(files, sources, i)
  {}

  lemma {:induction false} NothingNew(reading: Reading, roots: seq<nat>, now: seq<Source>)
    ensures Derived(reading, roots, now, |now|) && DistinctFrom(now, |now|)
  {}

  lemma {:induction false} GeneratedExactly(
      reading: Reading, o: Outside, w: World, roots: seq<nat>, sources: seq<Source>, status: Status)
    requires Quiet(reading, w, o) && ReadFrom(w.files, w.files, sources, 0) && |sources| <= MAX_U32
    requires Derived(reading, roots, sources, 0) && DistinctFrom(sources, 0)
    requires forall p :: p in roots ==> p in PathsOf(sources)
    requires
      forall i :: 0 <= i < |sources| ==>
        ImportsKnown(reading, sources, i) && !Includes(reading, sources[i], sources[i].path)
    requires status == CheckStatus(reading, sources) && status in {Ok, SemanticConflict}
    ensures ToldInFull(reading, w.files, roots, status) && (status == Ok <==> Buildable(reading, w.files, roots, []))
  {
    hide Quiet, ReadFrom, Derived, DistinctFrom, Buildable, ImportsKnown, Includes, CheckStatus, Told, ToldInFull;
    FollowedIsTold(reading, o, w, roots, sources, 0, status);
    assert sources[..0] == [];
    ToldDecides(reading, w.files, roots, [], status);
    FollowedInFullIsTold(reading, w.files, roots, status);
  }

  lemma {:induction false} IncludedExactly(
      reading: Reading, o: Outside, w: World, sources: seq<Source>, now: seq<Source>, all: seq<Source>, changed: seq<nat>,
      status: Status)
    requires Quiet(reading, w, o) && |now| == |sources| <= |all| && all[..|now|] == now
    requires ReadFrom(w.files, w.files, all, |now|) && (|all| <= MAX_U32 || |all| == |now|)
    requires WellBuilt(reading, sources) && Updates(reading, sources, all, changed) && ChangedAre(sources, now, changed)
    requires Derived(reading, ImportedBy(reading, sources, now), all, |now|) && DistinctFrom(all, 0)
    requires status == CheckStatus(reading, all)
    requires forall i :: |now| <= i < |all| ==> !Includes(reading, all[i], all[i].path)
    requires forall i :: 0 <= i < |now| && i in changed ==> !Includes(reading, all[i], all[i].path)
    ensures Told(reading, w.files, ImportedBy(reading, sources, now), now, status)
    ensures status == Ok <==> Buildable(reading, w.files, ImportedBy(reading, sources, now), now)
  {
    UpdateGrows(reading, sources, all, changed);
    UpdateFits(reading, sources, all, changed);
    NotSelfish(reading, sources, all, changed);
    hide Quiet, ReadFrom, Derived, DistinctFrom, Buildable, ImportsKnown, WellBuilt, ImportedBy, Updates, ChangedAre,
      EdgesOf, Includes, CheckStatus, Told;
    RootsFollowed(reading, sources, now, changed, all);
    FollowedIsTold(reading, o, w, ImportedBy(reading, sources, now), all, |now|, status);
    ToldDecides(reading, w.files, ImportedBy(reading, sources, now), now, status);
  }

  lemma {:induction false} ChangedDiffer(
      reading: Reading, sources: seq<Source>, now: seq<Source>, all: seq<Source>, changed: seq<nat>, affected: seq<nat>)
    requires |now| == |sources| <= |all| && Within(affected, |now|)
    requires forall c :: c in changed ==> c in affected
    requires
      forall k :: 0 <= k < |affected| && affected[k] in changed ==>
        !Includes(reading, all[affected[k]], all[affected[k]].path)
    ensures forall i :: 0 <= i < |now| && i in changed ==> !Includes(reading, all[i], all[i].path)
  {
    hide Includes;
    forall i | 0 <= i < |now| && i in changed ensures !Includes(reading, all[i], all[i].path) {
      assert i in affected;
      var k :| 0 <= k < |affected| && affected[k] == i;
    }
  }

  /** What has not changed does not include itself, as it did not before. */
  lemma {:induction false} NotSelfish(reading: Reading, sources: seq<Source>, all: seq<Source>, changed: seq<nat>)
    requires WellBuilt(reading, sources) && Updates(reading, sources, all, changed)
    requires forall i :: |sources| <= i < |all| ==> !Includes(reading, all[i], all[i].path)
    requires forall i :: 0 <= i < |sources| && i in changed ==> !Includes(reading, all[i], all[i].path)
    ensures forall i :: 0 <= i < |all| ==> !Includes(reading, all[i], all[i].path)
  {
    hide WellBuilt, ImportsKnown, Touched, DistinctFrom;
    forall i | 0 <= i < |all| ensures !Includes(reading, all[i], all[i].path) {
      if i < |sources| && i !in changed && Includes(reading, all[i], all[i].path) {
        assert all[..|sources|][i] == all[i] && SameFile(sources[i].file, all[i].file);
        assert Includes(reading, sources[i], sources[i].path);
        OneOfAKind(reading, sources, i);
      }
    }
  }

  lemma {:induction false} OneOfAKind(reading: Reading, sources: seq<Source>, i: nat)
    requires WellBuilt(reading, sources) && i < |sources|
    ensures !Includes(reading, sources[i], sources[i].path)
  {
    hide Layered, Complete, ImportsKnown;
    if Includes(reading, sources[i], sources[i].path) {
      WellBuiltIncludes(reading, sources, i, sources[i].path);
    }
  }

  /** What the affected sources include is among the roots of the update or known. */
  lemma {:induction false} AffectedFollowable(
      reading: Reading, sources: seq<Source>, now: seq<Source>, changed: seq<nat>, affected: seq<nat>)
    requires |now| == |sources| && ChangedAre(sources, now, changed) && WellBuilt(reading, sources)
    requires Within(affected, |now|) && forall i :: 0 <= i < |sources| ==> now[i].path == sources[i].path
    ensures
      forall k :: 0 <= k < |affected| ==>
        Followable(reading, now, |now|, ImportedBy(reading, sources, now), affected[k])
  {
    hide ImportedBy, Layered, Complete, DistinctFrom;
    assert now[..|now|] == now && PathsOf(now) == PathsOf(sources);
    forall k, p | 0 <= k < |affected| && Includes(reading, now[affected[k]], p)
      ensures p in ImportedBy(reading, sources, now) || p in PathsOf(now)
    {
      var i := affected[k];
      if SameFile(sources[i].file, now[i].file) {
        assert ImportsKnown(reading, sources, i);
      } else {
        ImportedMeans(reading, sources, now, p);
      }
    }
  }

  lemma {:induction false} IsUpdated(reading: Reading, a: map<nat, seq<File>>, t: nat, b: Moment)
    requires b.project.Some? && b.project.value.compiled.Some? && b.project.value.baseline == Some(t) && t in b.world.records
    requires
      var seen, c := b.world.records[t].content, b.project.value.compiled.value;
      && AllRenewed(a, b.world.files, seen.sources, c.sources)
      && ReadFrom(a, b.world.files, c.sources, |seen.sources|) && WellBuilt(reading, c.sources)
      && b.project.value.remembered == (if SameMeaning(seen, c) then Some(t) else None)
    ensures UpdatedFrom(reading, a, t, b)
  {
    hide AllRenewed, ReadFrom, SameMeaning, WellBuilt;
  }

  lemma {:induction false} MeantAt(reading: Reading, a: World, b: World, at: nat, fingerprint: nat)
    requires a.history != [] && |a.history| - 1 <= at < |b.history| && reading.means(b.history[at]) == Some(fingerprint)
    ensures MeantDuring(reading, a, b, at, fingerprint)
  {}

  lemma {:induction false} NothingDirty(a: map<nat, seq<File>>, b: map<nat, seq<File>>, sources: seq<Source>)
    requires SeenUnless(a, b, sources, [])
    ensures AllSeen(a, b, sources)
  {}

  lemma {:induction false} NothingReadBehind(a: map<nat, seq<File>>, b: map<nat, seq<File>>, sources: seq<Source>)
    ensures ReadFrom(a, b, sources, |sources|)
  {}

  lemma {:induction false} AllRead(a: map<nat, seq<File>>, b: map<nat, seq<File>>, sources: seq<Source>)
    requires ReadFrom(a, b, sources, 0)
    ensures forall i :: 0 <= i < |sources| ==> sources[i].file.Present?
  {}

  lemma {:induction false} NothingRead(a: map<nat, seq<File>>, b: map<nat, seq<File>>)
    ensures ReadFrom(a, b, [], 0)
  {}

  /** What was known stays known. */
  lemma {:induction false} ImportsStay(reading: Reading, sources: seq<Source>, all: seq<Source>)
    requires |sources| <= |all| && all[..|sources|] == sources
    ensures forall i :: 0 <= i < |sources| && ImportsKnown(reading, sources, i) ==> ImportsKnown(reading, all, i)
  {
    forall i | 0 <= i < |sources| && ImportsKnown(reading, sources, i) ensures ImportsKnown(reading, all, i) {
      assert all[i] == all[..|sources|][i];
      assert PathsOf(all)[..|sources|] == PathsOf(sources);
    }
  }

  lemma {:induction false} ImportsNow(reading: Reading, all: seq<Source>, i: nat)
    requires i < |all|
    requires all[i].file.Present? ==> forall p :: p in reading.imports(all[i].path, all[i].file.hash) ==> p in PathsOf(all)
    ensures ImportsKnown(reading, all, i)
  {}

  lemma {:induction false} QuietFaults(reading: Reading, w: World, o: Outside, n: nat)
    ensures Quiet(reading, w, o) ==> o.faults(n) == Ok && o.faults(n + 1) == Ok
  {
    if Quiet(reading, w, o) { assert o.faults(n + 1) == Ok; }
  }

  lemma {:induction false} CommitLater(a: World, b: World, t: nat)
    requires t !in a.records && b.history == a.history && b.files == a.files
    requires forall u :: u in a.records ==> u in b.records && b.records[u] == a.records[u]
    ensures Later(a, b)
  {}

  lemma {:induction false} NothingBrought(o: Outside, a: Moment, b: Moment)
    requires b.world == a.world
    ensures forall t | t in b.world.records && t !in a.world.records :: Brought(o, t, b.world.records[t])
  {}

  /** While only others act, every new record is theirs. */
  lemma {:induction false} BroughtByOthers(reading: Reading, initial: World, o: Outside, a: Past, b: Past)
    requires Recorded(reading, initial, a.world, a.events, a.log) && Recorded(reading, initial, b.world, b.events, b.log)
    requires Passed(o, a, b)
    ensures forall t | t in b.world.records && t !in a.world.records :: Brought(o, t, b.world.records[t])
  {
    hide Later, Replay, DoneBy;
    forall t | t in b.world.records && t !in a.world.records ensures Brought(o, t, b.world.records[t]) {
      NewRecords(reading, initial, a.events, b.events, t);
      var i :| |a.events| <= i < |b.events| && Provides(b.events[i], t, b.world.records[t]);
      assert Outer(o, b.events[i]);
      assert b.events[i] == Others(b.events[i].change);
    }
  }

  // ---------- Whole runs ----------

  datatype Operation = LOAD | BUILD | REBUILD | REBUILD_IN_MEMORY(fingerprint: nat) | SAVE | UNLOAD

  /** What a call returned, as far as the run is concerned. */
  datatype Outcome = Outcome(status: Status, transaction: Option<nat>, written: bool, reused: bool, journalled: bool)

  /** Each operation does what it promises. */
  ghost predicate Follows(
      reading: Reading, initial: World, d: Detector, o: Outside, operation: Operation, a: Moment, r: Outcome, b: Moment)
  {
    match operation
    case LOAD => AfterLoad(reading, o, a, r.status, b)
    case BUILD => AfterBuild(reading, initial, d, o, a, r.status, r.reused, r.journalled, b)
    case REBUILD => AfterRebuild(reading, o, a, r.status, b)
    case REBUILD_IN_MEMORY(fingerprint) => AfterRebuildInMemory(reading, o, fingerprint, a, r.status, b)
    case SAVE => Saved(reading, o, a, r.status, r.transaction, r.written, b)
    case UNLOAD => AfterUnload(a, r.status, b)
  }

  ghost predicate IsRun(
      reading: Reading, initial: World, d: Detector, run: seq<(Operation, Outside)>, outcomes: seq<Outcome>,
      moments: seq<Moment>)
  {
    && |outcomes| == |run| && |moments| == |run| + 1
    && forall i :: 0 <= i < |run| ==>
         Follows(reading, initial, d, run[i].1, run[i].0, moments[i], outcomes[i], moments[i + 1])
  }

  method Perform(m: Manager, d: Detector, operation: Operation, o: Outside) returns (r: Outcome)
    requires m.Valid() && Sound(d)
    modifies m
    ensures m.Valid() && Follows(m.reading, m.initial, d, o, operation, old(m.Now()), r, m.Now())
  {
    hide Manager.Valid, Sound, AfterLoad, AfterBuild, AfterRebuild, AfterRebuildInMemory, Saved, AfterUnload;
    r := Outcome(Ok, None, false, false, false);
    var status;
    match operation {
      case LOAD =>
        status := m.Load(o);
      case BUILD =>
        var reused, journalled;
        status, reused, journalled := m.Build(d, o);
        r := r.(reused := reused, journalled := journalled);
      case REBUILD =>
        status := m.Rebuild(o);
      case REBUILD_IN_MEMORY(fingerprint) =>
        status := m.RebuildInMemory(fingerprint, o);
      case SAVE =>
        var transaction, written;
        status, transaction, written := m.Save(o);
        r := r.(transaction := transaction, written := written);
      case UNLOAD =>
        status := m.Unload();
    }
    r := r.(status := status);
  }

  /** Any sequence of operations, with any failures and whatever others do in between: every call
      keeps its promise, and at every moment the world is the replay of all events, of which the
      manager's own are exactly the commits in its log. */
  method RunAll(m: Manager, d: Detector, run: seq<(Operation, Outside)>)
    returns (outcomes: seq<Outcome>, ghost moments: seq<Moment>)
    requires m.Valid() && Sound(d)
    modifies m
    ensures m.Valid() && IsRun(m.reading, m.initial, d, run, outcomes, moments)
    ensures moments[0] == old(m.Now()) && moments[|run|] == m.Now()
    ensures forall i :: 0 <= i < |moments| ==> InOrder(m.reading, m.initial, moments[i])
  {
    hide Manager.Valid, Sound, Follows, InOrder;
    m.ValidInOrder();
    outcomes, moments := [], [m.Now()];
    var i := 0;
    while i < |run|
      invariant 0 <= i <= |run| && m.Valid() && IsRun(m.reading, m.initial, d, run[..i], outcomes, moments)
      invariant moments[0] == old(m.Now()) && moments[i] == m.Now()
      invariant forall j :: 0 <= j < |moments| ==> InOrder(m.reading, m.initial, moments[j])
    {
      var r := Perform(m, d, run[i].0, run[i].1);
      m.ValidInOrder();
      outcomes, moments := outcomes + [r], moments + [m.Now()];
      i := i + 1;
    }
    assert run[..|run|] == run;
  }

  /** What holds of the manager between two calls: among other things, every transaction of the store
      and the content queries see is a well-built generation. */
  ghost predicate InOrder(reading: Reading, initial: World, m: Moment) {
    && Recorded(reading, initial, m.world, m.events, m.log)
    && (m.lifecycle == Ready <==> m.project.Some?)
    && (m.project.Some? && m.project.value.Persisted().Some? ==>
          Holds(m.world, m.project.value.Persisted().value, m.project.value))
    && (forall t | t in m.world.records :: WellBuilt(reading, m.world.records[t].content.sources))
    && (m.project.Some? ==> WellBuilt(reading, Active(m.world, m.project.value).sources))
  }

  /** The transaction a commit of this run wrote, and which call did. */
  ghost predicate WrittenBy(
      run: seq<(Operation, Outside)>, outcomes: seq<Outcome>, moments: seq<Moment>, i: nat, t: nat, r: Record)
    requires |outcomes| == |run| && |moments| == |run| + 1 && i < |run|
  {
    && run[i].0 == SAVE && outcomes[i].status == Ok && outcomes[i].transaction == Some(t)
    && moments[i].project.Some? && moments[i].project.value.Persisted().None?
    && r.fingerprint == moments[i].project.value.fingerprint && r.content == Active(moments[i].world, moments[i].project.value)
  }

  /** Which calls are refused for the state the manager is in, and when LOAD and SAVE ask for a rebuild:
      nothing fails and nobody else acts. */
  lemma {:induction false} StateRefusals(
      reading: Reading, initial: World, d: Detector, o: Outside, operation: Operation, a: Moment, r: Outcome, b: Moment)
    requires Follows(reading, initial, d, o, operation, a, r, b) && Quiet(reading, a.world, o)
    requires WorldOk(reading, a.world) && (a.project.Some? <==> a.lifecycle == Ready)
    ensures
      r.status == InvalidState <==>
      match operation
      case SAVE => a.lifecycle != Ready || !a.project.value.hasPath
      case UNLOAD => a.lifecycle != Ready
      case _ => a.lifecycle != Unloaded
    ensures
      operation == LOAD && a.lifecycle == Unloaded ==>
        (r.status == RebuildRequired <==>
         && a.world.current.Some? && a.world.present && reading.means(a.world.Text()).Some?
         && reading.means(a.world.Text()) != Some(a.world.records[a.world.current.value].fingerprint))
    ensures
      operation == LOAD && a.lifecycle == Unloaded ==>
        (r.status == NotFound <==>
         a.world.current.None? && a.world.present && reading.means(a.world.Text()).Some?)
    ensures
      operation == SAVE && a.lifecycle == Ready && a.project.value.hasPath ==>
        (r.status == RebuildRequired <==>
         var p := a.project.value;
         if p.Persisted().Some? && a.world.current != p.Persisted() then a.world.current.Some?
         else
           && a.world.present && reading.means(a.world.Text()).Some?
           && reading.means(a.world.Text()) != Some(p.fingerprint))
  {
    hide Quiet, Passed, SaveKeeps, Holds, Brought, OnBaseline, BuiltInFull, UpdatedFrom, AllSeen, AllSeenAtOnce,
      Updatable, BuildableNow, BuildableUnder, RecordOk, Told, ToldFirst, Suspects, SameSources, RereadOf, StillMeans;
    match operation {
      case REBUILD => NeverInvalidState(reading, a.world, r.status);
      case REBUILD_IN_MEMORY(fingerprint) =>
        if a.lifecycle == Unloaded { NotUnder(reading, a.world.files, fingerprint, r.status); }
      case BUILD => if a.lifecycle == Unloaded { NotOfBuild(reading, d, a.world, r.status, r.reused, b.project); }
      case _ =>
    }
  }

  lemma {:induction false} NotUnder(reading: Reading, files: map<nat, seq<File>>, fingerprint: nat, status: Status)
    requires ToldUnder(reading, files, fingerprint, status)
    ensures status != InvalidState
  {
    hide Told, ToldFirst, Crowded;
    var items := reading.items(fingerprint);
    if RootsOk(items) { ToldDecides(reading, files, RootsOf(items), [], status); }
  }

  lemma {:induction false} NeverInvalidState(reading: Reading, w: World, status: Status)
    ensures ToldNow(reading, w, status) ==> status != InvalidState
  {
    hide ToldUnder;
    if ToldNow(reading, w, status) && ReadStatus(reading, w, NotFound) == Ok {
      NotUnder(reading, w.files, reading.means(w.history[|w.history| - 1]).value, status);
    }
  }

  lemma {:induction false} NotOfBuild(
      reading: Reading, d: Detector, w: World, status: Status, reused: bool, project: Option<Project>)
    requires QuietBuild(reading, d, w, status, reused, project)
    ensures status != InvalidState
  {
    hide Updatable, BuildableNow, Told, Suspects, SameSources, RereadOf, StillMeans, ToldNow, StillThere, ImportedBy;
    NeverInvalidState(reading, w, status);
    if !ToldNow(reading, w, status) {
      var sources := w.records[w.current.value].content.sources;
      var suspects := Suspects(d, w.records[w.current.value].content, w);
      var now := RereadOf(w.files, sources, suspects);
      if Told(reading, w.files, ImportedBy(reading, sources, now), now, status) {
        ToldDecides(reading, w.files, ImportedBy(reading, sources, now), now, status);
      }
    }
  }

  /** Whatever the manager commits in a run is committed by a SAVE of a state that was not persisted,
      and is exactly the content that was active, under its fingerprint. */
  lemma {:induction false} CommitsHoldActive(
      reading: Reading, initial: World, d: Detector, run: seq<(Operation, Outside)>, outcomes: seq<Outcome>,
      moments: seq<Moment>, k: nat)
    requires IsRun(reading, initial, d, run, outcomes, moments)
    requires forall i :: 0 <= i < |moments| ==> InOrder(reading, initial, moments[i])
    requires |moments[0].log| <= k < |moments[|run|].log|
    ensures
      var c := moments[|run|].log[k];
      exists i :: 0 <= i < |run| && WrittenBy(run, outcomes, moments, i, c.transaction, c.record)
  {
    hide Follows, InOrder, WrittenBy;
    if |run| > 0 {
      var last := |run| - 1;
      LogGrows(reading, initial, d, run[last].1, run[last].0, moments[last], outcomes[last], moments[last + 1]);
      if k < |moments[last].log| {
        var before, results, earlier := run[..last], outcomes[..last], moments[..last + 1];
        CommitsHoldActive(reading, initial, d, before, results, earlier, k);
        var c := moments[|run|].log[k];
        assert earlier[|before|] == moments[last] && moments[last].log[k] == c;
        var i :| 0 <= i < |before| && WrittenBy(before, results, earlier, i, c.transaction, c.record);
        SameCall(before, results, earlier, run, outcomes, moments, i, c.transaction, c.record);
      } else {
        LastCall(reading, initial, d, run, outcomes, moments);
      }
    }
  }

  lemma {:induction false} SameCall(
      before: seq<(Operation, Outside)>, results: seq<Outcome>, earlier: seq<Moment>,
      run: seq<(Operation, Outside)>, outcomes: seq<Outcome>, moments: seq<Moment>, i: nat, t: nat, r: Record)
    requires |outcomes| == |run| && |moments| == |run| + 1 && |results| == |before| && |earlier| == |before| + 1
    requires before <= run && results <= outcomes && earlier <= moments && i < |before|
    requires WrittenBy(before, results, earlier, i, t, r)
    ensures WrittenBy(run, outcomes, moments, i, t, r)
  {
    hide Active;
  }

  /** Only SAVE adds to the log, and at most one commit. */
  lemma {:induction false} LogGrows(
      reading: Reading, initial: World, d: Detector, o: Outside, operation: Operation, a: Moment, r: Outcome, b: Moment)
    requires Follows(reading, initial, d, o, operation, a, r, b)
    ensures a.log <= b.log && |b.log| <= |a.log| + 1
    ensures |b.log| == |a.log| + 1 ==> operation == SAVE && r.written
  {
    hide Later, Outer, Quiet, OnBaseline, BuiltInFull, UpdatedFrom, AllSeen, AllSeenAtOnce, QuietBuild, Buildable,
      BuildableNow, StillMeans, Holds, Brought, Suspects, MeantDuring;
  }

  lemma {:induction false} LastCall(
      reading: Reading, initial: World, d: Detector, run: seq<(Operation, Outside)>, outcomes: seq<Outcome>,
      moments: seq<Moment>)
    requires IsRun(reading, initial, d, run, outcomes, moments) && |run| > 0
    requires InOrder(reading, initial, moments[|run|])
    requires |moments[|run|].log| == |moments[|run| - 1].log| + 1
    ensures
      var last := |run| - 1;
      var c := moments[|run|].log[|moments[last].log|];
      WrittenBy(run, outcomes, moments, last, c.transaction, c.record)
  {
    var last := |run| - 1;
    var a, b := moments[last], moments[|run|];
    LogGrows(reading, initial, d, run[last].1, run[last].0, a, outcomes[last], b);
    assert Saved(reading, run[last].1, a, outcomes[last].status, outcomes[last].transaction, outcomes[last].written, b);
    assert CommitOk(b.log[|a.log|]);
    hide Later, Outer, Quiet, Brought, Active, SameMeaning;
  }

  /** What one SAVE has written, a later one does not write again while the project stays. */
  lemma {:induction false} SavedOnce(
      reading: Reading, o: Outside, p: Outside, a: Moment, b: Moment, c: Moment, first: Outcome, second: Outcome)
    requires Saved(reading, o, a, first.status, first.transaction, first.written, b)
    requires Saved(reading, p, b, second.status, second.transaction, second.written, c)
    requires first.status == Ok && (first.written ==> o.faults(9) == Ok)
    ensures !second.written && c.log == b.log
    ensures second.status == Ok ==> second.transaction == first.transaction
  {
    hide Later, Outer, Quiet, Brought, Active, SameMeaning;
  }

  // ---------- Another content with the same stamp ----------

  lemma {:induction false} DifferingAre(files: map<nat, seq<File>>, sources: seq<Source>)
    ensures forall i :: i in Differing(files, sources) <==> 0 <= i < |sources| && !AsSeen(files, sources[i])
  {
    hide AsSeen;
    if sources != [] {
      var last := |sources| - 1;
      DifferingAre(files, sources[..last]);
      assert forall i :: 0 <= i < last ==> sources[..last][i] == sources[i];
    }
  }

  /** Where the journal cannot tell, nothing is looked at again exactly if every file says what it said
      when it was seen, whenever it was written. */
  lemma {:induction false} UnsuspectedExactly(d: Detector, c: Content, w: World)
    requires d.journal(c, w).CannotTell?
    ensures
      Suspects(d, c, w) == []
      <==>
      forall i :: 0 <= i < |c.sources| ==>
        ContentOf(c.sources[i].file) == ContentOf(FileOf(w.files, c.sources[i].path))
  {
    DifferingAre(w.files, c.sources);
    hide Differing, FileOf, SameFile;
    forall i | 0 <= i < |c.sources|
      ensures
        AsSeen(w.files, c.sources[i])
        <==> ContentOf(c.sources[i].file) == ContentOf(FileOf(w.files, c.sources[i].path))
    {
      SameContent(c.sources[i].file, FileOf(w.files, c.sources[i].path));
    }
    var suspects := Differing(w.files, c.sources);
    if suspects != [] { assert suspects[0] in suspects; }
  }

  /** After a full scan an undisturbed update counts the state as persisted exactly if every source
      is as it was seen or holds another content with the stamp it was seen with. The second half is
      what goes wrong: then the state differs from the files and yet nothing is left to save. */
  lemma {:induction false} PersistedExactly(files: map<nat, seq<File>>, sources: seq<Source>)
    ensures
      SameSources(sources, RereadOf(files, sources, Differing(files, sources)))
      <==>
      forall i :: 0 <= i < |sources| ==>
        AsSeen(files, sources[i]) || Collides(sources[i].file, FileOf(files, sources[i].path))
  {
    DifferingAre(files, sources);
    hide FileOf, Differing;
    var dirty := Differing(files, sources);
    var now := RereadOf(files, sources, dirty);
    forall i | 0 <= i < |sources|
      ensures
        SameFile(sources[i].file, now[i].file) <==>
        AsSeen(files, sources[i]) || Collides(sources[i].file, FileOf(files, sources[i].path))
    {
      assert i in dirty <==> !AsSeen(files, sources[i]);
      SameFileSelf(sources[i].file);
    }
  }

  const STILL: Change := Change(map[], None, [], true, map[])
  const NOBODY: Outside := Outside(_ => Ok, _ => STILL, _ => Glance(STILL, Ok), _ => Glance(STILL, Ok))
  const SCANNING: Detector := Detector((_, _) => CannotTell, (_, _) => (false, false))

  const PLAIN: Reading := Reading(_ => Some(1), _ => ConfigurationFailed, _ => [], (_, _) => [])

  /** A transaction that saw file 5 with content 1; now it has content 2 and the same stamp. */
  const EDITED: World := World(
    map[0 := Record(1, Content(1, [Source(5, Present(1, 9))]), None)], Some(0), [7], true,
    map[5 := [Present(1, 9), Present(2, 9)]])

  lemma {:induction false} NobodyIsQuiet(reading: Reading)
    ensures Quiet(reading, EDITED, NOBODY) && Sound(SCANNING)
  {
    var after := Changed(reading, EDITED, STILL);
    assert EDITED.history + [] == EDITED.history;
    assert EditedFiles(EDITED.files, map[]) == EDITED.files by {
      assert HistoryOf(EDITED.files, 5) + EditsOf(map[], 5) == EDITED.files[5];
    }
    assert after.records == EDITED.records;
    assert after == EDITED;
  }

  lemma {:induction false} EditedIsOk()
    ensures WorldOk(PLAIN, EDITED)
  {
    var sources := [Source(5, Present(1, 9))];
    assert GraphOf(PLAIN, sources) == [[]];
    OrderedIsAcyclic([[]], [0]);
    WellBuiltMeans(PLAIN, sources);
    assert RecordOk(PLAIN, EDITED.history, EDITED.records[0]);
  }

  lemma {:induction false} EditCollides(reading: Reading)
    ensures
      var sources := EDITED.records[0].content.sources;
      && Differing(EDITED.files, sources) == [0]
      && SameSources(sources, RereadOf(EDITED.files, sources, [0])) && Updatable(reading, EDITED.files, sources, [0])
  {
    var sources := EDITED.records[0].content.sources;
    assert FileOf(EDITED.files, 5) == Present(2, 9);
    assert !AsSeen(EDITED.files, sources[0]);
    assert Differing(EDITED.files, sources[..0]) == [];
    assert RereadOf(EDITED.files, sources, [0]) == sources;
    SameFileSelf(sources[0].file);
  }

  /** The whole way: nobody interferes, no call fails, the journal cannot tell, and BUILD scans every
      source. It notices the edit, ends READY with the old content, and SAVE then has nothing to do. */
  method StaleButSaved() returns (built: Status, saved: Status, written: bool, active: Content, now: File)
    ensures built == Ok && saved == Ok && !written
    ensures |active.sources| == 1 && !SameFile(active.sources[0].file, now)
  {
    hide Saved, AfterBuild, Quiet, Updatable, SameSources, RereadOf, Differing;
    var reading := PLAIN;
    EditedIsOk();
    var m := new Manager(reading, EDITED);
    NobodyIsQuiet(reading);
    EditCollides(reading);
    ghost var a := m.Now();
    var reused, journalled, transaction;
    built, reused, journalled := m.Build(SCANNING, NOBODY);
    ghost var b := m.Now();
    StaleBuild(reading, m.initial, a, built, reused, journalled, b);
    active, now := Active(m.world, m.project.value), FileOf(m.world.files, 5);
    PersistedHoldsActive(reading, m.world, m.project.value);
    saved, transaction, written := m.Save(NOBODY);
    ghost var c := m.Now();
    StaleSave(reading, b, saved, transaction, written, c);
  }

  lemma {:induction false} StaleBuild(
      reading: Reading, initial: World, a: Moment, built: Status, reused: bool, journalled: bool, b: Moment)
    requires a.world == EDITED && a.lifecycle == Unloaded && reading.means(7) == Some(1)
    requires Quiet(reading, EDITED, NOBODY)
    requires
      var sources := EDITED.records[0].content.sources;
      && Differing(EDITED.files, sources) == [0]
      && SameSources(sources, RereadOf(EDITED.files, sources, [0])) && Updatable(reading, EDITED.files, sources, [0])
    requires AfterBuild(reading, initial, SCANNING, NOBODY, a, built, reused, journalled, b)
    ensures built == Ok && b.world == EDITED && b.project.Some? && b.project.value.Persisted() == Some(0)
    ensures b.project.value.hasPath && b.project.value.fingerprint == 1
  {
    hide Quiet, Constructed, OnBaseline, AllSeen, AllSeenAtOnce, BuiltInFull, UpdatedFrom, Updatable, RereadOf,
      SameSources, BuildableNow, Differing;
    assert QuietBuild(reading, SCANNING, EDITED, built, reused, b.project);
    assert StillMeans(reading, EDITED, 1);
  }

  lemma {:induction false} StaleSave(
      reading: Reading, b: Moment, saved: Status, transaction: Option<nat>, written: bool, c: Moment)
    requires b.world == EDITED && b.project.Some? && b.project.value.Persisted() == Some(0) && reading.means(7) == Some(1)
    requires b.project.value.hasPath && b.project.value.fingerprint == 1
    requires Quiet(reading, EDITED, NOBODY) && Saved(reading, NOBODY, b, saved, transaction, written, c)
    ensures saved == Ok && !written
  {
    hide Quiet, SaveKeeps, Passed, Holds, Brought, Active;
  }
}
