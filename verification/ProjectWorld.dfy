/** What surrounds one project: a store of immutable transactions whose CURRENT other writers may
    move, a configuration file, and source files that may be edited at any moment. Every file keeps
    its history, and everything that ever happens is an event, so that a world is the replay of
    the events that led to it. */
module ProjectWorld {
  import opened Wrappers
  import opened Generation

  /** The identity of a configuration file: its text, which the hash of it identifies, and
      optionally the revision of the file that a change token proves. */
  datatype Proof = Proof(text: nat, token: Option<nat>)

  datatype Record = Record(fingerprint: nat, content: Content, configuration: Option<Proof>)

  // ---------- The world ----------

  /** `history` lists the texts the configuration file has had; its last entry is the current one.
      A token captured now is the number of the current revision. `files` holds the history of
      every other file. */
  datatype World = World(
    records: map<nat, Record>,
    current: Option<nat>,
    history: seq<nat>,
    present: bool,
    files: map<nat, seq<File>>)
  {
    function Revision(): nat
      requires history != []
    {
      |history| - 1
    }

    function Text(): nat
      requires history != []
    {
      history[|history| - 1]
    }
  }

  /** A path nobody has written to has always been missing. */
  function HistoryOf(files: map<nat, seq<File>>, path: nat): (h: seq<File>)
    ensures h != []
  {
    if path in files && files[path] != [] then files[path] else [Missing]
  }

  function FileOf(files: map<nat, seq<File>>, path: nat): File {
    var h := HistoryOf(files, path);
    h[|h| - 1]
  }

  function EditsOf(files: map<nat, seq<File>>, path: nat): seq<File> { if path in files then files[path] else [] }

  /** One thing that happens while the manager works: records committed by other writers, CURRENT
      moved among the records, and edits of the configuration and of sources. */
  datatype Change = Change(commits: map<nat, Record>, current: Option<nat>, edits: seq<nat>, present: bool,
                           files: map<nat, seq<File>>)

  predicate ProofOk(reading: Reading, history: seq<nat>, fingerprint: nat, p: Proof) {
    && reading.means(p.text) == Some(fingerprint)
    && (p.token.Some? ==> p.token.value < |history| && history[p.token.value] == p.text)
  }

  predicate RecordOk(reading: Reading, history: seq<nat>, r: Record) {
    && r.content.fingerprint == r.fingerprint && WellBuilt(reading, r.content.sources)
    && (r.configuration.Some? ==> ProofOk(reading, history, r.fingerprint, r.configuration.value))
  }

  predicate WorldOk(reading: Reading, w: World) {
    && w.history != []
    && (w.current.Some? ==> w.current.value in w.records)
    && forall t | t in w.records :: RecordOk(reading, w.history, w.records[t])
  }

  ghost predicate FilesLater(a: map<nat, seq<File>>, b: map<nat, seq<File>>) {
    forall path :: HistoryOf(a, path) <= HistoryOf(b, path)
  }

  /** Transactions are never changed, and revisions never forgotten. */
  ghost predicate Later(a: World, b: World) {
    && a.history <= b.history && FilesLater(a.files, b.files)
    && forall t | t in a.records :: t in b.records && b.records[t] == a.records[t]
  }

  function EditedFiles(files: map<nat, seq<File>>, edits: map<nat, seq<File>>): map<nat, seq<File>> {
    map path | path in files.Keys + edits.Keys :: HistoryOf(files, path) + EditsOf(edits, path)
  }

  /** The world after a change by others. They use the same program, so only records that are in
      order appear, under unused names. */
  function Changed(reading: Reading, w: World, c: Change): World {
    var history := w.history + c.edits;
    var records := (map t | t in c.commits && RecordOk(reading, history, c.commits[t]) :: c.commits[t]) + w.records;
    World(records, if c.current.Some? && c.current.value in records then c.current else w.current, history, c.present,
          EditedFiles(w.files, c.files))
  }

  lemma {:induction false} EditedLater(files: map<nat, seq<File>>, edits: map<nat, seq<File>>)
    ensures FilesLater(files, EditedFiles(files, edits))
  {
    var after := EditedFiles(files, edits);
    forall path ensures HistoryOf(files, path) <= HistoryOf(after, path) {
      if path in after {
        assert after[path] == HistoryOf(files, path) + EditsOf(edits, path);
        assert after[path] != [];
      }
    }
  }

  lemma {:induction false} ChangedIsLater(reading: Reading, w: World, c: Change)
    requires WorldOk(reading, w)
    ensures WorldOk(reading, Changed(reading, w, c)) && Later(w, Changed(reading, w, c))
  {
    hide FilesLater, EditedFiles;
    EditedLater(w.files, c.files);
    var v := Changed(reading, w, c);
    forall t | t in v.records ensures RecordOk(reading, v.history, v.records[t]) {
      if t in w.records {
        assert RecordOk(reading, w.history, w.records[t]);
        LongerHistory(reading, w.history, v.history, w.records[t]);
      }
    }
  }

  lemma {:induction false} LongerHistory(reading: Reading, a: seq<nat>, b: seq<nat>, r: Record)
    requires a <= b && RecordOk(reading, a, r)
    ensures RecordOk(reading, b, r)
  {}

  lemma {:induction false} FilesLaterSelf(a: map<nat, seq<File>>)
    ensures FilesLater(a, a)
  {}

  lemma {:induction false} FilesLaterTwice(a: map<nat, seq<File>>, b: map<nat, seq<File>>, c: map<nat, seq<File>>)
    requires FilesLater(a, b) && FilesLater(b, c)
    ensures FilesLater(a, c)
  {
    forall path ensures HistoryOf(a, path) <= HistoryOf(c, path) {
      assert HistoryOf(a, path) <= HistoryOf(b, path) <= HistoryOf(c, path);
    }
  }

  lemma {:induction false} LaterTwice(a: World, b: World, c: World)
    requires Later(a, b) && Later(b, c)
    ensures Later(a, c)
  {
    FilesLaterTwice(a.files, b.files, c.files);
    hide FilesLater;
  }

  // ---------- Events ----------

  /** Others act, or the manager commits a transaction. */
  datatype Event = Others(change: Change) | Own(transaction: nat, record: Record)

  function Happens(reading: Reading, w: World, e: Event): World {
    match e
    case Others(c) => Changed(reading, w, c)
    case Own(t, r) => w.(records := w.records[t := r], current := Some(t))
  }

  function Replay(reading: Reading, w: World, events: seq<Event>): World {
    if events == [] then w
    else Happens(reading, Replay(reading, w, events[..|events| - 1]), events[|events| - 1])
  }

  lemma {:induction false} ReplayStep(reading: Reading, w: World, events: seq<Event>, e: Event)
    ensures Replay(reading, w, events + [e]) == Happens(reading, Replay(reading, w, events), e)
  {
    assert (events + [e])[..|events|] == events;
  }

  /** Where a record comes from. */
  predicate Provides(e: Event, t: nat, r: Record) {
    e == Own(t, r) || (e.Others? && t in e.change.commits && e.change.commits[t] == r)
  }

  /** No record appears from nowhere: it was there, or one of the events brought it. */
  lemma {:induction false} RecordsAccounted(reading: Reading, w: World, events: seq<Event>, t: nat)
    requires t in Replay(reading, w, events).records
    ensures
      var r := Replay(reading, w, events).records[t];
      (t in w.records && w.records[t] == r) || exists i :: 0 <= i < |events| && Provides(events[i], t, r)
  {
    if events != [] {
      var front, e := events[..|events| - 1], events[|events| - 1];
      var before := Replay(reading, w, front);
      var r := Replay(reading, w, events).records[t];
      if Provides(e, t, r) {
      } else {
        assert t in before.records && before.records[t] == r;
        RecordsAccounted(reading, w, front, t);
        if !(t in w.records && w.records[t] == r) {
          var i :| 0 <= i < |front| && Provides(front[i], t, r);
          assert events[i] == front[i];
        }
      }
    }
  }

  // ---------- What others do during one call ----------

  /** One read of a file: what happens just before it, and whether it fails. */
  datatype Glance = Glance(before: Change, fault: Status)

  /** `faults` says which status each fallible call returns, `Ok` for none; `changes` what others
      do at each point where they may act; `scan` and `read` the same for the files that are read
      one after another. */
  datatype Outside = Outside(faults: nat -> Status, changes: nat -> Change, scan: nat -> Glance, read: nat -> Glance)

  ghost predicate DoneBy(o: Outside, c: Change) {
    || (exists n: nat :: c == o.changes(n))
    || (exists n: nat :: c == o.scan(n).before)
    || (exists n: nat :: c == o.read(n).before)
  }

  ghost predicate Outer(o: Outside, e: Event) { e.Others? && DoneBy(o, e.change) }

  /** No call fails and nobody else acts. */
  ghost predicate Quiet(reading: Reading, w: World, o: Outside) {
    && (forall n: nat :: o.faults(n) == Ok && Changed(reading, w, o.changes(n)) == w)
    && (forall n: nat :: o.scan(n).fault == Ok && Changed(reading, w, o.scan(n).before) == w)
    && (forall n: nat :: o.read(n).fault == Ok && Changed(reading, w, o.read(n).before) == w)
  }

  // ---------- Files seen during a stretch of time ----------

  /** Between the two moments `file` was one of the file's revisions. */
  ghost predicate ReadDuring(a: map<nat, seq<File>>, b: map<nat, seq<File>>, path: nat, file: File) {
    exists r :: |HistoryOf(a, path)| - 1 <= r < |HistoryOf(b, path)| && HistoryOf(b, path)[r] == file
  }

  /** Between the two moments the source was at some time as it was seen. */
  ghost predicate SeenDuring(a: map<nat, seq<File>>, b: map<nat, seq<File>>, s: Source) {
    exists file :: ReadDuring(a, b, s.path, file) && SameFile(s.file, file)
  }

  lemma {:induction false} ReadNow(a: map<nat, seq<File>>, b: map<nat, seq<File>>, path: nat)
    requires FilesLater(a, b)
    ensures ReadDuring(a, b, path, FileOf(b, path))
  {
    assert HistoryOf(a, path) <= HistoryOf(b, path);
    assert HistoryOf(b, path)[|HistoryOf(b, path)| - 1] == FileOf(b, path);
  }

  /** A longer stretch of time only sees more. */
  lemma {:induction false} ReadLonger(
      a: map<nat, seq<File>>, b: map<nat, seq<File>>, c: map<nat, seq<File>>, d: map<nat, seq<File>>, path: nat, file: File)
    requires FilesLater(a, b) && FilesLater(c, d) && ReadDuring(b, c, path, file)
    ensures ReadDuring(a, d, path, file)
  {
    assert HistoryOf(a, path) <= HistoryOf(b, path) && HistoryOf(c, path) <= HistoryOf(d, path);
    var r :| |HistoryOf(b, path)| - 1 <= r < |HistoryOf(c, path)| && HistoryOf(c, path)[r] == file;
    assert HistoryOf(d, path)[r] == file;
  }

  lemma {:induction false} SeenLonger(
      a: map<nat, seq<File>>, b: map<nat, seq<File>>, c: map<nat, seq<File>>, d: map<nat, seq<File>>, s: Source)
    requires FilesLater(a, b) && FilesLater(c, d) && SeenDuring(b, c, s)
    ensures SeenDuring(a, d, s)
  {
    var file :| ReadDuring(b, c, s.path, file) && SameFile(s.file, file);
    ReadLonger(a, b, c, d, s.path, file);
  }

  /** In this one world the sources are as they were seen. */
  predicate AsSeen(files: map<nat, seq<File>>, s: Source) { SameFile(s.file, FileOf(files, s.path)) }

  // ---------- The change journal ----------

  /** What the journal says about the sources of a generation: that it cannot tell, that nothing
      has happened, or entries, which resolve to the numbers of sources or not at all. */
  datatype Answer = CannotTell | NoEntries | Entries(resolved: Option<seq<nat>>)

  /** The change journal, asked about the sources and, by a token, about the configuration file:
      whether it proves anything, and whether the file has changed. */
  datatype Detector = Detector(journal: (Content, World) -> Answer, configuration: (nat, World) -> (bool, bool))

  /** The sources the journal does not name are as they were seen. */
  predicate NamesAll(files: map<nat, seq<File>>, sources: seq<Source>, dirty: seq<nat>) {
    forall i :: 0 <= i < |sources| && i !in dirty ==> AsSeen(files, sources[i])
  }

  /** The journal reports every change or answers that it cannot tell. */
  ghost predicate Sound(d: Detector) {
    && (forall c: Content, w: World | d.journal(c, w) == NoEntries :: NamesAll(w.files, c.sources, []))
    && (forall c: Content, w: World | d.journal(c, w).Entries? && d.journal(c, w).resolved.Some? ::
          NamesAll(w.files, c.sources, d.journal(c, w).resolved.value))
    && (forall token: nat, w: World | w.history != [] ::
          d.configuration(token, w).0 && !d.configuration(token, w).1 ==> w.present && token == w.Revision())
  }
}
