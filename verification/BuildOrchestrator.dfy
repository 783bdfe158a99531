/** The orchestration of one build over several components, each prepared first and published
    last: for every pattern of failing components a sparse update publishes everything or nothing,
    and a rebuild replaces the owner's state as a whole or leaves it. The components' contents are
    opaque; what each derives from the sources is a parameter. */
module BuildOrchestrator {
  import opened Wrappers

  /** What the sources say, and the file tokens beside it, which carry no meaning. */
  datatype Sources = Sources(content: nat, stamps: nat)

  /** What parsing and building derive from the sources' content. */
  datatype Derivation = Derivation(contributions: nat -> nat, graph: nat -> nat, interfaces: nat -> nat)

  /** The construction state and the generation records beside it. */
  datatype State = State(
    sources: Sources,
    contributions: nat,
    graph: nat,
    interfaces: nat,
    directory: Option<nat>,
    change: Option<nat>,
    segment: Option<nat>,
    roots: Option<nat>)

  /** Every component stands for the same sources. */
  predicate Consistent(k: Derivation, s: State) {
    && s.contributions == k.contributions(s.sources.content)
    && s.graph == k.graph(s.sources.content)
    && s.interfaces == k.interfaces(s.sources.content)
  }

  /** A project's committed state. */
  class Project {
    var state: State

    constructor (state: State)
      ensures this.state == state
    {
      this.state := state;
    }
  }

  /** An update of the source manager: invisible until published, and published only if prepared. */
  class SourceUpdate {
    const project: Project
    var next: Sources
    var prepared: bool

    constructor (project: Project, next: Sources)
      ensures this.project == project && this.next == next && !prepared
    {
      this.project, this.next, prepared := project, next, false;
    }

    method Prepare(fault: Status) returns (status: Status)
      modifies this
      ensures status == fault && prepared == (fault == Ok) && next == old(next)
    {
      prepared, status := fault == Ok, fault;
    }

    method PublishPrepared()
      modifies project
      ensures project.state == if prepared then old(project.state).(sources := next) else old(project.state)
    {
      if prepared { project.state := project.state.(sources := next); }
    }
  }

  /** The generation builder: contributions and graph together. */
  class Builder {
    const project: Project
    var contributions: nat
    var graph: nat
    var prepared: bool

    constructor (project: Project)
      ensures this.project == project && !prepared
    {
      this.project, contributions, graph, prepared := project, 0, 0, false;
    }

    method Prepare(contributions: nat, graph: nat, fault: Status) returns (status: Status)
      modifies this
      ensures status == fault && prepared == (fault == Ok)
      ensures prepared ==> this.contributions == contributions && this.graph == graph
    {
      this.contributions, this.graph := contributions, graph;
      prepared, status := fault == Ok, fault;
    }

    method PublishPrepared()
      modifies project
      ensures
        project.state ==
        if prepared then old(project.state).(contributions := contributions, graph := graph) else old(project.state)
    {
      if prepared { project.state := project.state.(contributions := contributions, graph := graph); }
    }
  }

  /** An update of the interface cache: a replacement for each source, then the preparation. */
  class CacheUpdate {
    const project: Project
    const next: nat
    var staged: bool
    var prepared: bool

    constructor (project: Project, next: nat)
      ensures this.project == project && this.next == next && !prepared && !staged
    {
      this.project, this.next, staged, prepared := project, next, false, false;
    }

    method ReplaceAll(fault: Status) returns (status: Status)
      modifies this
      ensures status == fault && staged == (fault == Ok) && prepared == old(prepared)
    {
      staged, status := fault == Ok, fault;
    }

    method Prepare(fault: Status) returns (status: Status)
      modifies this
      ensures status == fault && prepared == (fault == Ok && staged) && staged == old(staged)
    {
      prepared, status := fault == Ok && staged, fault;
    }

    method PublishPrepared()
      modifies project
      ensures project.state == if prepared then old(project.state).(interfaces := next) else old(project.state)
    {
      if prepared { project.state := project.state.(interfaces := next); }
    }
  }

  /** `faults` says which status each fallible component call returns. `parsed` tells whether any
      source was parsed or removed; without one only file tokens differ. */
  datatype Work = Work(
    next: Sources,
    parsed: bool,
    dirty: bool,
    pressure: bool,
    complete: bool,
    anchored: bool,
    capture: nat,
    disabledCapture: nat,
    faults: nat -> Status)

  /** The state after a successful update. */
  function Updated(k: Derivation, s: State, w: Work): State {
    if !w.dirty then s
    else if !w.parsed then s.(sources := w.next)
    else
      State(w.next, k.contributions(w.next.content), k.graph(w.next.content), k.interfaces(w.next.content), None,
            if w.anchored then Some(if w.faults(6) == Ok then w.capture else w.disabledCapture) else None, None, s.roots)
  }

  /** What comes of capturing a checkpoint, where a journal that is missing is disabled. */
  function Captured(faults: nat -> Status, n: nat): Status {
    if faults(n) == NotFound then faults(n + 1) else faults(n)
  }

  /** The calls of an update, each made if those before it succeed. */
  function UpdateStatus(k: Derivation, s: State, w: Work): Status {
    Then(
      if w.pressure then RebuildRequired else if !w.complete then NotAvailable else Ok,
      if !w.dirty then Ok
      else if !w.parsed then Then(w.faults(0), w.faults(4))
      else
        Then(w.faults(0), Then(w.faults(1), Then(if NeedsBuilder(k, s, w) then w.faults(2) else Ok,
          Then(w.faults(3), Then(w.faults(4), Then(w.faults(5), if w.anchored then Captured(w.faults, 6) else Ok)))))))
  }

  /** Whether any call on the way fails. */
  predicate UpdateFails(k: Derivation, s: State, w: Work) {
    || w.pressure || !w.complete
    || (w.dirty &&
        (|| w.faults(0) != Ok
         || (if !w.parsed then w.faults(4) != Ok
             else
               || w.faults(1) != Ok
               || (NeedsBuilder(k, s, w) && w.faults(2) != Ok)
               || w.faults(3) != Ok || w.faults(4) != Ok || w.faults(5) != Ok
               || (w.anchored && w.faults(6) != Ok && (w.faults(6) != NotFound || w.faults(7) != Ok)))))
  }

  /** Sources whose facts are as they were are not handed to the builder at all. */
  predicate NeedsBuilder(k: Derivation, s: State, w: Work) {
    k.contributions(w.next.content) != s.contributions || k.graph(w.next.content) != s.graph
  }

  method Update(k: Derivation, p: Project, w: Work) returns (status: Status, changed: bool)
    requires Consistent(k, p.state)
    requires !w.parsed ==> w.next.content == p.state.sources.content
    modifies p
    ensures status == UpdateStatus(k, old(p.state), w)
    ensures status == Ok <==> !UpdateFails(k, old(p.state), w)
    ensures p.state == if status == Ok then Updated(k, old(p.state), w) else old(p.state)
    ensures changed <==> status == Ok && w.dirty && w.parsed
    ensures Consistent(k, p.state)
  {
    changed := false;
    if w.pressure { return RebuildRequired, false; }
    if !w.complete { return NotAvailable, false; }
    if !w.dirty { return Ok, false; }
    var sourceUpdate := new SourceUpdate(p, w.next);
    if w.faults(0) != Ok { return w.faults(0), false; }
    if !w.parsed {
      status := sourceUpdate.Prepare(w.faults(4));
      if status != Ok { return; }
      sourceUpdate.PublishPrepared();
      return;
    }
    if w.faults(1) != Ok { return w.faults(1), false; }
    var builder := new Builder(p);
    if k.contributions(w.next.content) != p.state.contributions || k.graph(w.next.content) != p.state.graph {
      status := builder.Prepare(k.contributions(w.next.content), k.graph(w.next.content), w.faults(2));
      if status != Ok { return; }
    }
    var cacheUpdate := new CacheUpdate(p, k.interfaces(w.next.content));
    status := cacheUpdate.ReplaceAll(w.faults(3));
    if status != Ok { return; }
    status := sourceUpdate.Prepare(w.faults(4));
    if status != Ok { return; }
    status := cacheUpdate.Prepare(w.faults(5));
    if status != Ok { return; }
    var change := None;
    if w.anchored {
      status := w.faults(6);
      change := Some(w.capture);
      if status == NotFound {
        status := w.faults(7);
        change := Some(w.disabledCapture);
      }
      if status != Ok { return; }
    }
    sourceUpdate.PublishPrepared();
    builder.PublishPrepared();
    cacheUpdate.PublishPrepared();
    p.state := p.state.(directory := None, change := change, segment := None);
    changed, status := true, Ok;
  }

  // ---------- Rebuild ----------

  /** A full build. `directory`, `segment` and `roots` are what the generation keeps beside the
      components; `rootsMatch` tells whether as many roots were resolved as configured. */
  datatype Full = Full(
    next: Sources,
    collected: Status,
    directory: nat,
    capture: nat,
    disabledCapture: nat,
    segment: Option<nat>,
    roots: nat,
    rootsMatch: bool,
    faults: nat -> Status)

  /** The calls of a full build, each made if those before it succeed. */
  function FullStatus(f: Full): Status {
    Then(f.collected, Then(f.faults(0), Then(f.faults(1), Then(f.faults(2), Then(f.faults(3), Then(f.faults(4),
      Then(f.faults(5), Then(f.faults(6), Then(Captured(f.faults, 7), if f.rootsMatch then Ok else InitializationFailed)))))))))
  }

  predicate FailsBeforePublishing(f: Full) {
    f.collected != Ok || exists n :: 0 <= n < 6 && f.faults(n) != Ok
  }

  predicate CaptureFails(f: Full) { f.faults(7) != Ok && (f.faults(7) != NotFound || f.faults(8) != Ok) }

  predicate FailsAfterPublishing(f: Full) { f.faults(6) != Ok || CaptureFails(f) || !f.rootsMatch }

  function Built(k: Derivation, s: State, f: Full): State {
    s.(sources := f.next, contributions := k.contributions(f.next.content), graph := k.graph(f.next.content),
       interfaces := k.interfaces(f.next.content))
  }

  function Completed(k: Derivation, s: State, f: Full): State {
    Built(k, s, f).(
      directory := Some(f.directory),
      change := Some(if f.faults(7) == Ok then f.capture else f.disabledCapture),
      segment := f.segment,
      roots := Some(f.roots))
  }

  /** The state a full build in place leaves, wherever it stops. */
  function Reached(k: Derivation, s: State, f: Full): State {
    if FailsBeforePublishing(f) then s
    else if f.faults(6) != Ok then Built(k, s, f)
    else if CaptureFails(f) then Built(k, s, f).(directory := Some(f.directory))
    else if !f.rootsMatch then Completed(k, s, f).(roots := s.roots)
    else Completed(k, s, f)
  }

  /** Builds into the project itself. It can fail after the components are published: then they
      are, but the generation records beside them are not all there. */
  method RebuildCurrent(k: Derivation, p: Project, f: Full) returns (status: Status, changed: bool)
    modifies p
    ensures status == FullStatus(f)
    ensures status == Ok <==> !FailsBeforePublishing(f) && !FailsAfterPublishing(f)
    ensures p.state == Reached(k, old(p.state), f)
    ensures Consistent(k, old(p.state)) ==> Consistent(k, p.state)
    ensures changed <==> status == Ok
  {
    changed := false;
    if f.collected != Ok { return f.collected, false; }
    var sourceUpdate := new SourceUpdate(p, f.next);
    if f.faults(0) != Ok { return f.faults(0), false; }
    if f.faults(1) != Ok { return f.faults(1), false; }
    var builder := new Builder(p);
    status := builder.Prepare(k.contributions(f.next.content), k.graph(f.next.content), f.faults(2));
    if status != Ok { return; }
    var cacheUpdate := new CacheUpdate(p, k.interfaces(f.next.content));
    status := cacheUpdate.ReplaceAll(f.faults(3));
    if status != Ok { return; }
    status := sourceUpdate.Prepare(f.faults(4));
    if status != Ok { return; }
    status := cacheUpdate.Prepare(f.faults(5));
    if status != Ok { return; }
    sourceUpdate.PublishPrepared();
    builder.PublishPrepared();
    cacheUpdate.PublishPrepared();
    if f.faults(6) != Ok { return f.faults(6), false; }
    p.state := p.state.(directory := Some(f.directory));
    status := f.faults(7);
    var change := f.capture;
    if status == NotFound {
      status := f.faults(8);
      change := f.disabledCapture;
    }
    if status != Ok { return; }
    p.state := p.state.(change := Some(change), segment := f.segment);
    if !f.rootsMatch { return InitializationFailed, false; }
    p.state := p.state.(roots := Some(f.roots));
    changed, status := true, Ok;
  }

  /** Builds into a detached candidate and hands its state over as a whole. */
  method Rebuild(k: Derivation, p: Project, empty: State, f: Full) returns (status: Status)
    modifies p
    ensures status == FullStatus(f)
    ensures status == Ok <==> !FailsBeforePublishing(f) && !FailsAfterPublishing(f)
    ensures p.state == if status == Ok then Completed(k, empty, f) else old(p.state)
  {
    var candidate := new Project(empty);
    var changed;
    status, changed := RebuildCurrent(k, candidate, f);
    if status != Ok { return; }
    p.state := candidate.state;
  }

  /** A full build in place is not atomic: it reports a failure and yet has replaced the
      components exactly if what fails comes after they are published. */
  lemma {:induction false} FailureAfterPublication(k: Derivation, s: State, f: Full)
    requires f.next.content != s.sources.content
    ensures
      FailsBeforePublishing(f) || FailsAfterPublishing(f) ==>
        (Reached(k, s, f) != s <==> !FailsBeforePublishing(f))
    ensures Reached(k, s, f) == Completed(k, s, f) || Reached(k, s, f).roots == s.roots
    ensures Consistent(k, s) ==> Consistent(k, Reached(k, s, f))
  {
    if !FailsBeforePublishing(f) {
      assert Reached(k, s, f).sources == f.next;
    }
  }

  // ---------- Whole runs ----------

  datatype Build = Sparse(work: Work) | Whole(full: Full) | InPlace(inPlace: Full)

  /** Where nothing is parsed or removed, the sources' content is what it was. */
  function Effective(s: State, w: Work): Work {
    if w.parsed then w else w.(next := Sources(s.sources.content, w.next.stamps))
  }

  /** What one build may do to the state, and when it succeeds. */
  predicate Follows(k: Derivation, empty: State, before: State, b: Build, status: Status, after: State) {
    match b
    case Sparse(work) =>
      var w := Effective(before, work);
      && status == UpdateStatus(k, before, w) && (status == Ok <==> !UpdateFails(k, before, w))
      && after == if status == Ok then Updated(k, before, w) else before
    case Whole(f) =>
      && status == FullStatus(f) && (status == Ok <==> !FailsBeforePublishing(f) && !FailsAfterPublishing(f))
      && after == if status == Ok then Completed(k, empty, f) else before
    case InPlace(f) =>
      && status == FullStatus(f) && (status == Ok <==> !FailsBeforePublishing(f) && !FailsAfterPublishing(f))
      && after == Reached(k, before, f)
  }

  predicate IsRun(k: Derivation, empty: State, run: seq<Build>, statuses: seq<Status>, states: seq<State>) {
    && |statuses| == |run| && |states| == |run| + 1
    && (forall i :: 0 <= i < |run| ==> Follows(k, empty, states[i], run[i], statuses[i], states[i + 1]))
    && forall i :: 0 <= i <= |run| ==> Consistent(k, states[i])
  }

  /** Over any sequence of builds with any failures, every build does exactly what its faults
      allow, and after each of them the components stand for the same sources. */
  method RunAll(k: Derivation, p: Project, empty: State, run: seq<Build>)
    returns (statuses: seq<Status>, states: seq<State>)
    requires Consistent(k, p.state)
    modifies p
    ensures IsRun(k, empty, run, statuses, states)
    ensures states[0] == old(p.state) && states[|run|] == p.state
  {
    hide Follows, Consistent;
    statuses, states := [], [p.state];
    var i := 0;
    while i < |run|
      invariant 0 <= i <= |run| && IsRun(k, empty, run[..i], statuses, states)
      invariant states[0] == old(p.state) && states[i] == p.state
    {
      var status := Perform(k, p, empty, run[i]);
      ghost var done := run[..i];
      statuses, states := statuses + [status], states + [p.state];
      i := i + 1;
      assert forall j :: 0 <= j < i - 1 ==> run[..i][j] == done[j];
    }
    assert run[..|run|] == run;
  }

  method Perform(k: Derivation, p: Project, empty: State, b: Build) returns (status: Status)
    requires Consistent(k, p.state)
    modifies p
    ensures Follows(k, empty, old(p.state), b, status, p.state) && Consistent(k, p.state)
  {
    hide UpdateFails, FailsBeforePublishing, FailsAfterPublishing, Reached, UpdateStatus, FullStatus;
    var changed;
    match b
    case Sparse(work) =>
      status, changed := Update(k, p, Effective(p.state, work));
    case Whole(full) =>
      status := Rebuild(k, p, empty, full);
    case InPlace(full) =>
      status, changed := RebuildCurrent(k, p, full);
  }
}
