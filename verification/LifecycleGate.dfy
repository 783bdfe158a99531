/** The admission gate and the project lifecycle as a protocol of atomic steps: any number of
    threads acquire and release access, construct or abandon a project, and unload it.
    The gate is one 64-bit word: a closed bit above a count. */
module LifecycleGate {
  import opened Wrappers

  const CLOSED: nat := 0x8000_0000_0000_0000

  datatype Lifecycle = Unloaded | Constructing | Ready | Draining

  /** Where a thread is. Every constructor is a point between two atomic operations. */
  datatype Point =
    | Idle
    // acquire
    | SawReady                    // the first look at the lifecycle said ready
    | Loaded(value: nat)          // try_enter has read the word and will compare-and-swap
    | Entered                     // counted, second look at the lifecycle still to come
    | Confirmed                   // the second look said ready, project still to be read
    | Holding(access: nat)        // owns an access token to this project
    | Refused                     // counted, but must leave again
    | OwesNotify                  // took the count to zero, notify_all still to come
    // construct
    | Building                    // reserved the construction
    | Installed                   // the project is in place, the gate still closed
    | Opened                      // the gate is open, ready still to be stored
    | Abandoning                  // the project was dropped, unloaded still to be stored
    // unload
    | MustClose                   // stored draining
    | ClosedOwesNotify            // closed the gate, notify_all still to come
    | Loading                     // about to read the word in wait_drained
    | Waiting(seen: nat)          // read a word with a positive count, about to wait on it
    | Parked(seen: nat)           // asleep until notified
    | Drained                     // saw a zero count, project still to be reset
    | Reset                       // project reset, unloaded still to be stored

  /** `next` names the next project to be constructed. */
  datatype State = State(word: nat, lifecycle: Lifecycle, project: Option<nat>, next: nat, threads: seq<Point>)

  predicate IsClosed(word: nat) { word >= CLOSED }

  /** The word without its closed bit. */
  function CountOf(word: nat): nat { if word >= CLOSED then word - CLOSED else word }

  predicate InGate(p: Point) { p.Entered? || p.Confirmed? || p.Holding? || p.Refused? }

  predicate InConstruction(p: Point) { p.Building? || p.Installed? || p.Opened? || p.Abandoning? }

  predicate InUnload(p: Point) {
    p.MustClose? || p.ClosedOwesNotify? || p.Loading? || p.Waiting? || p.Parked? || p.Drained? || p.Reset?
  }

  // ---------- Steps ----------

  /** The names of all atomic steps; `other` is the receiving thread of a moved token. */
  datatype Step =
    | LookReady | LoadWord | CompareAndSwap(spurious: bool) | LookAgain | TakeProject | Move(other: nat) | Leave | Notify
    | Reserve | Abandon | Install | Open | StoreReady | StoreUnloaded
    | StartUnload | Close | ReadWord | Wait | ResetProject

  function Awake(p: Point): Point { if p.Parked? then Loading else p }

  /** `notify_all`: every parked thread goes back to reading the word. */
  function WakeAll(threads: seq<Point>): (r: seq<Point>)
    ensures |r| == |threads| && forall i :: 0 <= i < |r| ==> r[i] == Awake(threads[i])
  {
    seq(|threads|, i requires 0 <= i < |threads| => Awake(threads[i]))
  }

  function At(s: State, t: nat, p: Point): State
    requires t < |s.threads|
  {
    s.(threads := s.threads[t := p])
  }

  /** Decrement, and owe a notification when the count was one. */
  function Left(s: State, t: nat): State
    requires t < |s.threads| && s.word > 0
  {
    At(s.(word := s.word - 1), t, if CountOf(s.word) == 1 then OwesNotify else Idle)
  }

  predicate Enabled(s: State, t: nat, a: Step) {
    t < |s.threads| &&
    var p := s.threads[t];
    match a
    case LookReady => p.Idle?
    case LoadWord => p.SawReady?
    case CompareAndSwap(_) => p.Loaded?
    case LookAgain => p.Entered?
    case TakeProject => p.Confirmed?
    case Move(other) => p.Holding? && other < |s.threads| && s.threads[other].Idle?
    case Leave => (p.Holding? || p.Refused?) && s.word > 0
    case Notify => p.OwesNotify? || p.ClosedOwesNotify?
    case Reserve => p.Idle?
    case Abandon => p.Building?
    case Install => p.Building?
    case Open => p.Installed?
    case StoreReady => p.Opened?
    case StoreUnloaded => p.Abandoning? || p.Reset?
    case StartUnload => p.Idle?
    case Close => p.MustClose?
    case ReadWord => p.Loading?
    case Wait => p.Waiting?
    case ResetProject => p.Drained?
  }

  /** One atomic step of thread `t`. */
  function After(s: State, t: nat, a: Step): State
    requires Enabled(s, t, a)
  {
    var p := s.threads[t];
    match a
    case LookReady => if s.lifecycle.Ready? then At(s, t, SawReady) else s
    case LoadWord => At(s, t, Loaded(s.word))
    case CompareAndSwap(spurious) =>
      if IsClosed(p.value) || CountOf(p.value) == CLOSED - 1 then At(s, t, Idle)
      else if s.word == p.value && !spurious then At(s.(word := s.word + 1), t, Entered)
      else At(s, t, Loaded(s.word))
    case LookAgain => At(s, t, if s.lifecycle.Ready? then Confirmed else Refused)
    case TakeProject => At(s, t, if s.project.Some? then Holding(s.project.value) else Refused)
    case Move(other) => s.(threads := s.threads[t := Idle][other := p])
    case Leave => Left(s, t)
    case Notify => s.(threads := WakeAll(s.threads)[t := if p.OwesNotify? then Idle else Loading])
    case Reserve => if s.lifecycle.Unloaded? then At(s.(lifecycle := Constructing), t, Building) else s
    case Abandon => At(s.(project := None), t, Abandoning)
    case Install => At(s.(project := Some(s.next), next := s.next + 1), t, Installed)
    case Open => s.(word := 0, threads := WakeAll(s.threads)[t := Opened])
    case StoreReady => At(s.(lifecycle := Ready), t, Idle)
    case StoreUnloaded => At(s.(lifecycle := Unloaded), t, Idle)
    case StartUnload => if s.lifecycle.Ready? then At(s.(lifecycle := Draining), t, MustClose) else s
    case Close => At(s.(word := if IsClosed(s.word) then s.word else s.word + CLOSED), t, ClosedOwesNotify)
    case ReadWord => At(s, t, if CountOf(s.word) == 0 then Drained else Waiting(s.word))
    case Wait => At(s, t, if s.word == p.seen then Parked(s.word) else Loading)
    case ResetProject => At(s.(project := None), t, Reset)
  }

  // ---------- Counting threads ----------

  datatype Role = Gate | Construction | Unload

  predicate Plays(p: Point, r: Role) {
    match r
    case Gate => InGate(p)
    case Construction => InConstruction(p)
    case Unload => InUnload(p)
  }

  function Playing(threads: seq<Point>, r: Role): nat {
    if threads == [] then 0
    else Playing(threads[..|threads| - 1], r) + if Plays(threads[|threads| - 1], r) then 1 else 0
  }

  lemma {:induction false} PlayingUpdate(threads: seq<Point>, t: nat, p: Point, r: Role)
    requires t < |threads|
    ensures Playing(threads[t := p], r)
         == Playing(threads, r) - (if Plays(threads[t], r) then 1 else 0) + (if Plays(p, r) then 1 else 0)
  {
    var last := |threads| - 1;
    if t == last {
      assert threads[t := p][..last] == threads[..last];
    } else {
      assert threads[t := p][..last] == threads[..last][t := p];
      PlayingUpdate(threads[..last], t, p, r);
    }
  }

  lemma {:induction false} PlayingWake(threads: seq<Point>, r: Role)
    ensures Playing(WakeAll(threads), r) == Playing(threads, r)
  {
    if threads != [] {
      assert WakeAll(threads)[..|threads| - 1] == WakeAll(threads[..|threads| - 1]);
      PlayingWake(threads[..|threads| - 1], r);
    }
  }

  lemma {:induction false} PlayingAt(threads: seq<Point>, t: nat, r: Role)
    requires t < |threads|
    ensures Plays(threads[t], r) ==> Playing(threads, r) >= 1
    ensures Plays(threads[t], r) && Playing(threads, r) < 2 ==>
      forall u :: 0 <= u < |threads| && u != t ==> !Plays(threads[u], r)
  {
    PlayingUpdate(threads, t, Idle, r);
    forall u | 0 <= u < |threads| && u != t && Plays(threads[u], r) && Plays(threads[t], r)
      ensures Playing(threads, r) >= 2
    {
      PlayingUpdate(threads[t := Idle], u, Idle, r);
    }
  }

  // ---------- The invariant ----------

  /** What each lifecycle says about the gate and the project. */
  predicate Phase(s: State) {
    match s.lifecycle
    case Unloaded =>
      s.word == CLOSED && s.project.None? && Playing(s.threads, Construction) == 0 && Playing(s.threads, Unload) == 0
    case Constructing => Playing(s.threads, Construction) == 1 && Playing(s.threads, Unload) == 0
    case Ready =>
      !IsClosed(s.word) && s.project.Some? && Playing(s.threads, Construction) == 0 && Playing(s.threads, Unload) == 0
    case Draining => Playing(s.threads, Construction) == 0 && Playing(s.threads, Unload) == 1
  }

  /** What a thread at a given point may rely on. */
  predicate Local(s: State, p: Point) {
    match p
    case Confirmed => (s.lifecycle.Ready? || s.lifecycle.Draining?) && s.project.Some?
    case Holding(access) => (s.lifecycle.Ready? || s.lifecycle.Draining?) && s.project == Some(access)
    case Building => s.lifecycle.Constructing? && s.word == CLOSED && s.project.None?
    case Abandoning => s.lifecycle.Constructing? && s.word == CLOSED && s.project.None?
    case Installed => s.lifecycle.Constructing? && s.word == CLOSED && s.project.Some?
    case Opened => s.lifecycle.Constructing? && !IsClosed(s.word) && s.project.Some?
    case MustClose => s.lifecycle.Draining? && !IsClosed(s.word) && s.project.Some?
    case ClosedOwesNotify => s.lifecycle.Draining? && IsClosed(s.word) && s.project.Some?
    case Loading => s.lifecycle.Draining? && IsClosed(s.word) && s.project.Some?
    case Waiting(seen) => s.lifecycle.Draining? && IsClosed(s.word) && s.project.Some? && CountOf(seen) > 0
    case Parked(seen) => s.lifecycle.Draining? && IsClosed(s.word) && s.project.Some?
    case Drained => s.lifecycle.Draining? && s.word == CLOSED && s.project.Some?
    case Reset => s.lifecycle.Draining? && s.word == CLOSED && s.project.None?
    case _ => true
  }

  predicate Locals(s: State) { forall t :: 0 <= t < |s.threads| ==> Local(s, s.threads[t]) }

  /** A parked unloader is never forgotten: someone is still counted, or someone who took the
      count to zero still owes the notification. */
  predicate NoLostWakeup(s: State) {
    SomebodyParked(s.threads) ==> CountOf(s.word) > 0 || SomebodyOwes(s.threads)
  }

  predicate SomebodyParked(threads: seq<Point>) { exists t :: 0 <= t < |threads| && threads[t].Parked? }

  predicate SomebodyOwes(threads: seq<Point>) { exists t :: 0 <= t < |threads| && threads[t].OwesNotify? }

  predicate Inv(s: State) {
    && s.word < 2 * CLOSED
    && CountOf(s.word) == Playing(s.threads, Gate)
    && Phase(s)
    && Locals(s)
    && NoLostWakeup(s)
  }

  // ---------- Every step keeps the invariant ----------

  lemma {:induction false} PlayingAll(threads: seq<Point>, t: nat, p: Point)
    requires t < |threads|
    ensures forall r ::
      Playing(threads[t := p], r) ==
        Playing(threads, r) - (if Plays(threads[t], r) then 1 else 0) + (if Plays(p, r) then 1 else 0)
    ensures forall r :: Plays(threads[t], r) ==> Playing(threads, r) >= 1
  {
    forall r
      ensures Playing(threads[t := p], r)
        == Playing(threads, r) - (if Plays(threads[t], r) then 1 else 0) + (if Plays(p, r) then 1 else 0)
      ensures Plays(threads[t], r) ==> Playing(threads, r) >= 1
    {
      PlayingUpdate(threads, t, p, r);
      PlayingAt(threads, t, r);
    }
  }

  /** While one thread constructs or unloads, no other thread does. */
  lemma {:induction false} Alone(s: State, t: nat)
    requires Inv(s) && t < |s.threads| && (InConstruction(s.threads[t]) || InUnload(s.threads[t]))
    ensures forall u :: 0 <= u < |s.threads| && u != t ==> !InConstruction(s.threads[u]) && !InUnload(s.threads[u])
  {
    PlayingAt(s.threads, t, Construction);
    PlayingAt(s.threads, t, Unload);
    forall u | 0 <= u < |s.threads| && u != t ensures !InConstruction(s.threads[u]) && !InUnload(s.threads[u]) {
      PlayingAt(s.threads, u, Construction);
      PlayingAt(s.threads, u, Unload);
    }
  }

  /** A positive count means somebody is in the gate, and a counted thread makes it positive. */
  lemma {:induction false} NobodyInGate(s: State)
    requires Inv(s) && CountOf(s.word) == 0
    ensures forall u :: 0 <= u < |s.threads| ==> !InGate(s.threads[u])
  {
    forall u | 0 <= u < |s.threads| ensures !InGate(s.threads[u]) {
      PlayingAt(s.threads, u, Gate);
    }
  }

  lemma {:induction false} NobodyBusy(s: State)
    requires Inv(s) && (s.lifecycle.Ready? || s.lifecycle.Unloaded?)
    ensures forall u :: 0 <= u < |s.threads| ==> !InConstruction(s.threads[u]) && !InUnload(s.threads[u])
  {
    forall u | 0 <= u < |s.threads| ensures !InConstruction(s.threads[u]) && !InUnload(s.threads[u]) {
      PlayingAt(s.threads, u, Construction);
      PlayingAt(s.threads, u, Unload);
    }
  }

  /** A step that only moves its own thread between points that play the same roles. */
  lemma {:induction false} MoveSelf(s: State, t: nat, p: Point)
    requires Inv(s) && t < |s.threads| && Local(s, p)
    requires forall r :: Plays(p, r) == Plays(s.threads[t], r)
    requires !s.threads[t].OwesNotify? && (p.Parked? ==> CountOf(s.word) > 0)
    ensures Inv(At(s, t, p))
  {
    PlayingAll(s.threads, t, p);
    var after := At(s, t, p);
    if k :| 0 <= k < |after.threads| && after.threads[k].Parked? {
      if CountOf(s.word) == 0 {
        assert s.threads[k].Parked?;
        var u :| 0 <= u < |s.threads| && s.threads[u].OwesNotify?;
        assert after.threads[u].OwesNotify?;
      }
    }
  }

  lemma {:induction false} KeepsEntering(s: State, t: nat, spurious: bool)
    requires Inv(s) && Enabled(s, t, CompareAndSwap(spurious))
    ensures Inv(After(s, t, CompareAndSwap(spurious)))
  {
    var p := s.threads[t];
    var after := After(s, t, CompareAndSwap(spurious));
    if after.word == s.word {
      MoveSelf(s, t, after.threads[t]);
    } else {
      PlayingAll(s.threads, t, Entered);
      assert !IsClosed(after.word);
      forall k | 0 <= k < |after.threads| ensures Local(after, after.threads[k]) {
        assert Local(s, s.threads[k]);
      }
    }
  }

  lemma {:induction false} KeepsLeaving(s: State, t: nat)
    requires Inv(s) && Enabled(s, t, Leave)
    ensures Inv(After(s, t, Leave))
  {
    var after := After(s, t, Leave);
    PlayingAll(s.threads, t, after.threads[t]);
    assert CountOf(s.word) > 0;
    assert IsClosed(after.word) == IsClosed(s.word) && CountOf(after.word) == CountOf(s.word) - 1;
    assert !s.lifecycle.Unloaded?;
    forall k | 0 <= k < |after.threads| ensures Local(after, after.threads[k]) {
      assert Local(s, s.threads[k]);
    }
    if CountOf(after.word) == 0 {
      assert after.threads[t].OwesNotify?;
    }
  }

  lemma {:induction false} KeepsMoving(s: State, t: nat, other: nat)
    requires Inv(s) && Enabled(s, t, Move(other))
    ensures Inv(After(s, t, Move(other)))
  {
    var p := s.threads[t];
    PlayingAll(s.threads, t, Idle);
    PlayingAll(s.threads[t := Idle], other, p);
    var after := After(s, t, Move(other));
    assert Local(s, p);
    PlayingAt(s.threads, t, Gate);
  }

  lemma {:induction false} NobodyParked(threads: seq<Point>, t: nat, p: Point)
    requires t < |threads| && !p.Parked?
    ensures !SomebodyParked(WakeAll(threads)[t := p])
  {
  }

  lemma {:induction false} WakeKeepsPhase(s: State)
    requires Phase(s)
    ensures Phase(s.(threads := WakeAll(s.threads)))
    ensures Playing(WakeAll(s.threads), Gate) == Playing(s.threads, Gate)
  {
    forall r ensures Playing(WakeAll(s.threads), r) == Playing(s.threads, r) { PlayingWake(s.threads, r); }
  }

  lemma {:induction false} SameLocal(s: State, after: State, p: Point)
    requires after.word == s.word && after.lifecycle == s.lifecycle && after.project == s.project && Local(s, p)
    ensures Local(after, p) && Local(after, Awake(p)) && Local(after, Idle)
    ensures p.ClosedOwesNotify? ==> Local(after, Loading)
  {
  }

  lemma {:induction false} KeepsNotifying(s: State, t: nat)
    requires Inv(s) && Enabled(s, t, Notify)
    ensures Inv(After(s, t, Notify))
  {
    var after := After(s, t, Notify);
    WakeKeepsPhase(s);
    PlayingAll(WakeAll(s.threads), t, after.threads[t]);
    NobodyParked(s.threads, t, after.threads[t]);
    hide SomebodyParked, SomebodyOwes, Local;
    forall k | 0 <= k < |after.threads| ensures Local(after, after.threads[k]) {
      assert Local(s, s.threads[k]);
      SameLocal(s, after, s.threads[k]);
    }
  }

  lemma {:induction false} KeepsReserving(s: State, t: nat)
    requires Inv(s) && Enabled(s, t, Reserve)
    ensures Inv(After(s, t, Reserve))
  {
    if s.lifecycle.Unloaded? {
      PlayingAll(s.threads, t, Building);
      NobodyBusy(s);
      NobodyInGate(s);
      var after := After(s, t, Reserve);
      forall k | 0 <= k < |after.threads| ensures Local(after, after.threads[k]) {
        assert Local(s, s.threads[k]);
      }
    }
  }

  lemma {:induction false} KeepsConstructing(s: State, t: nat, a: Step)
    requires Inv(s) && Enabled(s, t, a) && (a.Abandon? || a.Install?)
    ensures Inv(After(s, t, a))
  {
    var after := After(s, t, a);
    PlayingAll(s.threads, t, after.threads[t]);
    assert Local(s, s.threads[t]);
    Alone(s, t);
    NobodyInGate(s);
    forall k | 0 <= k < |after.threads| ensures Local(after, after.threads[k]) {
      assert Local(s, s.threads[k]);
    }
  }

  lemma {:induction false} KeepsOpening(s: State, t: nat)
    requires Inv(s) && Enabled(s, t, Open)
    ensures Inv(After(s, t, Open))
  {
    var woken := WakeAll(s.threads);
    var after := After(s, t, Open);
    forall r ensures Playing(woken, r) == Playing(s.threads, r) { PlayingWake(s.threads, r); }
    PlayingAll(woken, t, Opened);
    assert Local(s, s.threads[t]);
    Alone(s, t);
    NobodyInGate(s);
    forall k | 0 <= k < |after.threads| ensures Local(after, after.threads[k]) {
      assert Local(s, s.threads[k]);
    }
  }

  lemma {:induction false} KeepsStoring(s: State, t: nat, a: Step)
    requires Inv(s) && Enabled(s, t, a) && (a.StoreReady? || a.StoreUnloaded?)
    ensures Inv(After(s, t, a))
  {
    var after := After(s, t, a);
    PlayingAll(s.threads, t, Idle);
    assert Local(s, s.threads[t]);
    Alone(s, t);
    if a.StoreUnloaded? { NobodyInGate(s); }
    forall k | 0 <= k < |after.threads| ensures Local(after, after.threads[k]) {
      assert Local(s, s.threads[k]);
    }
  }

  lemma {:induction false} KeepsStartingUnload(s: State, t: nat)
    requires Inv(s) && Enabled(s, t, StartUnload)
    ensures Inv(After(s, t, StartUnload))
  {
    if s.lifecycle.Ready? {
      var after := After(s, t, StartUnload);
      PlayingAll(s.threads, t, MustClose);
      NobodyBusy(s);
      forall k | 0 <= k < |after.threads| ensures Local(after, after.threads[k]) {
        assert Local(s, s.threads[k]);
      }
    }
  }

  lemma {:induction false} KeepsClosing(s: State, t: nat)
    requires Inv(s) && Enabled(s, t, Close)
    ensures Inv(After(s, t, Close))
  {
    var after := After(s, t, Close);
    PlayingAll(s.threads, t, ClosedOwesNotify);
    assert Local(s, s.threads[t]);
    Alone(s, t);
    forall k | 0 <= k < |after.threads| ensures Local(after, after.threads[k]) {
      assert Local(s, s.threads[k]);
    }
  }

  lemma {:induction false} KeepsResetting(s: State, t: nat)
    requires Inv(s) && Enabled(s, t, ResetProject)
    ensures Inv(After(s, t, ResetProject))
  {
    var after := After(s, t, ResetProject);
    PlayingAll(s.threads, t, Reset);
    assert Local(s, s.threads[t]);
    Alone(s, t);
    NobodyInGate(s);
    forall k | 0 <= k < |after.threads| ensures Local(after, after.threads[k]) {
      assert Local(s, s.threads[k]);
    }
  }

  lemma {:induction false} KeepsAcquiring(s: State, t: nat, a: Step)
    requires Inv(s) && Enabled(s, t, a)
    requires a.LookReady? || a.LoadWord? || a.LookAgain? || a.TakeProject?
    ensures Inv(After(s, t, a))
  {
    var after := After(s, t, a);
    assert Local(s, s.threads[t]);
    if after != s {
      MoveSelf(s, t, after.threads[t]);
    }
  }

  lemma {:induction false} KeepsWaiting(s: State, t: nat, a: Step)
    requires Inv(s) && Enabled(s, t, a) && (a.ReadWord? || a.Wait?)
    ensures Inv(After(s, t, a))
  {
    assert Local(s, s.threads[t]);
    MoveSelf(s, t, After(s, t, a).threads[t]);
  }

  /** Every atomic step of every thread keeps the invariant. */
  lemma {:induction false} StepKeepsInv(s: State, t: nat, a: Step)
    requires Inv(s) && Enabled(s, t, a)
    ensures Inv(After(s, t, a))
  {
    hide Inv, After;
    match a
    case CompareAndSwap(spurious) => KeepsEntering(s, t, spurious);
    case Leave => KeepsLeaving(s, t);
    case Move(other) => KeepsMoving(s, t, other);
    case Notify => KeepsNotifying(s, t);
    case Reserve => KeepsReserving(s, t);
    case Abandon => KeepsConstructing(s, t, a);
    case Install => KeepsConstructing(s, t, a);
    case Open => KeepsOpening(s, t);
    case StoreReady => KeepsStoring(s, t, a);
    case StoreUnloaded => KeepsStoring(s, t, a);
    case StartUnload => KeepsStartingUnload(s, t);
    case Close => KeepsClosing(s, t);
    case ResetProject => KeepsResetting(s, t);
    case ReadWord => KeepsWaiting(s, t, a);
    case Wait => KeepsWaiting(s, t, a);
    case _ => KeepsAcquiring(s, t, a);
  }

  // ---------- Runs ----------

  predicate Initial(s: State) {
    s.word == CLOSED && s.lifecycle.Unloaded? && s.project.None? && forall t :: 0 <= t < |s.threads| ==> s.threads[t].Idle?
  }

  ghost predicate Next(s: State, after: State) {
    exists t: nat, a: Step :: Enabled(s, t, a) && after == After(s, t, a)
  }

  ghost predicate Run(run: seq<State>) {
    |run| > 0 && Initial(run[0]) && forall i :: 0 <= i < |run| - 1 ==> Next(run[i], run[i + 1])
  }

  /** What the gate promises in every reachable state. */
  predicate Safe(s: State) {
    // a live token refers to the current project
    && (forall t :: 0 <= t < |s.threads| && s.threads[t].Holding? ==> s.project == Some(s.threads[t].access))
    // the count is the number of tokens plus the threads between enter and leave
    && CountOf(s.word) == Playing(s.threads, Gate)
    // the gate is opened, and the project dropped, only when closed and empty
    && (forall t :: 0 <= t < |s.threads| && (s.threads[t].Installed? || s.threads[t].Drained?) ==> s.word == CLOSED)
    // one constructor or unloader at a time
    && Playing(s.threads, Construction) + Playing(s.threads, Unload) <= 1
    // no wake-up is lost
    && NoLostWakeup(s)
  }

  lemma {:induction false} NobodyPlays(threads: seq<Point>, r: Role)
    requires forall t :: 0 <= t < |threads| ==> !Plays(threads[t], r)
    ensures Playing(threads, r) == 0
  {
    if threads != [] {
      NobodyPlays(threads[..|threads| - 1], r);
    }
  }

  lemma {:induction false} InitialInv(s: State)
    requires Initial(s)
    ensures Inv(s)
  {
    NobodyPlays(s.threads, Gate);
    NobodyPlays(s.threads, Construction);
    NobodyPlays(s.threads, Unload);
  }

  lemma {:induction false} InvIsSafe(s: State)
    requires Inv(s)
    ensures Safe(s)
  {
    forall t | 0 <= t < |s.threads| ensures Local(s, s.threads[t]) {}
  }

  lemma {:induction false} RunInv(run: seq<State>, i: nat)
    requires Run(run) && i < |run|
    ensures Inv(run[i])
  {
    hide Inv, Enabled, After;
    if i == 0 {
      InitialInv(run[0]);
    } else {
      RunInv(run, i - 1);
      assert Next(run[i - 1], run[i - 1 + 1]);
      var t: nat, a: Step :| Enabled(run[i - 1], t, a) && run[i] == After(run[i - 1], t, a);
      StepKeepsInv(run[i - 1], t, a);
    }
  }

  /** In every interleaving of any number of threads, every state is safe. */
  lemma {:induction false} EveryRunIsSafe(run: seq<State>)
    requires Run(run)
    ensures forall i :: 0 <= i < |run| ==> Safe(run[i])
  {
    forall i | 0 <= i < |run| ensures Safe(run[i]) {
      RunInv(run, i);
      InvIsSafe(run[i]);
    }
  }

  /** The missing-project branch of `acquire` is never taken. */
  lemma {:induction false} ConfirmedFindsProject(s: State, t: nat)
    requires Inv(s) && t < |s.threads| && s.threads[t].Confirmed?
    ensures Enabled(s, t, TakeProject) && After(s, t, TakeProject).threads[t].Holding?
  {
    assert Local(s, s.threads[t]);
  }

  // ---------- Draining ends ----------

  /** How much work a thread still has before a draining gate is empty and the unloader done. */
  function Weight(p: Point, word: nat): nat {
    match p
    case Idle => 0
    case SawReady => 3
    case Loaded(value) => if IsClosed(value) then 1 else 2
    case Entered => 40
    case Confirmed => 30
    case Holding(_) => 20
    case Refused => 20
    case OwesNotify => 6
    case ClosedOwesNotify => 10
    case Loading => 3
    case Waiting(seen) => if seen == word then 2 else 4
    case Parked(_) => 1
    case Drained => 2
    case Reset => 1
    case _ => 50
  }

  function Rank(threads: seq<Point>, word: nat): nat {
    if threads == [] then 0 else Rank(threads[..|threads| - 1], word) + Weight(threads[|threads| - 1], word)
  }

  lemma {:induction false} RankUpdate(threads: seq<Point>, t: nat, p: Point, word: nat)
    requires t < |threads|
    ensures Rank(threads[t := p], word) == Rank(threads, word) - Weight(threads[t], word) + Weight(p, word)
  {
    var last := |threads| - 1;
    if t == last {
      assert threads[t := p][..last] == threads[..last];
    } else {
      assert threads[t := p][..last] == threads[..last][t := p];
      RankUpdate(threads[..last], t, p, word);
    }
  }

  /** Changing the word, or waking everybody, costs each unloading thread at most two. */
  lemma {:induction false} RankDisturbed(threads: seq<Point>, word: nat, changed: nat)
    ensures Rank(threads, changed) <= Rank(threads, word) + 2 * Playing(threads, Unload)
    ensures Rank(WakeAll(threads), word) <= Rank(threads, word) + 2 * Playing(threads, Unload)
  {
    if threads != [] {
      assert WakeAll(threads)[..|threads| - 1] == WakeAll(threads[..|threads| - 1]);
      RankDisturbed(threads[..|threads| - 1], word, changed);
    }
  }

  predicate DrainPhase(s: State) { s.lifecycle.Draining? && IsClosed(s.word) }

  lemma {:induction false} LeavingLowersRank(s: State, t: nat)
    requires Inv(s) && DrainPhase(s) && Enabled(s, t, Leave)
    ensures Rank(After(s, t, Leave).threads, After(s, t, Leave).word) < Rank(s.threads, s.word)
    ensures DrainPhase(After(s, t, Leave))
  {
    var after := After(s, t, Leave);
    PlayingAt(s.threads, t, Gate);
    RankDisturbed(s.threads, s.word, after.word);
    RankUpdate(s.threads, t, after.threads[t], after.word);
  }

  lemma {:induction false} NotifyingLowersRank(s: State, t: nat)
    requires Inv(s) && DrainPhase(s) && Enabled(s, t, Notify)
    ensures Rank(After(s, t, Notify).threads, s.word) < Rank(s.threads, s.word)
  {
    var after := After(s, t, Notify);
    RankDisturbed(s.threads, s.word, s.word);
    RankUpdate(WakeAll(s.threads), t, after.threads[t], s.word);
  }

  lemma {:induction false} OwnStepLowersRank(s: State, t: nat, a: Step)
    requires Inv(s) && DrainPhase(s) && Enabled(s, t, a) && !a.Move? && !a.Leave? && !a.Notify?
    ensures var after := After(s, t, a);
      after == s || after.lifecycle.Unloaded? ||
      (DrainPhase(after) && Rank(after.threads, after.word) < Rank(s.threads, s.word))
  {
    assert Local(s, s.threads[t]);
    RankUpdate(s.threads, t, After(s, t, a).threads[t], s.word);
    hide Inv, Rank, CountOf;
  }

  /** While the gate drains, every step except passing a token on and a futile look at the
      lifecycle brings the end closer. */
  lemma {:induction false} DrainStepsDecrease(s: State, t: nat, a: Step)
    requires Inv(s) && DrainPhase(s) && Enabled(s, t, a) && !a.Move?
    ensures var after := After(s, t, a);
      after == s || after.lifecycle.Unloaded? ||
      (DrainPhase(after) && Rank(after.threads, after.word) < Rank(s.threads, s.word))
  {
    if a.Leave? {
      LeavingLowersRank(s, t);
    } else if a.Notify? {
      NotifyingLowersRank(s, t);
    } else {
      OwnStepLowersRank(s, t, a);
    }
  }

  predicate Effective(s: State, t: nat, a: Step) {
    Enabled(s, t, a) && !a.Move? && After(s, t, a) != s
  }

  /** A draining gate is never stuck: some thread can always take an effective step, and when
      nobody is left in the gate it is the unloader or a thread that owes it a notification. */
  lemma {:induction false} DrainNeverStuck(s: State) returns (t: nat, a: Step)
    requires Inv(s) && DrainPhase(s)
    ensures Effective(s, t, a)
    ensures CountOf(s.word) == 0 ==> InUnload(s.threads[t]) || s.threads[t].OwesNotify?
  {
    t := FindRole(s.threads, Unload);
    var p := s.threads[t];
    assert Local(s, p);
    if p.Parked? {
      if CountOf(s.word) > 0 {
        t := FindRole(s.threads, Gate);
        a := if s.threads[t].Entered? then LookAgain else if s.threads[t].Confirmed? then TakeProject else Leave;
        assert After(s, t, a).threads[t] != s.threads[t];
      } else {
        t :| 0 <= t < |s.threads| && s.threads[t].OwesNotify?;
        a := Notify;
        assert After(s, t, a).threads[t] != s.threads[t];
      }
    } else {
      a := match p
        case ClosedOwesNotify => Notify
        case Loading => ReadWord
        case Waiting(_) => Wait
        case Drained => ResetProject
        case _ => StoreUnloaded;
      assert After(s, t, a).threads[t] != s.threads[t];
    }
  }

  lemma {:induction false} FindRole(threads: seq<Point>, r: Role) returns (t: nat)
    requires Playing(threads, r) > 0
    ensures t < |threads| && Plays(threads[t], r)
  {
    if Plays(threads[|threads| - 1], r) {
      t := |threads| - 1;
    } else {
      t := FindRole(threads[..|threads| - 1], r);
    }
  }

  ghost predicate DrainRun(run: seq<State>) {
    && |run| > 0 && Inv(run[0]) && DrainPhase(run[0])
    && (forall i :: 0 <= i < |run| - 1 ==> EffectiveStep(run[i], run[i + 1]))
    && (forall i :: 0 <= i < |run| - 1 ==> run[i].lifecycle.Draining?)
  }

  ghost predicate EffectiveStep(s: State, after: State) {
    exists t: nat, a: Step :: Effective(s, t, a) && after == After(s, t, a)
  }

  /** So draining takes at most as many effective steps as the rank of its first state. */
  lemma {:induction false} DrainEnds(run: seq<State>)
    requires DrainRun(run)
    ensures |run| <= Rank(run[0].threads, run[0].word) + 2
    decreases |run|
  {
    if |run| > 2 {
      assert EffectiveStep(run[0], run[0 + 1]);
      var t: nat, a: Step :| Effective(run[0], t, a) && run[1] == After(run[0], t, a);
      StepKeepsInv(run[0], t, a);
      DrainStepsDecrease(run[0], t, a);
      assert run[1].lifecycle.Draining?;
      var rest := run[1..];
      forall i | 0 <= i < |rest| - 1 ensures EffectiveStep(rest[i], rest[i + 1]) {
        assert EffectiveStep(run[i + 1], run[i + 1 + 1]);
      }
      DrainEnds(rest);
    }
  }

  // ---------- Somebody gets in ----------

  /** One thread takes these steps, and nobody else moves. */
  predicate Can(s: State, t: nat, steps: seq<Step>)
    decreases |steps|
  {
    steps == [] || (Enabled(s, t, steps[0]) && Can(After(s, t, steps[0]), t, steps[1..]))
  }

  function Did(s: State, t: nat, steps: seq<Step>): State
    requires Can(s, t, steps)
    decreases |steps|
  {
    if steps == [] then s else Did(After(s, t, steps[0]), t, steps[1..])
  }

  lemma {:induction false} OneMore(s: State, t: nat, steps: seq<Step>, a: Step)
    requires Can(s, t, steps) && Enabled(Did(s, t, steps), t, a)
    ensures Can(s, t, steps + [a]) && Did(s, t, steps + [a]) == After(Did(s, t, steps), t, a)
    decreases |steps|
  {
    hide Enabled, After;
    if steps == [] {
      assert (steps + [a])[1..] == [];
    } else {
      assert (steps + [a])[1..] == steps[1..] + [a];
      OneMore(After(s, t, steps[0]), t, steps[1..], a);
    }
  }

  function Spurious(n: nat): seq<Step> { seq(n, _ => CompareAndSwap(true)) }

  /** A comparison that fails for no reason is tried again with the same word. */
  lemma {:induction false} TriesAgain(s: State, t: nat, n: nat)
    requires t < |s.threads| && s.threads[t] == Loaded(s.word) && !IsClosed(s.word) && CountOf(s.word) < CLOSED - 1
    ensures Can(s, t, Spurious(n)) && Did(s, t, Spurious(n)) == s
  {
    if n != 0 {
      assert Spurious(n)[1..] == Spurious(n - 1);
      assert After(s, t, CompareAndSwap(true)).threads == s.threads;
      TriesAgain(s, t, n - 1);
    }
  }

  lemma {:induction false} Joined(s: State, t: nat, first: seq<Step>, rest: seq<Step>)
    requires Can(s, t, first) && Can(Did(s, t, first), t, rest)
    ensures Can(s, t, first + rest) && Did(s, t, first + rest) == Did(Did(s, t, first), t, rest)
    decreases |first|
  {
    hide Enabled, After;
    if first == [] {
      assert first + rest == rest;
    } else {
      assert (first + rest)[1..] == first[1..] + rest;
      Joined(After(s, t, first[0]), t, first[1..], rest);
    }
  }

  /** `acquire` without anybody else: the two looks at the lifecycle, the load, as many comparisons
      as fail for no reason, the one that succeeds, and the project. */
  function AcquireSteps(n: nat): seq<Step> {
    [LookReady, LoadWord] + Spurious(n) + [CompareAndSwap(false), LookAgain, TakeProject]
  }

  /** While a project is ready and the gate has room, a thread that acquires alone gets a token to the
      project, however often the comparison fails for no reason. */
  lemma {:induction false} AcquireSucceeds(s: State, t: nat, n: nat)
    requires Inv(s) && s.lifecycle.Ready? && t < |s.threads| && s.threads[t].Idle? && CountOf(s.word) < CLOSED - 1
    ensures Can(s, t, AcquireSteps(n)) && s.project.Some?
    ensures Did(s, t, AcquireSteps(n)) == At(s.(word := s.word + 1), t, Holding(s.project.value))
  {
    var looked := At(s, t, SawReady);
    var loaded := At(s, t, Loaded(s.word));
    assert looked == After(s, t, LookReady) && After(looked, t, LoadWord).threads == loaded.threads;
    assert Can(s, t, [LookReady, LoadWord]) && Did(s, t, [LookReady, LoadWord]) == loaded by {
      assert [LookReady, LoadWord][1..] == [LoadWord] && [LoadWord][1..] == [];
    }
    TriesAgain(loaded, t, n);
    Joined(s, t, [LookReady, LoadWord], Spurious(n));
    Enters(s, loaded, t);
    Joined(s, t, [LookReady, LoadWord] + Spurious(n), [CompareAndSwap(false), LookAgain, TakeProject]);
  }

  lemma {:induction false} Enters(s: State, loaded: State, t: nat)
    requires s.lifecycle.Ready? && s.project.Some? && !IsClosed(s.word) && CountOf(s.word) < CLOSED - 1
    requires t < |s.threads| && loaded == At(s, t, Loaded(s.word))
    ensures
      var steps := [CompareAndSwap(false), LookAgain, TakeProject];
      && Can(loaded, t, steps)
      && Did(loaded, t, steps) == At(s.(word := s.word + 1), t, Holding(s.project.value))
  {
    var counted := s.(word := s.word + 1);
    var steps := [CompareAndSwap(false), LookAgain, TakeProject];
    assert steps[1..] == [LookAgain, TakeProject] && steps[1..][1..] == [TakeProject] && [TakeProject][1..] == [];
    assert After(loaded, t, CompareAndSwap(false)) == At(counted, t, Entered);
    assert After(At(counted, t, Entered), t, LookAgain) == At(counted, t, Confirmed);
    assert After(At(counted, t, Confirmed), t, TakeProject) == At(counted, t, Holding(s.project.value));
  }

  // ---------- Somebody constructs, somebody unloads ----------

  lemma {:induction false} NobodySleeps(s: State)
    requires Inv(s) && (s.lifecycle.Ready? || s.lifecycle.Unloaded?)
    ensures WakeAll(s.threads) == s.threads
  {
    NobodyBusy(s);
  }

  /** From an unloaded project, a thread that constructs alone ends with the new project ready, an
      empty open gate, and every other thread where it was. */
  lemma {:induction false} ConstructSucceeds(s: State, t: nat)
    requires Inv(s) && s.lifecycle.Unloaded? && t < |s.threads| && s.threads[t].Idle?
    ensures
      var steps := [Reserve, Install, Open, StoreReady];
      && Can(s, t, steps)
      && Did(s, t, steps) == s.(word := 0, lifecycle := Ready, project := Some(s.next), next := s.next + 1)
  {
    NobodySleeps(s);
    var steps := [Reserve, Install, Open, StoreReady];
    assert steps[1..] == [Install, Open, StoreReady] && steps[1..][1..] == [Open, StoreReady];
    assert [Open, StoreReady][1..] == [StoreReady] && [StoreReady][1..] == [];
    var reserved := At(s.(lifecycle := Constructing), t, Building);
    var installed := At(reserved.(project := Some(s.next), next := s.next + 1), t, Installed);
    var unlocked := At(installed.(word := 0), t, Opened);
    assert After(s, t, Reserve) == reserved && After(reserved, t, Install) == installed;
    OthersAwake(s.threads, t, Installed);
    assert After(installed, t, Open) == unlocked;
    assert After(unlocked, t, StoreReady).threads == s.threads;
  }

  lemma {:induction false} OthersAwake(threads: seq<Point>, t: nat, p: Point)
    requires t < |threads| && WakeAll(threads) == threads && !p.Parked?
    ensures WakeAll(threads[t := p]) == threads[t := p]
  {
    var next := threads[t := p];
    forall u | 0 <= u < |next| ensures WakeAll(next)[u] == next[u] {
      assert WakeAll(threads)[u] == threads[u];
    }
  }

  /** A construction that is abandoned leaves everything as it was. */
  lemma {:induction false} AbandonSucceeds(s: State, t: nat)
    requires Inv(s) && s.lifecycle.Unloaded? && t < |s.threads| && s.threads[t].Idle?
    ensures
      var steps := [Reserve, Abandon, StoreUnloaded];
      Can(s, t, steps) && Did(s, t, steps) == s
  {
    var steps := [Reserve, Abandon, StoreUnloaded];
    assert steps[1..] == [Abandon, StoreUnloaded] && steps[1..][1..] == [StoreUnloaded] && [StoreUnloaded][1..] == [];
    var reserved := At(s.(lifecycle := Constructing), t, Building);
    var dropped := At(reserved, t, Abandoning);
    assert After(s, t, Reserve) == reserved && After(reserved, t, Abandon) == dropped;
    assert After(dropped, t, StoreUnloaded).threads == s.threads;
  }

  lemma {:induction false} ClosesAlone(s: State, t: nat)
    requires WakeAll(s.threads) == s.threads && s.lifecycle.Ready? && s.word == 0
    requires t < |s.threads| && s.threads[t].Idle?
    ensures
      var steps := [StartUnload, Close, Notify];
      && Can(s, t, steps)
      && Did(s, t, steps) == At(s.(lifecycle := Draining, word := CLOSED), t, Loading)
  {
    var steps := [StartUnload, Close, Notify];
    assert steps[1..] == [Close, Notify] && steps[1..][1..] == [Notify] && [Notify][1..] == [];
    var draining := At(s.(lifecycle := Draining), t, MustClose);
    var closed := At(draining.(word := CLOSED), t, ClosedOwesNotify);
    assert After(s, t, StartUnload) == draining && After(draining, t, Close) == closed;
    OthersAwake(s.threads, t, ClosedOwesNotify);
    assert After(closed, t, Notify) == At(closed, t, Loading);
  }

  lemma {:induction false} ResetsAlone(s: State, t: nat)
    requires s.lifecycle.Draining? && s.word == CLOSED && t < |s.threads| && s.threads[t].Loading?
    ensures
      var steps := [ReadWord, ResetProject, StoreUnloaded];
      && Can(s, t, steps)
      && Did(s, t, steps) == At(s.(lifecycle := Unloaded, project := None), t, Idle)
  {
    var steps := [ReadWord, ResetProject, StoreUnloaded];
    assert steps[1..] == [ResetProject, StoreUnloaded] && steps[1..][1..] == [StoreUnloaded];
    assert [StoreUnloaded][1..] == [];
    var empty := At(s, t, Drained);
    var reset := At(s.(project := None), t, Reset);
    assert After(s, t, ReadWord) == empty && After(empty, t, ResetProject) == reset;
  }

  /** From a ready project with nobody in the gate, a thread that unloads alone ends with no project
      and a closed gate. */
  lemma {:induction false} UnloadSucceeds(s: State, t: nat)
    requires Inv(s) && s.lifecycle.Ready? && t < |s.threads| && s.threads[t].Idle? && CountOf(s.word) == 0
    ensures
      var steps := [StartUnload, Close, Notify] + [ReadWord, ResetProject, StoreUnloaded];
      && Can(s, t, steps)
      && Did(s, t, steps) == s.(word := CLOSED, lifecycle := Unloaded, project := None)
  {
    NobodySleeps(s);
    hide Inv, Can, Did, WakeAll;
    ClosesAlone(s, t);
    ResetsAlone(At(s.(lifecycle := Draining, word := CLOSED), t, Loading), t);
    Joined(s, t, [StartUnload, Close, Notify], [ReadWord, ResetProject, StoreUnloaded]);
  }

  // ---------- Who does not get in ----------

  /** A run with the thread and the step between any two states. */
  ghost predicate Execution(run: seq<State>, moves: seq<(nat, Step)>) {
    && |run| == |moves| + 1 && Initial(run[0])
    && forall i :: 0 <= i < |moves| ==>
         Enabled(run[i], moves[i].0, moves[i].1) && run[i + 1] == After(run[i], moves[i].0, moves[i].1)
  }

  lemma {:induction false} ExecutionInv(run: seq<State>, moves: seq<(nat, Step)>, i: nat)
    requires Execution(run, moves) && i < |run|
    ensures Inv(run[i]) && |run[i].threads| == |run[0].threads|
  {
    hide Inv, Enabled, After;
    if i == 0 {
      InitialInv(run[0]);
    } else {
      ExecutionInv(run, moves, i - 1);
      assert run[i - 1 + 1] == After(run[i - 1], moves[i - 1].0, moves[i - 1].1);
      StepKeepsInv(run[i - 1], moves[i - 1].0, moves[i - 1].1);
      SameThreads(run[i - 1], moves[i - 1].0, moves[i - 1].1);
    }
  }

  lemma {:induction false} SameThreads(s: State, t: nat, a: Step)
    requires Enabled(s, t, a)
    ensures |After(s, t, a).threads| == |s.threads|
  {}

  /** Thread `t` begins to acquire at `i` and is on its way until `j`. */
  predicate Acquiring(run: seq<State>, moves: seq<(nat, Step)>, t: nat, i: nat, j: nat) {
    && i < j < |run| == |moves| + 1 && (forall k :: 0 <= k < |run| ==> t < |run[k].threads|)
    && run[i].threads[t].Idle? && moves[i] == (t, LookReady)
    && forall k :: i < k < j ==> !run[k].threads[t].Idle? && !run[k].threads[t].Holding?
  }

  /** At its first or second look the thread saw another lifecycle than ready. */
  predicate SawOther(run: seq<State>, moves: seq<(nat, Step)>, t: nat, k: nat) {
    k < |moves| < |run| && (moves[k] == (t, LookReady) || moves[k] == (t, LookAgain)) && !run[k].lifecycle.Ready?
  }

  predicate SawReadyAgain(run: seq<State>, moves: seq<(nat, Step)>, t: nat, k: nat) {
    k < |moves| < |run| && moves[k] == (t, LookAgain) && run[k].lifecycle.Ready?
  }

  /** The word that was there when the thread loaded it, or compared it in vain. */
  predicate SawWord(run: seq<State>, moves: seq<(nat, Step)>, t: nat, k: nat, word: nat) {
    k < |moves| < |run| && moves[k].0 == t && (moves[k].1.LoadWord? || moves[k].1.CompareAndSwap?) && run[k].word == word
  }

  predicate NoRoom(word: nat) { IsClosed(word) || CountOf(word) == CLOSED - 1 }

  /** Why a thread does not get in: it looked and saw another lifecycle, or it met a closed or full gate. */
  ghost predicate KeptOut(run: seq<State>, moves: seq<(nat, Step)>, t: nat, i: nat, j: nat) {
    || (exists k: nat :: i <= k < j && SawOther(run, moves, t, k))
    || (exists k: nat, word: nat :: i <= k < j && SawWord(run, moves, t, k, word) && NoRoom(word))
  }

  /** Why it does: both looks saw a ready project. */
  ghost predicate LetIn(run: seq<State>, moves: seq<(nat, Step)>, t: nat, i: nat, j: nat)
    requires i < |run|
  {
    run[i].lifecycle.Ready? && exists k: nat :: i <= k < j && SawReadyAgain(run, moves, t, k)
  }

  /** Nothing seen so far keeps the thread out, except maybe the last word. */
  ghost predicate NothingBut(run: seq<State>, moves: seq<(nat, Step)>, t: nat, i: nat, j: nat, last: Option<nat>) {
    && (forall k: nat :: i <= k < j ==> !SawOther(run, moves, t, k))
    && forall k: nat, word: nat :: i <= k < j && SawWord(run, moves, t, k, word) && NoRoom(word) ==> last == Some(word)
  }

  /** What a thread on its way has seen so far. */
  ghost predicate Seen(run: seq<State>, moves: seq<(nat, Step)>, t: nat, i: nat, j: nat)
    requires i < j < |run| && t < |run[j].threads|
  {
    match run[j].threads[t]
    case Idle => KeptOut(run, moves, t, i, j)
    case SawReady => run[i].lifecycle.Ready? && NothingBut(run, moves, t, i, j, None)
    case Loaded(word) =>
      && run[i].lifecycle.Ready? && (exists k: nat :: i <= k < j && SawWord(run, moves, t, k, word))
      && NothingBut(run, moves, t, i, j, Some(word))
    case Entered => run[i].lifecycle.Ready? && NothingBut(run, moves, t, i, j, None)
    case Confirmed => LetIn(run, moves, t, i, j) && NothingBut(run, moves, t, i, j, None)
    case Holding(access) => LetIn(run, moves, t, i, j) && NothingBut(run, moves, t, i, j, None)
    case Refused => exists k: nat :: i <= k < j && SawOther(run, moves, t, k)
    case OwesNotify => exists k: nat :: i <= k < j && SawOther(run, moves, t, k)
    case _ => false
  }

  lemma {:induction false} SeenFirst(run: seq<State>, moves: seq<(nat, Step)>, t: nat, i: nat)
    requires Execution(run, moves) && Acquiring(run, moves, t, i, i + 1)
    ensures Seen(run, moves, t, i, i + 1)
  {
    hide Inv;
    assert run[i + 1] == After(run[i], t, LookReady);
    if !run[i].lifecycle.Ready? { assert SawOther(run, moves, t, i); }
  }

  /** What others do does not change what the thread has seen. */
  lemma {:induction false} SeenKept(run: seq<State>, moves: seq<(nat, Step)>, t: nat, i: nat, j: nat)
    requires Execution(run, moves) && Acquiring(run, moves, t, i, j + 1) && i < j && Seen(run, moves, t, i, j)
    requires run[j + 1].threads[t] == run[j].threads[t] && moves[j].0 != t
    ensures Seen(run, moves, t, i, j + 1)
  {
    hide SawReadyAgain, Execution;
  }

  lemma {:induction false} OthersStep(s: State, u: nat, a: Step, t: nat)
    requires Enabled(s, u, a) && t < |s.threads| && u != t
    requires !s.threads[t].Idle? && !InUnload(s.threads[t])
    ensures t < |After(s, u, a).threads| && After(s, u, a).threads[t] == s.threads[t]
  {}

  /** The thread's own next step. */
  lemma {:induction false} SeenNext(run: seq<State>, moves: seq<(nat, Step)>, t: nat, i: nat, j: nat)
    requires Execution(run, moves) && Acquiring(run, moves, t, i, j + 1) && i < j && Seen(run, moves, t, i, j)
    requires moves[j].0 == t && Local(run[j], run[j].threads[t])
    ensures Seen(run, moves, t, i, j + 1)
  {
    var a, p, q := moves[j].1, run[j].threads[t], run[j + 1].threads[t];
    assert !p.Idle? && !p.Holding?;
    assert Enabled(run[j], t, a) && run[j + 1] == After(run[j], t, a);
    hide Execution, Local;
    match p
    case SawReady => assert SawWord(run, moves, t, j, run[j].word);
    case Loaded(word) =>
      if q.Loaded? { assert SawWord(run, moves, t, j, run[j].word); }
    case Entered =>
      if run[j].lifecycle.Ready? { assert SawReadyAgain(run, moves, t, j); } else { assert SawOther(run, moves, t, j); }
    case Confirmed => SeenConfirmed(run, moves, t, i, j);
    case Refused => SeenRefused(run, moves, t, i, j);
    case OwesNotify => SeenRefused(run, moves, t, i, j);
    case _ =>
  }

  lemma {:induction false} SeenConfirmed(run: seq<State>, moves: seq<(nat, Step)>, t: nat, i: nat, j: nat)
    requires i < j < |moves| == |run| - 1 && t < |run[j].threads| && t < |run[j + 1].threads|
    requires run[j].threads[t].Confirmed? && Local(run[j], run[j].threads[t]) && Seen(run, moves, t, i, j)
    requires Enabled(run[j], t, moves[j].1) && run[j + 1] == After(run[j], t, moves[j].1)
    ensures Seen(run, moves, t, i, j + 1)
  {
    hide SawReadyAgain;
    var k :| i <= k < j && SawReadyAgain(run, moves, t, k);
  }

  lemma {:induction false} SeenRefused(run: seq<State>, moves: seq<(nat, Step)>, t: nat, i: nat, j: nat)
    requires i < j < |moves| == |run| - 1 && t < |run[j].threads| && t < |run[j + 1].threads|
    requires (run[j].threads[t].Refused? || run[j].threads[t].OwesNotify?) && Seen(run, moves, t, i, j)
    requires Enabled(run[j], t, moves[j].1) && run[j + 1] == After(run[j], t, moves[j].1)
    ensures Seen(run, moves, t, i, j + 1)
  {
    hide SawOther;
    var k :| i <= k < j && SawOther(run, moves, t, k);
  }

  lemma {:induction false} SeenAlways(run: seq<State>, moves: seq<(nat, Step)>, t: nat, i: nat, j: nat)
    requires Execution(run, moves) && Acquiring(run, moves, t, i, j)
    ensures Seen(run, moves, t, i, j)
    decreases j
  {
    hide Inv, Seen, After, Enabled;
    if j == i + 1 {
      SeenFirst(run, moves, t, i);
    } else {
      SeenAlways(run, moves, t, i, j - 1);
      ExecutionInv(run, moves, j - 1);
      LocalAt(run[j - 1], t);
      assert run[j - 1 + 1] == After(run[j - 1], moves[j - 1].0, moves[j - 1].1);
      assert Enabled(run[j - 1], moves[j - 1].0, moves[j - 1].1);
      if moves[j - 1].0 == t {
        SeenNext(run, moves, t, i, j - 1);
      } else {
        OnItsWay(run, moves, t, i, j - 1);
        OthersStep(run[j - 1], moves[j - 1].0, moves[j - 1].1, t);
        SeenKept(run, moves, t, i, j - 1);
      }
    }
  }

  lemma {:induction false} LocalAt(s: State, t: nat)
    requires Inv(s) && t < |s.threads|
    ensures Local(s, s.threads[t])
  {}

  lemma {:induction false} OnItsWay(run: seq<State>, moves: seq<(nat, Step)>, t: nat, i: nat, j: nat)
    requires i < j < |run| && t < |run[j].threads| && Seen(run, moves, t, i, j) && !run[j].threads[t].Idle?
    ensures !InUnload(run[j].threads[t])
  {}

  /** In every run, an acquisition ends without a token exactly if the thread saw another lifecycle at
      one of its looks, or met a closed or a full gate; with a token it saw a ready project at both. */
  lemma {:induction false} AcquisitionsExplained(run: seq<State>, moves: seq<(nat, Step)>, t: nat, i: nat, j: nat)
    requires Execution(run, moves) && Acquiring(run, moves, t, i, j)
    ensures run[j].threads[t].Idle? ==> KeptOut(run, moves, t, i, j)
    ensures run[j].threads[t].Holding? ==> LetIn(run, moves, t, i, j) && !KeptOut(run, moves, t, i, j)
  {
    hide Execution, LetIn, SawOther, SawWord;
    SeenAlways(run, moves, t, i, j);
  }
}
