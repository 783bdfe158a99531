/** What the two configuration handlers share: a stack of contexts, a pending property, one set of
    seen properties for each context, and a candidate built while events arrive. A schema says
    which context opens where and what a scalar does to the candidate. The machine of events is
    proved to compute the same as a recursive reading of the JSON value. */
module ConfigurationSchema {
  import opened JsonGrammar
  import opened Wrappers

  datatype Failure =
    | WrongRootType
    | UnknownProperty
    | DuplicateProperty
    | WrongFieldType
    | MissingRequiredField
    | InvalidName
    | InvalidPath
    | InvalidRole
    | InvalidTarget
    | InvalidPack
    | InvalidEndpoint
    | DuplicateEndpointName
    | InvalidLogLevel
    | InvalidProjectPath
    | InternalFailure
    | NestingTooDeep

  datatype Outcome<+D> = Accepted(data: D) | Refused(failure: Failure)

  /** `C` is the type of contexts and `D` that of candidates. All properties of a context are
      required. An element context is opened for each element of an array. */
  datatype Schema<!C, !D> = Schema(
    root: C,
    properties: C -> set<string>,
    objectAt: (C, Option<string>) -> Option<C>,
    arrayAt: (C, Option<string>) -> Option<C>,
    isArray: C -> bool,
    isElement: C -> bool,
    begin: (C, D) -> D,
    finish: (C, D) -> Outcome<D>,
    scalar: (C, Option<string>, Json, D) -> Outcome<D>)

  const STACK_SIZE: nat := 8

  datatype State<!C(==), D> = State(
    stack: seq<C>,
    pending: Option<string>,
    failure: Option<Failure>,
    seen: map<C, set<string>>,
    rootObject: bool,
    data: D)

  function Seen<C, D>(st: State<C, D>, c: C): set<string> { if c in st.seen then st.seen[c] else {} }

  /** Nothing read yet. */
  ghost predicate IsInitial<C(!new), D>(st: State<C, D>) {
    st.stack == [] && st.pending.None? && st.failure.None? && !st.rootObject && forall c :: Seen(st, c) == {}
  }

  function Fail<C, D>(st: State<C, D>, f: Failure): State<C, D> { st.(failure := Some(f)) }

  function Push<C, D>(st: State<C, D>, c: C): State<C, D> {
    if |st.stack| == STACK_SIZE then Fail(st, NestingTooDeep) else st.(stack := st.stack + [c])
  }

  function Top<C, D>(st: State<C, D>): C
    requires st.stack != []
  {
    st.stack[|st.stack| - 1]
  }

  function Pop<C, D>(st: State<C, D>): State<C, D>
    requires st.stack != []
  {
    st.(stack := st.stack[..|st.stack| - 1])
  }

  // ---------- The machine ----------

  function OpenObject<C, D>(s: Schema<C, D>, st: State<C, D>): State<C, D> {
    if st.stack == [] then Push(st.(rootObject := true), s.root)
    else
      var next := s.objectAt(Top(st), st.pending);
      if next.None? then Fail(st, WrongFieldType)
      else
        var n := next.value;
        var entered := Push(st.(pending := None), n);
        if s.isElement(n) then entered.(data := s.begin(n, entered.data), seen := entered.seen[n := {}]) else entered
  }

  function CloseObject<C, D>(s: Schema<C, D>, st: State<C, D>): State<C, D> {
    if st.stack == [] then Fail(st, WrongFieldType)
    else
      var c := Top(st);
      if !(s.properties(c) <= Seen(st, c)) then Fail(st, MissingRequiredField)
      else if s.isElement(c) then
        match s.finish(c, st.data)
        case Refused(f) => Fail(st, f)
        case Accepted(data) => Pop(st.(data := data))
      else Pop(st)
  }

  function OpenArray<C, D>(s: Schema<C, D>, st: State<C, D>): State<C, D> {
    if st.stack == [] then Fail(st, WrongRootType)
    else
      var next := s.arrayAt(Top(st), st.pending);
      if next.None? then Fail(st, WrongFieldType) else Push(st.(pending := None), next.value)
  }

  function CloseArray<C, D>(s: Schema<C, D>, st: State<C, D>): State<C, D> {
    if st.stack == [] || !s.isArray(Top(st)) then Fail(st, WrongFieldType) else Pop(st)
  }

  function ReadProperty<C, D>(s: Schema<C, D>, st: State<C, D>, name: string): State<C, D> {
    if st.stack == [] then Fail(st, WrongFieldType)
    else
      var c := Top(st);
      var named := st.(pending := Some(name));
      if name !in s.properties(c) then Fail(named, UnknownProperty)
      else if name in Seen(st, c) then Fail(named, DuplicateProperty)
      else named.(seen := st.seen[c := Seen(st, c) + {name}])
  }

  function ReadScalar<C, D>(s: Schema<C, D>, st: State<C, D>, v: Json): State<C, D> {
    if st.stack == [] then Fail(st, WrongRootType)
    else
      match s.scalar(Top(st), st.pending, v, st.data)
      case Refused(f) => Fail(st, f)
      case Accepted(data) => st.(pending := None, data := data)
  }

  function Step<C, D>(s: Schema<C, D>, st: State<C, D>, e: Event): State<C, D> {
    if st.failure.Some? then st
    else
      match e
      case ObjectBegin => OpenObject(s, st)
      case ObjectEnd => CloseObject(s, st)
      case ArrayBegin => OpenArray(s, st)
      case ArrayEnd => CloseArray(s, st)
      case Key(name) => ReadProperty(s, st, name)
      case Scalar(v) => ReadScalar(s, st, v)
  }

  function Fold<C, D>(s: Schema<C, D>, st: State<C, D>, events: seq<Event>): State<C, D>
    decreases |events|
  {
    if events == [] then st else Fold(s, Step(s, st, events[0]), events[1..])
  }

  predicate Complete<C, D>(st: State<C, D>) { st.rootObject && st.stack == [] && st.failure.None? }

  // ---------- The recursive reading ----------

  /** The candidate after a value in the place (context, property), or nothing if the value may
      not stand there. */
  function Eval<C, D>(s: Schema<C, D>, c: C, p: Option<string>, v: Json, data: D): Option<D>
    decreases v, 0
  {
    match v
    case Obj(members) =>
      var next := s.objectAt(c, p);
      if next.None? then None else EvalObject(s, next.value, members, data)
    case Arr(items) =>
      var next := s.arrayAt(c, p);
      if next.None? then None else EvalItems(s, next.value, items, data)
    case _ =>
      var r := s.scalar(c, p, v, data);
      if r.Accepted? then Some(r.data) else None
  }

  function EvalObject<C, D>(s: Schema<C, D>, c: C, members: seq<Member>, data: D): Option<D>
    decreases members, 2
  {
    if s.isElement(c) then
      var r := EvalMembers(s, c, members, {}, s.begin(c, data));
      if r.None? then None
      else
        var f := s.finish(c, r.value);
        if f.Accepted? then Some(f.data) else None
    else EvalMembers(s, c, members, {}, data)
  }

  function EvalItems<C, D>(s: Schema<C, D>, c: C, items: seq<Json>, data: D): Option<D>
    decreases items, 1
  {
    if items == [] then Some(data)
    else
      var r := Eval(s, c, None, items[0], data);
      if r.None? then None else EvalItems(s, c, items[1..], r.value)
  }

  /** The members still to read when the properties in `seen` have been read. */
  function EvalMembers<C, D>(s: Schema<C, D>, c: C, members: seq<Member>, seen: set<string>, data: D): Option<D>
    decreases members, 1
  {
    if members == [] then if s.properties(c) <= seen then Some(data) else None
    else
      var name := members[0].key;
      if name !in s.properties(c) || name in seen then None
      else
        var r := Eval(s, c, Some(name), members[0].value, data);
        if r.None? then None else EvalMembers(s, c, members[1..], seen + {name}, r.value)
  }

  function EvalRoot<C, D>(s: Schema<C, D>, v: Json, data: D): Option<D> {
    if v.Obj? then EvalMembers(s, s.root, v.members, {}, data) else None
  }

  // ---------- What is wrong first ----------

  /** The reading with the reason for a refusal: the first one in the order of the text. */
  function Judge<C, D>(s: Schema<C, D>, c: C, p: Option<string>, v: Json, data: D): Outcome<D>
    decreases v, 0
  {
    match v
    case Obj(members) =>
      var next := s.objectAt(c, p);
      if next.None? then Refused(WrongFieldType) else JudgeObject(s, next.value, members, data)
    case Arr(items) =>
      var next := s.arrayAt(c, p);
      if next.None? then Refused(WrongFieldType) else JudgeItems(s, next.value, items, data)
    case _ => s.scalar(c, p, v, data)
  }

  function JudgeObject<C, D>(s: Schema<C, D>, c: C, members: seq<Member>, data: D): Outcome<D>
    decreases members, 2
  {
    if s.isElement(c) then
      var r := JudgeMembers(s, c, members, {}, s.begin(c, data));
      if r.Refused? then r else s.finish(c, r.data)
    else JudgeMembers(s, c, members, {}, data)
  }

  function JudgeItems<C, D>(s: Schema<C, D>, c: C, items: seq<Json>, data: D): Outcome<D>
    decreases items, 1
  {
    if items == [] then Accepted(data)
    else
      var r := Judge(s, c, None, items[0], data);
      if r.Refused? then r else JudgeItems(s, c, items[1..], r.data)
  }

  function JudgeMembers<C, D>(s: Schema<C, D>, c: C, members: seq<Member>, seen: set<string>, data: D): Outcome<D>
    decreases members, 1
  {
    if members == [] then if s.properties(c) <= seen then Accepted(data) else Refused(MissingRequiredField)
    else
      var name := members[0].key;
      if name !in s.properties(c) then Refused(UnknownProperty)
      else if name in seen then Refused(DuplicateProperty)
      else
        var r := Judge(s, c, Some(name), members[0].value, data);
        if r.Refused? then r else JudgeMembers(s, c, members[1..], seen + {name}, r.data)
  }

  function JudgeRoot<C, D>(s: Schema<C, D>, v: Json, data: D): Outcome<D> {
    if v.Obj? then JudgeMembers(s, s.root, v.members, {}, data) else Refused(WrongRootType)
  }

  function Data<D>(r: Outcome<D>): Option<D> { if r.Accepted? then Some(r.data) else None }

  lemma {:induction false} JudgeIsEval<C, D>(s: Schema<C, D>, c: C, p: Option<string>, v: Json, data: D)
    ensures Eval(s, c, p, v, data) == Data(Judge(s, c, p, v, data))
    decreases v, 2
  {
    match v
    case Obj(members) =>
      var next := s.objectAt(c, p);
      if next.Some? {
        JudgeMembersIsEval(s, next.value, members, {}, if s.isElement(next.value) then s.begin(next.value, data) else data);
      }
    case Arr(items) =>
      var next := s.arrayAt(c, p);
      if next.Some? { JudgeItemsIsEval(s, next.value, items, data); }
    case _ =>
  }

  lemma {:induction false} JudgeItemsIsEval<C, D>(s: Schema<C, D>, c: C, items: seq<Json>, data: D)
    ensures EvalItems(s, c, items, data) == Data(JudgeItems(s, c, items, data))
    decreases items, 3
  {
    hide Eval, Judge;
    if items != [] {
      JudgeIsEval(s, c, None, items[0], data);
      var r := Judge(s, c, None, items[0], data);
      if r.Accepted? { JudgeItemsIsEval(s, c, items[1..], r.data); }
    }
  }

  lemma {:induction false} JudgeMembersIsEval<C, D>(
      s: Schema<C, D>, c: C, members: seq<Member>, seen: set<string>, data: D)
    ensures EvalMembers(s, c, members, seen, data) == Data(JudgeMembers(s, c, members, seen, data))
    decreases members, 3
  {
    hide Eval, Judge;
    if members != [] {
      var name := members[0].key;
      if name in s.properties(c) && name !in seen {
        JudgeIsEval(s, c, Some(name), members[0].value, data);
        var r := Judge(s, c, Some(name), members[0].value, data);
        if r.Accepted? { JudgeMembersIsEval(s, c, members[1..], seen + {name}, r.data); }
      }
    }
  }

  // ---------- Why sets that are never cleared are right, and the stack never overflows ----------

  /** Contexts form a tree: each one that is not an element is opened at one property of one
      context, which is not an element, and ranks grow downwards. */
  ghost predicate WellFormed<C(!new), D(!new)>(s: Schema<C, D>, rank: C -> nat, owner: C -> (C, string)) {
    && rank(s.root) == 0 && !s.isElement(s.root) && !s.isArray(s.root)
    && (forall c :: rank(c) < STACK_SIZE)
    && (forall n :: Single(s, n) ==> rank(owner(n).0) < rank(n) && !s.isElement(owner(n).0))
    && (forall c, p :: s.arrayAt(c, p).Some? ==>
          var n := s.arrayAt(c, p).value;
          rank(n) > rank(c) && s.isArray(n))
    && (forall c, p :: s.objectAt(c, p).Some? ==>
          var n := s.objectAt(c, p).value;
          && rank(n) > rank(c) && !s.isArray(n)
          && (s.isElement(n) || (n != s.root && p.Some? && owner(n) == (c, p.value))))
  }

  /** A context that can be opened only once. */
  ghost predicate Single<C, D>(s: Schema<C, D>, n: C) { n != s.root && !s.isElement(n) && !s.isArray(n) }

  /** A context has seen properties only if the property that opens it has been read. */
  ghost predicate Owned<C(!new), D>(s: Schema<C, D>, owner: C -> (C, string), st: State<C, D>) {
    forall n :: Single(s, n) && Seen(st, n) != {} ==> owner(n).1 in Seen(st, owner(n).0)
  }

  /** The contexts the pending property may open are untouched, and it has been read. */
  ghost predicate Placed<C(!new), D>(s: Schema<C, D>, owner: C -> (C, string), st: State<C, D>)
    requires st.stack != []
  {
    st.pending.Some? ==>
      && st.pending.value in Seen(st, Top(st))
      && forall n :: Single(s, n) && owner(n) == (Top(st), st.pending.value) ==> Seen(st, n) == {}
  }

  /** What reading a whole value leaves alone: the stack and the sets of the contexts above it. */
  ghost predicate Keeps<C(!new), D>(rank: C -> nat, limit: nat, before: State<C, D>, after: State<C, D>) {
    && after.stack == before.stack && after.rootObject == before.rootObject
    && forall n :: rank(n) < limit ==> Seen(after, n) == Seen(before, n)
  }

  /** The machine after a value agrees with the recursive reading. */
  ghost predicate Agrees<C(!new), D(!new)>(s: Schema<C, D>, rank: C -> nat, owner: C -> (C, string),
                                         before: State<C, D>, after: State<C, D>, read: Outcome<D>)
    requires before.stack != []
  {
    if read.Refused? then after.failure == Some(read.failure)
    else
      && after.pending.None? && after.data == read.data
      && Keeps(rank, rank(Top(before)) + 1, before, after) && Ready(s, rank, owner, after)
  }

  ghost predicate Ready<C(!new), D(!new)>(s: Schema<C, D>, rank: C -> nat, owner: C -> (C, string), st: State<C, D>) {
    && WellFormed(s, rank, owner) && Owned(s, owner, st) && st.failure.None?
    && st.stack != [] && |st.stack| <= rank(Top(st)) + 1
    && (Single(s, Top(st)) ==> owner(Top(st)).1 in Seen(st, owner(Top(st)).0))
  }

  lemma {:induction false} FoldConcat<C, D>(s: Schema<C, D>, st: State<C, D>, a: seq<Event>, b: seq<Event>)
    ensures Fold(s, st, a + b) == Fold(s, Fold(s, st, a), b)
    decreases |a|
  {
    hide Step;
    if a == [] {
      assert a + b == b;
    } else {
      assert (a + b)[1..] == a[1..] + b;
      FoldConcat(s, Step(s, st, a[0]), a[1..], b);
    }
  }

  lemma {:induction false} FoldOne<C, D>(s: Schema<C, D>, st: State<C, D>, e: Event)
    ensures Fold(s, st, [e]) == Step(s, st, e)
  {
    hide Step;
    assert [e][1..] == [];
  }

  lemma {:induction false} FoldStopped<C, D>(s: Schema<C, D>, st: State<C, D>, events: seq<Event>)
    requires st.failure.Some?
    ensures Fold(s, st, events) == st
    decreases |events|
  {
    if events != [] { FoldStopped(s, st, events[1..]); }
  }

  lemma {:induction false} FoldAround<C, D>(
      s: Schema<C, D>, st: State<C, D>, first: Event, body: seq<Event>, last: Event)
    ensures Fold(s, st, [first] + body + [last]) == Step(s, Fold(s, Step(s, st, first), body), last)
  {
    hide Step, Fold;
    FoldConcat(s, st, [first] + body, [last]);
    FoldConcat(s, st, [first], body);
    FoldOne(s, st, first);
    FoldOne(s, Fold(s, Step(s, st, first), body), last);
  }

  lemma {:induction false} KeyStep<C(!new), D(!new)>(s: Schema<C, D>, rank: C -> nat, owner: C -> (C, string),
                                                   st: State<C, D>, name: string)
    requires Ready(s, rank, owner, st)
    ensures
      var c := Top(st);
      var keyed := Step(s, st, Key(name));
      if name !in s.properties(c) then keyed.failure == Some(UnknownProperty)
      else if name in Seen(st, c) then keyed.failure == Some(DuplicateProperty)
      else
        && Ready(s, rank, owner, keyed) && Placed(s, owner, keyed) && keyed.pending == Some(name)
        && keyed.data == st.data && Seen(keyed, c) == Seen(st, c) + {name} && Keeps(rank, rank(c), st, keyed)
  {}

  lemma {:induction false} OpenStep<C(!new), D(!new)>(s: Schema<C, D>, rank: C -> nat, owner: C -> (C, string),
                                                    st: State<C, D>)
    requires Ready(s, rank, owner, st) && Placed(s, owner, st)
    ensures
      var next := s.objectAt(Top(st), st.pending);
      var inside := Step(s, st, ObjectBegin);
      if next.None? then inside.failure == Some(WrongFieldType)
      else
        var n := next.value;
        && Ready(s, rank, owner, inside) && inside.stack == st.stack + [n] && inside.pending.None? && Seen(inside, n) == {}
        && inside.data == (if s.isElement(n) then s.begin(n, st.data) else st.data)
        && inside.rootObject == st.rootObject && rank(n) > rank(Top(st))
        && forall m :: rank(m) < rank(n) ==> Seen(inside, m) == Seen(st, m)
  {}

  lemma {:induction false} CloseStep<C(!new), D(!new)>(s: Schema<C, D>, rank: C -> nat, owner: C -> (C, string),
                                                     st: State<C, D>, n: C, out: State<C, D>)
    requires Ready(s, rank, owner, st) && out.stack == st.stack + [n] && rank(n) > rank(Top(st))
    requires out.failure.None? && out.rootObject == st.rootObject && Owned(s, owner, out)
    requires s.properties(n) <= Seen(out, n) && out.pending.None?
    requires forall m :: rank(m) < rank(n) ==> Seen(out, m) == Seen(st, m)
    ensures
      Agrees(s, rank, owner, st, Step(s, out, ObjectEnd),
             if s.isElement(n) then s.finish(n, out.data) else Accepted(out.data))
  {
    assert out.stack[..|out.stack| - 1] == st.stack;
  }

  lemma {:induction false} FoldValue<C(!new), D(!new)>(s: Schema<C, D>, rank: C -> nat, owner: C -> (C, string),
                                                     st: State<C, D>, v: Json)
    requires Ready(s, rank, owner, st) && Placed(s, owner, st)
    ensures Agrees(s, rank, owner, st, Fold(s, st, Events(v)), Judge(s, Top(st), st.pending, v, st.data))
    decreases v, 3
  {
    hide Ready, Placed, Fold;
    match v
    case Obj(members) =>
      FoldAround(s, st, ObjectBegin, EventsOfMembers(members), ObjectEnd);
      FoldObject(s, rank, owner, st, members);
    case Arr(items) =>
      FoldAround(s, st, ArrayBegin, EventsOfItems(items), ArrayEnd);
      FoldArray(s, rank, owner, st, items);
    case _ =>
      FoldOne(s, st, Scalar(v));
      ScalarStep(s, rank, owner, st, v);
  }

  lemma {:induction false} ScalarStep<C(!new), D(!new)>(s: Schema<C, D>, rank: C -> nat, owner: C -> (C, string),
                                                      st: State<C, D>, v: Json)
    requires Ready(s, rank, owner, st)
    ensures
      var r := s.scalar(Top(st), st.pending, v, st.data);
      Agrees(s, rank, owner, st, Step(s, st, Scalar(v)), r)
  {}

  lemma {:induction false} FoldObject<C(!new), D(!new)>(s: Schema<C, D>, rank: C -> nat, owner: C -> (C, string),
                                                      st: State<C, D>, members: seq<Member>)
    requires Ready(s, rank, owner, st) && Placed(s, owner, st)
    ensures
      var after := Step(s, Fold(s, Step(s, st, ObjectBegin), EventsOfMembers(members)), ObjectEnd);
      var next := s.objectAt(Top(st), st.pending);
      Agrees(s, rank, owner, st, after,
             if next.None? then Refused(WrongFieldType) else JudgeObject(s, next.value, members, st.data))
    decreases members, 2
  {
    hide Fold, JudgeMembers, WellFormed, Owned, Placed, Agrees, OpenObject, Single;
    var next := s.objectAt(Top(st), st.pending);
    var inside := Step(s, st, ObjectBegin);
    OpenStep(s, rank, owner, st);
    var out := Fold(s, inside, EventsOfMembers(members));
    if next.None? {
      FoldStopped(s, inside, EventsOfMembers(members));
      StoppedAtEnd(s, inside, ObjectEnd);
      Refusal(s, rank, owner, st, inside);
    } else {
      var n := next.value;
      FoldMembers(s, rank, owner, inside, members);
      var read := JudgeMembers(s, n, members, {}, inside.data);
      if read.Accepted? {
        CloseStep(s, rank, owner, st, n, out);
      } else {
        CloseRefused(s, out, n);
        Refusal(s, rank, owner, st, Step(s, out, ObjectEnd));
      }
    }
  }

  lemma {:induction false} Refusal<C(!new), D(!new)>(s: Schema<C, D>, rank: C -> nat, owner: C -> (C, string),
                                                   before: State<C, D>, after: State<C, D>)
    requires before.stack != [] && after.failure.Some?
    ensures Agrees(s, rank, owner, before, after, Refused(after.failure.value))
  {}

  lemma {:induction false} StoppedAtEnd<C, D>(s: Schema<C, D>, st: State<C, D>, e: Event)
    requires st.failure.Some?
    ensures Step(s, st, e) == st
  {}

  /** An object that failed inside stays failed; one that lacks a property fails at its end. */
  lemma {:induction false} CloseRefused<C, D>(s: Schema<C, D>, out: State<C, D>, n: C)
    requires out.failure.Some? || (out.stack != [] && Top(out) == n && !(s.properties(n) <= Seen(out, n)))
    ensures
      Step(s, out, ObjectEnd).failure == if out.failure.Some? then out.failure else Some(MissingRequiredField)
  {}

  lemma {:induction false} OpenArrayStep<C(!new), D(!new)>(s: Schema<C, D>, rank: C -> nat, owner: C -> (C, string),
                                                         st: State<C, D>)
    requires Ready(s, rank, owner, st)
    ensures
      var next := s.arrayAt(Top(st), st.pending);
      var inside := Step(s, st, ArrayBegin);
      if next.None? then inside.failure == Some(WrongFieldType)
      else
        var n := next.value;
        && Ready(s, rank, owner, inside) && s.isArray(n) && inside == st.(stack := st.stack + [n], pending := None)
        && rank(n) > rank(Top(st))
  {}

  lemma {:induction false} CloseArrayStep<C(!new), D(!new)>(s: Schema<C, D>, rank: C -> nat, owner: C -> (C, string),
                                                          st: State<C, D>, inside: State<C, D>, out: State<C, D>, n: C)
    requires Ready(s, rank, owner, st) && inside == st.(stack := st.stack + [n], pending := None)
    requires s.isArray(n) && rank(n) > rank(Top(st))
    requires out.pending.None? && Keeps(rank, rank(n) + 1, inside, out) && Ready(s, rank, owner, out)
    ensures Agrees(s, rank, owner, st, Step(s, out, ArrayEnd), Accepted(out.data))
  {
    assert out.stack[..|out.stack| - 1] == st.stack;
  }

  lemma {:induction false} FoldArray<C(!new), D(!new)>(s: Schema<C, D>, rank: C -> nat, owner: C -> (C, string),
                                                     st: State<C, D>, items: seq<Json>)
    requires Ready(s, rank, owner, st)
    ensures
      var after := Step(s, Fold(s, Step(s, st, ArrayBegin), EventsOfItems(items)), ArrayEnd);
      var next := s.arrayAt(Top(st), st.pending);
      Agrees(s, rank, owner, st, after,
             if next.None? then Refused(WrongFieldType) else JudgeItems(s, next.value, items, st.data))
    decreases items, 2
  {
    hide Fold, JudgeItems, WellFormed, Owned, Keeps, OpenArray, Single;
    var next := s.arrayAt(Top(st), st.pending);
    var inside := Step(s, st, ArrayBegin);
    OpenArrayStep(s, rank, owner, st);
    var out := Fold(s, inside, EventsOfItems(items));
    if next.None? {
      FoldStopped(s, inside, EventsOfItems(items));
    } else {
      FoldItems(s, rank, owner, inside, items);
      if out.failure.None? {
        CloseArrayStep(s, rank, owner, st, inside, out, next.value);
      } else {
        FoldStopped(s, out, [ArrayEnd]);
        FoldOne(s, out, ArrayEnd);
      }
    }
  }

  lemma {:induction false} KeepsTwice<C(!new), D>(rank: C -> nat, limit: nat, more: nat, a: State<C, D>, b: State<C, D>,
                                                c: State<C, D>)
    requires Keeps(rank, limit, a, b) && Keeps(rank, more, b, c) && limit <= more
    ensures Keeps(rank, limit, a, c)
  {}

  lemma {:induction false} FoldItems<C(!new), D(!new)>(s: Schema<C, D>, rank: C -> nat, owner: C -> (C, string),
                                                     st: State<C, D>, items: seq<Json>)
    requires Ready(s, rank, owner, st) && st.pending.None?
    ensures Agrees(s, rank, owner, st, Fold(s, st, EventsOfItems(items)), JudgeItems(s, Top(st), items, st.data))
    decreases items, 1
  {
    hide Step, Judge, WellFormed, Owned, Single;
    if items != [] {
      var first := Fold(s, st, Events(items[0]));
      var after := Fold(s, first, EventsOfItems(items[1..]));
      FoldConcat(s, st, Events(items[0]), EventsOfItems(items[1..]));
      FoldValue(s, rank, owner, st, items[0]);
      if first.failure.None? {
        FoldItems(s, rank, owner, first, items[1..]);
        if after.failure.None? {
          KeepsTwice(rank, rank(Top(st)) + 1, rank(Top(st)) + 1, st, first, after);
        }
      } else {
        FoldStopped(s, first, EventsOfItems(items[1..]));
      }
    }
  }

  /** The members of the object whose context is on top: the machine fails as the recursive reading
      does, lacks a property that the reading misses, or ends with its candidate. */
  ghost predicate MembersAgree<C(!new), D(!new)>(s: Schema<C, D>, rank: C -> nat, owner: C -> (C, string),
                                               before: State<C, D>, after: State<C, D>, read: Outcome<D>)
    requires before.stack != []
  {
    && read == (if after.failure.Some? then Refused(after.failure.value)
                else if s.properties(Top(before)) <= Seen(after, Top(before)) then Accepted(after.data)
                else Refused(MissingRequiredField))
    && (after.failure.None? ==>
          && Ready(s, rank, owner, after) && Keeps(rank, rank(Top(before)), before, after)
          && (before.pending.None? ==> after.pending.None?))
  }

  lemma {:induction false} FoldMembers<C(!new), D(!new)>(s: Schema<C, D>, rank: C -> nat, owner: C -> (C, string),
                                                       st: State<C, D>, members: seq<Member>)
    requires Ready(s, rank, owner, st)
    ensures
      MembersAgree(s, rank, owner, st, Fold(s, st, EventsOfMembers(members)),
                   JudgeMembers(s, Top(st), members, Seen(st, Top(st)), st.data))
    decreases members, 1
  {
    hide Step, Judge, WellFormed, Owned, Single, Placed;
    if members != [] {
      var m, rest := members[0], members[1..];
      var c := Top(st);
      var keyed := Step(s, st, Key(m.key));
      var valued := Fold(s, keyed, Events(m.value));
      var after := Fold(s, valued, EventsOfMembers(rest));
      FoldMember(s, st, m, rest);
      KeyStep(s, rank, owner, st, m.key);
      if keyed.failure.Some? {
        FoldStopped(s, keyed, Events(m.value));
        FoldStopped(s, keyed, EventsOfMembers(rest));
      } else {
        FoldValue(s, rank, owner, keyed, m.value);
        if valued.failure.Some? {
          FoldStopped(s, valued, EventsOfMembers(rest));
        } else {
          FoldMembers(s, rank, owner, valued, rest);
          KeepsTwice(rank, rank(c), rank(c) + 1, st, keyed, valued);
          if after.failure.None? { KeepsTwice(rank, rank(c), rank(c), st, valued, after); }
        }
      }
    }
  }

  lemma {:induction false} FoldMember<C, D>(s: Schema<C, D>, st: State<C, D>, m: Member, rest: seq<Member>)
    ensures
      Fold(s, st, EventsOfMembers([m] + rest))
      == Fold(s, Fold(s, Step(s, st, Key(m.key)), Events(m.value)), EventsOfMembers(rest))
  {
    hide Step, Fold, Events;
    assert ([m] + rest)[1..] == rest;
    FoldConcat(s, st, [Key(m.key)] + Events(m.value), EventsOfMembers(rest));
    FoldConcat(s, st, [Key(m.key)], Events(m.value));
    FoldOne(s, st, Key(m.key));
  }

  lemma {:induction false} OpenRoot<C(!new), D(!new)>(s: Schema<C, D>, rank: C -> nat, owner: C -> (C, string),
                                                    st: State<C, D>)
    requires WellFormed(s, rank, owner) && IsInitial(st)
    ensures
      var inside := Step(s, st, ObjectBegin);
      && inside.stack == [s.root] && inside.data == st.data && inside.rootObject && Seen(inside, s.root) == {}
      && Ready(s, rank, owner, inside)
  {
    var inside := Step(s, st, ObjectBegin);
    assert st.stack + [s.root] == [s.root];
    forall n ensures Seen(inside, n) == {} {
      assert Seen(st, n) == {};
    }
  }

  lemma {:induction false} CloseRoot<C(!new), D(!new)>(s: Schema<C, D>, rank: C -> nat, owner: C -> (C, string),
                                                     inside: State<C, D>, out: State<C, D>, read: Outcome<D>)
    requires WellFormed(s, rank, owner)
    requires inside.stack == [s.root] && inside.rootObject && MembersAgree(s, rank, owner, inside, out, read)
    ensures
      var after := Step(s, out, ObjectEnd);
      && Complete(after) == read.Accepted? && (read.Accepted? ==> after.data == read.data)
      && after.failure == (if read.Refused? then Some(read.failure) else None)
  {
    hide Ready;
    if out.failure.None? {
      assert out.stack == [s.root];
      assert out.stack[..0] == [];
    }
  }

  /** For every JSON value, the events drive the machine to a complete candidate exactly when the
      value may be read recursively, and then to the candidate of that reading; otherwise the machine
      fails for the reason that comes first. */
  lemma {:induction false} MachineRefinesReading<C(!new), D(!new)>(s: Schema<C, D>, rank: C -> nat,
                                                                 owner: C -> (C, string), v: Json, st: State<C, D>)
    requires WellFormed(s, rank, owner) && IsInitial(st)
    ensures
      var after := Fold(s, st, Events(v));
      var read := EvalRoot(s, v, st.data);
      && Complete(after) == read.Some?
      && (read.Some? ==> after.data == read.value)
      && read == Data(JudgeRoot(s, v, st.data))
      && after.failure == (var r := JudgeRoot(s, v, st.data); if r.Refused? then Some(r.failure) else None)
  {
    hide Fold, JudgeMembers, EvalMembers, WellFormed, Owned, Single, MembersAgree, Ready, Keeps;
    if v.Obj? {
      JudgeMembersIsEval(s, s.root, v.members, {}, st.data);
      var body := EventsOfMembers(v.members);
      var inside := Step(s, st, ObjectBegin);
      var out := Fold(s, inside, body);
      FoldAround(s, st, ObjectBegin, body, ObjectEnd);
      OpenRoot(s, rank, owner, st);
      FoldMembers(s, rank, owner, inside, v.members);
      CloseRoot(s, rank, owner, inside, out, JudgeMembers(s, s.root, v.members, {}, st.data));
    } else if v.Arr? {
      var body := EventsOfItems(v.items);
      var inside := Step(s, st, ArrayBegin);
      FoldAround(s, st, ArrayBegin, body, ArrayEnd);
      FoldStopped(s, inside, body);
    } else {
      FoldOne(s, st, Scalar(v));
    }
  }

  // ---------- Exactly the required properties, in any order ----------

  predicate Distinct(members: seq<Member>) {
    forall i, j :: 0 <= i < j < |members| ==> members[i].key != members[j].key
  }

  function Keys(members: seq<Member>): set<string> { set m | m in members :: m.key }

  /** The members of an object are one for each of these names, in any order. */
  predicate ExactKeys(members: seq<Member>, names: set<string>) { Distinct(members) && Keys(members) == names }

  /** The value of the first member of that name. */
  function Find(members: seq<Member>, name: string): (v: Json)
    requires name in Keys(members)
    ensures Member(name, v) in members
    decreases |members|
  {
    if members[0].key == name then members[0].value
    else
      assert members == [members[0]] + members[1..];
      Find(members[1..], name)
  }

  /** How the properties of one context divide the candidate: each looks at and changes its own
      part only, and none changes the frame. */
  datatype Division<!D> = Division(
    frame: D -> D,
    part: (string, D) -> D,
    allows: (string, Json, D) -> bool,
    write: (string, Json, D) -> D)

  ghost predicate Divides<C, D(!new)>(s: Schema<C, D>, c: C, cut: Division<D>) {
    forall name, v, data | name in s.properties(c) :: DividesAt(s, c, cut, name, v, data)
  }

  ghost predicate DividesAt<C, D(!new)>(s: Schema<C, D>, c: C, cut: Division<D>, name: string, v: Json, data: D) {
    var r := Eval(s, c, Some(name), v, data);
    && r.Some? == cut.allows(name, v, cut.part(name, data))
    && (r.Some? ==>
          && cut.frame(r.value) == cut.frame(data)
          && cut.part(name, r.value) == cut.write(name, v, cut.part(name, data))
          && forall other | other in s.properties(c) && other != name :: cut.part(other, r.value) == cut.part(other, data))
  }

  ghost predicate AllAllowed<D(!new)>(cut: Division<D>, members: seq<Member>, data: D) {
    forall m | m in members :: cut.allows(m.key, m.value, cut.part(m.key, data))
  }

  /** Reading the members one by one succeeds exactly when they are one for each property that
      is still missing, each with an allowed value; and every part is then as that property's
      value makes it, whatever the order was. */
  lemma {:induction false} MembersInAnyOrder<C, D(!new)>(s: Schema<C, D>, c: C, cut: Division<D>, members: seq<Member>,
                                                        seen: set<string>, data: D)
    requires Divides(s, c, cut) && seen <= s.properties(c)
    ensures
      var r := EvalMembers(s, c, members, seen, data);
      && r.Some? == (ExactKeys(members, s.properties(c) - seen) && AllAllowed(cut, members, data))
      && (r.Some? ==>
            cut.frame(r.value) == cut.frame(data) &&
            forall name | name in s.properties(c) ::
              cut.part(name, r.value)
              == if name in Keys(members) then cut.write(name, Find(members, name), cut.part(name, data))
                 else cut.part(name, data))
    decreases |members|
  {
    hide Eval;
    if members != [] {
      var m, rest := members[0], members[1..];
      var name := m.key;
      assert members == [m] + rest && m in members;
      assert Keys(members) == {name} + Keys(rest);
      if name in s.properties(c) && name !in seen {
        assert DividesAt(s, c, cut, name, m.value, data);
        var r := Eval(s, c, Some(name), m.value, data);
        if r.Some? {
          MembersInAnyOrder(s, c, cut, rest, seen + {name}, r.value);
          DistinctTail(members);
          assert ExactKeys(members, s.properties(c) - seen) == ExactKeys(rest, s.properties(c) - (seen + {name}));
          if ExactKeys(members, s.properties(c) - seen) {
            RestUnchanged(s, c, cut, name, rest, r.value, data);
            assert AllAllowed(cut, members, data) == AllAllowed(cut, rest, data);
          }
        }
      }
    } else {
      assert Keys(members) == {};
      NothingLeft(s.properties(c), seen);
    }
  }

  lemma {:induction false} NothingLeft(a: set<string>, b: set<string>)
    ensures a - b == {} <==> a <= b
  {
    if !(a <= b) {
      var x :| x in a && x !in b;
      assert x in a - b;
    }
  }

  lemma {:induction false} DistinctTail(members: seq<Member>)
    requires members != []
    ensures Distinct(members) == (Distinct(members[1..]) && members[0].key !in Keys(members[1..]))
  {
    var rest := members[1..];
    if Distinct(members) {
      forall m | m in rest ensures m.key != members[0].key {
        var i :| 0 <= i < |rest| && rest[i] == m;
        assert members[i + 1] == m;
      }
      forall i, j | 0 <= i < j < |rest| ensures rest[i].key != rest[j].key {
        assert members[i + 1].key != members[j + 1].key;
      }
    }
    if Distinct(rest) && members[0].key !in Keys(rest) {
      forall i, j | 0 <= i < j < |members| ensures members[i].key != members[j].key {
        assert members[j] == rest[j - 1] && members[j] in rest;
        if i > 0 { assert rest[i - 1].key != rest[j - 1].key; }
      }
    }
  }

  lemma {:induction false} FindsEach(members: seq<Member>, m: Member)
    requires Distinct(members) && m in members
    ensures m.key in Keys(members) && Find(members, m.key) == m.value
    decreases |members|
  {
    DistinctTail(members);
    assert members == [members[0]] + members[1..];
    if m == members[0] {
    } else {
      assert m in members[1..] && m.key in Keys(members[1..]);
      FindsEach(members[1..], m);
    }
  }

  /** The same for all the members of an object, with values looked up by name. */
  lemma {:induction false} ObjectInAnyOrder<C, D(!new)>(s: Schema<C, D>, c: C, cut: Division<D>, members: seq<Member>,
                                                       data: D)
    requires Divides(s, c, cut)
    ensures
      var r := EvalMembers(s, c, members, {}, data);
      && r.Some? == (ExactKeys(members, s.properties(c)) &&
                     forall name | name in s.properties(c) ::
                       cut.allows(name, Find(members, name), cut.part(name, data)))
      && (r.Some? ==>
            cut.frame(r.value) == cut.frame(data) &&
            forall name | name in s.properties(c) ::
              cut.part(name, r.value) == cut.write(name, Find(members, name), cut.part(name, data)))
  {
    hide EvalMembers, Divides, Find, Distinct;
    MembersInAnyOrder(s, c, cut, members, {}, data);
    assert s.properties(c) - {} == s.properties(c);
    if ExactKeys(members, s.properties(c)) {
      forall m | m in members ensures Find(members, m.key) == m.value { FindsEach(members, m); }
      forall name | name in s.properties(c) ensures Member(name, Find(members, name)) in members {
        assert name in Keys(members);
      }
    }
  }

  lemma {:induction false} RestUnchanged<C, D(!new)>(s: Schema<C, D>, c: C, cut: Division<D>, name: string,
                                                   rest: seq<Member>, after: D, before: D)
    requires Keys(rest) <= s.properties(c) - {name}
    requires forall other | other in s.properties(c) && other != name :: cut.part(other, after) == cut.part(other, before)
    ensures AllAllowed(cut, rest, after) == AllAllowed(cut, rest, before)
  {
    forall m | m in rest ensures cut.part(m.key, after) == cut.part(m.key, before) {
      assert m.key in Keys(rest);
    }
  }

  // ---------- The stack is a path of the schema ----------

  ghost predicate Opens<C, D>(s: Schema<C, D>, c: C, n: C) {
    exists p :: s.objectAt(c, p) == Some(n) || s.arrayAt(c, p) == Some(n)
  }

  ghost predicate IsPath<C, D>(s: Schema<C, D>, stack: seq<C>)
    decreases |stack|
  {
    stack == [] ||
    (if |stack| == 1 then stack[0] == s.root
     else Opens(s, stack[|stack| - 2], stack[|stack| - 1]) && IsPath(s, stack[..|stack| - 1]))
  }

  ghost predicate SchemaNeverTooDeep<C(!new), D(!new)>(s: Schema<C, D>) {
    && (forall c, p, v, d :: s.scalar(c, p, v, d) != Refused(NestingTooDeep))
    && forall c, d :: s.finish(c, d) != Refused(NestingTooDeep)
  }

  lemma {:induction false} PathIsShort<C(!new), D(!new)>(s: Schema<C, D>, rank: C -> nat, owner: C -> (C, string),
                                                       stack: seq<C>)
    requires WellFormed(s, rank, owner) && IsPath(s, stack)
    ensures stack != [] ==> |stack| <= rank(stack[|stack| - 1]) + 1 <= STACK_SIZE
    decreases |stack|
  {
    if |stack| > 1 { PathIsShort(s, rank, owner, stack[..|stack| - 1]); }
  }

  lemma {:induction false} PathGrows<C(!new), D(!new)>(s: Schema<C, D>, stack: seq<C>, n: C)
    requires IsPath(s, stack)
    requires if stack == [] then n == s.root else Opens(s, stack[|stack| - 1], n)
    ensures IsPath(s, stack + [n])
  {
    assert (stack + [n])[..|stack|] == stack;
  }

  lemma {:induction false} StepKeepsPath<C(!new), D(!new)>(s: Schema<C, D>, rank: C -> nat, owner: C -> (C, string),
                                                         st: State<C, D>, e: Event)
    requires WellFormed(s, rank, owner) && SchemaNeverTooDeep(s)
    requires IsPath(s, st.stack) && st.failure != Some(NestingTooDeep)
    ensures IsPath(s, Step(s, st, e).stack) && Step(s, st, e).failure != Some(NestingTooDeep)
  {
    hide IsPath, WellFormed;
    PathIsShort(s, rank, owner, st.stack);
    if st.failure.None? && st.stack == [] {
      PathGrows(s, st.stack, s.root);
      assert IsPath(s, st.stack + [s.root]);
    } else if st.failure.None? {
      PathShrinks(s, st.stack);
      NextIsDeeper(s, rank, owner, Top(st), st.pending);
      var o, a := s.objectAt(Top(st), st.pending), s.arrayAt(Top(st), st.pending);
      if o.Some? {
        assert Opens(s, Top(st), o.value);
        PathGrows(s, st.stack, o.value);
      }
      if a.Some? {
        assert Opens(s, Top(st), a.value);
        PathGrows(s, st.stack, a.value);
      }
    }
  }

  lemma {:induction false} PathShrinks<C(!new), D(!new)>(s: Schema<C, D>, stack: seq<C>)
    requires stack != [] && IsPath(s, stack)
    ensures IsPath(s, stack[..|stack| - 1])
  {}

  lemma {:induction false} NextIsDeeper<C(
      !new), D(!new)>(s: Schema<C, D>, rank: C -> nat, owner: C -> (C, string), c: C,
                                                        p: Option<string>)
    requires WellFormed(s, rank, owner)
    ensures s.objectAt(c, p).Some? ==> rank(c) < rank(s.objectAt(c, p).value) < STACK_SIZE
    ensures s.arrayAt(c, p).Some? ==> rank(c) < rank(s.arrayAt(c, p).value) < STACK_SIZE
  {}

  /** Whatever events arrive, the stack spells a path of the schema from its root, and it never
      overflows: that failure cannot be reported. */
  lemma {:induction false} StackIsPath<C(!new), D(!new)>(s: Schema<C, D>, rank: C -> nat, owner: C -> (C, string),
                                                       st: State<C, D>, events: seq<Event>)
    requires WellFormed(s, rank, owner) && SchemaNeverTooDeep(s)
    requires IsPath(s, st.stack) && st.failure != Some(NestingTooDeep)
    ensures
      var after := Fold(s, st, events);
      IsPath(s, after.stack) && |after.stack| <= STACK_SIZE && after.failure != Some(NestingTooDeep)
    decreases |events|
  {
    hide Step, IsPath;
    PathIsShort(s, rank, owner, st.stack);
    if events != [] {
      StepKeepsPath(s, rank, owner, st, events[0]);
      StackIsPath(s, rank, owner, Step(s, st, events[0]), events[1..]);
    }
  }
}
