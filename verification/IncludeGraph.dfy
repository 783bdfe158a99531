/** The include graph of the sources, by their numbers: how a full build and an update check it
    and in which order what it affects is parsed. */
module IncludeGraph {
  import opened Wrappers

  /** `g[u]` are the sources `u` includes. */
  type Graph = seq<seq<nat>>

  predicate Within(s: seq<nat>, n: nat) { forall k :: 0 <= k < |s| ==> s[k] < n }

  predicate Closed(g: Graph) { forall u :: 0 <= u < |g| ==> Within(g[u], |g|) }

  // ---------- Walks and cycles ----------

  predicate Steps(g: Graph, w: seq<nat>) {
    forall k :: 0 <= k < |w| - 1 ==> w[k] < |g| && w[k + 1] in g[w[k]]
  }

  /** `u` includes `v`, directly or through others. */
  ghost predicate Leads(g: Graph, u: nat, v: nat) {
    exists w :: Steps(g, w) && |w| >= 2 && w[0] == u && w[|w| - 1] == v
  }

  ghost predicate Acyclic(g: Graph) { forall v :: !Leads(g, v, v) }

  lemma {:induction false} WalkLeads(g: Graph, w: seq<nat>, i: nat, j: nat)
    requires Steps(g, w) && i < j < |w|
    ensures Leads(g, w[i], w[j])
  {
    var part := w[i..j + 1];
    forall k | 0 <= k < |part| - 1 ensures part[k] < |g| && part[k + 1] in g[part[k]] {
      assert part[k] == w[i + k] && part[k + 1] == w[i + k + 1];
    }
    assert Steps(g, part);
  }

  lemma {:induction false} LeadsWithin(g: Graph, u: nat, v: nat)
    requires Closed(g) && Leads(g, u, v)
    ensures u < |g| && v < |g|
  {
    var w :| Steps(g, w) && |w| >= 2 && w[0] == u && w[|w| - 1] == v;
    var k := |w| - 2;
    assert w[0] < |g| && w[k] < |g| && w[k + 1] in g[w[k]];
  }

  lemma {:induction false} LeadsStep(g: Graph, u: nat, v: nat)
    requires u < |g| && v in g[u]
    ensures Leads(g, u, v)
  {
    assert Steps(g, [u, v]);
  }

  lemma {:induction false} LeadsOn(g: Graph, u: nat, v: nat, x: nat)
    requires u < |g| && v in g[u] && Leads(g, v, x)
    ensures Leads(g, u, x)
  {
    var w :| Steps(g, w) && |w| >= 2 && w[0] == v && w[|w| - 1] == x;
    StepsFront(g, u, w);
  }

  lemma {:induction false} StepsFront(g: Graph, u: nat, w: seq<nat>)
    requires Steps(g, w) && |w| > 0 && u < |g| && w[0] in g[u]
    ensures Steps(g, [u] + w)
  {
    var longer := [u] + w;
    forall k | 0 <= k < |longer| - 1 ensures longer[k] < |g| && longer[k + 1] in g[longer[k]] {
      if k > 0 { assert longer[k] == w[k - 1] && longer[k + 1] == w[k]; }
    }
  }

  /** A closed walk can be walked from each of its sources. */
  lemma {:induction false} Rotated(g: Graph, w: seq<nat>, i: nat)
    requires Steps(g, w) && |w| >= 2 && w[0] == w[|w| - 1] && i < |w|
    ensures Leads(g, w[i], w[i])
  {
    if i == 0 {
      WalkLeads(g, w, 0, |w| - 1);
    } else {
      var turned: seq<nat> := w[i..] + w[1..i + 1];
      forall k | 0 <= k < |turned| - 1 ensures turned[k] < |g| && turned[k + 1] in g[turned[k]] {
        if k < |w| - 1 - i {
          assert turned[k] == w[i + k] && turned[k + 1] == w[i + k + 1];
        } else if k == |w| - 1 - i {
          assert turned[k] == w[0] && turned[k + 1] == w[1];
        } else {
          var at := k - (|w| - 1 - i);
          assert turned[k] == w[at] && turned[k + 1] == w[at + 1];
        }
      }
      assert turned[|turned| - 1] == w[i];
      WalkLeads(g, turned, 0, |turned| - 1);
    }
  }

  predicate Distinct(s: seq<nat>) { forall i, j :: 0 <= i < j < |s| ==> s[i] != s[j] }

  lemma {:induction false} DistinctFits(s: seq<nat>, all: set<nat>)
    requires Distinct(s) && forall x :: x in s ==> x in all
    ensures |s| <= |all|
  {
    if s != [] {
      var last := |s| - 1;
      assert forall x :: x in s[..last] ==> x in all - {s[last]};
      DistinctFits(s[..last], all - {s[last]});
    }
  }

  function Numbers(n: nat): (all: set<nat>)
    ensures |all| == n && forall u: nat :: u in all <==> u < n
  {
    if n == 0 then {}
    else
      var rest := Numbers(n - 1);
      assert n - 1 !in rest;
      rest + {n - 1}
  }

  /** Another of the sources includes `v`. */
  ghost predicate Included(g: Graph, rest: set<nat>, v: nat) { exists u :: u in rest && u < |g| && v in g[u] }

  lemma {:induction false} OneStep(g: Graph, v: nat)
    ensures Steps(g, [v])
  {}

  lemma {:induction false} Includer(g: Graph, rest: set<nat>, v: nat) returns (u: nat)
    requires Included(g, rest, v)
    ensures u in rest && u < |g| && v in g[u]
  {
    u :| u in rest && u < |g| && v in g[u];
  }

  /** A walk of any length backwards through sources each of which another of them includes. */
  lemma {:induction false} BackwardWalk(g: Graph, rest: set<nat>, length: nat) returns (w: seq<nat>)
    requires rest != {} && length > 0
    requires forall v :: v in rest ==> Included(g, rest, v)
    ensures |w| == length && Steps(g, w) && forall k :: 0 <= k < |w| ==> w[k] in rest
  {
    hide Steps, Included;
    if length == 1 {
      var v :| v in rest;
      w := [v];
      assert Steps(g, w) by { OneStep(g, v); }
    } else {
      var shorter := BackwardWalk(g, rest, length - 1);
      var u := Includer(g, rest, shorter[0]);
      w := [u] + shorter;
      StepsFront(g, u, shorter);
    }
  }

  /** Where each of some sources is included by another of them, there is a cycle. */
  lemma {:induction false} BackwardCycle(g: Graph, rest: set<nat>)
    requires rest != {}
    requires forall v :: v in rest ==> Included(g, rest, v)
    ensures !Acyclic(g)
  {
    hide Included, Steps;
    var w := BackwardWalk(g, rest, |rest| + 1);
    if Distinct(w) {
      DistinctFits(w, rest);
    } else {
      var i, j :| 0 <= i < j < |w| && w[i] == w[j];
      WalkLeads(g, w, i, j);
    }
  }

  // ---------- A test for cycles that can be computed ----------

  /** Layer by layer, the sources none of the others includes are taken away until none is left. */
  predicate Layered(g: Graph, rest: set<nat>)
    decreases |rest|
  {
    rest == {} ||
    var free := set v | v in rest && forall u :: u in rest && u < |g| ==> v !in g[u];
    free != {} && (Shrinks(rest, free); Layered(g, rest - free))
  }

  lemma {:induction false} Shrinks(rest: set<nat>, free: set<nat>)
    requires free != {} && free <= rest
    ensures |rest - free| < |rest|
  {
    assert rest == (rest - free) + free;
  }

  lemma {:induction false} LayeredHasNoCycle(g: Graph, rest: set<nat>, w: seq<nat>)
    requires Layered(g, rest) && Steps(g, w) && |w| >= 2 && w[0] == w[|w| - 1]
    requires forall k :: 0 <= k < |w| ==> w[k] in rest
    ensures false
    decreases |rest|
  {
    var free := set v | v in rest && forall u :: u in rest && u < |g| ==> v !in g[u];
    assert w[0] in rest;
    forall k | 0 <= k < |w| ensures w[k] in rest - free {
      var before := if k == 0 then |w| - 2 else k - 1;
      assert w[before] in rest && w[before + 1] in g[w[before]];
    }
    Shrinks(rest, free);
    LayeredHasNoCycle(g, rest - free, w);
  }

  lemma {:induction false} NotLayeredHasCycle(g: Graph, rest: set<nat>)
    requires !Layered(g, rest)
    ensures !Acyclic(g)
    decreases |rest|
  {
    var free := set v | v in rest && forall u :: u in rest && u < |g| ==> v !in g[u];
    if free == {} {
      forall v | v in rest ensures Included(g, rest, v) { assert v !in free; }
      BackwardCycle(g, rest);
    } else {
      Shrinks(rest, free);
      NotLayeredHasCycle(g, rest - free);
    }
  }

  lemma {:induction false} LayeredExactly(g: Graph)
    requires Closed(g)
    ensures Layered(g, Numbers(|g|)) <==> Acyclic(g)
  {
    if !Layered(g, Numbers(|g|)) {
      NotLayeredHasCycle(g, Numbers(|g|));
    } else if !Acyclic(g) {
      var v :| Leads(g, v, v);
      var w :| Steps(g, w) && |w| >= 2 && w[0] == v && w[|w| - 1] == v;
      forall k | 0 <= k < |w| ensures w[k] in Numbers(|g|) {
        if k == |w| - 1 { assert w[0] < |g|; }
      }
      LayeredHasNoCycle(g, Numbers(|g|), w);
    }
  }

  // ---------- The check of a full build ----------

  /** What the sources below `n` that are not done include, as often as they do. */
  ghost function Pending(g: Graph, done: set<nat>, n: nat): multiset<nat>
    requires n <= |g|
  {
    if n == 0 then multiset{}
    else Pending(g, done, n - 1) + if n - 1 in done then multiset{} else multiset(g[n - 1])
  }

  lemma {:induction false} PendingWithout(g: Graph, done: set<nat>, n: nat, u: nat, v: nat)
    requires n <= |g| && u < |g| && u !in done
    ensures Pending(g, done, n)[v] == Pending(g, done + {u}, n)[v] + if u < n then multiset(g[u])[v] else 0
  {
    if n > 0 {
      PendingWithout(g, done, n - 1, u, v);
      assert n - 1 != u ==> (n - 1 in done + {u} <==> n - 1 in done);
    }
  }

  lemma {:induction false} PendingNone(g: Graph, done: set<nat>, n: nat, v: nat)
    requires n <= |g|
    ensures Pending(g, done, n)[v] == 0 <==> forall u :: 0 <= u < n && u !in done ==> v !in g[u]
  {
    if n > 0 {
      PendingNone(g, done, n - 1, v);
      assert v in g[n - 1] <==> multiset(g[n - 1])[v] > 0;
    }
  }

  ghost predicate Counted(g: Graph, counts: array<nat>)
    reads counts
  {
    counts.Length == |g| && forall v :: 0 <= v < |g| ==> counts[v] == Pending(g, {}, |g|)[v]
  }

  /** How often each source is included, unless one of the numbers is unknown. */
  method CountIncludes(g: Graph) returns (status: Status, counts: array<nat>)
    ensures fresh(counts) && status == (if Closed(g) then Ok else InvalidArgument)
    ensures status == Ok ==> Counted(g, counts)
  {
    counts := new nat[|g|](_ => 0);
    for u := 0 to |g|
      invariant forall v :: 0 <= v < |g| ==> counts[v] == Pending(g, {}, u)[v]
      invariant forall s :: 0 <= s < u ==> Within(g[s], |g|)
    {
      status := CountOne(g[u], |g|, counts);
      if status != Ok { return; }
    }
    status := Ok;
  }

  method CountOne(includes: seq<nat>, n: nat, counts: array<nat>) returns (status: Status)
    requires counts.Length == n
    modifies counts
    ensures status == (if Within(includes, n) then Ok else InvalidArgument)
    ensures status == Ok ==> forall v :: 0 <= v < n ==> counts[v] == old(counts[v]) + multiset(includes)[v]
  {
    for k := 0 to |includes|
      invariant Within(includes[..k], n)
      invariant forall v :: 0 <= v < n ==> counts[v] == old(counts[v]) + multiset(includes[..k])[v]
    {
      if includes[k] >= n { return InvalidArgument; }
      assert includes[..k + 1] == includes[..k] + [includes[k]];
      counts[includes[k]] := counts[includes[k]] + 1;
    }
    assert includes[..|includes|] == includes;
    status := Ok;
  }

  /** No source comes before one that includes it. */
  ghost predicate Ordered(g: Graph, queue: seq<nat>) {
    && Distinct(queue) && Within(queue, |g|)
    && forall k, u :: 0 <= k < |queue| && 0 <= u < |g| && queue[k] in g[u] ==> u in queue[..k]
  }

  ghost function Left(g: Graph, queue: seq<nat>): set<nat> { set v | v in Numbers(|g|) && v !in queue }

  /** Takes away, one after another, the sources that nothing left includes. */
  method TakeAway(g: Graph, counts: array<nat>) returns (queue: seq<nat>)
    requires Closed(g) && Counted(g, counts)
    modifies counts
    ensures Ordered(g, queue)
    ensures forall v :: 0 <= v < |g| && v !in queue ==> Included(g, Left(g, queue), v)
  {
    hide Pending, Waits, Included, Ordered;
    queue := [];
    for v := 0 to |g|
      invariant forall x: nat :: x in queue <==> x < v && counts[x] == 0
      invariant Distinct(queue) && Within(queue, v)
    {
      if counts[v] == 0 { queue := queue + [v]; }
    }
    ghost var done: set<nat> := {};
    NothingBefore(g, queue);
    assert Taking(g, counts[..], queue, 0, done) by { TakingStarts(g, counts[..], queue); }
    var cursor := 0;
    while cursor < |queue|
      invariant Taking(g, counts[..], queue, cursor, done)
      decreases |g| - cursor
    {
      TakingNext(g, counts[..], queue, cursor, done);
      queue := TakeOne(g, counts, queue, cursor, done);
      done := done + {queue[cursor]};
      cursor := cursor + 1;
    }
    TakingEnds(g, counts[..], queue, done);
  }

  /** `done` are taken away, except for what `more` still counts of their includes; in the queue is
      what nothing counted includes. */
  ghost predicate Waits(g: Graph, counts: seq<nat>, queue: seq<nat>, done: set<nat>, more: seq<nat>) {
    && |counts| == |g| && Ordered(g, queue) && (forall x :: x in done ==> x in queue)
    && forall v :: 0 <= v < |g| ==>
         counts[v] == Pending(g, done, |g|)[v] + multiset(more)[v] && (v in queue <==> counts[v] == 0)
  }

  /** The first `cursor` sources of the queue are taken away. */
  ghost predicate Taking(g: Graph, counts: seq<nat>, queue: seq<nat>, cursor: nat, done: set<nat>) {
    && cursor <= |queue| && (forall x: nat :: x in done <==> x in queue[..cursor])
    && Waits(g, counts, queue, done, [])
  }

  lemma {:induction false} TakingStarts(g: Graph, counts: seq<nat>, queue: seq<nat>)
    requires |counts| == |g| && Ordered(g, queue)
    requires forall v :: 0 <= v < |g| ==> counts[v] == Pending(g, {}, |g|)[v] && (v in queue <==> counts[v] == 0)
    ensures Taking(g, counts, queue, 0, {})
  {}

  lemma {:induction false} TakingNext(g: Graph, counts: seq<nat>, queue: seq<nat>, cursor: nat, done: set<nat>)
    requires Taking(g, counts, queue, cursor, done) && cursor < |queue|
    ensures queue[cursor] < |g| && |queue| <= |g| && Waits(g, counts, queue, done + {queue[cursor]}, g[queue[cursor]])
  {
    var u := queue[cursor];
    Bounded(g, queue);
    assert u !in queue[..cursor];
    forall v | 0 <= v < |g|
      ensures Pending(g, done, |g|)[v] == Pending(g, done + {u}, |g|)[v] + multiset(g[u])[v]
    {
      PendingWithout(g, done, |g|, u, v);
    }
  }

  lemma {:induction false} TakingEnds(g: Graph, counts: seq<nat>, queue: seq<nat>, done: set<nat>)
    requires Taking(g, counts, queue, |queue|, done)
    ensures Ordered(g, queue) && forall v :: 0 <= v < |g| && v !in queue ==> Included(g, Left(g, queue), v)
  {
    assert queue[..|queue|] == queue;
    forall v | 0 <= v < |g| && v !in queue ensures Included(g, Left(g, queue), v) {
      PendingNone(g, done, |g|, v);
      var u :| 0 <= u < |g| && u !in done && v in g[u];
      assert u in Left(g, queue);
    }
  }

  /** One include less to count. */
  lemma {:induction false} OneLess(g: Graph, counts: seq<nat>, queue: seq<nat>, done: set<nat>, more: seq<nat>)
    requires Waits(g, counts, queue, done, more) && more != [] && more[0] < |g|
    ensures
      var v := more[0];
      && counts[v] > 0
      && Waits(g, counts[v := counts[v] - 1], if counts[v] == 1 then queue + [v] else queue, done, more[1..])
  {
    var v := more[0];
    assert more == [v] + more[1..];
    PendingNone(g, done, |g|, v);
    if counts[v] == 1 { LastOne(g, queue, v, done); }
    assert multiset(more) == multiset{v} + multiset(more[1..]);
    hide Ordered, Pending;
  }

  lemma {:induction false} NothingBefore(g: Graph, queue: seq<nat>)
    requires Distinct(queue) && Within(queue, |g|)
    requires forall x :: x in queue ==> Pending(g, {}, |g|)[x] == 0
    ensures Ordered(g, queue)
  {
    forall k | 0 <= k < |queue| ensures forall u :: 0 <= u < |g| ==> queue[k] !in g[u] {
      assert queue[k] in queue;
      PendingNone(g, {}, |g|, queue[k]);
    }
  }

  /** Takes a source away: what nothing left includes any more follows at the end. */
  method TakeOne(g: Graph, counts: array<nat>, start: seq<nat>, cursor: nat, ghost done: set<nat>)
    returns (queue: seq<nat>)
    requires Closed(g) && counts.Length == |g| && Taking(g, counts[..], start, cursor, done)
    requires cursor < |start| && start[cursor] < |g|
    requires Waits(g, counts[..], start, done + {start[cursor]}, g[start[cursor]])
    modifies counts
    ensures start <= queue && Taking(g, counts[..], queue, cursor + 1, done + {start[cursor]})
  {
    hide Waits;
    var u := start[cursor];
    queue := start;
    assert g[u][0..] == g[u];
    for k := 0 to |g[u]|
      invariant start <= queue && Waits(g, counts[..], queue, done + {u}, g[u][k..])
    {
      var v := g[u][k];
      OneLess(g, counts[..], queue, done + {u}, g[u][k..]);
      ghost var before := counts[..];
      counts[v] := counts[v] - 1;
      assert counts[..] == before[v := before[v] - 1];
      if counts[v] == 0 { queue := queue + [v]; }
    }
    assert g[u][|g[u]|..] == [];
    assert queue[..cursor + 1] == start[..cursor + 1] == start[..cursor] + [u];
  }

  lemma {:induction false} LastOne(g: Graph, queue: seq<nat>, v: nat, done: set<nat>)
    requires Ordered(g, queue) && v < |g| && v !in queue && forall x :: x in done ==> x in queue
    requires forall u :: 0 <= u < |g| && u !in done ==> v !in g[u]
    ensures Ordered(g, queue + [v])
  {
    var longer := queue + [v];
    forall k, u | 0 <= k < |longer| && 0 <= u < |g| && longer[k] in g[u] ensures u in longer[..k] {
      if k < |queue| { assert longer[..k] == queue[..k]; } else { assert longer[..k] == queue; }
    }
  }

  lemma {:induction false} Bounded(g: Graph, queue: seq<nat>)
    requires Ordered(g, queue)
    ensures |queue| <= |g| && Within(queue, |g|)
  {
    DistinctFits(queue, Numbers(|g|));
  }

  lemma {:induction false} BoundedWithout(g: Graph, queue: seq<nat>, v: nat)
    requires Ordered(g, queue) && v < |g| && v !in queue
    ensures |queue| < |g|
  {
    DistinctFits(queue, Numbers(|g|) - {v});
  }

  /** All sources can be taken away exactly if there is no cycle. */
  lemma {:induction false} TakenAway(g: Graph, queue: seq<nat>)
    requires Closed(g) && Ordered(g, queue)
    requires forall v :: 0 <= v < |g| && v !in queue ==> Included(g, Left(g, queue), v)
    ensures |queue| == |g| <==> Acyclic(g)
  {
    hide Included, Ordered;
    Bounded(g, queue);
    var rest := Left(g, queue);
    if rest != {} {
      var v :| v in rest;
      BoundedWithout(g, queue, v);
      BackwardCycle(g, rest);
    } else {
      forall v | 0 <= v < |g| ensures v in queue { assert v !in rest; }
      NoneLeft(g, queue);
      OrderedIsAcyclic(g, queue);
    }
  }

  lemma {:induction false} OrderedIsAcyclic(g: Graph, queue: seq<nat>)
    requires Ordered(g, queue) && forall v :: 0 <= v < |g| ==> v in queue
    ensures Acyclic(g)
  {
    if !Acyclic(g) {
      var v :| Leads(g, v, v);
      var w :| Steps(g, w) && |w| >= 2 && w[0] == v && w[|w| - 1] == v;
      assert w[0] < |g| && v in queue;
      var q :| 0 <= q < |queue| && queue[q] == v;
      var p := WalkDescends(g, queue, w, |w| - 1, q);
    }
  }

  lemma {:induction false} NoneLeft(g: Graph, queue: seq<nat>)
    requires Within(queue, |g|) && forall v :: 0 <= v < |g| ==> v in queue
    ensures |queue| >= |g|
  {
    assert Elements(queue) == Numbers(|g|);
  }

  ghost function Elements(s: seq<nat>): (e: set<nat>)
    ensures |e| <= |s| && forall x: nat :: x in e <==> x in s
  {
    if s == [] then {}
    else
      var last := |s| - 1;
      assert s == s[..last] + [s[last]];
      Elements(s[..last]) + {s[last]}
  }

  /** Along a walk the places in the queue grow. */
  lemma {:induction false} WalkDescends(g: Graph, queue: seq<nat>, w: seq<nat>, k: nat, q: nat) returns (p: nat)
    requires Ordered(g, queue) && Steps(g, w) && 0 < k < |w| && q < |queue| && queue[q] == w[k]
    ensures p < q && queue[p] == w[0]
  {
    assert w[k - 1] < |g| && w[k] in g[w[k - 1]];
    assert w[k - 1] in queue[..q];
    p :| 0 <= p < q && queue[p] == w[k - 1];
    if k > 1 { p := WalkDescends(g, queue, w, k - 1, p); }
  }

  /** The check after a full build. */
  method ValidateSourceGraph(g: Graph) returns (status: Status)
    ensures status == (if !Closed(g) then InvalidArgument else if Acyclic(g) then Ok else SemanticConflict)
  {
    var counts;
    status, counts := CountIncludes(g);
    if status != Ok { return; }
    var queue := TakeAway(g, counts);
    TakenAway(g, queue);
    if |queue| != |g| { status := SemanticConflict; }
  }

  // ---------- The check of an update ----------

  /** How far a search from `root` has come: what was visited or waits is on a way from it, and all
      that a visited source includes has been visited or waits. */
  ghost predicate Searched(g: Graph, root: nat, visited: set<nat>, stack: seq<nat>) {
    && root in visited && visited <= Numbers(|g|) && Within(stack, |g|)
    && (forall v :: v in stack ==> Leads(g, root, v))
    && (forall v :: v in visited && v != root ==> Leads(g, root, v))
    && forall u, v :: u in visited && u < |g| && v in g[u] ==> (v in visited && v != root) || v in stack
  }

  /** Whether `root` includes itself through others: a search from what it includes. */
  method SearchCycle(g: Graph, root: nat) returns (found: bool)
    requires Closed(g) && root < |g|
    ensures found <==> Leads(g, root, root)
  {
    hide Leads, Searched;
    var visited: set<nat> := {root};
    var stack := g[root];
    SearchStarts(g, root);
    while stack != []
      invariant Searched(g, root, visited, stack)
      decreases Numbers(|g|) - visited, |stack|
    {
      var last := |stack| - 1;
      var current := stack[last];
      if current == root {
        assert Leads(g, root, root) by { SearchHits(g, root, visited, stack); }
        return true;
      }
      SearchPops(g, root, visited, stack);
      stack := stack[..last];
      if current !in visited {
        visited := visited + {current};
        stack := stack + g[current];
      }
    }
    SearchEnds(g, root, visited);
    NotFoundInside(g, visited, root);
    found := false;
  }

  lemma {:induction false} SearchStarts(g: Graph, root: nat)
    requires Closed(g) && root < |g|
    ensures Searched(g, root, {root}, g[root])
  {
    hide Leads;
    forall v: nat | v in g[root] ensures Leads(g, root, v) { LeadsStep(g, root, v); }
  }

  lemma {:induction false} SearchHits(g: Graph, root: nat, visited: set<nat>, stack: seq<nat>)
    requires Searched(g, root, visited, stack) && root in stack
    ensures Leads(g, root, root)
  {}

  lemma {:induction false} SearchPops(g: Graph, root: nat, visited: set<nat>, stack: seq<nat>)
    requires Closed(g) && Searched(g, root, visited, stack) && stack != [] && stack[|stack| - 1] != root
    ensures
      var last := |stack| - 1;
      var current := stack[last];
      && current < |g|
      && if current in visited then Searched(g, root, visited, stack[..last])
         else
           && Searched(g, root, visited + {current}, stack[..last] + g[current])
           && Numbers(|g|) - (visited + {current}) < Numbers(|g|) - visited
  {
    hide Leads;
    var last := |stack| - 1;
    var current := stack[last];
    assert stack == stack[..last] + [current];
    if current !in visited {
      forall v: nat | v in g[current] ensures Leads(g, root, v) { LeadsThrough(g, root, current, v); }
      assert current in Numbers(|g|) - visited;
    }
  }

  lemma {:induction false} SearchEnds(g: Graph, root: nat, visited: set<nat>)
    requires Searched(g, root, visited, [])
    ensures root in visited && forall u, v :: u in visited && u < |g| && v in g[u] ==> v in visited && v != root
  {}

  lemma {:induction false} NotFoundInside(g: Graph, inside: set<nat>, root: nat)
    requires root in inside && forall u, v :: u in inside && u < |g| && v in g[u] ==> v in inside && v != root
    ensures !Leads(g, root, root)
  {
    if Leads(g, root, root) {
      var w :| Steps(g, w) && |w| >= 2 && w[0] == root && w[|w| - 1] == root;
      StaysInside(g, inside, root, w, |w| - 1);
    }
  }

  lemma {:induction false} LeadsThrough(g: Graph, u: nat, v: nat, x: nat)
    requires Leads(g, u, v) && v < |g| && x in g[v]
    ensures Leads(g, u, x)
  {
    var w :| Steps(g, w) && |w| >= 2 && w[0] == u && w[|w| - 1] == v;
    var longer := w + [x];
    forall k | 0 <= k < |longer| - 1 ensures longer[k] < |g| && longer[k + 1] in g[longer[k]] {
      if k < |w| - 1 { assert longer[k] == w[k] && longer[k + 1] == w[k + 1]; }
    }
    assert Steps(g, longer);
  }

  lemma {:induction false} StaysInside(g: Graph, inside: set<nat>, root: nat, w: seq<nat>, k: nat)
    requires root in inside && Steps(g, w) && 0 < k < |w| && w[0] == root
    requires forall u, v :: u in inside && u < |g| && v in g[u] ==> v in inside && v != root
    ensures w[k] in inside && w[k] != root
  {
    if k > 1 { StaysInside(g, inside, root, w, k - 1); }
    assert w[k - 1] < |g| && w[k] in g[w[k - 1]];
  }

  /** The check after an update: only from the sources whose includes may have changed. */
  method ValidateChangedSourceGraph(g: Graph, changed: seq<nat>) returns (status: Status)
    requires Closed(g) && Within(changed, |g|)
    ensures status == (if forall c :: c in changed ==> !Leads(g, c, c) then Ok else SemanticConflict)
  {
    for k := 0 to |changed|
      invariant forall j :: 0 <= j < k ==> !Leads(g, changed[j], changed[j])
    {
      assert changed[k] in changed;
      var found := SearchCycle(g, changed[k]);
      if found { return SemanticConflict; }
    }
    status := Ok;
  }

  /** What an update has left of a graph: only the changed sources include anything else than
      before, and every new source is changed. */
  predicate Grown(before: Graph, g: Graph, changed: seq<nat>) {
    && |before| <= |g|
    && (forall u :: 0 <= u < |before| && u !in changed ==> g[u] == before[u])
    && forall u :: |before| <= u < |g| ==> u in changed
  }

  /** Looking from the changed sources is enough: a graph that was acyclic stays so exactly if no
      changed source includes itself. */
  lemma {:induction false} ChangedDecideCycles(before: Graph, g: Graph, changed: seq<nat>)
    requires Acyclic(before) && Grown(before, g, changed)
    ensures Acyclic(g) <==> forall c :: c in changed ==> !Leads(g, c, c)
  {
    if !Acyclic(g) {
      var v :| Leads(g, v, v);
      var w :| Steps(g, w) && |w| >= 2 && w[0] == v && w[|w| - 1] == v;
      if i :| 0 <= i < |w| - 1 && w[i] in changed {
        Rotated(g, w, i);
      } else {
        forall k | 0 <= k < |w| - 1 ensures w[k] < |before| && w[k + 1] in before[w[k]] {
          assert w[k] < |g| && w[k + 1] in g[w[k]] && w[k] !in changed;
        }
        assert Steps(before, w);
        assert Leads(before, v, v);
      }
    }
  }

  // ---------- What an update affects ----------

  function DependentsAmong(g: Graph, v: nat, n: nat): (r: seq<nat>)
    requires n <= |g|
    ensures forall u :: u in r <==> 0 <= u < n && v in g[u]
  {
    if n == 0 then [] else DependentsAmong(g, v, n - 1) + if v in g[n - 1] then [n - 1] else []
  }

  /** The reverse edges kept with the sources: those that include `v` directly. */
  function DependentsOf(g: Graph, v: nat): (r: seq<nat>)
    ensures forall u :: u in r <==> 0 <= u < |g| && v in g[u]
  {
    DependentsAmong(g, v, |g|)
  }

  /** The sources that include `source`, directly or through others. */
  method CollectDependents(g: Graph, source: nat) returns (output: seq<nat>)
    requires Closed(g) && source < |g|
    ensures forall u: nat :: u in output <==> u != source && Leads(g, u, source)
    ensures Within(output, |g|)
  {
    hide Leads;
    var visited: set<nat>;
    visited, output := Enqueue(g, {source}, [], source, source);
    var cursor := 0;
    while cursor < |output|
      invariant 0 <= cursor <= |output| && QueueOf(g, source, visited, output)
      invariant forall u :: 0 <= u < |g| && source in g[u] ==> u in visited
      invariant forall k, u :: 0 <= k < cursor && 0 <= u < |g| && output[k] in g[u] ==> u in visited
      decreases |g| - cursor
    {
      DistinctFits(output, Numbers(|g|));
      ghost var before := output;
      var current := output[cursor];
      visited, output := Enqueue(g, visited, output, current, source);
      assert forall k :: 0 <= k < |before| ==> output[k] == before[k];
      cursor := cursor + 1;
    }
    forall v, u | v in visited && 0 <= u < |g| && v in g[u] ensures u in visited {
      if v != source {
        var k :| 0 <= k < |output| && output[k] == v;
      }
    }
    forall u: nat | u != source && Leads(g, u, source) ensures u in output { CameFromAll(g, visited, source, u); }
  }

  lemma {:induction false} CameFromAll(g: Graph, visited: set<nat>, source: nat, u: nat)
    requires source in visited && Leads(g, u, source)
    requires forall v, u :: v in visited && 0 <= u < |g| && v in g[u] ==> u in visited
    ensures u in visited
  {
    var w :| Steps(g, w) && |w| >= 2 && w[0] == u && w[|w| - 1] == source;
    CameFrom(g, visited, source, w, 0);
  }

  /** All found so far, without repetition and each on a way to `source`. */
  ghost predicate QueueOf(g: Graph, source: nat, visited: set<nat>, output: seq<nat>) {
    && (forall u: nat :: u in visited <==> u == source || u in output)
    && source !in output && Distinct(output) && Within(output, |g|)
    && forall u :: u in output ==> Leads(g, u, source)
  }

  method Enqueue(g: Graph, known: set<nat>, queue: seq<nat>, v: nat, ghost source: nat)
    returns (visited: set<nat>, output: seq<nat>)
    requires Closed(g) && QueueOf(g, source, known, queue) && (v == source || v in queue)
    ensures QueueOf(g, source, visited, output) && queue <= output && known <= visited
    ensures forall u :: 0 <= u < |g| && v in g[u] ==> u in visited
  {
    hide Leads;
    visited, output := known, queue;
    var dependents := DependentsOf(g, v);
    for k := 0 to |dependents|
      invariant QueueOf(g, source, visited, output) && queue <= output && known <= visited
      invariant forall j :: 0 <= j < k ==> dependents[j] in visited
    {
      var u := dependents[k];
      assert u in dependents;
      if u !in visited {
        if v == source { LeadsStep(g, u, source); } else { LeadsOn(g, u, v, source); }
        visited, output := visited + {u}, output + [u];
      }
    }
  }

  lemma {:induction false} CameFrom(g: Graph, visited: set<nat>, source: nat, w: seq<nat>, k: nat)
    requires source in visited && Steps(g, w) && k < |w| && w[|w| - 1] == source
    requires forall v, u :: v in visited && 0 <= u < |g| && v in g[u] ==> u in visited
    ensures w[k] in visited
    decreases |w| - k
  {
    if k < |w| - 1 {
      CameFrom(g, visited, source, w, k + 1);
      assert w[k] < |g| && w[k + 1] in g[w[k]];
    }
  }

  /** A changed source, or one that includes such a source. */
  ghost predicate Affected(g: Graph, changed: seq<nat>, u: nat) {
    u in changed || exists c :: c in changed && Leads(g, u, c)
  }

  /** The changed sources, each followed by its dependents, and none twice. */
  method CollectAffected(g: Graph, changed: seq<nat>) returns (affected: seq<nat>)
    requires Closed(g) && Within(changed, |g|)
    ensures Distinct(affected) && Within(affected, |g|)
    ensures forall u: nat :: u in affected <==> Affected(g, changed, u)
    ensures forall c :: c in changed ==> c in affected
  {
    hide Leads, Affected;
    affected := [];
    assert forall u: nat :: !Affected(g, changed[..0], u) by { NoneAffected(g); }
    for k := 0 to |changed|
      invariant Distinct(affected) && Within(affected, |g|)
      invariant forall u: nat :: u in affected <==> Affected(g, changed[..k], u)
    {
      var c := changed[k];
      var dependents := CollectDependents(g, c);
      ghost var before := affected;
      affected := WithAll(affected, [c] + dependents);
      forall u: nat ensures u in affected <==> Affected(g, changed[..k + 1], u) {
        assert u in [c] + dependents <==> u == c || u in dependents;
        OneMoreChanged(g, changed, k, u);
      }
      assert Within(affected, |g|) by {
        forall i | 0 <= i < |affected| ensures affected[i] < |g| {
          assert affected[i] in before || affected[i] in [c] + dependents;
        }
      }
    }
    assert changed[..|changed|] == changed;
    forall c | c in changed ensures c in affected { ChangedIsAffected(g, changed, c); }
  }

  lemma {:induction false} ChangedIsAffected(g: Graph, changed: seq<nat>, c: nat)
    requires c in changed
    ensures Affected(g, changed, c)
  {}

  lemma {:induction false} NoneAffected(g: Graph)
    ensures forall u: nat :: !Affected(g, [], u)
  {}

  lemma {:induction false} OneMoreChanged(g: Graph, changed: seq<nat>, k: nat, u: nat)
    requires k < |changed|
    ensures
      Affected(g, changed[..k + 1], u) <==> Affected(g, changed[..k], u) || u == changed[k] || Leads(g, u, changed[k])
  {
    hide Leads;
    assert changed[..k + 1] == changed[..k] + [changed[k]];
  }

  /** Appends what is not there yet. */
  function WithAll(s: seq<nat>, more: seq<nat>): (r: seq<nat>)
    ensures s <= r && (Distinct(s) ==> Distinct(r)) && forall x :: x in r <==> x in s || x in more
    decreases |more|
  {
    if more == [] then s
    else
      assert more == [more[0]] + more[1..];
      WithAll(if more[0] in s then s else s + [more[0]], more[1..])
  }

  // ---------- Parsing ----------

  /** Everything a present source includes is present. */
  predicate CompleteAt(g: Graph, present: seq<bool>, u: nat)
    requires Closed(g) && |present| == |g| && u < |g|
  {
    present[u] ==> forall k :: 0 <= k < |g[u]| ==> present[g[u][k]]
  }

  predicate Complete(g: Graph, present: seq<bool>)
    requires Closed(g) && |present| == |g|
  {
    forall u :: 0 <= u < |g| ==> CompleteAt(g, present, u)
  }

  /** Looking at what is affected is enough: where nothing was missing before an update, nothing is
      missing after it exactly if nothing the affected sources include is missing. */
  lemma {:induction false} AffectedDecideMissing(
      before: Graph, was: seq<bool>, g: Graph, present: seq<bool>, changed: seq<nat>, affected: seq<nat>)
    requires Closed(before) && |was| == |before| && Complete(before, was)
    requires Closed(g) && |present| == |g| && Grown(before, g, changed)
    requires forall u :: 0 <= u < |before| && u !in changed ==> present[u] == was[u]
    requires Within(affected, |g|)
    requires forall c :: c in changed && c < |g| ==> c in affected
    requires forall u: nat, c :: u < |g| && c in changed && Leads(before, u, c) ==> u in affected
    ensures Complete(g, present) <==> forall u :: u in affected ==> CompleteAt(g, present, u)
  {
    if forall u :: u in affected ==> CompleteAt(g, present, u) {
      forall u | 0 <= u < |g| ensures CompleteAt(g, present, u) {
        if u !in affected {
          assert u !in changed && u < |before| && CompleteAt(before, was, u);
          forall k | present[u] && 0 <= k < |g[u]| ensures present[g[u][k]] {
            var v := g[u][k];
            LeadsStep(before, u, v);
            assert v < |before| && v !in changed && was[before[u][k]];
          }
        }
      }
    }
  }

  /** The affected sources that wait for number `p` of them, of those below `n`. */
  function WaitingAmong(g: Graph, present: seq<bool>, affected: seq<nat>, p: nat, n: nat): (r: seq<nat>)
    requires |present| == |g| && p < |affected| && n <= |affected| && Within(affected, |g|)
    ensures
      forall i :: i in r <==>
                  0 <= i < n && present[affected[p]] && present[affected[i]] && affected[p] in g[affected[i]]
  {
    if n == 0 then []
    else
      WaitingAmong(g, present, affected, p, n - 1) +
      if present[affected[p]] && present[affected[n - 1]] && affected[p] in g[affected[n - 1]] then [n - 1] else []
  }

  /** Which affected sources wait for which, by their places. */
  function Waiting(g: Graph, present: seq<bool>, affected: seq<nat>): (h: Graph)
    requires |present| == |g| && Within(affected, |g|)
    ensures |h| == |affected| && Closed(h)
    ensures
      forall p, i :: 0 <= p < |h| && 0 <= i < |h| ==>
                       (i in h[p] <==> present[affected[p]] && present[affected[i]] && affected[p] in g[affected[i]])
  {
    var h := seq(|affected|, p requires 0 <= p < |affected| => WaitingAmong(g, present, affected, p, |affected|));
    assert forall p, k :: 0 <= p < |h| && 0 <= k < |h[p]| ==> h[p][k] in h[p];
    h
  }

  lemma {:induction false} WaitingIsAcyclic(g: Graph, present: seq<bool>, affected: seq<nat>)
    requires Acyclic(g) && |present| == |g| && Within(affected, |g|)
    ensures Acyclic(Waiting(g, present, affected))
  {
    var h := Waiting(g, present, affected);
    forall p ensures !Leads(h, p, p) {
      if Leads(h, p, p) {
        var w :| Steps(h, w) && |w| >= 2 && w[0] == p && w[|w| - 1] == p;
        WaitingWalk(g, present, affected, w);
      }
    }
  }

  /** Waiting goes against the direction of the includes. */
  lemma {:induction false} WaitingWalk(g: Graph, present: seq<bool>, affected: seq<nat>, w: seq<nat>)
    requires |present| == |g| && Within(affected, |g|)
    requires Steps(Waiting(g, present, affected), w) && |w| >= 2 && w[0] == w[|w| - 1]
    ensures exists v :: Leads(g, v, v)
  {
    var h := Waiting(g, present, affected);
    var last := |w| - 1;
    forall k | 0 <= k <= last ensures w[k] < |h| {
      if k == last { assert w[0] < |h|; }
    }
    var back := seq(|w|, k requires 0 <= k < |w| => affected[w[last - k]]);
    forall k | 0 <= k < |back| - 1 ensures back[k] < |g| && back[k + 1] in g[back[k]] {
      var j := last - k - 1;
      assert w[j + 1] in h[w[j]];
    }
    WalkLeads(g, back, 0, last);
  }

  /** Parses the affected sources that are there, each after all it includes. One that includes
      something missing cannot be parsed. */
  method ParseAffected(g: Graph, present: seq<bool>, affected: seq<nat>) returns (status: Status)
    requires Closed(g) && Acyclic(g) && |present| == |g| && Distinct(affected) && Within(affected, |g|)
    ensures status == (if forall u :: u in affected ==> CompleteAt(g, present, u) then Ok else NotFound)
  {
    hide Parsed, Ordered, Acyclic, Included, Waiting;
    var h := Waiting(g, present, affected);
    WaitingIsAcyclic(g, present, affected);
    var counts;
    status, counts := CountIncludes(h);
    var ready := TakeAway(h, counts);
    TakenAway(h, ready);
    InRange(h, ready);
    AllReady(h, ready);
    var parsed: set<nat> := {};
    assert Parsed(present, affected, ready[..0], parsed) by { NothingParsed(present, affected); }
    for k := 0 to |ready|
      invariant Parsed(present, affected, ready[..k], parsed)
      invariant forall j :: 0 <= j < k ==> CompleteAt(g, present, affected[ready[j]])
    {
      var u := affected[ready[k]];
      ParsedNext(present, affected, ready, k, parsed);
      if present[u] {
        status := ParseOne(g, present, affected, h, ready, k, parsed);
        if status != Ok {
          assert u in affected;
          return;
        }
        parsed := parsed + {u};
      }
    }
    forall u | u in affected ensures CompleteAt(g, present, u) {
      var i :| 0 <= i < |affected| && affected[i] == u;
      assert i in ready;
    }
    // Without a cycle every source that is there has been parsed, so the comparison of the two
    // counts that follows in the source never fails.
    return Ok;
  }

  /** Parses the source whose turn it is over what it includes. */
  method ParseOne(g: Graph, present: seq<bool>, affected: seq<nat>, ghost h: Graph, ready: seq<nat>, k: nat,
                  parsed: set<nat>)
    returns (status: Status)
    requires Closed(g) && |present| == |g| && Within(affected, |g|)
    requires h == Waiting(g, present, affected) && Ordered(h, ready) && k < |ready| && present[affected[ready[k]]]
    requires Parsed(present, affected, ready[..k], parsed)
    ensures status == (if CompleteAt(g, present, affected[ready[k]]) then Ok else NotFound)
  {
    hide Parsed, Ordered;
    assert Within(ready, |h|) by { InRange(h, ready); }
    var u := affected[ready[k]];
    for e := 0 to |g[u]|
      invariant forall j :: 0 <= j < e ==> present[g[u][j]]
    {
      WhatItIncludes(g, present, affected, h, ready, k, g[u][e], parsed);
      if !Available(present, affected, parsed, g[u][e]) { return NotFound; }
    }
    status := Ok;
  }

  lemma {:induction false} InRange(h: Graph, ready: seq<nat>)
    requires Ordered(h, ready)
    ensures Within(ready, |h|)
  {}

  lemma {:induction false} ParsedNext(present: seq<bool>, affected: seq<nat>, ready: seq<nat>, k: nat, parsed: set<nat>)
    requires Within(ready, |affected|) && Within(affected, |present|) && k < |ready|
    requires Parsed(present, affected, ready[..k], parsed)
    ensures
      var u := affected[ready[k]];
      Parsed(present, affected, ready[..k + 1], if present[u] then parsed + {u} else parsed)
  {
    var u, longer := affected[ready[k]], ready[..k + 1];
    var after := if present[u] then parsed + {u} else parsed;
    forall x: nat ensures x in after <==> exists j :: 0 <= j < |longer| && x == affected[longer[j]] && present[x] {
      if x in parsed {
        var j :| 0 <= j < k && x == affected[ready[..k][j]] && present[x];
        assert longer[j] == ready[..k][j];
      }
      if x == u { assert longer[k] == ready[k]; }
      if j :| 0 <= j < |longer| && x == affected[longer[j]] && present[x] {
        if j < k { assert longer[j] == ready[..k][j]; }
      }
    }
  }

  /** The affected sources that are there, of those whose turn has come. */
  ghost predicate Parsed(present: seq<bool>, affected: seq<nat>, turns: seq<nat>, parsed: set<nat>)
    requires Within(turns, |affected|) && Within(affected, |present|)
  {
    forall u: nat :: u in parsed <==> exists j :: 0 <= j < |turns| && u == affected[turns[j]] && present[u]
  }

  /** What a source of this update offers is there once it is parsed; of the others it is kept. */
  predicate Available(present: seq<bool>, affected: seq<nat>, parsed: set<nat>, v: nat)
    requires v < |present|
  {
    if v in affected then v in parsed else present[v]
  }

  lemma {:induction false} NothingParsed(present: seq<bool>, affected: seq<nat>)
    requires Within(affected, |present|)
    ensures Parsed(present, affected, [], {})
  {}

  lemma {:induction false} AllReady(h: Graph, ready: seq<nat>)
    requires Ordered(h, ready) && |ready| == |h|
    ensures forall i :: 0 <= i < |h| ==> i in ready
  {
    forall i | 0 <= i < |h| ensures i in ready {
      if i !in ready { BoundedWithout(h, ready, i); }
    }
  }

  /** When a source's turn comes, what it includes has been parsed, if it is affected and there. */
  lemma {:induction false} WhatItIncludes(
      g: Graph, present: seq<bool>, affected: seq<nat>, h: Graph, ready: seq<nat>, k: nat, v: nat, parsed: set<nat>)
    requires Closed(g) && |present| == |g| && Within(affected, |g|)
    requires h == Waiting(g, present, affected) && Ordered(h, ready) && k < |ready|
    requires present[affected[ready[k]]] && v in g[affected[ready[k]]] && v < |g|
    requires Parsed(present, affected, ready[..k], parsed)
    ensures Available(present, affected, parsed, v) <==> present[v]
  {
    if v in affected && present[v] {
      var p :| 0 <= p < |affected| && affected[p] == v;
      assert ready[k] in h[p];
      var j :| 0 <= j < k && ready[j] == p;
      assert ready[..k][j] == p;
    }
  }
}
