/** The open-addressing index of a sparse update: a power-of-two table of (key, position)
    slots, probed linearly and never deleted from. Proved for every hash function. */
module PatchIndex {
  import opened Wrappers

  /** `key` 0 marks an empty slot; `position` is the patch number plus one. */
  datatype Slot = Slot(key: nat, position: nat)

  const EMPTY_SLOT: Slot := Slot(0, 0)

  // ---------- Capacity ----------

  predicate PowerOfTwo(n: nat) { n == 1 || (n > 1 && n % 2 == 0 && PowerOfTwo(n / 2)) }

  function BitCeilFrom(p: nat, n: nat): nat
    requires p > 0
    decreases n - p
  {
    if p >= n then p else BitCeilFrom(2 * p, n)
  }

  function PatchCapacity(count: nat): nat {
    if count == 0 || count > MAX_SIZE / 2 then 0
    else BitCeilFrom(1, if count * 2 < 8 then 8 else count * 2)
  }

  lemma {:induction false} BitCeilIsLeast(p: nat, n: nat)
    requires p > 0 && PowerOfTwo(p)
    ensures PowerOfTwo(BitCeilFrom(p, n)) && BitCeilFrom(p, n) >= n
    ensures BitCeilFrom(p, n) == p || BitCeilFrom(p, n) < 2 * n
    decreases n - p
  {
    if p < n {
      assert (2 * p) / 2 == p;
      BitCeilIsLeast(2 * p, n);
    }
  }

  /** The table has at least twice as many slots as patches were announced, and never four
      times as many once the minimum of eight is passed. */
  lemma {:induction false} CapacityLeavesHalfEmpty(count: nat)
    requires 0 < count <= MAX_SIZE / 2
    ensures PowerOfTwo(PatchCapacity(count))
    ensures 2 * count <= PatchCapacity(count)
    ensures PatchCapacity(count) <= 15 || PatchCapacity(count) < 4 * count
  {
    BitCeilIsLeast(1, if count * 2 < 8 then 8 else count * 2);
  }

  // ---------- Probing ----------

  function Home(hash: nat -> nat, key: nat, size: nat): (r: nat)
    requires size > 0
    ensures r < size
  {
    hash(key) % size
  }

  /** The slot visited after `n` steps; masking with `size - 1` is this wrap-around. */
  function At(home: nat, n: nat, size: nat): (r: nat)
    requires home < size && n <= size
    ensures r < size
  {
    if home + n < size then home + n else home + n - size
  }

  /** The first `n` slots of the probe sequence hold other keys. */
  predicate PathTo(slots: seq<Slot>, home: nat, n: nat, key: nat)
    requires home < |slots| && n <= |slots|
  {
    forall m :: 0 <= m < n ==> slots[At(home, m, |slots|)].key != 0 && slots[At(home, m, |slots|)].key != key
  }

  predicate FoundAfter(slots: seq<Slot>, home: nat, n: nat, key: nat, position: nat)
    requires home < |slots|
  {
    n < |slots| && slots[At(home, n, |slots|)] == Slot(key, position) && PathTo(slots, home, n, key)
  }

  predicate Distinct(keys: seq<nat>) {
    forall i, j :: 0 <= i < j < |keys| ==> keys[i] != keys[j]
  }

  predicate Linked(slots: seq<Slot>, keys: seq<nat>) {
    forall s :: 0 <= s < |slots| && slots[s].key != 0 ==>
      1 <= slots[s].position <= |keys| && keys[slots[s].position - 1] == slots[s].key
  }

  ghost predicate Reachable(slots: seq<Slot>, hash: nat -> nat, key: nat, position: nat)
    requires |slots| > 0
  {
    exists n :: FoundAfter(slots, Home(hash, key, |slots|), n, key, position)
  }

  ghost predicate Placed(slots: seq<Slot>, keys: seq<nat>, hash: nat -> nat)
    requires |slots| > 0
  {
    forall i :: 0 <= i < |keys| ==> Reachable(slots, hash, keys[i], i + 1)
  }

  function Occupied(slots: seq<Slot>): nat {
    if slots == [] then 0
    else Occupied(slots[..|slots| - 1]) + if slots[|slots| - 1].key != 0 then 1 else 0
  }

  /** The table indexes exactly the given keys, in the order they were added. */
  ghost predicate Indexes(slots: seq<Slot>, keys: seq<nat>, hash: nat -> nat) {
    && Distinct(keys)
    && (forall i :: 0 <= i < |keys| ==> keys[i] != 0)
    && Linked(slots, keys)
    && (if |slots| == 0 then keys == [] else Placed(slots, keys, hash))
    && Occupied(slots) == |keys|
  }

  lemma {:induction false} LinkedKeys(slots: seq<Slot>, keys: seq<nat>, p: nat)
    requires Linked(slots, keys) && p < |slots| && slots[p].key != 0
    ensures slots[p].key in keys
  {
  }

  lemma {:induction false} OccupiedUpdate(slots: seq<Slot>, p: nat, s: Slot)
    requires p < |slots| && slots[p].key == 0 && s.key != 0
    ensures Occupied(slots[p := s]) == Occupied(slots) + 1
  {
    var last := |slots| - 1;
    if p == last {
      assert slots[p := s][..last] == slots[..last];
    } else {
      assert slots[p := s][..last] == slots[..last][p := s];
      OccupiedUpdate(slots[..last], p, s);
    }
  }

  lemma {:induction false} FullMeansOccupied(slots: seq<Slot>)
    requires forall s :: 0 <= s < |slots| ==> slots[s].key != 0
    ensures Occupied(slots) == |slots|
  {
    if slots != [] {
      FullMeansOccupied(slots[..|slots| - 1]);
    }
  }

  lemma {:induction false} EmptyTable(size: nat, hash: nat -> nat)
    ensures Indexes(seq(size, _ => EMPTY_SLOT), [], hash)
  {
    var slots := seq(size, _ => EMPTY_SLOT);
    if size > 0 {
      EmptyTable(size - 1, hash);
      assert slots[..size - 1] == seq(size - 1, _ => EMPTY_SLOT);
    }
  }

  /** An empty slot ends every probe sequence of a key that is not in the table. */
  lemma {:induction false} AbsentAtEmpty(slots: seq<Slot>, keys: seq<nat>, hash: nat -> nat, key: nat, n: nat)
    requires |slots| > 0 && Indexes(slots, keys, hash) && n <= |slots|
    requires PathTo(slots, Home(hash, key, |slots|), n, key)
    requires n == |slots| || slots[At(Home(hash, key, |slots|), n, |slots|)].key == 0
    ensures key !in keys
  {
    var home := Home(hash, key, |slots|);
    forall i | 0 <= i < |keys| ensures keys[i] != key {
      assert Reachable(slots, hash, keys[i], i + 1);
      var m :| FoundAfter(slots, Home(hash, keys[i], |slots|), m, keys[i], i + 1);
      var p, q := At(home, n, |slots|), At(home, m, |slots|);
    }
  }

  /** `find_source_patch` / `find_construction_patch`: finds the patch of a key and nothing else. */
  method Find(slots: seq<Slot>, ghost keys: seq<nat>, hash: nat -> nat, key: nat) returns (r: Option<nat>)
    requires Indexes(slots, keys, hash)
    ensures r.Some? ==> r.value < |keys| && keys[r.value] == key
    ensures r.None? ==> key !in keys
  {
    if key == 0 || |slots| == 0 {
      return None;
    }
    var home := Home(hash, key, |slots|);
    var position := home;
    for probe := 0 to |slots|
      invariant position == At(home, probe, |slots|)
      invariant PathTo(slots, home, probe, key)
    {
      var slot := slots[position];
      if slot.key == 0 {
        AbsentAtEmpty(slots, keys, hash, key, probe);
        return None;
      }
      if slot.key == key {
        return Some(slot.position - 1);
      }
      position := if position + 1 == |slots| then 0 else position + 1;
    }
    AbsentAtEmpty(slots, keys, hash, key, |slots|);
    r := None;
  }

  lemma {:induction false} CoversAll(slots: seq<Slot>, home: nat, key: nat)
    requires home < |slots| && PathTo(slots, home, |slots|, key)
    ensures forall s :: 0 <= s < |slots| ==> slots[s].key != 0
  {
    forall s | 0 <= s < |slots| ensures slots[s].key != 0 {
      var m := if s >= home then s - home else s + |slots| - home;
      assert At(home, m, |slots|) == s;
    }
  }

  lemma {:induction false} PathSurvives(
      slots: seq<Slot>, home: nat, n: nat, key: nat, position: nat, p: nat, added: Slot)
    requires home < |slots| && FoundAfter(slots, home, n, key, position) && key != 0
    requires p < |slots| && slots[p].key == 0 && added.key != 0 && added.key != key
    ensures FoundAfter(slots[p := added], home, n, key, position)
  {
  }

  lemma {:induction false} InsertKeepsPlaced(
      slots: seq<Slot>, keys: seq<nat>, hash: nat -> nat, key: nat, n: nat, p: nat)
    requires |slots| > 0 && Placed(slots, keys, hash) && (forall i :: 0 <= i < |keys| ==> keys[i] != 0 && keys[i] != key)
    requires key != 0 && n < |slots| && PathTo(slots, Home(hash, key, |slots|), n, key)
    requires p == At(Home(hash, key, |slots|), n, |slots|) && slots[p].key == 0
    ensures Placed(slots[p := Slot(key, |keys| + 1)], keys + [key], hash)
  {
    var added := Slot(key, |keys| + 1);
    var after := slots[p := added];
    assert FoundAfter(after, Home(hash, key, |slots|), n, key, |keys| + 1);
    forall i | 0 <= i < |keys|
      ensures Reachable(after, hash, keys[i], i + 1)
    {
      assert Reachable(slots, hash, keys[i], i + 1);
      var h := Home(hash, keys[i], |slots|);
      var m :| FoundAfter(slots, h, m, keys[i], i + 1);
      PathSurvives(slots, h, m, keys[i], i + 1, p, added);
    }
  }

  /** Filling the first empty slot of a new key's probe sequence extends the index by that key. */
  lemma {:induction false} InsertIndexes(slots: seq<Slot>, keys: seq<nat>, hash: nat -> nat, key: nat, n: nat, p: nat)
    requires |slots| > 0 && Indexes(slots, keys, hash) && key != 0 && key !in keys
    requires n < |slots| && PathTo(slots, Home(hash, key, |slots|), n, key)
    requires p == At(Home(hash, key, |slots|), n, |slots|) && slots[p].key == 0
    ensures Indexes(slots[p := Slot(key, |keys| + 1)], keys + [key], hash)
    ensures |keys| < |slots|
  {
    InsertKeepsPlaced(slots, keys, hash, key, n, p);
    OccupiedUpdate(slots, p, Slot(key, |keys| + 1));
    NotFull(slots, p);
  }

  lemma {:induction false} FullTable(slots: seq<Slot>, keys: seq<nat>, hash: nat -> nat, home: nat, key: nat)
    requires Indexes(slots, keys, hash) && home < |slots| && PathTo(slots, home, |slots|, key)
    ensures |keys| == |slots|
  {
    CoversAll(slots, home, key);
    FullMeansOccupied(slots);
  }

  /** The insertion loop of `add_source_patch` / `add_construction_patch`. It cannot report a
      full table while fewer keys are stored than there are slots. */
  method Insert(slots: seq<Slot>, ghost keys: seq<nat>, count: nat, hash: nat -> nat, key: nat)
      returns (ok: bool, after: seq<Slot>)
    requires |slots| > 0 && Indexes(slots, keys, hash) && count == |keys|
    requires key != 0 && key !in keys
    ensures ok == (|keys| < |slots|)
    ensures ok ==> Indexes(after, keys + [key], hash) && |after| == |slots|
    ensures !ok ==> after == slots
  {
    var home := Home(hash, key, |slots|);
    var position := home;
    for probe := 0 to |slots|
      invariant position == At(home, probe, |slots|)
      invariant PathTo(slots, home, probe, key)
    {
      if slots[position].key == 0 {
        after := slots[position := Slot(key, count + 1)];
        InsertIndexes(slots, keys, hash, key, probe, position);
        return true, after;
      }
      LinkedKeys(slots, keys, position);
      position := if position + 1 == |slots| then 0 else position + 1;
    }
    FullTable(slots, keys, hash, home, key);
    return false, slots;
  }

  lemma {:induction false} NotFull(slots: seq<Slot>, p: nat)
    requires p < |slots| && slots[p].key == 0
    ensures Occupied(slots) < |slots|
  {
    var last := |slots| - 1;
    if p < last {
      NotFull(slots[..last], p);
    } else {
      OccupiedAtMost(slots[..last]);
    }
  }

  lemma {:induction false} OccupiedAtMost(slots: seq<Slot>)
    ensures Occupied(slots) <= |slots|
  {
    if slots != [] {
      OccupiedAtMost(slots[..|slots| - 1]);
    }
  }
}
