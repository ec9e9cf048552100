/** Over whole runs, restarts included, the cache answers what the reference list answers. */
module CacheRefinement {
  import opened Wrappers
  import opened Numbers
  import opened CacheModel
  import opened CacheLru

  predicate TakesTick(s: CacheState, op: Op) {
    match op
    case Set(key, _, ttl, _, _) => InvalidOp(op).None?
    case Get(key, touch, nowMs, _) => touch && InvalidOp(op).None? && Lookup(s, key, nowMs).Some?
    case _ => false
  }

  function WallClock(op: Op): nat {
    match op
    case Set(_, _, _, _, nowNs) => nowNs
    case Get(_, _, _, nowNs) => nowNs
    case _ => 0
  }

  /** The tick an operation takes, if any, is newer than every other row (see `NextTickFresh`). */
  ghost predicate FreshTick(s: CacheState, op: Op) {
    TakesTick(s, op) ==>
      forall k :: k in s.index && k != op.key ==> TickIsFresh(s.clock, WallClock(op), s.index[k].lastAccess)
  }

  predicate KeyUsed(op: Op, used: set<Key>) {
    op.Set? ==> op.key in used
  }

  lemma StepKeepsHashes(hash: Key -> Hash, used: set<Key>, s: CacheState, op: Op, answer: Answer, t: CacheState)
    requires RowsHashed(hash, used, s.index) && KeyUsed(op, used)
    requires Step(hash, s, op, answer, t)
    ensures RowsHashed(hash, used, t.index)
  {
  }

  lemma SetPushes(hash: Key -> Hash, used: set<Key>, s: CacheState, items: seq<Item>, key: Key, value: Value,
                  meta: Meta, stored: Index)
    requires InjectiveOn(hash, used) && RowsHashed(hash, used, s.index) && key in used
    requires Lists(items, s.index, s.entries) && stored == s.index[key := meta]
    requires forall k :: k in s.index && k != key ==> s.index[k].lastAccess < meta.lastAccess
    requires meta.hash == hash(key) && meta.binary == value.binary && meta.size == |value.payload|
    ensures Lists([Item(key, value, meta.expiresAt)] + Drop(items, key), stored, s.entries[hash(key) := value.payload])
  {
    var entries := s.entries[hash(key) := value.payload];
    DropLists(items, s.index, s.entries, key);
    assert stored - {key} == s.index - {key};
    SameFilesList(Drop(items, key), stored - {key}, s.entries, entries);
  }

  lemma SetRefines(hash: Key -> Hash, used: set<Key>, s: CacheState, r: Reference, key: Key, value: Value,
                   ttl: Option<nat>, nowMs: nat, nowNs: nat, t: CacheState)
    requires InjectiveOn(hash, used) && RowsHashed(hash, used, s.index) && key in used && ValidKey(key)
    requires Agrees(s, r) && SetStep(s, hash(key), key, value, ttl, nowMs, nowNs, t)
    requires forall k :: k in s.index && k != key ==> s.index[k].lastAccess < NextTick(s.clock, nowNs)
    ensures Lists(Trim(r.policy, [Item(key, value, ExpiryOf(ttl, r.policy, nowMs))] + Drop(r.items, key)),
                  t.index, t.entries)
  {
    var meta := RowFor(s, hash(key), value, ttl, nowMs, nowNs);
    var stored := s.index[key := meta];
    SetPushes(hash, used, s, r.items, key, value, meta, stored);
    var items := [Item(key, value, meta.expiresAt)] + Drop(r.items, key);
    EvictionRefines(hash, used, items, stored, s.entries[hash(key) := value.payload], key, s.policy, t);
  }

  lemma EvictionRefines(hash: Key -> Hash, used: set<Key>, items: seq<Item>, stored: Index, entries: map<Hash, Bytes>,
                        key: Key, policy: Policy, t: CacheState)
    requires InjectiveOn(hash, used) && RowsHashed(hash, used, stored)
    requires Lists(items, stored, entries) && items != [] && items[0].key == key
    requires WellEvicted(stored, entries, key, policy, t.index, t.entries)
    ensures Lists(Trim(policy, items), t.index, t.entries)
  {
    var evicted :| Evicts(stored, key, policy, evicted, t.index) && t.entries == WithoutFiles(entries, stored, evicted);
    EvictionIsTrim(items, stored, entries, key, policy, evicted, t.index);
    SameFilesList(Trim(policy, items), t.index, entries, t.entries);
  }

  lemma DeleteRefines(hash: Key -> Hash, used: set<Key>, s: CacheState, items: seq<Item>, key: Key)
    requires InjectiveOn(hash, used) && RowsHashed(hash, used, s.index)
    requires Lists(items, s.index, s.entries)
    ensures Lists(Drop(items, key), DeleteResult(s, key).index, DeleteResult(s, key).entries)
    ensures key !in s.index ==> Drop(items, key) == items
  {
    DropLists(items, s.index, s.entries, key);
    if key in s.index {
      SameFilesList(Drop(items, key), s.index - {key}, s.entries, s.entries - {s.index[key].hash});
    } else {
      assert s.index - {key} == s.index;
      DropMissing(items, s.index, s.entries, key);
    }
  }

  lemma {:induction false} DropMissing(items: seq<Item>, index: Index, entries: map<Hash, Bytes>, key: Key)
    requires Lists(items, index, entries) && key !in index
    ensures Drop(items, key) == items
  {
    if items != [] {
      DropMissing(items[1..], index - {items[0].key}, entries, key);
      assert items == [items[0]] + items[1..];
    }
  }

  lemma TouchRefines(s: CacheState, items: seq<Item>, key: Key, nowNs: nat)
    requires Lists(items, s.index, s.entries) && key in s.index
    requires forall k :: k in s.index && k != key ==> s.index[k].lastAccess < NextTick(s.clock, nowNs)
    ensures Find(items, key).Some?
    ensures Lists([Find(items, key).value] + Drop(items, key), Touched(s, key, nowNs).index, s.entries)
  {
    FindSpec(items, s.index, s.entries, key);
    DropLists(items, s.index, s.entries, key);
    var touched := Touched(s, key, nowNs).index;
    assert touched - {key} == s.index - {key};
  }

  lemma PurgeRefines(hash: Key -> Hash, used: set<Key>, s: CacheState, items: seq<Item>, nowMs: nat)
    requires InjectiveOn(hash, used) && RowsHashed(hash, used, s.index)
    requires Lists(items, s.index, s.entries)
    ensures var live, t := DropExpired(items, nowMs), PurgeResult(s, nowMs);
            Lists(live, t.index, t.entries) && KeySet(live) == t.index.Keys && |live| == |t.index|
  {
    var live := LiveIndex(s.index, nowMs);
    DropExpiredLists(items, s.index, s.entries, nowMs);
    SameFilesList(DropExpired(items, nowMs), live, s.entries, s.entries - DeadFiles(s.index, nowMs));
    CountAndWeight(DropExpired(items, nowMs), live, s.entries);
  }

  lemma StepRefines(hash: Key -> Hash, used: set<Key>, s: CacheState, r: Reference, op: Op, answer: Answer, t: CacheState)
    requires InjectiveOn(hash, used) && RowsHashed(hash, used, s.index) && KeyUsed(op, used)
    requires Agrees(s, r) && Step(hash, s, op, answer, t) && FreshTick(s, op)
    ensures Agrees(t, ReferenceStep(r, op).0)
    ensures answer == ReferenceStep(r, op).1
  {
    if TakesTick(s, op) {
      forall k | k in s.index && k != op.key
        ensures s.index[k].lastAccess < NextTick(s.clock, WallClock(op))
      {
        NextTickFresh(s.clock, WallClock(op), s.index[k].lastAccess);
      }
    }
    if InvalidOp(op).None? {
      match op
      case Set(key, value, ttl, nowMs, nowNs) =>
        SetRefines(hash, used, s, r, key, value, ttl, nowMs, nowNs, t);
      case Get(key, touch, nowMs, nowNs) =>
        FindSpec(r.items, s.index, s.entries, key);
        DeleteRefines(hash, used, s, r.items, key);
        if Lookup(s, key, nowMs).Some? && touch {
          TouchRefines(s, r.items, key, nowNs);
        }
      case Has(key, nowMs) =>
        FindSpec(r.items, s.index, s.entries, key);
        DeleteRefines(hash, used, s, r.items, key);
      case Delete(key) =>
        DeleteRefines(hash, used, s, r.items, key);
      case Keys(nowMs) =>
        PurgeRefines(hash, used, s, r.items, nowMs);
      case Size(nowMs) =>
        PurgeRefines(hash, used, s, r.items, nowMs);
      case Clear =>
      case Reopen(policy) =>
      case Restart =>
    }
  }

  /** Every operation of the run that takes a tick takes a fresh one. */
  ghost predicate FreshRun(states: seq<CacheState>, ops: seq<Op>) {
    |states| == |ops| + 1 && forall i :: 0 <= i < |ops| ==> FreshTick(states[i], ops[i])
  }

  lemma {:induction false} RunRefines(hash: Key -> Hash, used: set<Key>, states: seq<CacheState>, ops: seq<Op>,
                                      answers: seq<Answer>, r: Reference, n: nat)
    requires InjectiveOn(hash, used) && IsRun(hash, states, ops, answers) && FreshRun(states, ops)
    requires forall op :: op in ops ==> KeyUsed(op, used)
    requires RowsHashed(hash, used, states[0].index) && Agrees(states[0], r)
    requires n <= |ops|
    ensures RowsHashed(hash, used, states[n].index)
    ensures Agrees(states[n], ReferenceRun(r, ops[..n]))
    ensures n < |ops| ==> answers[n] == ReferenceStep(ReferenceRun(r, ops[..n]), ops[n]).1
  {
    if n > 0 {
      RunRefines(hash, used, states, ops, answers, r, n - 1);
      StepRefines(hash, used, states[n - 1], ReferenceRun(r, ops[..n - 1]), ops[n - 1], answers[n - 1], states[n]);
      StepKeepsHashes(hash, used, states[n - 1], ops[n - 1], answers[n - 1], states[n]);
      assert ops[..n][..n - 1] == ops[..n - 1];
    }
    if n < |ops| {
      StepRefines(hash, used, states[n], ReferenceRun(r, ops[..n]), ops[n], answers[n], states[n + 1]);
    }
  }

  // ---------------------------------------------------------------------------
  // When ticks are fresh
  // ---------------------------------------------------------------------------

  ghost predicate ClockAhead(s: CacheState) {
    forall k :: k in s.index ==> s.index[k].lastAccess <= s.clock
  }

  lemma StepKeepsClockAhead(hash: Key -> Hash, s: CacheState, op: Op, answer: Answer, t: CacheState)
    requires Step(hash, s, op, answer, t) && ClockAhead(s) && !op.Restart? && s.clock < U64_MAX
    ensures ClockAhead(t)
  {
  }

  /** Without restarts, a clock below its 64-bit ceiling is all that fresh ticks need. */
  lemma {:induction false} FreshWithoutRestart(hash: Key -> Hash, states: seq<CacheState>, ops: seq<Op>, answers: seq<Answer>, n: nat)
    requires IsRun(hash, states, ops, answers) && ClockAhead(states[0])
    requires forall op :: op in ops ==> !op.Restart?
    requires forall i :: 0 <= i < |states| ==> states[i].clock < U64_MAX
    requires n <= |ops|
    ensures ClockAhead(states[n])
    ensures forall i :: 0 <= i < n ==> FreshTick(states[i], ops[i])
  {
    if n > 0 {
      FreshWithoutRestart(hash, states, ops, answers, n - 1);
      StepKeepsClockAhead(hash, states[n - 1], ops[n - 1], answers[n - 1], states[n]);
    }
  }

  /**
   A fresh tick is exactly what makes the entry just stored the most recent one. After a
   restart the condition falls to the wall clock alone.
   */
  lemma MostRecentExactly(s: CacheState, hash: Hash, key: Key, value: Value, ttl: Option<nat>, nowMs: nat, nowNs: nat)
    requires InvalidOp(Set(key, value, ttl, nowMs, nowNs)).None?
    ensures MostRecent(s.index[key := RowFor(s, hash, value, ttl, nowMs, nowNs)], key)
            <==> FreshTick(s, Set(key, value, ttl, nowMs, nowNs))
  {
    var stored := s.index[key := RowFor(s, hash, value, ttl, nowMs, nowNs)];
    forall k | k in s.index && k != key
      ensures stored[k].lastAccess < stored[key].lastAccess <==> TickIsFresh(s.clock, nowNs, s.index[k].lastAccess)
    {
      NextTickFresh(s.clock, nowNs, s.index[k].lastAccess);
    }
  }

  /** The first tick after a restart, when the clock is still at zero, finds the wall clock past every other row. */
  ghost predicate OnTime(s: CacheState, op: Op) {
    s.clock == 0 && TakesTick(s, op) ==>
      forall k :: k in s.index && k != op.key ==> s.index[k].lastAccess < WallClock(op)
  }

  lemma StepKeepsPace(hash: Key -> Hash, s: CacheState, op: Op, answer: Answer, t: CacheState)
    requires Step(hash, s, op, answer, t) && (s.clock == 0 || ClockAhead(s)) && s.clock < U64_MAX && OnTime(s, op)
    ensures t.clock == 0 || ClockAhead(t)
    ensures FreshTick(s, op)
  {
  }

  /**
   Across restarts it is enough that the wall clock is past every row at the first tick of
   each session; from there on it may go where it wants.
   */
  lemma {:induction false} FreshAcrossRestarts(hash: Key -> Hash, states: seq<CacheState>, ops: seq<Op>,
                                               answers: seq<Answer>, n: nat)
    requires IsRun(hash, states, ops, answers) && (states[0].clock == 0 || ClockAhead(states[0]))
    requires forall i :: 0 <= i < |ops| ==> OnTime(states[i], ops[i])
    requires forall i :: 0 <= i < |states| ==> states[i].clock < U64_MAX
    requires n <= |ops|
    ensures states[n].clock == 0 || ClockAhead(states[n])
    ensures forall i :: 0 <= i < n ==> FreshTick(states[i], ops[i])
  {
    if n > 0 {
      FreshAcrossRestarts(hash, states, ops, answers, n - 1);
      StepKeepsPace(hash, states[n - 1], ops[n - 1], answers[n - 1], states[n]);
    }
  }
}
