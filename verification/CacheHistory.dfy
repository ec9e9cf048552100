/**
 Over whole runs, what a lookup answers is determined by the last write to its key: never a
 stale value, and no entry is lost except by expiry or by an eviction the limits called for.
 */
module CacheHistory {
  import opened Wrappers
  import opened Numbers
  import opened CacheModel
  import opened CacheCrash

  /** The disk of a state whose index is the one on disk. */
  function DiskOf(s: CacheState): Disk {
    Disk(Some(s.index), s.entries)
  }

  function Stored(s: CacheState, key: Key): Option<Timed> {
    Recovered(DiskOf(s), key)
  }

  /** What is written under `key` after `op`, if `previous` was before. */
  function Written(s: CacheState, op: Op, key: Key, previous: Option<Timed>): Option<Timed> {
    if InvalidOp(op).Some? then previous
    else
      match op
      case Set(k, value, ttl, nowMs, _) =>
        if k == key then Some(Timed(value, ExpiryOf(ttl, s.policy, nowMs))) else previous
      case Delete(k) => if k == key then None else previous
      case Clear => None
      case _ => previous
  }

  /** The last write to `key` among the first `n` operations, starting from what was stored. */
  function LastWrite(states: seq<CacheState>, ops: seq<Op>, key: Key, n: nat): Option<Timed>
    requires |states| == |ops| + 1 && n <= |ops|
  {
    if n == 0 then Stored(states[0], key)
    else Written(states[n - 1], ops[n - 1], key, LastWrite(states, ops, key, n - 1))
  }

  /** `op` finds the entry expired. */
  predicate SeesExpired(op: Op, key: Key, expiresAt: Option<nat>) {
    match op
    case Get(k, _, nowMs, _) => k == key && Expired(expiresAt, nowMs)
    case Has(k, nowMs) => k == key && Expired(expiresAt, nowMs)
    case Keys(nowMs) => Expired(expiresAt, nowMs)
    case Size(nowMs) => Expired(expiresAt, nowMs)
    case _ => false
  }

  /** `op` stores another entry and the limits do not hold with `key` still there. */
  ghost predicate MustEvict(hash: Key -> Hash, s: CacheState, op: Op, key: Key) {
    && op.Set? && op.key != key
    && !Fits(s.policy, s.index[op.key := RowFor(s, hash(op.key), op.value, op.ttl, op.nowMs, op.nowNs)])
  }

  /** The `i`-th operation gave up the entry written last under `key`, for cause. */
  ghost predicate GivenUp(hash: Key -> Hash, states: seq<CacheState>, ops: seq<Op>, key: Key, w: Timed, i: nat) {
    && |states| == |ops| + 1 && i < |ops|
    && LastWrite(states, ops, key, i) == Some(w)
    && key in states[i].index
    && (SeesExpired(ops[i], key, w.expiresAt) || MustEvict(hash, states[i], ops[i], key))
  }

  ghost predicate AbsentSince(states: seq<CacheState>, key: Key, i: nat, n: nat) {
    i <= n < |states| && forall j :: i < j <= n ==> key !in states[j].index
  }

  /** The entry written last under `key` was given up before the `n`-th state, and not stored since. */
  ghost predicate Lost(hash: Key -> Hash, states: seq<CacheState>, ops: seq<Op>, key: Key, w: Timed, n: nat) {
    && |states| == |ops| + 1 && n <= |ops|
    && exists i :: 0 <= i < n && GivenUp(hash, states, ops, key, w, i) && AbsentSince(states, key, i, n)
  }

  ghost predicate Healthy(hash: Key -> Hash, used: set<Key>, s: CacheState) {
    RowsHashed(hash, used, s.index) && RowsHaveFiles(s.index, s.entries)
  }

  /** What is left after an eviction: rows as they were, with their files. */
  ghost predicate Remains(stored: Index, entries: map<Hash, Bytes>, rest: Index, left: map<Hash, Bytes>) {
    forall k :: k in rest ==>
      k in stored && rest[k] == stored[k]
      && rest[k].hash in entries && rest[k].hash in left && left[rest[k].hash] == entries[rest[k].hash]
  }

  lemma EvictionKeepsFiles(hash: Key -> Hash, used: set<Key>, stored: Index, entries: map<Hash, Bytes>, key: Key,
                           policy: Policy, rest: Index, left: map<Hash, Bytes>)
    requires InjectiveOn(hash, used) && RowsHashed(hash, used, stored) && RowsHaveFiles(stored, entries)
    requires WellEvicted(stored, entries, key, policy, rest, left) && key in stored
    ensures Remains(stored, entries, rest, left)
    ensures key in rest
    ensures Fits(policy, stored) ==> rest == stored
  {
    var evicted :| Evicts(stored, key, policy, evicted, rest) && left == WithoutFiles(entries, stored, evicted);
    ChainKeys(stored, key, policy, evicted);
    EvictionStops(stored, key, policy, evicted, rest);
  }

  /** A step from `s` to `t` stores under `key` what it should, and drops it only for cause. */
  ghost predicate KeepsEntry(hash: Key -> Hash, s: CacheState, op: Op, t: CacheState, key: Key) {
    var stores := op.Set? && op.key == key && InvalidOp(op).None?;
    && (key in t.index ==> (key in s.index || stores) && Stored(t, key) == Written(s, op, key, Stored(s, key)))
    && (key !in t.index ==> !stores)
    && (key in s.index && key !in t.index && Written(s, op, key, Stored(s, key)).Some? ==>
          SeesExpired(op, key, s.index[key].expiresAt) || MustEvict(hash, s, op, key))
  }

  lemma SetKeepsEntry(hash: Key -> Hash, used: set<Key>, s: CacheState, op: Op, t: CacheState, key: Key)
    requires InjectiveOn(hash, used) && Healthy(hash, used, s)
    requires op.Set? && InvalidOp(op).None? && op.key in used
    requires SetStep(s, hash(op.key), op.key, op.value, op.ttl, op.nowMs, op.nowNs, t)
    ensures Healthy(hash, used, t) && KeepsEntry(hash, s, op, t, key)
  {
    var stored := s.index[op.key := RowFor(s, hash(op.key), op.value, op.ttl, op.nowMs, op.nowNs)];
    var entries := s.entries[hash(op.key) := op.value.payload];
    EvictionKeepsFiles(hash, used, stored, entries, op.key, s.policy, t.index, t.entries);
    RemainsHealthy(hash, used, stored, entries, t);
  }

  lemma RemainsHealthy(hash: Key -> Hash, used: set<Key>, stored: Index, entries: map<Hash, Bytes>, t: CacheState)
    requires RowsHashed(hash, used, stored) && Remains(stored, entries, t.index, t.entries)
    ensures Healthy(hash, used, t)
  {
  }

  lemma LookupKeepsEntry(hash: Key -> Hash, used: set<Key>, s: CacheState, op: Op, answer: Answer, t: CacheState, key: Key)
    requires InjectiveOn(hash, used) && Healthy(hash, used, s)
    requires op.Get? || op.Has? || op.Delete?
    requires Step(hash, s, op, answer, t)
    ensures Healthy(hash, used, t) && KeepsEntry(hash, s, op, t, key)
  {
  }

  lemma StepKeepsEntry(hash: Key -> Hash, used: set<Key>, s: CacheState, op: Op, answer: Answer, t: CacheState, key: Key)
    requires InjectiveOn(hash, used) && Healthy(hash, used, s) && (op.Set? ==> op.key in used)
    requires Step(hash, s, op, answer, t)
    ensures Healthy(hash, used, t) && KeepsEntry(hash, s, op, t, key)
  {
    if op.Set? && InvalidOp(op).None? {
      SetKeepsEntry(hash, used, s, op, t, key);
    } else if op.Get? || op.Has? || op.Delete? {
      LookupKeepsEntry(hash, used, s, op, answer, t, key);
    }
  }

  lemma {:induction false} EntriesAreLastWrites(hash: Key -> Hash, used: set<Key>, states: seq<CacheState>, ops: seq<Op>,
                                                answers: seq<Answer>, key: Key, n: nat)
    requires InjectiveOn(hash, used) && IsRun(hash, states, ops, answers)
    requires forall op :: op in ops && op.Set? ==> op.key in used
    requires Healthy(hash, used, states[0]) && n <= |ops|
    ensures Healthy(hash, used, states[n])
    ensures key in states[n].index ==> LastWrite(states, ops, key, n) == Stored(states[n], key)
    ensures key !in states[n].index && LastWrite(states, ops, key, n).Some? ==>
              Lost(hash, states, ops, key, LastWrite(states, ops, key, n).value, n)
  {
    if n > 0 {
      var s, op, t := states[n - 1], ops[n - 1], states[n];
      EntriesAreLastWrites(hash, used, states, ops, answers, key, n - 1);
      StepKeepsEntry(hash, used, s, op, answers[n - 1], t, key);
      var before, after := LastWrite(states, ops, key, n - 1), LastWrite(states, ops, key, n);
      if key !in t.index && after.Some? {
        if key in s.index {
          assert GivenUp(hash, states, ops, key, after.value, n - 1) && AbsentSince(states, key, n - 1, n);
        } else {
          assert after == before;
          var i :| 0 <= i < n - 1 && GivenUp(hash, states, ops, key, after.value, i) && AbsentSince(states, key, i, n - 1);
          assert AbsentSince(states, key, i, n);
        }
      }
    }
  }

  /**
   A lookup finds the last value written under its key, exactly when that was not deleted,
   has not expired, and was not given up since, to expiry or to a limit.
   */
  lemma GetAnswersLastWrite(hash: Key -> Hash, used: set<Key>, states: seq<CacheState>, ops: seq<Op>,
                            answers: seq<Answer>, n: nat)
    requires InjectiveOn(hash, used) && IsRun(hash, states, ops, answers)
    requires forall op :: op in ops && op.Set? ==> op.key in used
    requires Healthy(hash, used, states[0])
    requires n < |ops| && ops[n].Get? && ValidKey(ops[n].key)
    ensures answers[n] ==
            (var w := LastWrite(states, ops, ops[n].key, n);
             if w.Some? && !Expired(w.value.expiresAt, ops[n].nowMs) && !Lost(hash, states, ops, ops[n].key, w.value, n)
             then Found(Some(w.value.value))
             else Found(None))
  {
    EntriesAreLastWrites(hash, used, states, ops, answers, ops[n].key, n);
    assert Step(hash, states[n], ops[n], answers[n], states[n + 1]);
  }
}
