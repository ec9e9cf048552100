/**
 Runs in which operations may be cut short by a crash and the cache is reopened from what is
 on disk: a lookup still answers only what may have been written last.
 */
module CacheRecovery {
  import opened Wrappers
  import opened Numbers
  import opened CacheModel
  import opened CacheEviction
  import opened CacheCrash
  import opened CacheHistory

  /** An operation that came to its end, or one that crashed on the way. */
  datatype Event = Completed(op: Op, answer: Answer) | Crashed(op: Op)

  function Reopened(d: Disk, policy: Policy): CacheState {
    CacheState(DiskIndex(d), d.entries, 0, policy)
  }

  /** `d` may be on disk when `op`, which would have led from `s` to `t`, is cut short. */
  ghost predicate MayBeLeft(hash: Key -> Hash, used: set<Key>, s: CacheState, op: Op, t: CacheState, d: Disk) {
    && HashedDisk(hash, used, d)
    && (if op.Set? then SetCrashPoint(DiskOf(s), DiskOf(t), op.key, op.value.payload, d) else CrashPoint(DiskOf(s), DiskOf(t), d))
  }

  ghost predicate CrashesTo(hash: Key -> Hash, used: set<Key>, s: CacheState, op: Op, t: CacheState) {
    exists answer, end, d ::
      Step(hash, s, op, answer, end) && MayBeLeft(hash, used, s, op, end, d) && t == Reopened(d, s.policy)
  }

  ghost predicate Happens(hash: Key -> Hash, used: set<Key>, s: CacheState, e: Event, t: CacheState) {
    match e
    case Completed(op, answer) => Step(hash, s, op, answer, t)
    case Crashed(op) => InvalidOp(op).None? && CrashesTo(hash, used, s, op, t)
  }

  ghost predicate IsHistory(hash: Key -> Hash, used: set<Key>, states: seq<CacheState>, events: seq<Event>) {
    && |states| == |events| + 1
    && forall i :: 0 <= i < |events| ==> Happens(hash, used, states[i], events[i], states[i + 1])
  }

  /** What an operation on a real cache may leave on disk is what a crash leaves in such a run. */
  lemma TrailIsCovered(hash: Key -> Hash, used: set<Key>, s: CacheState, op: Op, t: CacheState, before: Disk, after: Disk, d: Disk)
    requires DiskIndex(before) == s.index && before.entries == s.entries
    requires DiskIndex(after) == t.index && after.entries == t.entries
    requires HashedDisk(hash, used, d)
    requires if op.Set? then SetCrashPoint(before, after, op.key, op.value.payload, d) else CrashPoint(before, after, d)
    ensures MayBeLeft(hash, used, s, op, t, d)
  {
    forall k
      ensures Recovered(DiskOf(s), k) == Recovered(before, k) && Recovered(DiskOf(t), k) == Recovered(after, k)
    {
    }
    forall k | OldOrNew(before, after, k, d)
      ensures OldOrNew(DiskOf(s), DiskOf(t), k, d)
    {
    }
  }

  /** The old row of an entry over the payload of a `set` that crashed. */
  function TornWrite(op: Op, key: Key, previous: Option<Timed>): Option<Timed> {
    if op.Set? && op.key == key && previous.Some?
    then Some(Timed(Value(previous.value.value.binary, op.value.payload), previous.value.expiresAt))
    else previous
  }

  /** What may be the last write to `key` after `n` events: a crash leaves the old, the new or the torn entry. */
  ghost function LastWrites(states: seq<CacheState>, events: seq<Event>, key: Key, n: nat): set<Option<Timed>>
    requires |states| == |events| + 1 && n <= |events|
  {
    if n == 0 then {Stored(states[0], key)}
    else WritesAfter(states[n - 1], events[n - 1], key, LastWrites(states, events, key, n - 1))
  }

  ghost function WritesAfter(s: CacheState, e: Event, key: Key, before: set<Option<Timed>>): set<Option<Timed>> {
    var after := set w | w in before :: Written(s, e.op, key, w);
    if e.Completed? then after else before + after + set w | w in before :: TornWrite(e.op, key, w)
  }

  /** The `i`-th event gave up an entry that may have been the last written under `key`, for cause. */
  ghost predicate GaveUp(hash: Key -> Hash, states: seq<CacheState>, events: seq<Event>, key: Key, w: Timed, i: nat) {
    && |states| == |events| + 1 && i < |events|
    && Stored(states[i], key) == Some(w)
    && (SeesExpired(events[i].op, key, w.expiresAt) || MustEvict(hash, states[i], events[i].op, key))
  }

  ghost predicate LostEntry(hash: Key -> Hash, states: seq<CacheState>, events: seq<Event>, key: Key, w: Timed, n: nat) {
    && |states| == |events| + 1 && n <= |events|
    && exists i :: 0 <= i < n && GaveUp(hash, states, events, key, w, i) && AbsentSince(states, key, i, n)
  }

  /** A missing row was never written, or deleted, or is an entry given up for cause. */
  ghost predicate MissesForCause(hash: Key -> Hash, states: seq<CacheState>, events: seq<Event>, key: Key, n: nat) {
    && |states| == |events| + 1 && n <= |events|
    && (None in LastWrites(states, events, key, n)
        || exists w :: Some(w) in LastWrites(states, events, key, n) && LostEntry(hash, states, events, key, w, n))
  }

  ghost predicate Explained(hash: Key -> Hash, states: seq<CacheState>, events: seq<Event>, key: Key, n: nat)
    requires |states| == |events| + 1 && n <= |events|
  {
    if key in states[n].index then Stored(states[n], key) in LastWrites(states, events, key, n)
    else MissesForCause(hash, states, events, key, n)
  }

  /** What a step leaves under `key`, whole or cut short, given what was stored before. */
  ghost predicate Keeps(hash: Key -> Hash, s: CacheState, e: Event, t: CacheState, key: Key) {
    var was, left := Stored(s, key), Stored(t, key);
    var next := Written(s, e.op, key, was);
    && (left.Some? ==> left == next || (e.Crashed? && (left == was || left == TornWrite(e.op, key, was))))
    && (left.None? && was.None? ==> next.None? || e.Crashed?)
    && (left.None? && was.Some? ==>
          next.None? || SeesExpired(e.op, key, was.value.expiresAt) || MustEvict(hash, s, e.op, key))
  }

  lemma HealthyRows(hash: Key -> Hash, used: set<Key>, s: CacheState, key: Key)
    requires Healthy(hash, used, s)
    ensures key in s.index <==> Stored(s, key).Some?
  {
  }

  lemma CompletedKeeps(hash: Key -> Hash, used: set<Key>, s: CacheState, op: Op, answer: Answer, t: CacheState, key: Key)
    requires InjectiveOn(hash, used) && Healthy(hash, used, s) && (op.Set? ==> op.key in used)
    requires Step(hash, s, op, answer, t)
    ensures Healthy(hash, used, t) && Keeps(hash, s, Completed(op, answer), t, key)
  {
    StepKeepsEntry(hash, used, s, op, answer, t, key);
    HealthyRows(hash, used, s, key);
    HealthyRows(hash, used, t, key);
  }

  lemma ReopenedIsHealthy(hash: Key -> Hash, used: set<Key>, s: CacheState, op: Op, t: CacheState, d: Disk)
    requires Healthy(hash, used, s) && MayBeLeft(hash, used, s, op, t, d)
    ensures Healthy(hash, used, Reopened(d, s.policy))
  {
    assert CrashSafe(DiskOf(s));
  }

  lemma CrashKeeps(hash: Key -> Hash, used: set<Key>, s: CacheState, op: Op, answer: Answer, t: CacheState, d: Disk, key: Key)
    requires Healthy(hash, used, s)
    requires Keeps(hash, s, Completed(op, answer), t, key) && MayBeLeft(hash, used, s, op, t, d)
    ensures Keeps(hash, s, Crashed(op), Reopened(d, s.policy), key)
  {
    assert Stored(Reopened(d, s.policy), key) == Recovered(d, key);
    if op.Set? && op.key == key {
      assert Recovered(d, key) == Torn(DiskOf(s), key, op.value.payload) || OldOrNew(DiskOf(s), DiskOf(t), key, d);
    } else {
      assert OldOrNew(DiskOf(s), DiskOf(t), key, d);
    }
  }

  lemma HappeningKeeps(hash: Key -> Hash, used: set<Key>, s: CacheState, e: Event, t: CacheState, key: Key)
    requires InjectiveOn(hash, used) && Healthy(hash, used, s) && (e.op.Set? ==> e.op.key in used)
    requires Happens(hash, used, s, e, t)
    ensures Healthy(hash, used, t) && Keeps(hash, s, e, t, key)
  {
    match e
    case Completed(op, answer) => CompletedKeeps(hash, used, s, op, answer, t, key);
    case Crashed(op) =>
      var answer, end, d :|
        Step(hash, s, op, answer, end) && MayBeLeft(hash, used, s, op, end, d) && t == Reopened(d, s.policy);
      CompletedKeeps(hash, used, s, op, answer, end, key);
      CrashKeeps(hash, used, s, op, answer, end, d, key);
      ReopenedIsHealthy(hash, used, s, op, end, d);
  }

  lemma {:induction false} WritesExist(states: seq<CacheState>, events: seq<Event>, key: Key, n: nat)
    requires |states| == |events| + 1 && n <= |events|
    ensures LastWrites(states, events, key, n) != {}
  {
    if n > 0 {
      WritesExist(states, events, key, n - 1);
      var w :| w in LastWrites(states, events, key, n - 1);
      assert Written(states[n - 1], events[n - 1].op, key, w) in LastWrites(states, events, key, n);
    }
  }

  /** Whatever crashes, each row holds a value that may have been the last written, and rows are missing only for cause. */
  lemma {:induction false} EntriesSurviveCrashes(hash: Key -> Hash, used: set<Key>, states: seq<CacheState>,
                                                 events: seq<Event>, key: Key, n: nat)
    requires InjectiveOn(hash, used) && IsHistory(hash, used, states, events)
    requires forall e :: e in events && e.op.Set? ==> e.op.key in used
    requires Healthy(hash, used, states[0]) && n <= |events|
    ensures Healthy(hash, used, states[n]) && Explained(hash, states, events, key, n)
  {
    if n == 0 {
      HealthyRows(hash, used, states[0], key);
    } else {
      EntriesSurviveCrashes(hash, used, states, events, key, n - 1);
      HistoryKeeps(hash, used, states, events, key, n);
      WritesExist(states, events, key, n - 1);
      StaysExplained(hash, states, events, key, n);
    }
  }

  lemma HistoryKeeps(hash: Key -> Hash, used: set<Key>, states: seq<CacheState>, events: seq<Event>, key: Key, n: nat)
    requires InjectiveOn(hash, used) && IsHistory(hash, used, states, events)
    requires forall e :: e in events && e.op.Set? ==> e.op.key in used
    requires 0 < n <= |events| && Healthy(hash, used, states[n - 1])
    ensures Healthy(hash, used, states[n]) && Keeps(hash, states[n - 1], events[n - 1], states[n], key)
    ensures key in states[n - 1].index <==> Stored(states[n - 1], key).Some?
    ensures key in states[n].index <==> Stored(states[n], key).Some?
  {
    HappeningKeeps(hash, used, states[n - 1], events[n - 1], states[n], key);
    HealthyRows(hash, used, states[n - 1], key);
    HealthyRows(hash, used, states[n], key);
  }

  lemma StaysExplained(hash: Key -> Hash, states: seq<CacheState>, events: seq<Event>, key: Key, n: nat)
    requires |states| == |events| + 1 && 0 < n <= |events|
    requires Explained(hash, states, events, key, n - 1) && LastWrites(states, events, key, n - 1) != {}
    requires Keeps(hash, states[n - 1], events[n - 1], states[n], key)
    requires key in states[n - 1].index <==> Stored(states[n - 1], key).Some?
    requires key in states[n].index <==> Stored(states[n], key).Some?
    ensures Explained(hash, states, events, key, n)
  {
    var s, e, t := states[n - 1], events[n - 1], states[n];
    var before := LastWrites(states, events, key, n - 1);
    if key in t.index {
    } else if key in s.index {
      if Written(s, e.op, key, Stored(s, key)).Some? {
        assert GaveUp(hash, states, events, key, Stored(s, key).value, n - 1) && AbsentSince(states, key, n - 1, n);
      }
    } else {
      StillMisses(hash, states, events, key, n);
    }
  }

  lemma StillMisses(hash: Key -> Hash, states: seq<CacheState>, events: seq<Event>, key: Key, n: nat)
    requires |states| == |events| + 1 && 0 < n <= |events|
    requires MissesForCause(hash, states, events, key, n - 1)
    requires Keeps(hash, states[n - 1], events[n - 1], states[n], key)
    requires Stored(states[n - 1], key).None? && Stored(states[n], key).None? && key !in states[n].index
    ensures MissesForCause(hash, states, events, key, n)
  {
    var s, e := states[n - 1], events[n - 1];
    var before := LastWrites(states, events, key, n - 1);
    if None !in before {
      var w :| Some(w) in before && LostEntry(hash, states, events, key, w, n - 1);
      StillLost(hash, states, events, key, w, n);
    }
  }

  lemma StillLost(hash: Key -> Hash, states: seq<CacheState>, events: seq<Event>, key: Key, w: Timed, n: nat)
    requires |states| == |events| + 1 && 0 < n <= |events|
    requires LostEntry(hash, states, events, key, w, n - 1) && key !in states[n].index
    ensures LostEntry(hash, states, events, key, w, n)
  {
    var i :| 0 <= i < n - 1 && GaveUp(hash, states, events, key, w, i) && AbsentSince(states, key, i, n - 1);
    assert AbsentSince(states, key, i, n);
  }

  /** A lookup after any crashes answers a value that may be the last write, or finds nothing for cause. */
  lemma GetAnswersPossibleWrite(hash: Key -> Hash, used: set<Key>, states: seq<CacheState>, events: seq<Event>, n: nat)
    requires InjectiveOn(hash, used) && IsHistory(hash, used, states, events)
    requires forall e :: e in events && e.op.Set? ==> e.op.key in used
    requires Healthy(hash, used, states[0])
    requires n < |events| && events[n].Completed? && events[n].op.Get? && ValidKey(events[n].op.key)
    ensures events[n].answer.Found?
    ensures events[n].answer.value.Some? ==>
              exists w :: Some(w) in LastWrites(states, events, events[n].op.key, n) && w.value == events[n].answer.value.value
                          && !Expired(w.expiresAt, events[n].op.nowMs)
    ensures events[n].answer.value.None? ==>
              MissesForCause(hash, states, events, events[n].op.key, n)
              || exists w :: Some(w) in LastWrites(states, events, events[n].op.key, n)
                             && Expired(w.expiresAt, events[n].op.nowMs)
  {
    var key := events[n].op.key;
    EntriesSurviveCrashes(hash, used, states, events, key, n);
    HealthyRows(hash, used, states[n], key);
    assert Happens(hash, used, states[n], events[n], states[n + 1]);
    if key in states[n].index {
      var w := Stored(states[n], key).value;
      assert Some(w) in LastWrites(states, events, key, n);
    }
  }

  const NO_LIMITS := Policy(None, None, None)

  /**
   An overwrite that crashes between the two files can leave neither the old nor the new
   entry: here one that lasts for good is replaced by another payload for a millisecond, and
   what is found is the new payload for good.
   */
  lemma OverwriteTears(hash: Key -> Hash, key: Key, stale: Bytes, newer: Bytes)
    requires ValidKey(key) && stale != newer
    ensures
      var s := CacheState(map[key := Meta(hash(key), true, |stale|, None, 1)], map[hash(key) := stale], 1, NO_LIMITS);
      var op := Set(key, Value(true, newer), Some(NANOS_PER_MILLI), 0, 2);
      var t := CacheState(map[key := Meta(hash(key), true, |newer|, Some(1), 2)], map[hash(key) := newer], 2, NO_LIMITS);
      var d := DiskOf(s).(entries := s.entries[hash(key) := newer]);
      && Step(hash, s, op, Done, t)
      && Recovered(DiskOf(s), key) == Some(Timed(Value(true, stale), None))
      && Recovered(DiskOf(t), key) == Some(Timed(Value(true, newer), Some(1)))
      && Recovered(d, key) == Some(Timed(Value(true, newer), None))
      && !OldOrNew(DiskOf(s), DiskOf(t), key, d)
  {
    var s := CacheState(map[key := Meta(hash(key), true, |stale|, None, 1)], map[hash(key) := stale], 1, NO_LIMITS);
    var row := RowFor(s, hash(key), Value(true, newer), Some(NANOS_PER_MILLI), 0, 2);
    assert row == Meta(hash(key), true, |newer|, Some(1), 2);
    assert s.index[key := row] == map[key := row] && s.entries[hash(key) := newer] == map[hash(key) := newer];
    NothingEvicted(map[key := row], map[hash(key) := newer], key, NO_LIMITS);
  }
}
