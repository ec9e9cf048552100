/** What single operations promise in plain numbers: lifetimes, limits, rejected calls, lost files. */
module CacheLifetime {
  import opened Wrappers
  import opened Numbers
  import opened CacheModel
  import opened CacheEviction
  import opened CacheHistory
  import opened CacheInners

  /**
   An entry lives for its own TTL if it has one, else for the default, else for good: `e`
   milliseconds after it was stored it is found exactly if less than the TTL has passed, in
   whole milliseconds and at least one.
   */
  lemma LifetimeIsTtl(hash: Key -> Hash, used: set<Key>, s: CacheState, key: Key, value: Value, ttl: Option<nat>,
                      nowMs: nat, nowNs: nat, answer: Answer, t: CacheState, e: nat)
    requires InjectiveOn(hash, used) && Healthy(hash, used, s) && key in used
    requires Step(hash, s, Set(key, value, ttl, nowMs, nowNs), answer, t) && answer == Done
    ensures
      var lifetime := if ttl.Some? then ttl else s.policy.defaultTtl;
      Lookup(t, key, nowMs + e) ==
        if lifetime.None? || e == 0 || (e + 1) * 1_000_000 <= lifetime.value then Some(value) else None
    ensures Live(t, key, nowMs + e) <==> Lookup(t, key, nowMs + e).Some?
    ensures key in LiveIndex(t.index, nowMs + e) <==> Lookup(t, key, nowMs + e).Some?
  {
    var stored := s.index[key := RowFor(s, hash(key), value, ttl, nowMs, nowNs)];
    EvictionKeepsFiles(hash, used, stored, s.entries[hash(key) := value.payload], key, s.policy, t.index, t.entries);
    var lifetime := if ttl.Some? then ttl else s.policy.defaultTtl;
    if lifetime.Some? {
      WholeMillis(lifetime.value, e);
    }
  }

  lemma WholeMillis(nanos: nat, e: nat)
    ensures e + 1 <= nanos / NANOS_PER_MILLI <==> (e + 1) * NANOS_PER_MILLI <= nanos
  {
  }

  /**
   A call is rejected, and then changes nothing, exactly for an explicit TTL of zero or a key
   that is empty or longer than 1024 bytes, in this order.
   */
  lemma RejectsExactly(hash: Key -> Hash, s: CacheState, op: Op, answer: Answer, t: CacheState)
    requires Step(hash, s, op, answer, t) && (op.Set? || op.Get? || op.Has? || op.Delete?)
    ensures answer == Failed(ZeroTtl) <==> op.Set? && op.ttl == Some(0)
    ensures answer == Failed(BadKey) <==> !(op.Set? && op.ttl == Some(0)) && (op.key == [] || |op.key| > 1024)
    ensures answer.Failed? ==> answer.error in {ZeroTtl, BadKey} && t == s
  {
  }

  /**
   After a `set` there are at most as many entries as the limit says, and at least the one just
   stored; the bytes are within their limit or only that one is left. Nothing goes that did
   not have to: without an excess all rows stay.
   */
  lemma LimitsHold(hash: Key -> Hash, s: CacheState, key: Key, value: Value, ttl: Option<nat>, nowMs: nat, nowNs: nat,
                   answer: Answer, t: CacheState)
    requires Step(hash, s, Set(key, value, ttl, nowMs, nowNs), answer, t) && answer == Done
    ensures key in t.index && t.index.Keys <= s.index.Keys + {key}
    ensures s.policy.maxEntries.Some? ==> |t.index| <= Max(s.policy.maxEntries.value, 1)
    ensures s.policy.maxBytes.Some? ==> TotalSize(t.index) <= s.policy.maxBytes.value || t.index.Keys == {key}
    ensures Roomy(s, key, |value.payload|) ==> t.index.Keys == s.index.Keys + {key}
  {
    var row := RowFor(s, hash(key), value, ttl, nowMs, nowNs);
    var stored := s.index[key := row];
    RowAdded(s.index, key, row);
    EvictionRespectsLimits(stored, s.entries[hash(key) := value.payload], key, s.policy, t.index, t.entries);
  }

  /** With the old row of `key` replaced by one of this size, no limit is exceeded. */
  ghost predicate Roomy(s: CacheState, key: Key, size: nat) {
    && (s.policy.maxEntries.Some? ==> |s.index.Keys + {key}| <= s.policy.maxEntries.value)
    && (s.policy.maxBytes.Some? ==> TotalSize(s.index - {key}) + size <= s.policy.maxBytes.value)
  }

  lemma RowAdded(index: Index, key: Key, row: Meta)
    ensures index[key := row].Keys == index.Keys + {key} && |index[key := row]| == |index.Keys + {key}|
    ensures TotalSize(index[key := row]) == TotalSize(index - {key}) + row.size
  {
    var stored := index[key := row];
    assert stored.Keys == index.Keys + {key};
    assert |stored| == |stored.Keys|;
    TotalSizeRemove(stored, key);
    assert stored - {key} == index - {key};
  }

  lemma EvictionRespectsLimits(stored: Index, entries: map<Hash, Bytes>, keep: Key, policy: Policy, rest: Index,
                               left: map<Hash, Bytes>)
    requires WellEvicted(stored, entries, keep, policy, rest, left) && keep in stored
    ensures keep in rest && rest.Keys <= stored.Keys
    ensures policy.maxEntries.Some? ==> |rest| <= Max(policy.maxEntries.value, 1)
    ensures policy.maxBytes.Some? ==> TotalSize(rest) <= policy.maxBytes.value || rest.Keys == {keep}
    ensures (policy.maxEntries.Some? ==> |stored| <= policy.maxEntries.value)
            && (policy.maxBytes.Some? ==> TotalSize(stored) <= policy.maxBytes.value)
            ==> rest == stored
  {
    var evicted :| Evicts(stored, keep, policy, evicted, rest) && left == WithoutFiles(entries, stored, evicted);
    ChainKeys(stored, keep, policy, evicted);
    EvictionStops(stored, keep, policy, evicted, rest);
    OnlyOneLeft(rest, keep);
  }

  lemma OnlyOneLeft(index: Index, keep: Key)
    ensures OnlyKept(index, keep) && keep in index ==> index.Keys == {keep} && |index| == 1
  {
    if OnlyKept(index, keep) && keep in index {
      assert index.Keys == {keep};
      assert |index| == |index.Keys|;
    }
  }

  /**
   A row whose file was lost counts as present until it is looked up; the lookup finds nothing
   and forgets the row, and no other.
   */
  lemma LostFileIsForgotten(hash: Key -> Hash, s: CacheState, key: Key, touch: bool, nowMs: nat, nowNs: nat,
                            answer: Answer, t: CacheState)
    requires ValidKey(key) && key in s.index && s.index[key].hash !in s.entries
    requires Step(hash, s, Get(key, touch, nowMs, nowNs), answer, t)
    ensures answer == Found(None) && t.index == s.index - {key} && t.entries == s.entries && t.clock == s.clock
  {
    assert s.entries - {s.index[key].hash} == s.entries;
  }

  // ---------------------------------------------------------------------------
  // No file without a row
  // ---------------------------------------------------------------------------

  ghost predicate HasRow(index: Index, hash: Hash) {
    exists k :: k in index && index[k].hash == hash
  }

  ghost predicate NoOrphans(index: Index, entries: map<Hash, Bytes>) {
    forall h :: h in entries ==> HasRow(index, h)
  }

  lemma RowStays(index: Index, rest: Index, k: Key)
    requires k in index && k in rest && rest[k].hash == index[k].hash
    ensures HasRow(rest, index[k].hash)
  {
  }

  lemma SetLeavesNoOrphan(hash: Key -> Hash, used: set<Key>, s: CacheState, key: Key, value: Value, ttl: Option<nat>,
                          nowMs: nat, nowNs: nat, t: CacheState)
    requires InjectiveOn(hash, used) && RowsHashed(hash, used, s.index) && key in used && NoOrphans(s.index, s.entries)
    requires SetStep(s, hash(key), key, value, ttl, nowMs, nowNs, t)
    ensures NoOrphans(t.index, t.entries)
  {
    var stored, files := s.index[key := RowFor(s, hash(key), value, ttl, nowMs, nowNs)], s.entries[hash(key) := value.payload];
    var evicted :| Evicts(stored, key, s.policy, evicted, t.index) && t.entries == WithoutFiles(files, stored, evicted);
    forall h | h in t.entries
      ensures HasRow(t.index, h)
    {
      var k := key;
      if h != hash(key) {
        assert HasRow(s.index, h);
        k :| k in s.index && s.index[k].hash == h;
      }
      assert stored[k].hash == h && k !in evicted;
      RowStays(stored, t.index, k);
    }
  }

  lemma LessLeavesNoOrphan(hash: Key -> Hash, used: set<Key>, s: CacheState, key: Key, nowMs: nat, nowNs: nat)
    requires RowsHashed(hash, used, s.index) && NoOrphans(s.index, s.entries)
    ensures NoOrphans(DeleteResult(s, key).index, DeleteResult(s, key).entries)
    ensures NoOrphans(PurgeResult(s, nowMs).index, PurgeResult(s, nowMs).entries)
    ensures key in s.index ==> NoOrphans(Touched(s, key, nowNs).index, Touched(s, key, nowNs).entries)
  {
    forall h | h in s.entries
      ensures h in DeleteResult(s, key).entries ==> HasRow(DeleteResult(s, key).index, h)
      ensures h in PurgeResult(s, nowMs).entries ==> HasRow(PurgeResult(s, nowMs).index, h)
      ensures key in s.index ==> HasRow(Touched(s, key, nowNs).index, h)
    {
      assert HasRow(s.index, h);
      var k :| k in s.index && s.index[k].hash == h;
      if h in DeleteResult(s, key).entries {
        RowStays(s.index, DeleteResult(s, key).index, k);
      }
      if h in PurgeResult(s, nowMs).entries {
        RowStays(s.index, PurgeResult(s, nowMs).index, k);
      }
      if key in s.index {
        RowStays(s.index, Touched(s, key, nowNs).index, k);
      }
    }
  }

  function KeysOf(op: Op): set<Key> {
    if op.Set? || op.Get? || op.Has? || op.Delete? then {op.key} else {}
  }

  /** Without crashes, every file of the cache belongs to a row: what goes from the index goes from the disk. */
  lemma {:induction false} NoFileIsLeftBehind(hash: Key -> Hash, used: set<Key>, states: seq<CacheState>, ops: seq<Op>,
                                              answers: seq<Answer>, n: nat)
    requires InjectiveOn(hash, used) && IsRun(hash, states, ops, answers) && n <= |ops|
    requires forall i :: 0 <= i < |ops| ==> KeysOf(ops[i]) <= used
    requires NoOrphans(states[0].index, states[0].entries) && RowsHashed(hash, used, states[0].index)
    ensures NoOrphans(states[n].index, states[n].entries) && RowsHashed(hash, used, states[n].index)
  {
    if n > 0 {
      NoFileIsLeftBehind(hash, used, states, ops, answers, n - 1);
      assert KeysOf(ops[n - 1]) <= used;
      assert Step(hash, states[n - 1], ops[n - 1], answers[n - 1], states[n]);
      StepLeavesNoOrphan(hash, used, states[n - 1], ops[n - 1], answers[n - 1], states[n]);
    }
  }

  lemma StepLeavesNoOrphan(hash: Key -> Hash, used: set<Key>, s: CacheState, op: Op, answer: Answer, t: CacheState)
    requires InjectiveOn(hash, used) && RowsHashed(hash, used, s.index) && NoOrphans(s.index, s.entries)
    requires KeysOf(op) <= used && Step(hash, s, op, answer, t)
    ensures NoOrphans(t.index, t.entries) && RowsHashed(hash, used, t.index)
  {
    match op
    case Set(key, value, ttl, nowMs, nowNs) =>
      assert key in KeysOf(op);
      if InvalidOp(op).None? {
        SetLeavesNoOrphan(hash, used, s, key, value, ttl, nowMs, nowNs, t);
      }
    case Get(key, _, nowMs, nowNs) => LessLeavesNoOrphan(hash, used, s, key, nowMs, nowNs);
    case Has(key, nowMs) => LessLeavesNoOrphan(hash, used, s, key, nowMs, 0);
    case Delete(key) => LessLeavesNoOrphan(hash, used, s, key, 0, 0);
    case Keys(nowMs) => LessLeavesNoOrphan(hash, used, s, [], nowMs, 0);
    case Size(nowMs) => LessLeavesNoOrphan(hash, used, s, [], nowMs, 0);
    case Clear =>
    case Reopen(_) =>
    case Restart =>
  }

  const DIGITS: Bytes := [48, 49, 50, 51, 52, 53, 54, 55, 56, 57]

  /** A cache name is one plain component of a path: the cache lies directly below the root. */
  lemma NamesStayBelow(name: Bytes)
    ensures ValidName(name) ==> name != [] && 47 !in name && 92 !in name && 0 !in name && name != [46] && name != [46, 46]
    ensures ValidName(name) ==> |name| <= 64 && forall b :: b in name ==> 33 <= b <= 126
    ensures name != [] && |name| <= 64 && name[0] != 46
            && (forall b :: b in name ==> b in DIGITS || 97 <= b <= 122 || 65 <= b <= 90 || b == 45 || b == 46 || b == 95)
            ==> ValidName(name)
  {
    if name != [] && |name| <= 64 && name[0] != 46
       && (forall b :: b in name ==> b in DIGITS || 97 <= b <= 122 || 65 <= b <= 90 || b == 45 || b == 46 || b == 95) {
      forall i | 0 <= i < |name|
        ensures 48 <= name[i] <= 57 || 65 <= name[i] <= 90 || 97 <= name[i] <= 122 || name[i] in [45, 46, 95]
      {
        assert name[i] in name;
      }
    }
  }
}
