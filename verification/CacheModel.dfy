/**
 The vocabulary of the persistent cache: index rows, policies, disk contents, and the
 relation each operation establishes between the state before it and the state after it.

 An operation is described on `CacheState`, which joins what a handle keeps in memory with
 what is on disk. Its `index` is the effective one: the in-memory index when it is loaded,
 the on-disk index otherwise (`CacheInner.State` builds it).
 */
module CacheModel {
  import opened Wrappers
  import opened Numbers

  const MAX_KEY_LEN: nat := 1024

  /** Keys and payloads are byte strings: the limits of the cache are byte limits. */
  type Key = Bytes
  type Hash = nat

  datatype Value = Value(binary: bool, payload: Bytes)

  datatype Meta = Meta(hash: Hash, binary: bool, size: nat, expiresAt: Option<nat>, lastAccess: nat)

  type Index = map<Key, Meta>

  /** TTLs are nanoseconds, like a Rust `Duration`. */
  datatype Policy = Policy(defaultTtl: Option<nat>, maxEntries: Option<nat>, maxBytes: Option<nat>)

  datatype Disk = Disk(indexFile: Option<Index>, entries: map<Hash, Bytes>)

  datatype CacheState = CacheState(index: Index, entries: map<Hash, Bytes>, clock: nat, policy: Policy)

  datatype Error = ZeroTtl | BadKey | BadName

  /** A missing or empty index file reads as an empty index. */
  function DiskIndex(disk: Disk): Index {
    match disk.indexFile
    case Some(index) => index
    case None => map[]
  }

  predicate ValidKey(key: Key) {
    0 < |key| <= MAX_KEY_LEN
  }

  predicate Expired(expiresAt: Option<nat>, nowMs: nat) {
    expiresAt.Some? && nowMs >= expiresAt.value
  }

  /** Sub-millisecond TTLs round up, so that they still expire. */
  function DurationToMs(nanos: nat): nat {
    Max(nanos / NANOS_PER_MILLI, 1)
  }

  function ExpiryOf(ttl: Option<nat>, policy: Policy, nowMs: nat): Option<nat> {
    match if ttl.Some? then ttl else policy.defaultTtl
    case Some(nanos) => Some(nowMs + DurationToMs(nanos))
    case None => None
  }

  /** The recency tick: the wall clock, bumped past the last tick, saturating at 64 bits. */
  function NextTick(clock: nat, nowNs: nat): nat {
    Max(nowNs, Min(clock + 1, U64_MAX))
  }

  // ---------------------------------------------------------------------------
  // Limits and eviction
  // ---------------------------------------------------------------------------

  function Without(index: Index, keys: seq<Key>): Index {
    map k | k in index && k !in keys :: index[k]
  }

  ghost function TotalSize(index: Index): nat
    decreases |index|
  {
    if index == map[] then 0
    else
      var k :| k in index;
      index[k].size + TotalSize(index - {k})
  }

  ghost predicate FitsEntries(policy: Policy, index: Index) {
    policy.maxEntries.Some? ==> |index| <= policy.maxEntries.value
  }

  ghost predicate FitsBytes(policy: Policy, index: Index) {
    policy.maxBytes.Some? ==> TotalSize(index) <= policy.maxBytes.value
  }

  ghost predicate Fits(policy: Policy, index: Index) {
    FitsEntries(policy, index) && FitsBytes(policy, index)
  }

  ghost predicate OnlyKept(index: Index, keep: Key) {
    forall k :: k in index ==> k == keep
  }

  /** `k` is least recently used among the keys of `index` other than `keep`. */
  predicate IsVictim(index: Index, keep: Key, k: Key) {
    k in index && k != keep && forall l :: l in index && l != keep ==> index[k].lastAccess <= index[l].lastAccess
  }

  /** `evicted` goes one victim at a time, each while some limit is still exceeded. */
  ghost predicate EvictionChain(index: Index, keep: Key, policy: Policy, evicted: seq<Key>) {
    evicted != [] ==>
      && IsVictim(index, keep, evicted[0])
      && !Fits(policy, index)
      && EvictionChain(index - {evicted[0]}, keep, policy, evicted[1..])
  }

  /** The chain goes on until both limits hold or only `keep` is left. */
  ghost predicate Evicts(index: Index, keep: Key, policy: Policy, evicted: seq<Key>, rest: Index) {
    && EvictionChain(index, keep, policy, evicted)
    && rest == Without(index, evicted)
    && (Fits(policy, rest) || OnlyKept(rest, keep))
  }

  lemma {:induction false} TotalSizeRemove(index: Index, k: Key)
    requires k in index
    ensures TotalSize(index) == index[k].size + TotalSize(index - {k})
    decreases |index|
  {
    var c :| c in index && TotalSize(index) == index[c].size + TotalSize(index - {c});
    if c != k {
      TotalSizeRemove(index - {c}, k);
      TotalSizeRemove(index - {k}, c);
      assert index - {c} - {k} == index - {k} - {c};
    }
  }

  lemma WithoutFirst(index: Index, evicted: seq<Key>)
    requires evicted != []
    ensures Without(index - {evicted[0]}, evicted[1..]) == Without(index, evicted)
  {
  }

  /** Victims are distinct keys of the index, never the key just stored. */
  lemma {:induction false} ChainKeys(index: Index, keep: Key, policy: Policy, evicted: seq<Key>)
    requires EvictionChain(index, keep, policy, evicted)
    ensures forall k :: k in evicted ==> k in index && k != keep
  {
    if evicted != [] {
      ChainKeys(index - {evicted[0]}, keep, policy, evicted[1..]);
      assert forall k :: k in evicted <==> k == evicted[0] || k in evicted[1..];
    }
  }

  /**
   A chain is the shortest eviction by recency: the `n`-th key to go is the least recently
   used of the other keys left by then, and with only `n` keys gone some limit is exceeded.
   */
  lemma {:induction false} ChainIsShortestByRecency(index: Index, keep: Key, policy: Policy, evicted: seq<Key>)
    ensures EvictionChain(index, keep, policy, evicted)
            <==> forall n :: 0 <= n < |evicted| ==> DueAt(index, keep, policy, evicted, n)
  {
    if evicted != [] {
      var first, rest := evicted[0], evicted[1..];
      ChainIsShortestByRecency(index - {first}, keep, policy, rest);
      assert Without(index, evicted[..0]) == index;
      forall n | 0 <= n < |rest|
        ensures DueAt(index, keep, policy, evicted, n + 1) <==> DueAt(index - {first}, keep, policy, rest, n)
      {
        assert evicted[..n + 1][1..] == rest[..n];
        WithoutFirst(index, evicted[..n + 1]);
      }
      assert DueAt(index, keep, policy, evicted, 0) <==> IsVictim(index, keep, first) && !Fits(policy, index);
      if forall n :: 0 <= n < |evicted| ==> DueAt(index, keep, policy, evicted, n) {
        assert forall n :: 0 <= n < |rest| ==> DueAt(index - {first}, keep, policy, rest, n);
      } else {
        var n :| 0 <= n < |evicted| && !DueAt(index, keep, policy, evicted, n);
        assert n > 0 ==> !DueAt(index - {first}, keep, policy, rest, n - 1);
      }
    }
  }

  ghost predicate DueAt(index: Index, keep: Key, policy: Policy, evicted: seq<Key>, n: nat) {
    && n < |evicted|
    && IsVictim(Without(index, evicted[..n]), keep, evicted[n])
    && !Fits(policy, Without(index, evicted[..n]))
  }

  lemma EvictionStops(index: Index, keep: Key, policy: Policy, evicted: seq<Key>, rest: Index)
    requires Evicts(index, keep, policy, evicted, rest)
    ensures evicted == [] <==> Fits(policy, index) || OnlyKept(index, keep)
    ensures evicted == [] ==> rest == index
    ensures evicted != [] ==> Evicts(index - {evicted[0]}, keep, policy, evicted[1..], rest)
  {
    if evicted == [] {
      assert Without(index, evicted) == index;
    } else {
      WithoutFirst(index, evicted);
    }
  }

  ghost predicate DistinctTicks(index: Index) {
    forall k, l :: k in index && l in index && index[k].lastAccess == index[l].lastAccess ==> k == l
  }

  /** With distinct ticks the eviction has no freedom: it is a function of the index. */
  lemma {:induction false} EvictionIsUnique(index: Index, keep: Key, policy: Policy, a: seq<Key>, x: Index, b: seq<Key>, y: Index)
    requires DistinctTicks(index)
    requires Evicts(index, keep, policy, a, x) && Evicts(index, keep, policy, b, y)
    ensures a == b && x == y
  {
    EvictionStops(index, keep, policy, a, x);
    EvictionStops(index, keep, policy, b, y);
    if a != [] {
      assert a[0] == b[0];
      EvictionIsUnique(index - {a[0]}, keep, policy, a[1..], x, b[1..], y);
      assert a == [a[0]] + a[1..] && b == [b[0]] + b[1..];
    }
  }

  /**
   A tick is larger than every tick up to `newest` exactly when the wall clock is past
   `newest`, or the handle's own clock has reached it and has not saturated.
   */
  predicate TickIsFresh(clock: nat, nowNs: nat, newest: nat) {
    newest < nowNs || (newest <= clock && newest < U64_MAX)
  }

  lemma NextTickFresh(clock: nat, nowNs: nat, newest: nat)
    ensures NextTick(clock, nowNs) > newest <==> TickIsFresh(clock, nowNs, newest)
  {
  }

  // ---------------------------------------------------------------------------
  // Operations
  // ---------------------------------------------------------------------------

  datatype Op =
    | Set(key: Key, value: Value, ttl: Option<nat>, nowMs: nat, nowNs: nat)
    | Get(key: Key, touch: bool, nowMs: nat, nowNs: nat)
    | Has(key: Key, nowMs: nat)
    | Delete(key: Key)
    | Keys(nowMs: nat)
    | Size(nowMs: nat)
    | Clear
    | Reopen(policy: Policy)
    | Restart

  datatype Answer =
    | Done
    | Failed(error: Error)
    | Found(value: Option<Value>)
    | Exists(live: bool)
    | Listed(keys: set<Key>)
    | Counted(count: nat)

  function InvalidOp(op: Op): Option<Error> {
    match op
    case Set(key, _, ttl, _, _) =>
      if ttl == Some(0) then Some(ZeroTtl) else if !ValidKey(key) then Some(BadKey) else None
    case Get(key, _, _, _) => if !ValidKey(key) then Some(BadKey) else None
    case Has(key, _) => if !ValidKey(key) then Some(BadKey) else None
    case Delete(key) => if !ValidKey(key) then Some(BadKey) else None
    case _ => None
  }

  function RowFor(s: CacheState, hash: Hash, value: Value, ttl: Option<nat>, nowMs: nat, nowNs: nat): Meta {
    Meta(hash, value.binary, |value.payload|, ExpiryOf(ttl, s.policy, nowMs), NextTick(s.clock, nowNs))
  }

  /** The entry files that are left once the rows of `keys` are gone from `index`. */
  function WithoutFiles(entries: map<Hash, Bytes>, index: Index, keys: seq<Key>): map<Hash, Bytes> {
    entries - (set k | k in keys && k in index :: index[k].hash)
  }

  /** Some eviction the limits call for takes `index` and `entries` to `rest` and `left`. */
  ghost predicate WellEvicted(index: Index, entries: map<Hash, Bytes>, keep: Key, policy: Policy,
                              rest: Index, left: map<Hash, Bytes>)
  {
    exists evicted :: Evicts(index, keep, policy, evicted, rest) && left == WithoutFiles(entries, index, evicted)
  }

  ghost predicate SetStep(s: CacheState, hash: Hash, key: Key, value: Value, ttl: Option<nat>,
                          nowMs: nat, nowNs: nat, t: CacheState)
  {
    && WellEvicted(s.index[key := RowFor(s, hash, value, ttl, nowMs, nowNs)], s.entries[hash := value.payload],
                   key, s.policy, t.index, t.entries)
    && t.clock == NextTick(s.clock, nowNs)
    && t.policy == s.policy
  }

  function DeleteResult(s: CacheState, key: Key): CacheState {
    if key in s.index then s.(index := s.index - {key}, entries := s.entries - {s.index[key].hash}) else s
  }

  /** What a lookup of `key` yields; the entry is absent when its file is. */
  function Lookup(s: CacheState, key: Key, nowMs: nat): Option<Value> {
    if key in s.index && !Expired(s.index[key].expiresAt, nowMs) && s.index[key].hash in s.entries
    then Some(Value(s.index[key].binary, s.entries[s.index[key].hash]))
    else None
  }

  function Touched(s: CacheState, key: Key, nowNs: nat): CacheState
    requires key in s.index
  {
    var tick := NextTick(s.clock, nowNs);
    s.(index := s.index[key := s.index[key].(lastAccess := tick)], clock := tick)
  }

  function GetResult(s: CacheState, key: Key, touch: bool, nowMs: nat, nowNs: nat): CacheState {
    if Lookup(s, key, nowMs).None? then DeleteResult(s, key)
    else if touch then Touched(s, key, nowNs)
    else s
  }

  predicate Live(s: CacheState, key: Key, nowMs: nat) {
    key in s.index && !Expired(s.index[key].expiresAt, nowMs)
  }

  function HasResult(s: CacheState, key: Key, nowMs: nat): CacheState {
    if Live(s, key, nowMs) then s else DeleteResult(s, key)
  }

  function LiveIndex(index: Index, nowMs: nat): Index {
    map k | k in index && !Expired(index[k].expiresAt, nowMs) :: index[k]
  }

  function DeadFiles(index: Index, nowMs: nat): set<Hash> {
    set k | k in index && Expired(index[k].expiresAt, nowMs) :: index[k].hash
  }

  function PurgeResult(s: CacheState, nowMs: nat): CacheState {
    s.(index := LiveIndex(s.index, nowMs), entries := s.entries - DeadFiles(s.index, nowMs))
  }

  /** One operation of a cache whose entry files are named by `hash`. */
  ghost predicate Step(hash: Key -> Hash, s: CacheState, op: Op, answer: Answer, t: CacheState) {
    if InvalidOp(op).Some? then
      answer == Failed(InvalidOp(op).value) && t == s
    else
      match op
      case Set(key, value, ttl, nowMs, nowNs) =>
        answer == Done && SetStep(s, hash(key), key, value, ttl, nowMs, nowNs, t)
      case Get(key, touch, nowMs, nowNs) =>
        answer == Found(Lookup(s, key, nowMs)) && t == GetResult(s, key, touch, nowMs, nowNs)
      case Has(key, nowMs) =>
        answer == Exists(Live(s, key, nowMs)) && t == HasResult(s, key, nowMs)
      case Delete(key) =>
        answer == Done && t == DeleteResult(s, key)
      case Keys(nowMs) =>
        answer == Listed(LiveIndex(s.index, nowMs).Keys) && t == PurgeResult(s, nowMs)
      case Size(nowMs) =>
        answer == Counted(|LiveIndex(s.index, nowMs)|) && t == PurgeResult(s, nowMs)
      case Clear =>
        answer == Done && t == s.(index := map[], entries := map[])
      case Reopen(policy) =>
        answer == Done && t == s.(policy := policy)
      case Restart =>
        answer == Done && t == s.(clock := 0)
  }

  ghost predicate IsRun(hash: Key -> Hash, states: seq<CacheState>, ops: seq<Op>, answers: seq<Answer>) {
    && |states| == |ops| + 1 == |answers| + 1
    && forall i :: 0 <= i < |ops| ==> Step(hash, states[i], ops[i], answers[i], states[i + 1])
  }

  // ---------------------------------------------------------------------------
  // Consistency of an index with the entry files
  // ---------------------------------------------------------------------------

  ghost predicate InjectiveOn(hash: Key -> Hash, used: set<Key>) {
    forall k, l :: k in used && l in used && hash(k) == hash(l) ==> k == l
  }

  /** Rows are for valid keys and carry the hash of their own key. */
  ghost predicate RowsHashed(hash: Key -> Hash, used: set<Key>, index: Index) {
    forall k :: k in index ==> k in used && ValidKey(k) && index[k].hash == hash(k)
  }

  ghost predicate RowsHaveFiles(index: Index, entries: map<Hash, Bytes>) {
    forall k :: k in index ==> index[k].hash in entries
  }

  ghost predicate CrashSafe(disk: Disk) {
    RowsHaveFiles(DiskIndex(disk), disk.entries)
  }

}
