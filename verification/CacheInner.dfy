/**
 One persistent cache: the in-memory index, the policy, the recency clock and the directory
 behind them. `disk` stands for the cache directory and `trail` is the list of all states it has
 gone through, one for each file operation.
 */
module CacheInners {
  import opened Wrappers
  import opened Numbers
  import opened CacheModel
  import opened CacheCrash
  import opened CacheEviction

  ghost function HashesOf(entries: seq<(Key, Hash)>, n: nat): set<Hash>
    requires n <= |entries|
  {
    set i | 0 <= i < n :: entries[i].1
  }

  /** `d` has the index file given and lacks the files of the first few evicted rows. */
  ghost predicate FilesGoneFrom(indexFile: Option<Index>, entries: map<Hash, Bytes>, evicted: seq<(Key, Hash)>, d: Disk) {
    exists n :: 0 <= n <= |evicted| && d == Disk(indexFile, entries - HashesOf(evicted, n))
  }

  lemma EvictedPairs(stored: Index, entries: map<Hash, Bytes>, key: Key, policy: Policy,
                     evictions: seq<(Key, Hash)>, after: Disk)
    requires after.indexFile.Some?
    requires Evicts(stored, key, policy, KeysOf(evictions), after.indexFile.value) && PairsOf(stored, evictions)
    requires after.entries == entries - HashesOf(evictions, |evictions|)
    ensures WellEvicted(stored, entries, key, policy, after.indexFile.value, after.entries)
  {
    var keys := KeysOf(evictions);
    var hashes := set k | k in keys && k in stored :: stored[k].hash;
    assert hashes == HashesOf(evictions, |evictions|) by {
      forall h | h in hashes
        ensures h in HashesOf(evictions, |evictions|)
      {
        var k :| k in keys && k in stored && stored[k].hash == h;
        var i :| 0 <= i < |keys| && keys[i] == k;
        assert evictions[i].1 == h;
      }
      forall h | h in HashesOf(evictions, |evictions|)
        ensures h in hashes
      {
        var i :| 0 <= i < |evictions| && evictions[i].1 == h;
        assert keys[i] in keys;
      }
    }
    assert after.entries == WithoutFiles(entries, stored, keys);
  }

  /** Every disk state that a `set` goes through. */
  lemma SetCrashes(hash: Key -> Hash, used: set<Key>, policy: Policy, before: Disk, written: Disk, after: Disk, key: Key,
                   payload: Bytes, stored: Index, evictions: seq<(Key, Hash)>, points: seq<Disk>)
    requires HashedDisk(hash, used, before) && key in used && ValidKey(key)
    requires key in stored && stored[key].hash == hash(key) && stored - {key} == DiskIndex(before) - {key}
    requires written == before.(entries := before.entries[hash(key) := payload])
    requires after.indexFile.Some? && Evicts(stored, key, policy, KeysOf(evictions), after.indexFile.value)
    requires PairsOf(stored, evictions)
    requires after.entries == written.entries - HashesOf(evictions, |evictions|)
    requires forall d :: d in points ==> FilesGoneFrom(after.indexFile, written.entries, evictions, d)
    ensures SetCrashPoint(before, after, key, payload, written)
    ensures forall d :: d in points ==> SetCrashPoint(before, after, key, payload, d)
  {
    var index := after.indexFile.value;
    var removed := HashesOf(evictions, |evictions|);
    assert RowsHashed(hash, used, stored) by {
      assert forall k :: k in stored && k != key ==> k in stored - {key};
    }
    forall h | h in removed
      ensures h in set k | k in stored && k !in index :: hash(k)
    {
      var i :| 0 <= i < |evictions| && evictions[i].1 == h;
      var k := evictions[i].0;
      assert KeysOf(evictions)[i] == k && k in stored && k !in index && hash(k) == h;
    }
    ChainKeys(stored, key, policy, KeysOf(evictions));
    EntryWritten(hash, used, before, after, key, payload);
    forall d | d in points
      ensures SetCrashPoint(before, after, key, payload, d)
    {
      var n :| 0 <= n <= |evictions| && d == Disk(after.indexFile, written.entries - HashesOf(evictions, n));
      IndexWrittenThenFilesDeleted(hash, used, before, stored, index, key, payload, HashesOf(evictions, n), removed);
    }
  }

  /** The entry file of `key` is in place and its row is `meta`; `before` is the disk before both. */
  ghost predicate Replacing(hash: Key -> Hash, used: set<Key>, before: Disk, key: Key, meta: Meta) {
    HashedDisk(hash, used, before) && key in used && ValidKey(key) && meta.hash == hash(key)
  }

  /** `index` is what some eviction has left of the rows after `key` was stored. */
  ghost predicate Evicting(before: Disk, key: Key, meta: Meta, policy: Policy, evictions: seq<(Key, Hash)>, index: Index) {
    var stored := DiskIndex(before)[key := meta];
    Evicts(stored, key, policy, KeysOf(evictions), index) && PairsOf(stored, evictions)
  }

  lemma RestHashed(hash: Key -> Hash, used: set<Key>, before: Disk, key: Key, meta: Meta, policy: Policy,
                   evictions: seq<(Key, Hash)>, index: Index)
    ensures Replacing(hash, used, before, key, meta) && Evicting(before, key, meta, policy, evictions, index) ==>
              RowsHashed(hash, used, index)
  {
  }

  /** The disk has been rewritten, and it was safe to crash after each file operation. */
  ghost predicate Rewritten(before: Disk, key: Key, payload: Bytes, meta: Meta, policy: Policy, written: Disk, after: Disk,
                            points: seq<Disk>)
  {
    && WellEvicted(DiskIndex(before)[key := meta], written.entries, key, policy, DiskIndex(after), after.entries)
    && SetCrashPoint(before, after, key, payload, written)
    && forall d :: d in points ==> SetCrashPoint(before, after, key, payload, d)
  }

  lemma RewriteIsSafe(hash: Key -> Hash, used: set<Key>, before: Disk, key: Key, payload: Bytes, meta: Meta, policy: Policy,
                      written: Disk, evictions: seq<(Key, Hash)>, after: Disk, points: seq<Disk>)
    requires Replacing(hash, used, before, key, meta)
    requires written == before.(entries := before.entries[hash(key) := payload])
    requires after.indexFile.Some? && Evicting(before, key, meta, policy, evictions, after.indexFile.value)
    requires after.entries == written.entries - HashesOf(evictions, |evictions|)
    requires forall d :: d in points ==> FilesGoneFrom(after.indexFile, written.entries, evictions, d)
    ensures Rewritten(before, key, payload, meta, policy, written, after, points)
  {
    var stored := DiskIndex(before)[key := meta];
    EvictedPairs(stored, written.entries, key, policy, evictions, after);
    SetCrashes(hash, used, policy, before, written, after, key, payload, stored, evictions, points);
  }

  /** A state some of whose rows and files have been purged. */
  ghost function Purged(hash: Key -> Hash, s: CacheState, done: set<Key>): CacheState {
    s.(index := s.index - done, entries := s.entries - (set k | k in done :: hash(k)))
  }

  lemma DeletePurges(hash: Key -> Hash, used: set<Key>, before: Disk, dead: set<Key>, x: Disk, key: Key, y: Disk,
                     points: seq<Disk>)
    requires HashedDisk(hash, used, x) && PurgePoint(before, dead, x) && key in dead
    requires DiskIndex(y) == DiskIndex(x) - {key}
    requires y.entries == if key in DiskIndex(x) then x.entries - {hash(key)} else x.entries
    requires forall d :: d in points ==> CrashPoint(x, y, d)
    ensures PurgePoint(before, dead, y)
    ensures forall d :: d in points ==> PurgePoint(before, dead, d)
  {
    assert forall k :: k != key ==> Recovered(y, k) == Recovered(x, k);
    assert Recovered(y, key) == None;
    forall d | d in points
      ensures PurgePoint(before, dead, d)
    {
      PurgePointsBetween(before, dead, x, y, d);
    }
  }

  /** One file operation: the directory is removed, the index replaced, or one entry file written or deleted. */
  ghost predicate FileStep(d: Disk, e: Disk) {
    || e == Disk(None, map[])
    || (e.indexFile.Some? && e.entries == d.entries)
    || (e.indexFile == d.indexFile && exists h :: e.entries - {h} == d.entries - {h})
  }

  ghost predicate FileSteps(trail: seq<Disk>) {
    forall i :: 0 <= i < |trail| - 1 ==> FileStep(trail[i], trail[i + 1])
  }

  /** A trail of file operations that leads to `disk`; a handle can be opened on each state on it. */
  ghost predicate LeadsTo(hash: Key -> Hash, used: set<Key>, trail: seq<Disk>, disk: Disk) {
    && trail != [] && trail[|trail| - 1] == disk
    && FileSteps(trail)
    && HashedDisk(hash, used, disk)
    && forall d :: d in trail ==> HashedDisk(hash, used, d)
  }

  lemma LeadsFurther(hash: Key -> Hash, used: set<Key>, trail: seq<Disk>, disk: Disk, next: Disk)
    requires LeadsTo(hash, used, trail, disk) && FileStep(disk, next) && HashedDisk(hash, used, next)
    ensures LeadsTo(hash, used, trail + [next], next)
  {
  }

  /** A purge on the way: all but `expired` of the `dead` rows are gone, and it was safe to crash at each of `points`. */
  ghost predicate Purging(hash: Key -> Hash, s: CacheState, before: Disk, dead: set<Key>, expired: set<Key>,
                          now: CacheState, disk: Disk, points: seq<Disk>)
  {
    && expired <= dead && now == Purged(hash, s, dead - expired)
    && PurgePoint(before, dead, disk)
    && forall d :: d in points ==> PurgePoint(before, dead, d)
  }

  lemma PurgeOne(hash: Key -> Hash, used: set<Key>, s: CacheState, before: Disk, dead: set<Key>, expired: set<Key>,
                 now: CacheState, disk: Disk, points: seq<Disk>, key: Key, after: Disk, more: seq<Disk>)
    requires RowsHashed(hash, used, s.index) && key in s.index && key in expired
    requires Purging(hash, s, before, dead, expired, now, disk, points)
    requires HashedDisk(hash, used, disk) && DiskIndex(disk) == now.index && disk.entries == now.entries
    requires DiskIndex(after) == DeleteResult(now, key).index && after.entries == DeleteResult(now, key).entries
    requires forall d :: d in more ==> CrashPoint(disk, after, d)
    ensures Purging(hash, s, before, dead, expired - {key}, DeleteResult(now, key), after, points + more)
  {
    assert dead - (expired - {key}) == dead - expired + {key};
    DeletePurges(hash, used, before, dead, disk, key, after, more);
  }

  lemma PurgeDone(hash: Key -> Hash, used: set<Key>, s: CacheState, before: Disk, dead: set<Key>, nowMs: nat,
                  now: CacheState, disk: Disk, points: seq<Disk>)
    requires RowsHashed(hash, used, s.index)
    requires dead == set k | k in s.index && Expired(s.index[k].expiresAt, nowMs)
    requires Purging(hash, s, before, dead, {}, now, disk, points) && DiskIndex(disk) == now.index
    ensures now == PurgeResult(s, nowMs)
    ensures forall d :: d in points ==> CrashPoint(before, disk, d)
  {
    assert dead - {} == dead;
  }

  class CacheInner {
    const hash: Key -> Hash
    ghost const used: set<Key>
    var policy: Policy
    var index: Option<Index>
    var clock: nat
    var disk: Disk
    ghost var trail: seq<Disk>

    ghost predicate Logged()
      reads this
    {
      LeadsTo(hash, used, trail, disk)
    }

    ghost predicate Valid()
      reads this
    {
      Logged() && (index.Some? ==> index.value == DiskIndex(disk))
    }

    function State(): CacheState
      reads this
    {
      CacheState(if index.Some? then index.value else DiskIndex(disk), disk.entries, clock, policy)
    }

    /** A handle on a directory that earlier sessions may have filled. */
    constructor (hash: Key -> Hash, ghost used: set<Key>, policy: Policy, disk: Disk)
      requires HashedDisk(hash, used, disk)
      ensures Valid() && this.hash == hash && this.used == used && this.disk == disk
      ensures State() == CacheState(DiskIndex(disk), disk.entries, 0, policy)
    {
      this.hash, this.used, this.policy, this.disk := hash, used, policy, disk;
      index, clock, trail := None, 0, [disk];
    }

    // --- file operations, one disk state each ---

    method WriteEntry(key: Key, payload: Bytes)
      requires Logged()
      modifies this`disk, this`trail
      ensures Logged() && trail == old(trail) + [disk]
      ensures disk == old(disk).(entries := old(disk).entries[hash(key) := payload])
    {
      ghost var next := disk.(entries := disk.entries[hash(key) := payload]);
      assert next.entries - {hash(key)} == disk.entries - {hash(key)};
      LeadsFurther(hash, used, trail, disk, next);
      disk := disk.(entries := disk.entries[hash(key) := payload]);
      trail := trail + [disk];
    }

    method WriteIndex()
      requires Logged() && index.Some? && RowsHashed(hash, used, index.value)
      modifies this`disk, this`trail
      ensures Logged() && trail == old(trail) + [disk]
      ensures disk == old(disk).(indexFile := Some(index.value))
    {
      LeadsFurther(hash, used, trail, disk, disk.(indexFile := Some(index.value)));
      disk := disk.(indexFile := Some(index.value));
      trail := trail + [disk];
    }

    method DeleteQuietly(h: Hash)
      requires Logged()
      modifies this`disk, this`trail
      ensures Logged() && trail == old(trail) + [disk]
      ensures disk == old(disk).(entries := old(disk).entries - {h})
    {
      assert disk.entries - {h} - {h} == disk.entries - {h};
      LeadsFurther(hash, used, trail, disk, disk.(entries := disk.entries - {h}));
      disk := disk.(entries := disk.entries - {h});
      trail := trail + [disk];
    }

    // --- the operations ---

    method EnsureLoaded()
      requires Valid()
      modifies this`index
      ensures Valid() && index == Some(DiskIndex(disk)) && State() == old(State())
    {
      if index.Some? {
        return;
      }
      match disk.indexFile
      case Some(rows) => index := Some(rows);
      case None => index := Some(map[]);
    }

    method TakeTick(nowNs: nat) returns (tick: nat)
      modifies this`clock
      ensures tick == clock == NextTick(old(clock), nowNs)
    {
      var next := Max(nowNs, Min(clock + 1, U64_MAX));
      clock := next;
      tick := next;
    }

    /** Stores an entry and evicts what the limits no longer allow. */
    method Set(key: Key, value: Value, ttl: Option<nat>, nowMs: nat, nowNs: nat)
      returns (r: Result<(), Error>)
      requires Valid() && key in used
      modifies this
      ensures Valid()
      ensures Step(hash, old(State()), Op.Set(key, value, ttl, nowMs, nowNs),
                   if r.Ok? then Done else Failed(r.error), State())
      ensures old(trail) <= trail
      ensures forall d :: d in trail[|old(trail)|..] ==> SetCrashPoint(old(disk), disk, key, value.payload, d)
    {
      if ttl == Some(0) {
        return Err(ZeroTtl);
      }
      if !ValidKey(key) {
        return Err(BadKey);
      }
      EnsureLoaded();
      Store(key, value, ttl, nowMs, nowNs);
      r := Ok(());
    }

    method Store(key: Key, value: Value, ttl: Option<nat>, nowMs: nat, nowNs: nat)
      requires Valid() && key in used && ValidKey(key) && index.Some?
      modifies this
      ensures Valid()
      ensures SetStep(old(State()), hash(key), key, value, ttl, nowMs, nowNs, State())
      ensures old(trail) <= trail
      ensures forall d :: d in trail[|old(trail)|..] ==> SetCrashPoint(old(disk), disk, key, value.payload, d)
    {
      ghost var s, before := State(), disk;
      WriteEntry(key, value.payload);
      var expiresAt := ExpiryOf(ttl, policy, nowMs);
      var tick := TakeTick(nowNs);
      var meta := Meta(hash(key), value.binary, |value.payload|, expiresAt, tick);
      index := Some(index.value[key := meta]);
      ghost var written := disk;
      ghost var points := Rewrite(key, value.payload, before, meta);
      assert meta == RowFor(s, hash(key), value, ttl, nowMs, nowNs);
    }

    /** Evicts around the row just stored and brings the disk in line. */
    method Rewrite(key: Key, ghost payload: Bytes, ghost before: Disk, ghost meta: Meta)
      returns (ghost points: seq<Disk>)
      requires Logged() && Replacing(hash, used, before, key, meta)
      requires index == Some(DiskIndex(before)[key := meta])
      requires disk == before.(entries := before.entries[hash(key) := payload])
      modifies this`index, this`disk, this`trail
      ensures Valid() && index.Some? && trail == old(trail) + points
      ensures Rewritten(before, key, payload, meta, policy, old(disk), disk, points)
    {
      var evictions := CollectEvictions(key);
      RestHashed(hash, used, before, key, meta, policy, evictions, index.value);
      points := Publish(evictions);
      RewriteIsSafe(hash, used, before, key, payload, meta, policy, old(disk), evictions, disk, points);
    }

    method Get(key: Key, updateRecency: bool, nowMs: nat, nowNs: nat) returns (r: Result<Option<Value>, Error>)
      requires Valid()
      modifies this
      ensures Valid()
      ensures Step(hash, old(State()), Op.Get(key, updateRecency, nowMs, nowNs),
                   if r.Ok? then Found(r.value) else Failed(r.error), State())
      ensures old(trail) <= trail
      ensures forall d :: d in trail[|old(trail)|..] ==> CrashPoint(old(disk), disk, d)
    {
      if !ValidKey(key) {
        return Err(BadKey);
      }
      EnsureLoaded();
      if key !in index.value {
        return Ok(None);
      }
      var meta := index.value[key];
      if Expired(meta.expiresAt, nowMs) {
        var _ := Delete(key);
        return Ok(None);
      }
      if hash(key) !in disk.entries {
        var _ := Delete(key);
        return Ok(None);
      }
      var value := Value(meta.binary, disk.entries[hash(key)]);
      if updateRecency {
        var tick := TakeTick(nowNs);
        index := Some(index.value[key := index.value[key].(lastAccess := tick)]);
        WriteIndex();
        assert trail[|old(trail)|..] == [disk];
      }
      r := Ok(Some(value));
    }

    method Has(key: Key, nowMs: nat) returns (r: Result<bool, Error>)
      requires Valid()
      modifies this
      ensures Valid()
      ensures Step(hash, old(State()), Op.Has(key, nowMs),
                   if r.Ok? then Exists(r.value) else Failed(r.error), State())
      ensures old(trail) <= trail
      ensures forall d :: d in trail[|old(trail)|..] ==> CrashPoint(old(disk), disk, d)
    {
      if !ValidKey(key) {
        return Err(BadKey);
      }
      EnsureLoaded();
      if key !in index.value {
        return Ok(false);
      }
      if !Expired(index.value[key].expiresAt, nowMs) {
        return Ok(true);
      }
      var _ := Delete(key);
      r := Ok(false);
    }

    /** Removes an entry: the index row first, the file after it. */
    method Delete(key: Key) returns (r: Result<(), Error>)
      requires Valid()
      modifies this
      ensures Valid()
      ensures Step(hash, old(State()), Op.Delete(key), if r.Ok? then Done else Failed(r.error), State())
      ensures old(trail) <= trail
      ensures forall d :: d in trail[|old(trail)|..] ==> CrashPoint(old(disk), disk, d)
      ensures old(index.Some?) && ValidKey(key) ==> index.Some?
    {
      if !ValidKey(key) {
        return Err(BadKey);
      }
      EnsureLoaded();
      if key in index.value {
        var meta := index.value[key];
        index := Some(index.value - {key});
        WriteIndex();
        ghost var written := disk;
        FilesOfGoneRows(hash, used, index.value, disk.entries, {key}, {hash(key)});
        DeleteQuietly(meta.hash);
        assert trail[|old(trail)|..] == [written, disk];
      }
      r := Ok(());
    }

    method Keys(nowMs: nat) returns (keys: set<Key>)
      requires Valid()
      modifies this
      ensures Valid()
      ensures Step(hash, old(State()), Op.Keys(nowMs), Listed(keys), State())
      ensures old(trail) <= trail
      ensures forall d :: d in trail[|old(trail)|..] ==> CrashPoint(old(disk), disk, d)
    {
      PurgeExpired(nowMs);
      keys := index.value.Keys;
    }

    method Size(nowMs: nat) returns (count: nat)
      requires Valid()
      modifies this
      ensures Valid()
      ensures Step(hash, old(State()), Op.Size(nowMs), Counted(count), State())
      ensures old(trail) <= trail
      ensures forall d :: d in trail[|old(trail)|..] ==> CrashPoint(old(disk), disk, d)
    {
      PurgeExpired(nowMs);
      count := |index.value|;
    }

    method Clear()
      requires Valid()
      modifies this
      ensures Valid()
      ensures Step(hash, old(State()), Op.Clear, Done, State())
      ensures old(trail) <= trail
      ensures forall d :: d in trail[|old(trail)|..] ==> CrashPoint(old(disk), disk, d)
    {
      LeadsFurther(hash, used, trail, disk, Disk(None, map[]));
      disk := Disk(None, map[]);
      trail := trail + [disk];
      index := Some(map[]);
      ghost var removed := disk;
      WriteIndex();
      assert trail[|old(trail)|..] == [removed, disk];
    }

    /** Drops the loaded index, as the cache manager does when it wipes every cache. */
    method Unload()
      requires Valid()
      modifies this`index
      ensures Valid() && index.None? && State() == old(State())
    {
      index := None;
    }

    // --- helpers ---

    /** Evicts from the loaded index, never `keep`, and names the files that became garbage. */
    method CollectEvictions(keep: Key) returns (evicted: seq<(Key, Hash)>)
      requires index.Some? && keep in index.value
      modifies this`index
      ensures index.Some? && Evicts(old(index).value, keep, policy, KeysOf(evicted), index.value)
      ensures PairsOf(old(index).value, evicted)
    {
      var rest;
      evicted, rest := EvictByEntries(policy, index.value, keep);
      if policy.maxBytes.Some? {
        evicted, rest := EvictByBytes(policy, index.value, keep, evicted, rest);
      }
      index := Some(rest);
    }

    /** Writes the index, then removes the files it no longer mentions. */
    method Publish(evicted: seq<(Key, Hash)>) returns (ghost points: seq<Disk>)
      requires Logged() && index.Some? && RowsHashed(hash, used, index.value)
      modifies this`disk, this`trail
      ensures Logged() && trail == old(trail) + points
      ensures disk == Disk(Some(index.value), old(disk).entries - HashesOf(evicted, |evicted|))
      ensures forall d :: d in points ==> FilesGoneFrom(disk.indexFile, old(disk).entries, evicted, d)
    {
      WriteIndex();
      points := [disk];
      assert disk == Disk(disk.indexFile, old(disk).entries - HashesOf(evicted, 0));
      for n := 0 to |evicted|
        invariant Logged() && trail == old(trail) + points
        invariant disk == Disk(Some(index.value), old(disk).entries - HashesOf(evicted, n))
        invariant forall d :: d in points ==> FilesGoneFrom(disk.indexFile, old(disk).entries, evicted, d)
      {
        DeleteQuietly(evicted[n].1);
        points := points + [disk];
        assert HashesOf(evicted, n + 1) == HashesOf(evicted, n) + {evicted[n].1};
        assert disk == Disk(disk.indexFile, old(disk).entries - HashesOf(evicted, n + 1));
      }
    }

    /** One delete of a purge. */
    method PurgeKey(key: Key, ghost s: CacheState, ghost before: Disk, ghost dead: set<Key>, ghost expired: set<Key>,
                    ghost points: seq<Disk>)
      returns (ghost more: seq<Disk>)
      requires Valid() && index.Some? && RowsHashed(hash, used, s.index) && key in s.index && key in expired
      requires Purging(hash, s, before, dead, expired, State(), disk, points)
      modifies this
      ensures Valid() && index.Some?
      ensures Purging(hash, s, before, dead, expired - {key}, State(), disk, more)
      ensures points <= more && trail == old(trail) + more[|points|..]
    {
      var _ := Delete(key);
      more := points + trail[|old(trail)|..];
      PurgeOne(hash, used, s, before, dead, expired, old(State()), old(disk), points, key, disk, trail[|old(trail)|..]);
    }

    /** Drops expired rows and their files, one delete at a time. */
    method PurgeExpired(nowMs: nat)
      requires Valid()
      modifies this
      ensures Valid() && index.Some?
      ensures State() == PurgeResult(old(State()), nowMs)
      ensures old(trail) <= trail
      ensures forall d :: d in trail[|old(trail)|..] ==> CrashPoint(old(disk), disk, d)
    {
      EnsureLoaded();
      var expired := set k | k in index.value && Expired(index.value[k].expiresAt, nowMs);
      ghost var s, dead, points: seq<Disk> := State(), expired, [];
      while expired != {}
        invariant Valid() && index.Some? && trail == old(trail) + points
        invariant Purging(hash, s, old(disk), dead, expired, State(), disk, points)
        decreases expired
      {
        var key :| key in expired;
        points := PurgeKey(key, s, old(disk), dead, expired, points);
        expired := expired - {key};
      }
      PurgeDone(hash, used, s, old(disk), dead, nowMs, State(), disk, points);
      assert trail[|old(trail)|..] == points;
    }
  }

  predicate ValidName(name: Bytes) {
    && 0 < |name| <= 64
    && name != [46] && name != [46, 46]
    && forall i :: 0 <= i < |name| ==>
         48 <= name[i] <= 57 || 65 <= name[i] <= 90 || 97 <= name[i] <= 122 || name[i] in [45, 46, 95]
  }

  /** Hands out one shared handle per cache name. */
  class CacheManager {
    const hash: Key -> Hash
    ghost const used: set<Key>
    var handles: map<Bytes, CacheInner>

    ghost predicate Valid()
      reads this, handles.Values
    {
      && InjectiveOn(hash, used)
      && (forall n :: n in handles ==> handles[n].hash == hash && handles[n].used == used && handles[n].Valid())
      && (forall m, n :: m in handles && n in handles && handles[m] == handles[n] ==> m == n)
    }

    constructor (hash: Key -> Hash, ghost used: set<Key>)
      requires InjectiveOn(hash, used)
      ensures Valid() && handles == map[] && this.hash == hash && this.used == used
    {
      this.hash, this.used, handles := hash, used, map[];
    }

    /**
     Opens the cache whose directory holds `found`. A name opened before yields the same
     handle with its index, clock and files as they are, under the new policy.
     */
    method Open(name: Bytes, policy: Policy, found: Disk) returns (r: Result<CacheInner, Error>)
      requires Valid() && HashedDisk(hash, used, found)
      modifies this, if name in handles then {handles[name]} else {}
      ensures Valid()
      ensures !ValidName(name) ==> r == Err(BadName) && handles == old(handles)
      ensures ValidName(name) ==> r.Ok? && handles == old(handles)[name := r.value]
      ensures ValidName(name) && name in old(handles) ==>
                r.value == old(handles[name])
                && Step(hash, old(handles[name].State()), Reopen(policy), Done, r.value.State())
                && r.value.index == old(handles[name].index) && r.value.disk == old(handles[name].disk)
      ensures ValidName(name) && name !in old(handles) ==>
                fresh(r.value) && r.value.State() == CacheState(DiskIndex(found), found.entries, 0, policy)
      ensures !ValidName(name) && name in handles ==> unchanged(handles[name])
    {
      if !ValidName(name) {
        return Err(BadName);
      }
      if name in handles {
        var existing := handles[name];
        existing.policy := policy;
        handles := handles[name := existing];
        return Ok(existing);
      }
      var inner := new CacheInner(hash, used, policy, found);
      handles := handles[name := inner];
      r := Ok(inner);
    }
  }
}
