/**
 What a cache reopened from a given disk state would answer, and how that compares with the
 disk states before and after the operation that was cut short.
 */
module CacheCrash {
  import opened Wrappers
  import opened Numbers
  import opened CacheModel

  datatype Timed = Timed(value: Value, expiresAt: Option<nat>)

  /** The entry a fresh handle finds for `key`: a row whose file is there. */
  function Recovered(disk: Disk, key: Key): Option<Timed> {
    var index := DiskIndex(disk);
    if key in index && index[key].hash in disk.entries
    then Some(Timed(Value(index[key].binary, disk.entries[index[key].hash]), index[key].expiresAt))
    else None
  }

  /** The old row of `key` over a new payload: the entry file is replaced before the index. */
  function Torn(before: Disk, key: Key, payload: Bytes): Option<Timed> {
    var index := DiskIndex(before);
    if key in index then Some(Timed(Value(index[key].binary, payload), index[key].expiresAt)) else None
  }

  ghost predicate OldOrNew(before: Disk, after: Disk, key: Key, d: Disk) {
    Recovered(d, key) == Recovered(before, key) || Recovered(d, key) == Recovered(after, key)
  }

  /** `d` may be found after a crash in the middle of `set(key, payload)`. */
  ghost predicate SetCrashPoint(before: Disk, after: Disk, key: Key, payload: Bytes, d: Disk) {
    && (CrashSafe(before) ==> CrashSafe(d))
    && (forall k :: k != key ==> OldOrNew(before, after, k, d))
    && (OldOrNew(before, after, key, d) || Recovered(d, key) == Torn(before, key, payload))
  }

  /** `d` may be found after a crash in the middle of an operation that is all or nothing. */
  ghost predicate CrashPoint(before: Disk, after: Disk, d: Disk) {
    && (CrashSafe(before) ==> CrashSafe(d))
    && (forall k :: OldOrNew(before, after, k, d))
  }

  ghost predicate HashedDisk(hash: Key -> Hash, used: set<Key>, disk: Disk) {
    InjectiveOn(hash, used) && RowsHashed(hash, used, DiskIndex(disk))
  }

  lemma EntryWritten(hash: Key -> Hash, used: set<Key>, before: Disk, after: Disk, key: Key, payload: Bytes)
    requires HashedDisk(hash, used, before) && key in used
    ensures SetCrashPoint(before, after, key, payload,
                          before.(entries := before.entries[hash(key) := payload]))
  {
  }

  /** Once the index is written, files of rows it no longer has may come and go. */
  lemma FilesOfGoneRows(hash: Key -> Hash, used: set<Key>, index: Index, entries: map<Hash, Bytes>,
                        gone: set<Key>, hashes: set<Hash>)
    requires InjectiveOn(hash, used) && RowsHashed(hash, used, index)
    requires gone <= used && gone !! index.Keys
    requires hashes <= set k | k in gone :: hash(k)
    ensures forall k :: Recovered(Disk(Some(index), entries - hashes), k) == Recovered(Disk(Some(index), entries), k)
    ensures RowsHaveFiles(index, entries) ==> RowsHaveFiles(index, entries - hashes)
  {
  }

  /**
   Overwriting `key` is all or nothing on disk exactly when the new row says of the payload
   what the old row said, or the payload is the stored one, or there is no old row.
   */
  lemma TornExactly(hash: Key -> Hash, used: set<Key>, before: Disk, after: Disk, key: Key,
                    value: Value, expiresAt: Option<nat>)
    requires HashedDisk(hash, used, before) && CrashSafe(before) && key in used
    requires Recovered(after, key) == Some(Timed(value, expiresAt))
    ensures var d := before.(entries := before.entries[hash(key) := value.payload]);
            var index := DiskIndex(before);
            OldOrNew(before, after, key, d)
            <==> (key !in index
                  || before.entries[hash(key)] == value.payload
                  || (index[key].binary == value.binary && index[key].expiresAt == expiresAt))
  {
  }

  /**
   The disk states of a `set` after the entry file is in place: the index is written at
   once, and only files of rows it does not have are deleted from then on.
   */
  lemma IndexWrittenThenFilesDeleted(hash: Key -> Hash, used: set<Key>, before: Disk, stored: Index, index: Index,
                                     key: Key, payload: Bytes, deleted: set<Hash>, removed: set<Hash>)
    requires HashedDisk(hash, used, before) && key in used
    requires RowsHashed(hash, used, stored) && stored - {key} == DiskIndex(before) - {key} && key in stored
    requires RowsHashed(hash, used, index) && key in index && forall k :: k in index ==> k in stored && index[k] == stored[k]
    requires deleted <= removed <= set k | k in stored && k !in index :: hash(k)
    ensures var written := before.entries[hash(key) := payload];
            SetCrashPoint(before, Disk(Some(index), written - removed), key, payload,
                          Disk(Some(index), written - deleted))
  {
    var written := before.entries[hash(key) := payload];
    var gone := stored.Keys - index.Keys;
    FilesOfGoneRows(hash, used, index, written, gone, deleted);
    FilesOfGoneRows(hash, used, index, written, gone, removed);
    if CrashSafe(before) {
      forall k | k in index
        ensures index[k].hash in written
      {
        if k != key {
          assert k in stored - {key};
          assert k in DiskIndex(before) - {key};
        }
      }
    }
  }

  /** `d` is `before` with some of the entries of `dead` gone. */
  ghost predicate PurgePoint(before: Disk, dead: set<Key>, d: Disk) {
    && (CrashSafe(before) ==> CrashSafe(d))
    && (forall k :: Recovered(d, k) == Recovered(before, k) || (k in dead && Recovered(d, k) == None))
  }

  lemma PurgePointsBetween(before: Disk, dead: set<Key>, x: Disk, y: Disk, d: Disk)
    requires PurgePoint(before, dead, x) && PurgePoint(before, dead, y) && CrashPoint(x, y, d)
    ensures PurgePoint(before, dead, d)
  {
    forall k
      ensures Recovered(d, k) == Recovered(before, k) || (k in dead && Recovered(d, k) == None)
    {
      assert OldOrNew(x, y, k, d);
    }
  }

}
