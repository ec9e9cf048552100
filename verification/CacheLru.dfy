/**
 The reference cache: a list of items, most recent first. It has no index, no ticks, no
 files and no eviction order; this module shows the real cache is indistinguishable from it.
 */
module CacheLru {
  import opened Wrappers
  import opened Numbers
  import opened CacheModel

  datatype Item = Item(key: Key, value: Value, expiresAt: Option<nat>)

  datatype Reference = Reference(items: seq<Item>, policy: Policy)

  function Find(items: seq<Item>, key: Key): Option<Item> {
    if items == [] then None
    else if items[0].key == key then Some(items[0])
    else Find(items[1..], key)
  }

  function Drop(items: seq<Item>, key: Key): seq<Item> {
    if items == [] then []
    else (if items[0].key == key then [] else [items[0]]) + Drop(items[1..], key)
  }

  function DropExpired(items: seq<Item>, nowMs: nat): seq<Item> {
    if items == [] then []
    else (if Expired(items[0].expiresAt, nowMs) then [] else [items[0]]) + DropExpired(items[1..], nowMs)
  }

  function KeySet(items: seq<Item>): set<Key> {
    if items == [] then {} else {items[0].key} + KeySet(items[1..])
  }

  function Weight(items: seq<Item>): nat {
    if items == [] then 0 else |items[0].value.payload| + Weight(items[1..])
  }

  predicate WithinLimits(policy: Policy, items: seq<Item>) {
    && (policy.maxEntries.Some? ==> |items| <= policy.maxEntries.value)
    && (policy.maxBytes.Some? ==> Weight(items) <= policy.maxBytes.value)
  }

  /** Overflow drops the tail; the head, just stored, always stays. */
  function Trim(policy: Policy, items: seq<Item>): seq<Item> {
    if |items| <= 1 || WithinLimits(policy, items) then items
    else Trim(policy, items[..|items| - 1])
  }

  function ReferenceStep(r: Reference, op: Op): (Reference, Answer) {
    if InvalidOp(op).Some? then (r, Failed(InvalidOp(op).value))
    else
      match op
      case Set(key, value, ttl, nowMs, _) =>
        (r.(items := Trim(r.policy, [Item(key, value, ExpiryOf(ttl, r.policy, nowMs))] + Drop(r.items, key))), Done)
      case Get(key, touch, nowMs, _) =>
        (match Find(r.items, key)
         case None => (r, Found(None))
         case Some(item) =>
           if Expired(item.expiresAt, nowMs) then (r.(items := Drop(r.items, key)), Found(None))
           else (if touch then r.(items := [item] + Drop(r.items, key)) else r, Found(Some(item.value))))
      case Has(key, nowMs) =>
        (match Find(r.items, key)
         case None => (r, Exists(false))
         case Some(item) =>
           if Expired(item.expiresAt, nowMs) then (r.(items := Drop(r.items, key)), Exists(false))
           else (r, Exists(true)))
      case Delete(key) => (r.(items := Drop(r.items, key)), Done)
      case Keys(nowMs) =>
        var live := DropExpired(r.items, nowMs);
        (r.(items := live), Listed(KeySet(live)))
      case Size(nowMs) =>
        var live := DropExpired(r.items, nowMs);
        (r.(items := live), Counted(|live|))
      case Clear => (r.(items := []), Done)
      case Reopen(policy) => (r.(policy := policy), Done)
      case Restart => (r, Done)
  }

  function ReferenceRun(r: Reference, ops: seq<Op>): Reference {
    if ops == [] then r else ReferenceStep(ReferenceRun(r, ops[..|ops| - 1]), ops[|ops| - 1]).0
  }

  // ---------------------------------------------------------------------------
  // The list that an index stands for
  // ---------------------------------------------------------------------------

  ghost predicate RowMatches(meta: Meta, entries: map<Hash, Bytes>, item: Item) {
    && meta.hash in entries
    && item.value == Value(meta.binary, entries[meta.hash])
    && meta.size == |item.value.payload|
    && meta.expiresAt == item.expiresAt
  }

  /** `key` is the most recently used key of `index`, strictly. */
  ghost predicate MostRecent(index: Index, key: Key) {
    key in index && forall k :: k in index && k != key ==> index[k].lastAccess < index[key].lastAccess
  }

  /** `items` lists `index` by falling recency, and each item is what its row and file say. */
  ghost predicate Lists(items: seq<Item>, index: Index, entries: map<Hash, Bytes>) {
    if items == [] then index == map[]
    else
      && MostRecent(index, items[0].key)
      && RowMatches(index[items[0].key], entries, items[0])
      && Lists(items[1..], index - {items[0].key}, entries)
  }

  ghost predicate Agrees(s: CacheState, r: Reference) {
    s.policy == r.policy && Lists(r.items, s.index, s.entries)
  }

  lemma {:induction false} FindSpec(items: seq<Item>, index: Index, entries: map<Hash, Bytes>, key: Key)
    requires Lists(items, index, entries)
    ensures Find(items, key).Some? <==> key in index
    ensures key in index ==> Find(items, key).value.key == key && RowMatches(index[key], entries, Find(items, key).value)
  {
    if items != [] {
      FindSpec(items[1..], index - {items[0].key}, entries, key);
    }
  }

  lemma {:induction false} DropLists(items: seq<Item>, index: Index, entries: map<Hash, Bytes>, key: Key)
    requires Lists(items, index, entries)
    ensures Lists(Drop(items, key), index - {key}, entries)
  {
    if items != [] {
      var head, rest := items[0], items[1..];
      DropLists(rest, index - {head.key}, entries, key);
      if head.key == key {
        assert index - {key} - {key} == index - {key};
        assert Drop(items, key) == Drop(rest, key);
      } else {
        var dropped := Drop(items, key);
        assert dropped == [head] + Drop(rest, key) && dropped[1..] == Drop(rest, key);
        assert index - {key} - {head.key} == index - {head.key} - {key};
      }
    }
  }

  /** Only the files of the rows matter. */
  lemma {:induction false} SameFilesList(items: seq<Item>, index: Index, entries: map<Hash, Bytes>, other: map<Hash, Bytes>)
    requires Lists(items, index, entries)
    requires forall k :: k in index && index[k].hash in entries ==>
               index[k].hash in other && other[index[k].hash] == entries[index[k].hash]
    ensures Lists(items, index, other)
  {
    if items != [] {
      SameFilesList(items[1..], index - {items[0].key}, entries, other);
    }
  }

  ghost predicate LeastRecentKey(index: Index, key: Key) {
    key in index && forall k :: k in index && k != key ==> index[key].lastAccess < index[k].lastAccess
  }

  lemma {:induction false} LastIsLeastRecent(items: seq<Item>, index: Index, entries: map<Hash, Bytes>)
    requires Lists(items, index, entries) && items != []
    ensures var last := items[|items| - 1].key;
            LeastRecentKey(index, last) && Lists(items[..|items| - 1], index - {last}, entries)
  {
    var head, rest, n := items[0], items[1..], |items| - 1;
    if n > 0 {
      LastIsLeastRecent(rest, index - {head.key}, entries);
      var last := items[n].key;
      assert rest[|rest| - 1] == items[n];
      assert items[..n][1..] == rest[..|rest| - 1];
      assert index - {head.key} - {last} == index - {last} - {head.key};
      forall k | k in index && k != last
        ensures index[last].lastAccess < index[k].lastAccess
      {
        if k != head.key {
          assert k in index - {head.key};
        }
      }
    } else {
      assert index - {head.key} == map[];
      assert forall k :: k in index && k != head.key ==> k in index - {head.key};
    }
  }

  /** The limits see the same numbers on both sides. */
  lemma {:induction false} CountAndWeight(items: seq<Item>, index: Index, entries: map<Hash, Bytes>)
    requires Lists(items, index, entries)
    ensures |index| == |items| && TotalSize(index) == Weight(items) && index.Keys == KeySet(items)
  {
    if items != [] {
      var key := items[0].key;
      CountAndWeight(items[1..], index - {key}, entries);
      TotalSizeRemove(index, key);
      assert index.Keys == (index - {key}).Keys + {key};
    }
  }

  lemma {:induction false} DropExpiredLists(items: seq<Item>, index: Index, entries: map<Hash, Bytes>, nowMs: nat)
    requires Lists(items, index, entries)
    ensures Lists(DropExpired(items, nowMs), LiveIndex(index, nowMs), entries)
  {
    if items != [] {
      var head, rest := items[0], items[1..];
      DropExpiredLists(rest, index - {head.key}, entries, nowMs);
      var live := DropExpired(rest, nowMs);
      if Expired(head.expiresAt, nowMs) {
        assert LiveIndex(index, nowMs) == LiveIndex(index - {head.key}, nowMs);
        assert DropExpired(items, nowMs) == live;
      } else {
        assert LiveIndex(index, nowMs) - {head.key} == LiveIndex(index - {head.key}, nowMs);
      }
    }
  }

  // ---------------------------------------------------------------------------
  // Eviction is trimming
  // ---------------------------------------------------------------------------

  lemma VictimIsLast(items: seq<Item>, index: Index, entries: map<Hash, Bytes>, keep: Key, victim: Key)
    requires Lists(items, index, entries) && items != [] && items[0].key == keep
    requires IsVictim(index, keep, victim)
    ensures |items| > 1 && Lists(items[..|items| - 1], index - {victim}, entries)
  {
    LastIsLeastRecent(items, index, entries);
    CountAndWeight(items, index, entries);
    assert {keep, victim} <= index.Keys;
    if |items| > 1 {
      LastIsLeastRecent(items[1..], index - {keep}, entries);
      assert items[1..][|items| - 2] == items[|items| - 1];
    }
  }

  lemma LimitsAgree(items: seq<Item>, index: Index, entries: map<Hash, Bytes>, policy: Policy)
    requires Lists(items, index, entries)
    ensures Fits(policy, index) <==> WithinLimits(policy, items)
  {
    CountAndWeight(items, index, entries);
  }

  lemma {:induction false} EvictionIsTrim(items: seq<Item>, index: Index, entries: map<Hash, Bytes>, keep: Key,
                                          policy: Policy, evicted: seq<Key>, rest: Index)
    requires Lists(items, index, entries) && items != [] && items[0].key == keep
    requires Evicts(index, keep, policy, evicted, rest)
    ensures Lists(Trim(policy, items), rest, entries)
  {
    LimitsAgree(items, index, entries, policy);
    EvictionStops(index, keep, policy, evicted, rest);
    if evicted != [] {
      VictimIsLast(items, index, entries, keep, evicted[0]);
      EvictionIsTrim(items[..|items| - 1], index - {evicted[0]}, entries, keep, policy, evicted[1..], rest);
    }
  }

}
