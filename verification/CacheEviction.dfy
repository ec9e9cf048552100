/** The iterator pipelines of the eviction pass, and the facts its two loops rest on. */
module CacheEviction {
  import opened Wrappers
  import opened Numbers
  import opened CacheModel

  lemma {:induction false} VictimExists(index: Index, keep: Key)
    requires !OnlyKept(index, keep)
    ensures exists k :: IsVictim(index, keep, k)
    decreases |index|
  {
    var c :| c in index && c != keep;
    var rest := index - {c};
    if OnlyKept(rest, keep) {
      assert forall l :: l in index ==> l == c || l in rest;
      assert IsVictim(index, keep, c);
    } else {
      VictimExists(rest, keep);
      var d :| IsVictim(rest, keep, d);
      assert forall l :: l in index ==> l == c || l in rest;
      if index[c].lastAccess <= index[d].lastAccess {
        assert IsVictim(index, keep, c);
      } else {
        assert IsVictim(index, keep, d);
      }
    }
  }

  lemma NothingEvicted(index: Index, entries: map<Hash, Bytes>, keep: Key, policy: Policy)
    requires Fits(policy, index)
    ensures WellEvicted(index, entries, keep, policy, index, entries)
  {
    var none: seq<Key> := [];
    assert Without(index, none) == index;
    assert WithoutFiles(entries, index, none) == entries;
    assert Evicts(index, keep, policy, none, index);
  }

  /** A key other than `keep` with the least recency, ties broken arbitrarily. */
  method LeastRecent(index: Index, keep: Key) returns (victim: Option<Key>)
    ensures victim.Some? ==> IsVictim(index, keep, victim.value)
    ensures victim.None? ==> OnlyKept(index, keep)
  {
    if k :| k in index && k != keep {
      VictimExists(index, keep);
      var v :| IsVictim(index, keep, v);
      victim := Some(v);
    } else {
      victim := None;
    }
  }

  method SumSizes(index: Index) returns (total: nat)
    ensures total == TotalSize(index)
  {
    var rest := index;
    total := 0;
    while rest != map[]
      invariant total + TotalSize(rest) == TotalSize(index)
      decreases |rest|
    {
      var k :| k in rest;
      TotalSizeRemove(rest, k);
      total := total + rest[k].size;
      rest := rest - {k};
    }
  }

  /** `order` has the keys of `index` other than `keep`, each once, by rising recency. */
  ghost predicate InOrder(index: Index, keep: Key, order: seq<Key>) {
    if order == [] then OnlyKept(index, keep)
    else IsVictim(index, keep, order[0]) && InOrder(index - {order[0]}, keep, order[1..])
  }

  lemma {:induction false} InOrderLast(index: Index, keep: Key, order: seq<Key>, rest: Index)
    requires rest == Without(index, order) && OnlyKept(rest, keep)
    requires PicksVictims(index, keep, order)
    ensures InOrder(index, keep, order)
  {
    if order == [] {
      assert rest == index;
    } else {
      WithoutFirst(index, order);
      InOrderLast(index - {order[0]}, keep, order[1..], rest);
    }
  }

  ghost predicate PicksVictims(index: Index, keep: Key, order: seq<Key>) {
    order != [] ==> IsVictim(index, keep, order[0]) && PicksVictims(index - {order[0]}, keep, order[1..])
  }

  lemma {:induction false} PickOneMore(index: Index, keep: Key, order: seq<Key>, k: Key)
    requires PicksVictims(index, keep, order) && IsVictim(Without(index, order), keep, k)
    ensures PicksVictims(index, keep, order + [k])
  {
    if order == [] {
      assert Without(index, order) == index;
    } else {
      WithoutFirst(index, order);
      PickOneMore(index - {order[0]}, keep, order[1..], k);
      assert (order + [k])[1..] == order[1..] + [k];
    }
  }

  lemma WithoutOneMore(index: Index, order: seq<Key>, k: Key)
    requires k in Without(index, order)
    ensures Without(index, order + [k]) == Without(index, order) - {k}
    ensures |Without(index, order + [k])| < |Without(index, order)|
  {
    assert Without(index, order + [k]) == Without(index, order) - {k};
    assert Without(index, order).Keys == Without(index, order + [k]).Keys + {k};
  }

  /** Sorts the keys other than `keep` by recency, ties in arbitrary order. */
  method SortByRecency(index: Index, keep: Key) returns (order: seq<Key>)
    ensures InOrder(index, keep, order)
  {
    order := [];
    var rest := index;
    assert rest == Without(index, order);
    var next := LeastRecent(rest, keep);
    while next.Some?
      invariant next.Some? ==> IsVictim(rest, keep, next.value)
      invariant next.None? ==> OnlyKept(rest, keep)
      invariant rest == Without(index, order) && PicksVictims(index, keep, order)
      decreases next.Some?, |rest|
    {
      PickOneMore(index, keep, order, next.value);
      WithoutOneMore(index, order, next.value);
      order, rest := order + [next.value], rest - {next.value};
      next := LeastRecent(rest, keep);
    }
    InOrderLast(index, keep, order, rest);
  }

  function KeysOf(evicted: seq<(Key, Hash)>): (keys: seq<Key>)
    ensures |keys| == |evicted|
    ensures forall i :: 0 <= i < |keys| ==> keys[i] == evicted[i].0
  {
    seq(|evicted|, i requires 0 <= i < |evicted| => evicted[i].0)
  }

  /** Each evicted pair names a row of `index` and its file. */
  ghost predicate PairsOf(index: Index, evicted: seq<(Key, Hash)>) {
    forall i :: 0 <= i < |evicted| ==> evicted[i].0 in index && evicted[i].1 == index[evicted[i].0].hash
  }

  /** A chain may be extended at its end. */
  lemma {:induction false} ChainOneMore(index: Index, keep: Key, policy: Policy, evicted: seq<Key>, k: Key)
    requires EvictionChain(index, keep, policy, evicted)
    requires IsVictim(Without(index, evicted), keep, k) && !Fits(policy, Without(index, evicted))
    ensures EvictionChain(index, keep, policy, evicted + [k])
  {
    var longer := evicted + [k];
    if evicted == [] {
      assert Without(index, evicted) == index;
    } else {
      WithoutFirst(index, evicted);
      ChainOneMore(index - {evicted[0]}, keep, policy, evicted[1..], k);
      assert longer[1..] == evicted[1..] + [k];
    }
  }

  /** `rest` is what an eviction pass has left of `index` after evicting `evicted`. */
  ghost predicate Pass(index: Index, keep: Key, policy: Policy, evicted: seq<(Key, Hash)>, rest: Index) {
    && EvictionChain(index, keep, policy, KeysOf(evicted))
    && rest == Without(index, KeysOf(evicted))
    && PairsOf(index, evicted)
  }

  lemma PassStep(index: Index, keep: Key, policy: Policy, evicted: seq<(Key, Hash)>, rest: Index, key: Key)
    requires Pass(index, keep, policy, evicted, rest)
    requires IsVictim(rest, keep, key) && !Fits(policy, rest)
    ensures Pass(index, keep, policy, evicted + [(key, rest[key].hash)], rest - {key})
  {
    assert KeysOf(evicted + [(key, rest[key].hash)]) == KeysOf(evicted) + [key];
    ChainOneMore(index, keep, policy, KeysOf(evicted), key);
    assert rest - {key} == Without(index, KeysOf(evicted) + [key]);
  }

  lemma RowGone(index: Index, policy: Policy, key: Key)
    requires key in index
    ensures |index - {key}| < |index|
    ensures FitsEntries(policy, index) ==> FitsEntries(policy, index - {key})
    ensures TotalSize(index - {key}) == TotalSize(index) - index[key].size
  {
    assert index.Keys == (index - {key}).Keys + {key};
    TotalSizeRemove(index, key);
  }

  /** The first eviction loop: one least recent row at a time until the count fits. */
  method EvictByEntries(policy: Policy, index: Index, keep: Key) returns (evicted: seq<(Key, Hash)>, rest: Index)
    ensures Pass(index, keep, policy, evicted, rest)
    ensures FitsEntries(policy, rest) || OnlyKept(rest, keep)
  {
    evicted, rest := [], index;
    assert index == Without(index, KeysOf(evicted));
    if policy.maxEntries.Some? {
      while |rest| > policy.maxEntries.value
        invariant Pass(index, keep, policy, evicted, rest)
        decreases |rest|
      {
        var victim := LeastRecent(rest, keep);
        if victim.None? {
          break;
        }
        var key := victim.value;
        PassStep(index, keep, policy, evicted, rest, key);
        RowGone(rest, policy, key);
        evicted, rest := evicted + [(key, rest[key].hash)], rest - {key};
      }
    }
  }

  /** The second loop: rows by recency until the running total fits; the total is never wrong. */
  method EvictByBytes(policy: Policy, ghost index: Index, keep: Key, before: seq<(Key, Hash)>, counted: Index)
    returns (evicted: seq<(Key, Hash)>, rest: Index)
    requires policy.maxBytes.Some?
    requires Pass(index, keep, policy, before, counted)
    requires FitsEntries(policy, counted) || OnlyKept(counted, keep)
    ensures Pass(index, keep, policy, evicted, rest)
    ensures Fits(policy, rest) || OnlyKept(rest, keep)
  {
    evicted, rest := before, counted;
    var total := SumSizes(counted);
    if total > policy.maxBytes.value {
      var order := SortByRecency(counted, keep);
      while order != []
        invariant InOrder(rest, keep, order)
        invariant total == TotalSize(rest)
        invariant FitsEntries(policy, rest) || OnlyKept(rest, keep)
        invariant Pass(index, keep, policy, evicted, rest)
      {
        if total <= policy.maxBytes.value {
          break;
        }
        var key := order[0];
        PassStep(index, keep, policy, evicted, rest, key);
        RowGone(rest, policy, key);
        total := total - rest[key].size;
        evicted, rest, order := evicted + [(key, rest[key].hash)], rest - {key}, order[1..];
      }
    }
  }
}
