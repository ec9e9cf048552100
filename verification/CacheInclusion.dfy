/**
 LRU inclusion: on the same operations, a cache bounded to one more entry holds everything
 the smaller one holds, at most one entry more, and never misses where the smaller one hits.
 */
module CacheInclusion {
  import opened Wrappers
  import opened Numbers
  import opened CacheModel
  import opened CacheLru
  import opened CacheRefinement

  function EntryLimit(m: nat): Policy {
    Policy(None, Some(m), None)
  }

  /** Operations of a session without TTLs and without a change of policy. */
  predicate Plain(op: Op) {
    match op
    case Set(_, _, ttl, _, _) => ttl.None?
    case Reopen(_) => false
    case _ => true
  }

  /** `b` is `a` with one item inserted somewhere. */
  ghost predicate OneExtra(a: seq<Item>, b: seq<Item>) {
    b != [] && (a == b[1..] || (a != [] && a[0] == b[0] && OneExtra(a[1..], b[1..])))
  }

  ghost predicate Within(a: seq<Item>, b: seq<Item>) {
    a == b || OneExtra(a, b)
  }

  predicate NoExpiry(items: seq<Item>) {
    forall item :: item in items ==> item.expiresAt == None
  }

  ghost predicate Unique(items: seq<Item>) {
    items == [] || (items[0].key !in KeySet(items[1..]) && Unique(items[1..]))
  }

  lemma {:induction false} OneExtraLength(a: seq<Item>, b: seq<Item>)
    requires OneExtra(a, b)
    ensures |b| == |a| + 1
  {
    if a != b[1..] {
      OneExtraLength(a[1..], b[1..]);
    }
  }

  lemma {:induction false} WithinKeys(a: seq<Item>, b: seq<Item>)
    requires Within(a, b)
    ensures KeySet(a) <= KeySet(b)
    ensures exists k :: KeySet(b) <= KeySet(a) + {k}
  {
    if a == b {
      var k: Key :| true;
      assert KeySet(b) <= KeySet(a) + {k};
    } else if a == b[1..] {
      assert KeySet(b) <= KeySet(a) + {b[0].key};
    } else {
      WithinKeys(a[1..], b[1..]);
      var k :| KeySet(b[1..]) <= KeySet(a[1..]) + {k};
      assert KeySet(b) <= KeySet(a) + {k};
    }
  }

  lemma {:induction false} DropKeys(items: seq<Item>, key: Key)
    ensures KeySet(Drop(items, key)) == KeySet(items) - {key}
    ensures NoExpiry(items) ==> NoExpiry(Drop(items, key))
  {
    if items != [] {
      DropKeys(items[1..], key);
      if items[0].key == key {
        assert Drop(items, key) == Drop(items[1..], key);
      } else {
        assert Drop(items, key)[1..] == Drop(items[1..], key);
      }
    }
  }

  lemma {:induction false} DropUnique(items: seq<Item>, key: Key)
    requires Unique(items)
    ensures Unique(Drop(items, key))
  {
    if items != [] {
      DropUnique(items[1..], key);
      DropKeys(items[1..], key);
      if items[0].key == key {
        assert Drop(items, key) == Drop(items[1..], key);
      } else {
        assert Drop(items, key)[1..] == Drop(items[1..], key);
      }
    }
  }

  lemma DropFacts(items: seq<Item>, key: Key)
    ensures Unique(items) ==> Unique(Drop(items, key))
    ensures KeySet(Drop(items, key)) == KeySet(items) - {key}
    ensures NoExpiry(items) ==> NoExpiry(Drop(items, key))
    ensures |Drop(items, key)| <= |items|
    ensures if key in KeySet(items) then |Drop(items, key)| < |items| else Drop(items, key) == items
  {
    DropKeys(items, key);
    if Unique(items) {
      DropUnique(items, key);
    }
  }

  lemma {:induction false} DropWithin(a: seq<Item>, b: seq<Item>, key: Key)
    requires Unique(b) && OneExtra(a, b)
    ensures Within(Drop(a, key), Drop(b, key))
  {
    DropFacts(b[1..], key);
    if a == b[1..] {
      if b[0].key == key {
        assert Drop(b, key) == a && Drop(a, key) == a;
      } else {
        assert Drop(b, key)[1..] == Drop(a, key);
      }
    } else {
      DropWithin(a[1..], b[1..], key);
      if b[0].key == key {
        assert Drop(b, key) == Drop(b[1..], key) && Drop(a, key) == Drop(a[1..], key);
      }
    }
  }

  lemma {:induction false} FindWithin(a: seq<Item>, b: seq<Item>, key: Key)
    requires Unique(b) && Within(a, b) && Find(a, key).Some?
    ensures Find(b, key) == Find(a, key)
  {
    if a != b {
      if a == b[1..] {
        FindInKeys(a, key);
      } else if a[0].key != key {
        FindWithin(a[1..], b[1..], key);
      }
    }
  }

  lemma {:induction false} FindInKeys(items: seq<Item>, key: Key)
    ensures Find(items, key).Some? <==> key in KeySet(items)
    ensures Find(items, key).Some? ==> Find(items, key).value in items && Find(items, key).value.key == key
  {
    if items != [] {
      FindInKeys(items[1..], key);
    }
  }

  lemma {:induction false} OneExtraAtEnd(items: seq<Item>, last: Item)
    ensures OneExtra(items, items + [last])
  {
    if items == [] {
      assert [last][1..] == [];
    } else {
      OneExtraAtEnd(items[1..], last);
      assert (items + [last])[1..] == items[1..] + [last];
    }
  }

  /** Dropping the last of each keeps them one apart. */
  lemma {:induction false} CutBoth(a: seq<Item>, b: seq<Item>)
    requires OneExtra(a, b) && a != []
    ensures OneExtra(a[..|a| - 1], b[..|b| - 1])
  {
    OneExtraLength(a, b);
    if a == b[1..] {
      assert b[..|b| - 1][1..] == a[..|a| - 1];
    } else {
      OneExtraLength(a[1..], b[1..]);
      if |a| == 1 {
        assert a[1..] == [] && a[..0] == [];
        assert b[..|b| - 1] == [b[0]];
        assert [b[0]][1..] == [];
      } else {
        CutBoth(a[1..], b[1..]);
        assert a[..|a| - 1][1..] == a[1..][..|a| - 2];
        assert b[..|b| - 1][1..] == b[1..][..|b| - 2];
      }
    }
  }

  /** With only an entry limit, trimming keeps the first `max(m, 1)` items. */
  lemma TrimIsTake(m: nat, items: seq<Item>)
    requires items != []
    ensures var capacity := Max(m, 1);
            Trim(EntryLimit(m), items) == if |items| <= capacity then items else items[..capacity]
  {
  }

  lemma {:induction false} TakeUnique(items: seq<Item>, n: nat)
    requires Unique(items) && n <= |items|
    ensures Unique(items[..n]) && KeySet(items[..n]) <= KeySet(items)
    ensures NoExpiry(items) ==> NoExpiry(items[..n])
  {
    if n > 0 {
      TakeUnique(items[1..], n - 1);
      assert items[..n][1..] == items[1..][..n - 1];
    }
  }

  /** The references for limits `m` and `m + 1`, in step. */
  ghost predicate InStep(m: nat, a: Reference, b: Reference) {
    && a.policy == EntryLimit(m) && b.policy == EntryLimit(m + 1)
    && Within(a.items, b.items)
    && Unique(a.items) && Unique(b.items) && NoExpiry(a.items) && NoExpiry(b.items)
    && |a.items| <= Max(m, 1) && |b.items| <= m + 1
  }

  lemma PushUnique(item: Item, items: seq<Item>)
    requires Unique(items) && item.expiresAt == None && NoExpiry(items)
    ensures Unique([item] + Drop(items, item.key)) && NoExpiry([item] + Drop(items, item.key))
  {
    DropFacts(items, item.key);
    assert ([item] + Drop(items, item.key))[1..] == Drop(items, item.key);
  }

  lemma TrimKeeps(m: nat, items: seq<Item>)
    requires items != [] && Unique(items) && NoExpiry(items)
    ensures var kept := Trim(EntryLimit(m), items);
            Unique(kept) && NoExpiry(kept) && |kept| <= Max(m, 1)
  {
    TrimIsTake(m, items);
    TakeUnique(items, Min(|items|, Max(m, 1)));
  }

  lemma StoreWithin(a: seq<Item>, b: seq<Item>, item: Item)
    requires Within(a, b) && Unique(b)
    ensures Within([item] + Drop(a, item.key), [item] + Drop(b, item.key))
  {
    if a != b {
      DropWithin(a, b, item.key);
    }
  }

  lemma StoreInStep(m: nat, a: Reference, b: Reference, item: Item)
    requires InStep(m, a, b) && item.expiresAt == None
    ensures InStep(m, a.(items := Trim(a.policy, [item] + Drop(a.items, item.key))),
                   b.(items := Trim(b.policy, [item] + Drop(b.items, item.key))))
  {
    var x, y := [item] + Drop(a.items, item.key), [item] + Drop(b.items, item.key);
    DropFacts(a.items, item.key);
    DropFacts(b.items, item.key);
    PushUnique(item, a.items);
    PushUnique(item, b.items);
    StoreWithin(a.items, b.items, item);
    TrimKeeps(m, x);
    TrimKeeps(m + 1, y);
    TrimWithin(m, x, y);
  }

  lemma TrimWithin(m: nat, x: seq<Item>, y: seq<Item>)
    requires x != [] && y != [] && x[0] == y[0] && Within(x, y)
    requires |x| <= Max(m, 1) + 1 && |y| <= m + 2
    ensures Within(Trim(EntryLimit(m), x), Trim(EntryLimit(m + 1), y))
  {
    TrimIsTake(m, x);
    TrimIsTake(m + 1, y);
    var n := Max(m, 1);
    if m == 0 {
      assert x[..1] == [x[0]] == y[..1];
      assert x == [x[0]] + x[1..] && y == [y[0]] + y[1..];
    } else if x != y {
      OneExtraLength(x, y);
      if |x| > m {
        CutBoth(x, y);
      }
    } else if |x| > m {
      OneExtraAtEnd(x[..m], x[m]);
      assert x == x[..m] + [x[m]];
    }
  }

  lemma {:induction false} NothingExpires(items: seq<Item>, nowMs: nat)
    requires NoExpiry(items)
    ensures DropExpired(items, nowMs) == items
  {
    if items != [] {
      NothingExpires(items[1..], nowMs);
      assert items == [items[0]] + items[1..];
    }
  }

  lemma DropInStep(m: nat, a: Reference, b: Reference, key: Key)
    requires InStep(m, a, b)
    ensures InStep(m, a.(items := Drop(a.items, key)), b.(items := Drop(b.items, key)))
  {
    DropFacts(a.items, key);
    DropFacts(b.items, key);
    if a.items != b.items {
      DropWithin(a.items, b.items, key);
    }
  }

  /** A hit moves an item to the front of both, a hit of the larger one alone only there. */
  lemma TouchInStep(m: nat, a: Reference, b: Reference, key: Key)
    requires InStep(m, a, b) && Find(b.items, key).Some?
    ensures var item := Find(b.items, key).value;
            var moved := b.(items := [item] + Drop(b.items, key));
            item.expiresAt == None
            && (Find(a.items, key) == Some(item) ==> InStep(m, a.(items := [item] + Drop(a.items, key)), moved))
            && (Find(a.items, key).None? ==> InStep(m, a, moved))
  {
    FindInKeys(b.items, key);
    FindInKeys(a.items, key);
    var item := Find(b.items, key).value;
    DropInStep(m, a, b, key);
    DropFacts(a.items, key);
    DropFacts(b.items, key);
    PushUnique(item, b.items);
    var rest := Drop(b.items, key);
    assert ([item] + rest)[1..] == rest;
    if Find(a.items, key).Some? {
      PushUnique(item, a.items);
    } else {
      WithinLengths(a.items, b.items);
      WithinLengths(a.items, rest);
      assert a.items == rest;
    }
  }

  lemma WithinLengths(a: seq<Item>, b: seq<Item>)
    ensures Within(a, b) ==> |a| <= |b| <= |a| + 1
    ensures Within(a, b) && |a| == |b| ==> a == b
  {
    if OneExtra(a, b) {
      OneExtraLength(a, b);
    }
  }

  lemma StepInStep(m: nat, a: Reference, b: Reference, op: Op)
    requires InStep(m, a, b) && Plain(op)
    ensures InStep(m, ReferenceStep(a, op).0, ReferenceStep(b, op).0)
    ensures op.Get? && InvalidOp(op).None? && ReferenceStep(a, op).1.value.Some? ==>
              ReferenceStep(b, op).1 == ReferenceStep(a, op).1
  {
    if InvalidOp(op).None? {
      match op
      case Set(key, value, ttl, nowMs, _) =>
        StoreInStep(m, a, b, Item(key, value, None));
      case Get(key, _, _, _) =>
        LookInStep(m, a, b, key);
      case Has(key, _) =>
        LookInStep(m, a, b, key);
      case Delete(key) =>
        DropInStep(m, a, b, key);
      case Keys(nowMs) =>
        NothingExpires(a.items, nowMs);
        NothingExpires(b.items, nowMs);
      case Size(nowMs) =>
        NothingExpires(a.items, nowMs);
        NothingExpires(b.items, nowMs);
      case Clear =>
      case Restart =>
    }
  }

  lemma LookInStep(m: nat, a: Reference, b: Reference, key: Key)
    requires InStep(m, a, b)
    ensures Find(a.items, key).Some? ==> Find(b.items, key) == Find(a.items, key)
    ensures Find(b.items, key).Some? ==>
              var item := Find(b.items, key).value;
              var moved := b.(items := [item] + Drop(b.items, key));
              && item.expiresAt == None
              && (Find(a.items, key) == Some(item) ==> InStep(m, a.(items := [item] + Drop(a.items, key)), moved))
              && (Find(a.items, key).None? ==> InStep(m, a, moved))
  {
    if Find(a.items, key).Some? {
      FindWithin(a.items, b.items, key);
    }
    if Find(b.items, key).Some? {
      TouchInStep(m, a, b, key);
    }
  }

  lemma {:induction false} RunInStep(m: nat, ops: seq<Op>)
    requires forall op :: op in ops ==> Plain(op)
    ensures InStep(m, ReferenceRun(Reference([], EntryLimit(m)), ops), ReferenceRun(Reference([], EntryLimit(m + 1)), ops))
  {
    if ops != [] {
      var n := |ops| - 1;
      RunInStep(m, ops[..n]);
      StepInStep(m, ReferenceRun(Reference([], EntryLimit(m)), ops[..n]),
                 ReferenceRun(Reference([], EntryLimit(m + 1)), ops[..n]), ops[n]);
    }
  }

  /** A fresh cache with the given entry limit. */
  predicate Fresh(s: CacheState, m: nat) {
    s == CacheState(map[], s.entries, s.clock, EntryLimit(m))
  }

  /**
   Two caches, of `m` and `m + 1` entries, run the same operations, each at its own pace of
   ticks: the smaller index is always inside the larger, which has at most one entry more.
   */
  lemma SmallerCacheIsIncluded(hash: Key -> Hash, used: set<Key>, m: nat, ops: seq<Op>,
                               small: seq<CacheState>, smallAnswers: seq<Answer>,
                               large: seq<CacheState>, largeAnswers: seq<Answer>, n: nat)
    requires InjectiveOn(hash, used) && forall op :: op in ops ==> Plain(op) && KeyUsed(op, used)
    requires IsRun(hash, small, ops, smallAnswers) && FreshRun(small, ops) && Fresh(small[0], m)
    requires IsRun(hash, large, ops, largeAnswers) && FreshRun(large, ops) && Fresh(large[0], m + 1)
    requires n <= |ops|
    ensures small[n].index.Keys <= large[n].index.Keys
    ensures |large[n].index| <= |small[n].index| + 1
    ensures n < |ops| && ops[n].Get? && smallAnswers[n].Found? && smallAnswers[n].value.Some? ==>
              largeAnswers[n] == smallAnswers[n]
  {
    var a, b := Reference([], EntryLimit(m)), Reference([], EntryLimit(m + 1));
    RunRefines(hash, used, small, ops, smallAnswers, a, n);
    RunRefines(hash, used, large, ops, largeAnswers, b, n);
    var x, y := ReferenceRun(a, ops[..n]), ReferenceRun(b, ops[..n]);
    RunInStep(m, ops[..n]);
    CountAndWeight(x.items, small[n].index, small[n].entries);
    CountAndWeight(y.items, large[n].index, large[n].entries);
    WithinKeys(x.items, y.items);
    WithinLengths(x.items, y.items);
    if n < |ops| {
      StepInStep(m, x, y, ops[n]);
    }
  }
}
