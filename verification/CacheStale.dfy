/** What happens to recency when the wall clock is set back between two sessions. */
module CacheStale {
  import opened Wrappers
  import opened Numbers
  import opened CacheModel
  import opened CacheEviction
  import opened CacheLru
  import opened CacheRefinement

  const TWO_ENTRIES := Policy(None, Some(2), None)

  function Row(hash: Hash, value: Value, tick: nat): Meta {
    Meta(hash, value.binary, |value.payload|, None, tick)
  }

  lemma Plenty(index: Index, entries: map<Hash, Bytes>, keep: Key)
    requires |index| <= 2
    ensures WellEvicted(index, entries, keep, TWO_ENTRIES, index, entries)
  {
    NothingEvicted(index, entries, keep, TWO_ENTRIES);
  }

  lemma Full(index: Index, entries: map<Hash, Bytes>, keep: Key, victim: Key, other: Key)
    requires index.Keys == {keep, victim, other} && keep != victim && keep != other && victim != other
    requires index[victim].lastAccess < index[other].lastAccess
    ensures WellEvicted(index, entries, keep, TWO_ENTRIES, index - {victim}, entries - {index[victim].hash})
  {
    var rest := index - {victim};
    assert rest.Keys == {keep, other};
    assert |index| == |index.Keys| == 3 && |rest| == |rest.Keys| == 2;
    assert [victim][1..] == [] && Without(index, [victim]) == rest;
    assert EvictionChain(rest, keep, TWO_ENTRIES, []);
    assert Evicts(index, keep, TWO_ENTRIES, [victim], rest);
    assert (set k | k in [victim] && k in index :: index[k].hash) == {index[victim].hash};
  }

  /** The five states of the run, the last of which stays. */
  function StaleStates(hash: Key -> Hash, a: Key, b: Key, c: Key, value: Value): (states: seq<CacheState>)
    ensures |states| == 6
  {
    var p := value.payload;
    var one := CacheState(map[a := Row(hash(a), value, 100)], map[hash(a) := p], 100, TWO_ENTRIES);
    var three := CacheState(one.index[b := Row(hash(b), value, 1)], one.entries[hash(b) := p], 1, TWO_ENTRIES);
    var four := CacheState(three.index[c := Row(hash(c), value, 2)] - {b}, three.entries[hash(c) := p] - {hash(b)}, 2,
                           TWO_ENTRIES);
    [CacheState(map[], map[], 0, TWO_ENTRIES), one, one.(clock := 0), three, four, four]
  }

  lemma FirstStep(hash: Key -> Hash, a: Key, value: Value, t: CacheState)
    requires ValidKey(a)
    requires t == CacheState(map[a := Row(hash(a), value, 100)], map[hash(a) := value.payload], 100, TWO_ENTRIES)
    ensures Step(hash, CacheState(map[], map[], 0, TWO_ENTRIES), Set(a, value, None, 0, 100), Done, t)
  {
    var s := CacheState(map[], map[], 0, TWO_ENTRIES);
    var stored := s.index[a := RowFor(s, hash(a), value, None, 0, 100)];
    assert stored == t.index && s.entries[hash(a) := value.payload] == t.entries;
    assert stored.Keys == {a};
    assert |stored| == |stored.Keys| == 1;
    Plenty(stored, t.entries, a);
  }

  lemma SecondSet(hash: Key -> Hash, s: CacheState, a: Key, b: Key, value: Value, t: CacheState)
    requires ValidKey(b) && a != b && s.index.Keys == {a} && s.clock == 0 && s.policy == TWO_ENTRIES
    requires t == CacheState(s.index[b := Row(hash(b), value, 1)], s.entries[hash(b) := value.payload], 1, TWO_ENTRIES)
    ensures Step(hash, s, Set(b, value, None, 0, 1), Done, t)
  {
    var stored := s.index[b := RowFor(s, hash(b), value, None, 0, 1)];
    assert stored == t.index && stored.Keys == {a, b};
    assert |stored| == |stored.Keys| == 2;
    Plenty(stored, t.entries, b);
  }

  lemma ThirdSet(hash: Key -> Hash, s: CacheState, a: Key, b: Key, c: Key, value: Value, t: CacheState)
    requires ValidKey(c) && a != b && b != c && a != c && s.index.Keys == {a, b} && s.clock == 1 && s.policy == TWO_ENTRIES
    requires s.index[b].lastAccess < s.index[a].lastAccess && s.index[b].hash == hash(b)
    requires t == CacheState(s.index[c := Row(hash(c), value, 2)] - {b}, s.entries[hash(c) := value.payload] - {hash(b)}, 2,
                             TWO_ENTRIES)
    ensures Step(hash, s, Set(c, value, None, 0, 2), Done, t)
  {
    var stored := s.index[c := RowFor(s, hash(c), value, None, 0, 2)];
    assert stored == s.index[c := Row(hash(c), value, 2)];
    Full(stored, s.entries[hash(c) := value.payload], c, b, a);
  }

  ghost predicate StepAt(hash: Key -> Hash, states: seq<CacheState>, ops: seq<Op>, answers: seq<Answer>, i: nat)
    requires i < |ops| && i < |answers| && i + 1 < |states|
  {
    Step(hash, states[i], ops[i], answers[i], states[i + 1])
  }

  lemma RunOfSteps(hash: Key -> Hash, states: seq<CacheState>, ops: seq<Op>, answers: seq<Answer>)
    requires |states| == |ops| + 1 == |answers| + 1
    requires forall i :: 0 <= i < |ops| ==> StepAt(hash, states, ops, answers, i)
    ensures IsRun(hash, states, ops, answers)
  {
    forall i | 0 <= i < |ops|
      ensures Step(hash, states[i], ops[i], answers[i], states[i + 1])
    {
      assert StepAt(hash, states, ops, answers, i);
    }
  }

  const STALE_ANSWERS := [Done, Done, Done, Done, Found(None)]

  lemma StaleSet(hash: Key -> Hash, a: Key, b: Key, c: Key, value: Value, i: nat)
    requires a != b && b != c && a != c && ValidKey(a) && ValidKey(b) && ValidKey(c) && i in {0, 2, 3}
    ensures StepAt(hash, StaleStates(hash, a, b, c, value), StaleOps(a, b, c, value), STALE_ANSWERS, i)
  {
    var states := StaleStates(hash, a, b, c, value);
    if i == 0 {
      FirstStep(hash, a, value, states[1]);
    } else if i == 2 {
      SecondSet(hash, states[2], a, b, value, states[3]);
    } else {
      ThirdSet(hash, states[3], a, b, c, value, states[4]);
    }
  }

  /**
   Ticks have to be fresh: `a` is stored at 100, the session restarts with the clock set back,
   `b` is stored at 1 and `c` at 2. In a cache of two, `c` evicts `b` and not the older `a`,
   so a lookup of `b` fails where the reference list has it.
   */
  lemma StaleClockEvictsNewer(hash: Key -> Hash, a: Key, b: Key, c: Key, value: Value)
    requires a != b && b != c && a != c && ValidKey(a) && ValidKey(b) && ValidKey(c)
    ensures var states, ops := StaleStates(hash, a, b, c, value), StaleOps(a, b, c, value);
            && IsRun(hash, states, ops, STALE_ANSWERS)
            && states[0] == CacheState(map[], map[], 0, TWO_ENTRIES)
            && STALE_ANSWERS[4] == Found(None)
            && ReferenceStep(ReferenceRun(Reference([], TWO_ENTRIES), ops[..4]), ops[4]).1 == Found(Some(value))
  {
    var states, ops := StaleStates(hash, a, b, c, value), StaleOps(a, b, c, value);
    forall i: nat | i < |ops|
      ensures StepAt(hash, states, ops, STALE_ANSWERS, i)
    {
      if i in {1, 4} {
      } else {
        StaleSet(hash, a, b, c, value, i);
      }
    }
    RunOfSteps(hash, states, ops, STALE_ANSWERS);
    StaleReference(a, b, c, value);
  }

  function StaleOps(a: Key, b: Key, c: Key, value: Value): (ops: seq<Op>)
    ensures |ops| == 5
  {
    [Set(a, value, None, 0, 100), Restart, Set(b, value, None, 0, 1), Set(c, value, None, 0, 2), Get(b, true, 0, 3)]
  }

  lemma OneMoreStep(r: Reference, ops: seq<Op>, n: nat)
    requires n < |ops|
    ensures ReferenceRun(r, ops[..n + 1]) == ReferenceStep(ReferenceRun(r, ops[..n]), ops[n]).0
  {
    assert ops[..n + 1][..n] == ops[..n];
  }

  lemma DropsNothing(items: seq<Item>, key: Key)
    requires |items| <= 2 && forall i :: 0 <= i < |items| ==> items[i].key != key
    ensures Drop(items, key) == items
  {
    if items != [] {
      assert Drop(items[1..], key) == items[1..];
    }
  }

  lemma StaleReference(a: Key, b: Key, c: Key, value: Value)
    requires a != b && b != c && a != c && ValidKey(a) && ValidKey(b) && ValidKey(c)
    ensures var ops := StaleOps(a, b, c, value);
            ReferenceStep(ReferenceRun(Reference([], TWO_ENTRIES), ops[..4]), ops[4]).1 == Found(Some(value))
  {
    var ops := StaleOps(a, b, c, value);
    var x, y := Item(a, value, None), Item(b, value, None);
    var r := Reference([], TWO_ENTRIES);
    assert ops[..0] == [] && ReferenceRun(r, []) == r;
    OneMoreStep(r, ops, 0);
    assert ReferenceRun(r, ops[..1]) == r.(items := [x]);
    OneMoreStep(r, ops, 1);
    DropsNothing([x], b);
    assert [y] + [x] == [y, x];
    OneMoreStep(r, ops, 2);
    assert ReferenceRun(r, ops[..3]) == r.(items := [y, x]);
    StaleTrim(r, a, b, c, value);
    OneMoreStep(r, ops, 3);
  }

  lemma StaleTrim(r: Reference, a: Key, b: Key, c: Key, value: Value)
    requires b != c && a != c && ValidKey(c) && r.policy == TWO_ENTRIES
    ensures var x, y, z := Item(a, value, None), Item(b, value, None), Item(c, value, None);
            && ReferenceStep(r.(items := [y, x]), Set(c, value, None, 0, 2)).0 == r.(items := [z, y])
            && Find([z, y], b) == Some(y)
  {
    var x, y, z := Item(a, value, None), Item(b, value, None), Item(c, value, None);
    DropsNothing([y, x], c);
    assert [z] + [y, x] == [z, y, x] && [z, y, x][..2] == [z, y];
    assert Trim(TWO_ENTRIES, [z, y]) == [z, y];
    assert [z, y][1..] == [y] && Find([y], b) == Some(y);
  }
}
