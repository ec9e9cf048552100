/** The chapter list of a media file, from start marks in any order. */
module Chapters {
  import opened Wrappers
  import opened Numbers
  import opened Text

  /** A start mark, in nanoseconds. */
  datatype Mark = Mark(start: nat, title: string)

  datatype Chapter = Chapter(title: Option<string>, startMs: nat, durationMs: nat)

  // ---------------------------------------------------------------------------
  // The stable sort
  // ---------------------------------------------------------------------------

  predicate Sorted(marks: seq<Mark>) {
    forall i, j :: 0 <= i < j < |marks| ==> marks[i].start <= marks[j].start
  }

  /** The marks at one start, in their order. */
  function At(marks: seq<Mark>, start: nat): seq<Mark> {
    if marks == [] then []
    else (if marks[0].start == start then [marks[0]] else []) + At(marks[1..], start)
  }

  /** A sorted permutation that keeps the order of marks with the same start. */
  ghost predicate IsStableSort(marks: seq<Mark>, sorted: seq<Mark>) {
    Sorted(sorted) && SameAt(marks, sorted)
  }

  ghost predicate SameAt(a: seq<Mark>, b: seq<Mark>) {
    forall start: nat :: At(b, start) == At(a, start)
  }

  /** `sort_by_key`, by insertion from the back: a mark goes before all that are not earlier. */
  function Sort(marks: seq<Mark>): seq<Mark> {
    if marks == [] then [] else Insert(marks[0], Sort(marks[1..]))
  }

  function Insert(mark: Mark, sorted: seq<Mark>): seq<Mark> {
    if sorted == [] || mark.start <= sorted[0].start then [mark] + sorted
    else [sorted[0]] + Insert(mark, sorted[1..])
  }

  lemma {:induction false} InsertKeepsAt(mark: Mark, sorted: seq<Mark>, start: nat)
    ensures At(Insert(mark, sorted), start) == (if mark.start == start then [mark] else []) + At(sorted, start)
  {
    var inserted := Insert(mark, sorted);
    if sorted == [] || mark.start <= sorted[0].start {
      assert inserted[1..] == sorted;
    } else {
      assert inserted[1..] == Insert(mark, sorted[1..]);
      InsertKeepsAt(mark, sorted[1..], start);
      assert [] + At(sorted[1..], start) == At(sorted[1..], start);
      assert [] + At(inserted[1..], start) == At(inserted[1..], start);
    }
  }

  lemma {:induction false} InsertAdds(mark: Mark, sorted: seq<Mark>)
    ensures multiset(Insert(mark, sorted)) == multiset{mark} + multiset(sorted)
  {
    if sorted != [] && mark.start > sorted[0].start {
      InsertAdds(mark, sorted[1..]);
      assert sorted == [sorted[0]] + sorted[1..];
    }
  }

  lemma {:induction false} InsertSorts(mark: Mark, sorted: seq<Mark>)
    requires Sorted(sorted)
    ensures Sorted(Insert(mark, sorted))
    ensures Insert(mark, sorted) != []
    ensures var first := Insert(mark, sorted)[0]; first == mark || (sorted != [] && first == sorted[0])
  {
    if sorted != [] && mark.start > sorted[0].start {
      InsertSorts(mark, sorted[1..]);
    }
  }

  lemma {:induction false} SortIsStable(marks: seq<Mark>)
    ensures IsStableSort(marks, Sort(marks)) && multiset(Sort(marks)) == multiset(marks)
  {
    if marks != [] {
      SortIsStable(marks[1..]);
      InsertSorts(marks[0], Sort(marks[1..]));
      InsertAdds(marks[0], Sort(marks[1..]));
      forall start: nat
        ensures At(Sort(marks), start) == At(marks, start)
      {
        InsertKeepsAt(marks[0], Sort(marks[1..]), start);
      }
      assert marks == [marks[0]] + marks[1..];
    }
  }

  lemma {:induction false} SomeAt(marks: seq<Mark>, start: nat)
    ensures At(marks, start) != [] <==> exists i :: 0 <= i < |marks| && marks[i].start == start
  {
    if marks != [] {
      SomeAt(marks[1..], start);
      if i :| 0 <= i < |marks| && marks[i].start == start {
        assert i > 0 ==> marks[1..][i - 1] == marks[i];
      }
      if i :| 0 <= i < |marks| - 1 && marks[1..][i].start == start {
        assert marks[i + 1].start == start;
      }
    }
  }

  /** A start of one is a start of the other. */
  lemma AlsoIn(a: seq<Mark>, b: seq<Mark>, i: nat) returns (j: nat)
    requires SameAt(a, b) && i < |a|
    ensures j < |b| && b[j].start == a[i].start
  {
    SomeAt(a, a[i].start);
    SomeAt(b, a[i].start);
    assert At(b, a[i].start) == At(a, a[i].start);
    j :| 0 <= j < |b| && b[j].start == a[i].start;
  }

  /** There is only one stable sort, however it is computed. */
  lemma {:induction false} StableSortIsUnique(a: seq<Mark>, b: seq<Mark>)
    requires Sorted(a) && Sorted(b) && SameAt(a, b)
    ensures a == b
  {
    if a != [] {
      var j := AlsoIn(a, b, 0);
      var i := AlsoIn(b, a, 0);
      assert a[0].start <= a[i].start && b[0].start <= b[j].start;
      var start := a[0].start;
      assert At(a, start)[0] == a[0] && At(b, start)[0] == b[0];
      forall s: nat
        ensures At(b[1..], s) == At(a[1..], s)
      {
        assert At(a, s) == At(b, s);
        AtTail(a, s);
        AtTail(b, s);
      }
      StableSortIsUnique(a[1..], b[1..]);
      assert a == [a[0]] + a[1..] && b == [b[0]] + b[1..];
    } else if b != [] {
      var i := AlsoIn(b, a, 0);
    }
  }

  lemma AtTail(marks: seq<Mark>, start: nat)
    requires marks != []
    ensures if start == marks[0].start
      then At(marks, start) != [] && At(marks[1..], start) == At(marks, start)[1..]
      else At(marks[1..], start) == At(marks, start)
  {
  }

  // ---------------------------------------------------------------------------
  // Extents
  // ---------------------------------------------------------------------------

  /** Where chapter `i` ends: at the next one, or at the end of the file. */
  function End(sorted: seq<Mark>, total: nat, i: nat): nat
    requires i < |sorted|
  {
    Max(if i + 1 < |sorted| then sorted[i + 1].start else total, sorted[i].start)
  }

  /** `as_millis() as u64`. */
  function Millis(nanos: nat): nat {
    nanos / NANOS_PER_MILLI % U64_LIMIT
  }

  function ChapterAt(sorted: seq<Mark>, total: nat, i: nat): Chapter
    requires i < |sorted|
  {
    Chapter(
      if Trim(sorted[i].title) == "" then None else Some(sorted[i].title),
      Millis(sorted[i].start),
      Millis(End(sorted, total, i) - sorted[i].start))
  }

  /**
   A chapter has a title exactly if there is more than blanks in it, and then as it stands. It starts and
   lasts a number of whole milliseconds, rounded down, up to the next chapter or the end of the file.
   */
  lemma ChapterExactly(sorted: seq<Mark>, total: nat, i: nat)
    requires Sorted(sorted) && i < |sorted|
    ensures var chapter, mark := ChapterAt(sorted, total, i), sorted[i];
            var end := if i + 1 < |sorted| then sorted[i + 1].start else if mark.start <= total then total else mark.start;
            && (chapter.title.None? <==> Blank(mark.title))
            && (chapter.title.Some? ==> chapter.title.value == mark.title)
            && WholeMillis(chapter.startMs, mark.start)
            && mark.start <= end && WholeMillis(chapter.durationMs, end - mark.start)
  {
    TrimsToNothing(sorted[i].title);
    assert i + 1 < |sorted| ==> sorted[i].start <= sorted[i + 1].start;
  }

  /** Rounded down, as long as that fits 64 bits. */
  predicate WholeMillis(millis: nat, nanos: nat) {
    nanos < U64_LIMIT * 1_000_000 ==> millis * 1_000_000 <= nanos < (millis + 1) * 1_000_000
  }

  method ChapterList(marks: seq<Mark>, total: nat) returns (chapters: seq<Chapter>)
    ensures exists sorted ::
              && IsStableSort(marks, sorted) && multiset(sorted) == multiset(marks) && |chapters| == |sorted|
              && forall i :: 0 <= i < |sorted| ==> chapters[i] == ChapterAt(sorted, total, i)
  {
    var sorted := Sort(marks);
    SortIsStable(marks);
    chapters := [];
    for i := 0 to |sorted|
      invariant |chapters| == i && forall k :: 0 <= k < i ==> chapters[k] == ChapterAt(sorted, total, k)
    {
      chapters := chapters + [ChapterAt(sorted, total, i)];
    }
  }

  /** The exact extents of the first `n` chapters together. */
  function Extents(sorted: seq<Mark>, total: nat, n: nat): nat
    requires n <= |sorted|
  {
    if n == 0 then 0 else Extents(sorted, total, n - 1) + (End(sorted, total, n - 1) - sorted[n - 1].start)
  }

  /** Extents telescope: up to any chapter they reach from the first start to its end. */
  lemma {:induction false} ExtentsTelescope(sorted: seq<Mark>, total: nat, n: nat)
    requires Sorted(sorted) && 0 < n <= |sorted|
    ensures sorted[0].start + Extents(sorted, total, n) == End(sorted, total, n - 1)
    ensures n == |sorted| ==> sorted[0].start + Extents(sorted, total, n) == Max(total, sorted[n - 1].start)
  {
    if n > 1 {
      ExtentsTelescope(sorted, total, n - 1);
      assert End(sorted, total, n - 2) == sorted[n - 1].start;
    } else {
      assert Extents(sorted, total, 0) == 0;
    }
  }

  /**
   The end of a chapter in milliseconds is the start of the next one or one less; beyond 64 bits
   the sum is taken modulo their range.
   */
  lemma NextStartsWhereLastEnds(sorted: seq<Mark>, total: nat, i: nat)
    requires Sorted(sorted) && i + 1 < |sorted|
    ensures
      var c, next := ChapterAt(sorted, total, i), ChapterAt(sorted, total, i + 1);
      && (next.startMs == (c.startMs + c.durationMs) % U64_LIMIT || next.startMs == (c.startMs + c.durationMs + 1) % U64_LIMIT)
      && (sorted[i + 1].start / NANOS_PER_MILLI < U64_LIMIT ==>
            c.startMs + c.durationMs <= next.startMs <= c.startMs + c.durationMs + 1)
  {
    var a, d := sorted[i].start, sorted[i + 1].start - sorted[i].start;
    assert End(sorted, total, i) == sorted[i + 1].start;
    WrappedNext(a / NANOS_PER_MILLI, d / NANOS_PER_MILLI, (a + d) / NANOS_PER_MILLI);
  }

  lemma WrappedNext(start: nat, duration: nat, next: nat)
    requires start + duration <= next <= start + duration + 1
    ensures next % U64_LIMIT == (start % U64_LIMIT + duration % U64_LIMIT) % U64_LIMIT
            || next % U64_LIMIT == (start % U64_LIMIT + duration % U64_LIMIT + 1) % U64_LIMIT
    ensures next < U64_LIMIT ==>
              start % U64_LIMIT + duration % U64_LIMIT <= next % U64_LIMIT <= start % U64_LIMIT + duration % U64_LIMIT + 1
  {
    WrapSum(start, duration, 0);
    WrapSum(start, duration, 1);
  }

  lemma WrapSum(a: nat, b: nat, c: nat)
    ensures (a % U64_LIMIT + b % U64_LIMIT + c) % U64_LIMIT == (a + b + c) % U64_LIMIT
  {
    var q, r := a / U64_LIMIT, b / U64_LIMIT;
    assert a + b + c == (q + r) * U64_LIMIT + (a % U64_LIMIT + b % U64_LIMIT + c);
    ModAdds(q + r, a % U64_LIMIT + b % U64_LIMIT + c);
  }

  lemma ModAdds(k: nat, x: nat)
    ensures (k * U64_LIMIT + x) % U64_LIMIT == x % U64_LIMIT
  {
  }

  function Durations(sorted: seq<Mark>, total: nat, n: nat): nat
    requires n <= |sorted|
  {
    if n == 0 then 0 else Durations(sorted, total, n - 1) + ChapterAt(sorted, total, n - 1).durationMs
  }

  /** Rounding loses less than a millisecond for each chapter. */
  lemma {:induction false} DurationsRound(sorted: seq<Mark>, total: nat, n: nat)
    requires Sorted(sorted) && n <= |sorted|
    requires forall i :: 0 <= i < n ==> (End(sorted, total, i) - sorted[i].start) / NANOS_PER_MILLI < U64_LIMIT
    ensures Durations(sorted, total, n) * NANOS_PER_MILLI <= Extents(sorted, total, n)
    ensures Extents(sorted, total, n) + n <= (Durations(sorted, total, n) + n) * NANOS_PER_MILLI
  {
    if n > 0 {
      DurationsRound(sorted, total, n - 1);
      var extent := End(sorted, total, n - 1) - sorted[n - 1].start;
      Fits(extent);
      assert Durations(sorted, total, n) == Durations(sorted, total, n - 1) + Millis(extent);
      assert Extents(sorted, total, n) == Extents(sorted, total, n - 1) + extent;
    }
  }

  lemma Fits(nanos: nat)
    requires nanos / NANOS_PER_MILLI < U64_LIMIT
    ensures Millis(nanos) * NANOS_PER_MILLI <= nanos < Millis(nanos) * NANOS_PER_MILLI + NANOS_PER_MILLI
  {
  }
}
