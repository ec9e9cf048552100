/** Byte ranges of a served file, after sections 14.1.2 and 14.4 of RFC 9110. */
module ByteRange {
  import opened Wrappers
  import opened Numbers
  import opened Text

  /** Inclusive. */
  datatype HttpRange = HttpRange(start: nat, end: nat) {
    function Length(): nat
      requires start <= end
    {
      end - start + 1
    }
  }

  datatype Parsed = Ignored | Unsatisfiable | Satisfiable(range: HttpRange)

  function IndexOf(s: string, c: char): (i: nat)
    ensures i <= |s| && c !in s[..i]
    ensures i < |s| ==> s[i] == c
  {
    if s == "" || s[0] == c then 0 else 1 + IndexOf(s[1..], c)
  }

  const BYTES_UNIT := "bytes="

  /** `header` is the text of the `Range` header, if there is one; `len` the size of the file. */
  function ParseRange(header: Option<string>, len: nat): Parsed {
    if header.None? then Ignored
    else
      var raw := Trim(header.value);
      if !(BYTES_UNIT <= raw) then Ignored
      else
        var spec := Trim(raw[|BYTES_UNIT|..]);
        var first := Trim(spec[..IndexOf(spec, ',')]);
        var dash := IndexOf(first, '-');
        if first == "" || dash == |first| then Ignored
        else ParseBounds(Trim(first[..dash]), Trim(first[dash + 1..]), len)
  }

  /** What stands before and after the dash. */
  function ParseBounds(startSpec: string, endSpec: string, len: nat): Parsed {
    if startSpec == "" && endSpec != "" then
      match ParseU64(endSpec)
      case None => Ignored
      case Some(suffix) =>
        if suffix == 0 || len == 0 then Unsatisfiable
        else Satisfiable(HttpRange(len - Min(suffix, len), len - 1))
    else if startSpec != "" && endSpec == "" then
      match ParseU64(startSpec)
      case None => Ignored
      case Some(start) =>
        if len == 0 || start >= len then Unsatisfiable else Satisfiable(HttpRange(start, len - 1))
    else if startSpec != "" then
      match (ParseU64(startSpec), ParseU64(endSpec))
      case (Some(start), Some(end)) =>
        if start > end then Ignored
        else if len == 0 || start >= len then Unsatisfiable
        else Satisfiable(HttpRange(start, Min(end, len - 1)))
      case _ => Ignored
    else Ignored
  }

  // ---------------------------------------------------------------------------
  // Meaning
  // ---------------------------------------------------------------------------

  /** The three forms of a range, and the positions each asks for. */
  datatype Spec = Closed(start: nat, end: nat) | From(start: nat) | Suffix(count: nat) {
    predicate Asks(i: nat, len: nat) {
      match this
      case Closed(start, end) => start <= i <= end
      case From(start) => start <= i
      case Suffix(count) => len <= i + count
    }

    function Print(): string {
      match this
      case Closed(start, end) => Decimal(start) + "-" + Decimal(end)
      case From(start) => Decimal(start) + "-"
      case Suffix(count) => "-" + Decimal(count)
    }

    /** What 64 bits can hold, and a range that does not end before it starts. */
    predicate Valid() {
      match this
      case Closed(start, end) => start <= end < U64_LIMIT
      case From(start) => start < U64_LIMIT
      case Suffix(count) => count < U64_LIMIT
    }
  }

  /** `parsed` answers a request for the positions that `spec` asks for in a file of `len` bytes. */
  ghost predicate Answers(parsed: Parsed, spec: Spec, len: nat) {
    match parsed
    case Ignored => false
    case Unsatisfiable => forall i :: 0 <= i < len ==> !spec.Asks(i, len)
    case Satisfiable(range) =>
      range.start <= range.end < len && forall i :: 0 <= i < len ==> (spec.Asks(i, len) <==> range.start <= i <= range.end)
  }

  /** A result is well formed for the file, whatever the header. */
  lemma RangesFit(header: Option<string>, len: nat)
    ensures ParseRange(header, len).Satisfiable? ==>
              var range := ParseRange(header, len).range;
              range.start <= range.end < len && 1 <= range.Length() <= len
  {
  }

  lemma {:induction false} IndexIn(a: string, c: char, b: string)
    requires c !in a
    ensures IndexOf(a + [c] + b, c) == |a|
  {
    if a == "" {
      assert (a + [c] + b)[0] == c;
    } else {
      assert a[0] in a && (a + [c] + b)[1..] == a[1..] + [c] + b;
      IndexIn(a[1..], c, b);
    }
  }

  function Before(spec: Spec): string {
    if spec.Suffix? then "" else Decimal(spec.start)
  }

  function Behind(spec: Spec): string {
    match spec
    case Closed(_, end) => Decimal(end)
    case From(_) => ""
    case Suffix(count) => Decimal(count)
  }

  /** A list of ranges that begins with `spec`, with more after a comma or none. */
  function List(spec: Spec, more: Option<string>): string {
    spec.Print() + (if more.Some? then "," + more.value else "")
  }

  function Header(spec: Spec, more: Option<string>): string {
    "bytes=" + List(spec, more)
  }

  lemma BoundsTrim(spec: Spec)
    ensures Trim(Before(spec)) == Before(spec) && Trim(Behind(spec)) == Behind(spec)
  {
    match spec
    case Closed(start, end) =>
      NumberSplits(start);
      NumberSplits(end);
    case From(start) => NumberSplits(start);
    case Suffix(count) => NumberSplits(count);
  }

  /** The range that a valid request selects. */
  function Select(spec: Spec, len: nat): Parsed {
    match spec
    case Closed(start, end) =>
      if start >= len then Unsatisfiable else Satisfiable(HttpRange(start, Min(end, len - 1)))
    case From(start) =>
      if start >= len then Unsatisfiable else Satisfiable(HttpRange(start, len - 1))
    case Suffix(count) =>
      if count == 0 || len == 0 then Unsatisfiable else Satisfiable(HttpRange(len - Min(count, len), len - 1))
  }

  lemma BoundsSelect(spec: Spec, len: nat)
    ensures ParseBounds(Before(spec), Behind(spec), len) == if spec.Valid() then Select(spec, len) else Ignored
  {
    match spec
    case Closed(start, end) =>
      NumberSplits(start);
      NumberSplits(end);
    case From(start) => NumberSplits(start);
    case Suffix(count) => NumberSplits(count);
  }

  lemma NumberSplits(n: nat)
    ensures Trim(Decimal(n)) == Decimal(n) && ParseU64(Decimal(n)) == if n < U64_LIMIT then Some(n) else None
  {
    ParseDecimal(n);
    TrimEdges(Decimal(n));
  }

  // ---------------------------------------------------------------------------
  // Serving
  // ---------------------------------------------------------------------------

  datatype Response = Response(status: nat, contentRange: Option<string>, contentLength: Option<nat>, body: Bytes)

  function ServeFile(file: Bytes, isHead: bool, header: Option<string>): Response {
    if isHead then Response(200, None, Some(|file|), [])
    else
      match ParseRange(header, |file|)
      case Unsatisfiable => Response(416, Some("bytes */" + Decimal(|file|)), None, [])
      case Satisfiable(range) =>
        RangesFit(header, |file|);
        var contentRange := "bytes " + Decimal(range.start) + "-" + Decimal(range.end) + "/" + Decimal(|file|);
        Response(206, Some(contentRange), Some(range.Length()), file[range.start..][..Min(range.Length(), |file| - range.start)])
      case Ignored => Response(200, None, Some(|file|), file)
  }

  /**
   A body is as long as announced. A partial one is the bytes at the positions of its range; there is
   none for an unsatisfiable range, and the whole file where the header is ignored.
   */
  lemma BodyIsTheRange(file: Bytes, header: Option<string>)
    ensures var r, parsed := ServeFile(file, false, header), ParseRange(header, |file|);
            && (r.contentLength.Some? ==> |r.body| == r.contentLength.value)
            && (r.status == 206 <==> parsed.Satisfiable?)
            && (r.status == 416 <==> parsed.Unsatisfiable?)
            && (r.status == 200 <==> parsed.Ignored?)
            && (r.status == 206 ==>
                  && |r.body| == parsed.range.Length()
                  && forall i :: parsed.range.start <= i <= parsed.range.end ==> r.body[i - parsed.range.start] == file[i])
            && (r.status == 416 ==> r.body == [])
            && (r.status == 200 ==> r.body == file)
  {
  }

  lemma PartialBody(file: Bytes, header: Option<string>, range: HttpRange)
    requires ParseRange(header, |file|) == Satisfiable(range)
    ensures range.start <= range.end < |file|
    ensures ServeFile(file, false, header).body == file[range.start..range.end + 1]
  {
  }
}
