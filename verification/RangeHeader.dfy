/** Which `Range` headers are requests for which positions, and what a request is served. */
module RangeHeader {
  import opened Wrappers
  import opened Numbers
  import opened Text
  import opened ByteRange

  // ---------------------------------------------------------------------------
  // The layout of a header
  // ---------------------------------------------------------------------------

  /** Blanks, the unit, the text on both sides of the first dash, and further ranges. */
  datatype Layout = Layout(lead: string, before: string, behind: string, rest: string) {
    function Header(): string {
      lead + BYTES_UNIT + before + "-" + behind + rest
    }

    predicate Proper() {
      && Blank(lead)
      && '-' !in before && ',' !in before && ',' !in behind
      && (rest == "" || rest[0] == ',')
    }
  }

  ghost predicate Lays(header: string, layout: Layout) {
    layout.Proper() && header == layout.Header()
  }

  lemma SplitLeft(s: string) returns (blank: string, text: string)
    ensures s == blank + text && Blank(blank) && (text != "" ==> !IsSpace(text[0])) && Trim(text) == Trim(s)
  {
    var behind;
    blank, behind := TrimSplits(s);
    TrimEdges(s);
    if Trim(s) == "" {
      blank, text := s, "";
    } else {
      text := Trim(s) + behind;
      assert text[0] == Trim(s)[0];
      assert text == "" + Trim(s) + behind;
      TrimUnique("", Trim(s), behind);
    }
  }

  lemma SplitRight(s: string) returns (text: string, blank: string)
    ensures s == text + blank && Blank(blank) && (text != "" ==> !IsSpace(text[|text| - 1])) && Trim(text) == Trim(s)
  {
    var before;
    before, blank := TrimSplits(s);
    TrimEdges(s);
    if Trim(s) == "" {
      text, blank := "", s;
    } else {
      text := before + Trim(s);
      assert text[|text| - 1] == Trim(s)[|Trim(s)| - 1];
      assert text == before + Trim(s) + "";
      TrimUnique(before, Trim(s), "");
    }
  }

  lemma IndexAbsent(s: string, c: char)
    requires c !in s
    ensures IndexOf(s, c) == |s|
  {
  }

  /** From the trimmed header to the text on both sides of the dash. */
  lemma ParseStages(header: string, spec: string, first: string, len: nat)
    requires BYTES_UNIT <= Trim(header) && spec == Trim(Trim(header)[|BYTES_UNIT|..])
    requires first == Trim(spec[..IndexOf(spec, ',')])
    ensures var dash := IndexOf(first, '-');
            ParseRange(Some(header), len) ==
            if dash == |first| then Ignored else ParseBounds(Trim(first[..dash]), Trim(first[dash + 1..]), len)
  {
  }

  lemma UnitSplits(lead: string, blank: string, spec: string, tail: string)
    requires Blank(lead) && Blank(blank) && Blank(tail) && spec != "" && NoEdgeSpace(spec)
    ensures var header := lead + BYTES_UNIT + blank + spec + tail;
            BYTES_UNIT <= Trim(header) && Trim(Trim(header)[|BYTES_UNIT|..]) == spec
  {
    var raw := BYTES_UNIT + (blank + spec);
    assert raw[0] == 'b' && raw[|raw| - 1] == spec[|spec| - 1];
    TrimUnique(lead, raw, tail);
    assert lead + BYTES_UNIT + blank + spec + tail == lead + raw + tail;
    assert raw[|BYTES_UNIT|..] == blank + spec + "";
    TrimUnique(blank, spec, "");
  }

  lemma FirstSplits(core: string, gap: string, rest: string)
    requires Blank(gap) && NoEdgeSpace(core) && ',' !in core && (rest == "" || rest[0] == ',')
    ensures var spec := core + gap + rest; Trim(spec[..IndexOf(spec, ',')]) == core
  {
    var spec := core + gap + rest;
    if rest == "" {
      IndexAbsent(spec, ',');
    } else {
      assert rest == [','] + rest[1..];
      assert spec == (core + gap) + [','] + rest[1..];
      IndexIn(core + gap, ',', rest[1..]);
    }
    assert spec[..IndexOf(spec, ',')] == "" + core + gap;
    TrimUnique("", core, gap);
  }

  lemma BoundsSplit(before: string, behind: string)
    requires '-' !in before
    ensures var core := before + "-" + behind; var dash := IndexOf(core, '-');
            dash < |core| && core[..dash] == before && core[dash + 1..] == behind
  {
    assert before + ['-'] + behind == before + "-" + behind;
    IndexIn(before, '-', behind);
  }

  lemma AloneParses(header: string, lead: string, blank: string, core: string, gap: string, len: nat)
    requires header == lead + BYTES_UNIT + blank + core + gap
    requires Blank(lead) && Blank(blank) && Blank(gap) && core != "" && NoEdgeSpace(core) && ',' !in core
    ensures var dash := IndexOf(core, '-');
            ParseRange(Some(header), len) ==
            if dash == |core| then Ignored else ParseBounds(Trim(core[..dash]), Trim(core[dash + 1..]), len)
  {
    UnitSplits(lead, blank, core, gap);
    FirstSplits(core, "", "");
    assert core + "" + "" == core;
    ParseStages(header, core, core, len);
  }

  lemma FirstParses(header: string, lead: string, blank: string, core: string, gap: string, rest: string, tail: string, len: nat)
    requires header == lead + BYTES_UNIT + blank + (core + gap + rest) + tail
    requires Blank(lead) && Blank(blank) && Blank(gap) && Blank(tail) && core != "" && NoEdgeSpace(core) && ',' !in core
    requires rest != "" && rest[0] == ',' && !IsSpace(rest[|rest| - 1])
    ensures var dash := IndexOf(core, '-');
            ParseRange(Some(header), len) ==
            if dash == |core| then Ignored else ParseBounds(Trim(core[..dash]), Trim(core[dash + 1..]), len)
  {
    var spec := core + gap + rest;
    assert spec[0] == core[0] && spec[|spec| - 1] == rest[|rest| - 1];
    UnitSplits(lead, blank, spec, tail);
    FirstSplits(core, gap, rest);
    ParseStages(header, spec, core, len);
  }

  lemma CoreReassembles(lead: string, blank: string, before: string, behind: string, gap: string, rest: string, tail: string)
    ensures var header := lead + BYTES_UNIT + (blank + before) + "-" + (behind + gap) + (rest + tail);
      && header == lead + BYTES_UNIT + blank + ((before + "-" + behind) + gap + rest) + tail
      && (rest + tail == "" ==> header == lead + BYTES_UNIT + blank + (before + "-" + behind) + gap)
  {
  }

  /** Blanks may stand around the whole, after the unit and around both numbers. */
  lemma LayoutParses(layout: Layout, len: nat)
    requires layout.Proper()
    ensures ParseRange(Some(layout.Header()), len) == ParseBounds(Trim(layout.before), Trim(layout.behind), len)
  {
    var blank, before := SplitLeft(layout.before);
    var behind, gap := SplitRight(layout.behind);
    var rest, tail := SplitRight(layout.rest);
    var core := before + "-" + behind;
    CoreHasNoComma(layout, blank, before, behind, gap);
    BoundsSplit(before, behind);
    EdgesOfCore(before, behind);
    CoreReassembles(layout.lead, blank, before, behind, gap, rest, tail);
    if layout.rest == "" {
      AloneParses(layout.Header(), layout.lead, blank, core, gap, len);
    } else {
      RestIsComma(layout.rest, rest, tail);
      FirstParses(layout.Header(), layout.lead, blank, core, gap, rest, tail, len);
    }
  }

  lemma CoreHasNoComma(layout: Layout, blank: string, before: string, behind: string, gap: string)
    requires layout.Proper() && layout.before == blank + before && layout.behind == behind + gap
    ensures ',' !in before + "-" + behind && '-' !in before
  {
    assert forall c :: c in before ==> c in layout.before;
    assert forall c :: c in behind ==> c in layout.behind;
  }

  lemma EdgesOfCore(before: string, behind: string)
    requires before != "" ==> !IsSpace(before[0])
    requires behind != "" ==> !IsSpace(behind[|behind| - 1])
    ensures NoEdgeSpace(before + "-" + behind)
  {
    var core := before + "-" + behind;
    assert core[0] == if before == "" then '-' else before[0];
    assert core[|core| - 1] == if behind == "" then '-' else behind[|behind| - 1];
  }

  lemma RestIsComma(all: string, rest: string, tail: string)
    requires all != "" && all[0] == ',' && all == rest + tail && Blank(tail)
    ensures rest != "" && rest[0] == ','
  {
    assert all[0] in all && (rest == "" ==> all == tail);
  }

  /** What is not ignored has this layout. */
  lemma ParsedIsLaidOut(header: string, len: nat) returns (layout: Layout)
    requires ParseRange(Some(header), len) != Ignored
    ensures Lays(header, layout)
  {
    var raw := Trim(header);
    var p1, q1 := TrimSplits(header);
    var p2, q2 := TrimSplits(raw[|BYTES_UNIT|..]);
    var spec := Trim(raw[|BYTES_UNIT|..]);
    var comma := IndexOf(spec, ',');
    var p3, q3 := TrimSplits(spec[..comma]);
    var first := Trim(spec[..comma]);
    var dash := IndexOf(first, '-');
    layout := LayoutOf(p1, p2, p3, first[..dash], first[dash + 1..], q3, spec[comma..], q2, q1);
    PiecesAreProper(p1, p2, p3, first[..dash], first[dash + 1..], q3, spec[comma..], q2, q1);
    assert first == first[..dash] + "-" + first[dash + 1..];
    assert spec == spec[..comma] + spec[comma..];
    assert raw == BYTES_UNIT + raw[|BYTES_UNIT|..];
    Reassembles(header, p1, p2, p3, first[..dash], first[dash + 1..], q3, spec[comma..], q2, q1);
  }

  function LayoutOf(p1: string, p2: string, p3: string, before: string, behind: string, q3: string, rest: string,
                    q2: string, q1: string): Layout
  {
    if rest == "" then Layout(p1, p2 + p3 + before, behind + q3 + q2 + q1, "")
    else Layout(p1, p2 + p3 + before, behind + q3, rest + q2 + q1)
  }

  lemma PiecesAreProper(p1: string, p2: string, p3: string, before: string, behind: string, q3: string, rest: string,
                        q2: string, q1: string)
    requires Blank(p1) && Blank(p2) && Blank(p3) && Blank(q3) && Blank(q2) && Blank(q1)
    requires '-' !in before && ',' !in p3 + (before + "-" + behind) + q3 && (rest == "" || rest[0] == ',')
    ensures LayoutOf(p1, p2, p3, before, behind, q3, rest, q2, q1).Proper()
  {
    assert forall c :: c in before || c in behind ==> c in p3 + (before + "-" + behind) + q3;
  }

  lemma Reassembles(header: string, p1: string, p2: string, p3: string, before: string, behind: string,
                    q3: string, rest: string, q2: string, q1: string)
    requires header == p1 + (BYTES_UNIT + (p2 + ((p3 + (before + "-" + behind) + q3) + rest) + q2)) + q1
    ensures header == p1 + BYTES_UNIT + (p2 + p3 + before) + "-" + (behind + q3) + (rest + q2 + q1)
    ensures rest == "" ==> header == p1 + BYTES_UNIT + (p2 + p3 + before) + "-" + (behind + q3 + q2 + q1) + ""
  {
  }

  // ---------------------------------------------------------------------------
  // Requests
  // ---------------------------------------------------------------------------

  /** The two numbers of a range, or the one and nothing. */
  ghost predicate Spells(before: string, behind: string, spec: Spec) {
    match spec
    case Closed(start, end) => Numeral(before, start) && Numeral(behind, end)
    case From(start) => Numeral(before, start) && behind == ""
    case Suffix(count) => before == "" && Numeral(behind, count)
  }

  ghost predicate Spelt(header: string, spec: Spec, layout: Layout) {
    Lays(header, layout) && Spells(Trim(layout.before), Trim(layout.behind), spec)
  }

  /** The header is a request for the positions of a range that ends where it starts or later, in 64 bits. */
  ghost predicate Requests(header: Option<string>, spec: Spec) {
    header.Some? && spec.Valid() && exists layout :: Spelt(header.value, spec, layout)
  }

  lemma SpelledBounds(before: string, behind: string, spec: Spec, len: nat)
    requires spec.Valid() && Spells(before, behind, spec)
    ensures ParseBounds(before, behind, len) == Select(spec, len)
  {
    match spec
    case Closed(start, end) =>
      ParseU64Exactly(before, start);
      ParseU64Exactly(behind, end);
    case From(start) => ParseU64Exactly(before, start);
    case Suffix(count) => ParseU64Exactly(behind, count);
  }

  lemma BoundsAreSpelled(before: string, behind: string, len: nat) returns (spec: Spec)
    requires ParseBounds(before, behind, len) != Ignored
    ensures spec.Valid() && Spells(before, behind, spec)
  {
    if before == "" {
      spec := Suffix(ParseU64(behind).value);
      ParseU64Exactly(behind, spec.count);
    } else if behind == "" {
      spec := From(ParseU64(before).value);
      ParseU64Exactly(before, spec.start);
    } else {
      spec := Closed(ParseU64(before).value, ParseU64(behind).value);
      ParseU64Exactly(before, spec.start);
      ParseU64Exactly(behind, spec.end);
    }
  }

  lemma RequestIsParsed(header: Option<string>, spec: Spec, len: nat)
    requires Requests(header, spec)
    ensures ParseRange(header, len) == Select(spec, len)
  {
    var layout :| Spelt(header.value, spec, layout);
    LayoutParses(layout, len);
    SpelledBounds(Trim(layout.before), Trim(layout.behind), spec, len);
  }

  lemma SelectAnswers(spec: Spec, len: nat)
    requires spec.Valid()
    ensures Answers(Select(spec, len), spec, len)
  {
  }

  /**
   The result answers what the header requests; and it is ignored exactly if the header requests
   nothing: no header, another unit, no dash, no number, one beyond 64 bits, or a reversed range.
   */
  lemma ParseRangeExactly(header: Option<string>, len: nat)
    ensures forall spec :: Requests(header, spec) ==> Answers(ParseRange(header, len), spec, len)
    ensures ParseRange(header, len) == Ignored <==> forall spec :: !Requests(header, spec)
  {
    forall spec | Requests(header, spec)
      ensures Answers(ParseRange(header, len), spec, len)
    {
      RequestIsParsed(header, spec, len);
      SelectAnswers(spec, len);
    }
    if ParseRange(header, len) != Ignored {
      var layout := ParsedIsLaidOut(header.value, len);
      LayoutParses(layout, len);
      var spec := BoundsAreSpelled(Trim(layout.before), Trim(layout.behind), len);
      assert Spelt(header.value, spec, layout);
      assert Requests(header, spec);
    }
  }

  // ---------------------------------------------------------------------------
  // Responses
  // ---------------------------------------------------------------------------

  /** Asked for no position of the file. */
  predicate AsksForNothing(spec: Spec, len: nat) {
    forall i :: 0 <= i < len ==> !spec.Asks(i, len)
  }

  function ContentRange(start: nat, end: nat, len: nat): string {
    "bytes " + Decimal(start) + "-" + Decimal(end) + "/" + Decimal(len)
  }

  /** The positions from `start` to `end`, under their numbers. */
  predicate IsPart(r: Response, file: Bytes, start: nat, end: nat) {
    && start <= end < |file|
    && r == Response(206, Some(ContentRange(start, end, |file|)), Some(end - start + 1), file[start..end + 1])
  }

  predicate IsAskedFor(spec: Spec, len: nat, start: nat, end: nat) {
    forall i :: 0 <= i < len ==> (spec.Asks(i, len) <==> start <= i <= end)
  }

  ghost predicate Serves(r: Response, file: Bytes, spec: Spec) {
    exists start: nat, end: nat :: IsPart(r, file, start, end) && IsAskedFor(spec, |file|, start, end)
  }

  /**
   Without a request the whole file; with one, exactly the positions it asks for, or status 416 with the
   length of the file if there are none. The head of the response to HEAD is that of the whole file.
   */
  lemma ServeExactly(file: Bytes, header: Option<string>)
    ensures (forall spec :: !Requests(header, spec)) ==> ServeFile(file, false, header) == Response(200, None, Some(|file|), file)
    ensures forall spec :: Requests(header, spec) ==>
              if AsksForNothing(spec, |file|)
              then ServeFile(file, false, header) == Response(416, Some("bytes */" + Decimal(|file|)), None, [])
              else Serves(ServeFile(file, false, header), file, spec)
    ensures ServeFile(file, true, header) == Response(200, None, Some(|file|), [])
  {
    ParseRangeExactly(header, |file|);
    forall spec | Requests(header, spec)
      ensures if AsksForNothing(spec, |file|)
              then ServeFile(file, false, header) == Response(416, Some("bytes */" + Decimal(|file|)), None, [])
              else Serves(ServeFile(file, false, header), file, spec)
    {
      RequestIsServed(file, header, spec);
    }
  }

  lemma RequestIsServed(file: Bytes, header: Option<string>, spec: Spec)
    requires Answers(ParseRange(header, |file|), spec, |file|)
    ensures if AsksForNothing(spec, |file|)
            then ServeFile(file, false, header) == Response(416, Some("bytes */" + Decimal(|file|)), None, [])
            else Serves(ServeFile(file, false, header), file, spec)
  {
    match ParseRange(header, |file|)
    case Unsatisfiable =>
    case Satisfiable(range) =>
      RangeIsServed(file, header, range);
      assert spec.Asks(range.start, |file|);
      assert IsAskedFor(spec, |file|, range.start, range.end);
  }

  lemma RangeIsServed(file: Bytes, header: Option<string>, range: HttpRange)
    requires ParseRange(header, |file|) == Satisfiable(range)
    ensures IsPart(ServeFile(file, false, header), file, range.start, range.end)
  {
    PartialBody(file, header, range);
  }

  lemma AnnouncedSplits(word: string, a: string, b: string, c: string)
    ensures (word + a + "-" + b + "/" + c)[|word|..] == a + ['-'] + (b + "/" + c)
    ensures a + ['-'] + (b + "/" + c) == (a + "-" + b) + ['/'] + c
  {
    assert word + a + "-" + b + "/" + c == word + (a + ['-'] + (b + "/" + c));
  }

  lemma DashAndSlash(a: string, b: string, c: string)
    requires '-' !in a && '/' !in a && '/' !in b
    ensures var text := a + ['-'] + (b + "/" + c);
      var dash, slash := IndexOf(text, '-'), IndexOf(text, '/');
      dash < slash < |text| && text[..dash] == a && text[dash + 1..slash] == b && text[slash + 1..] == c
  {
    AnnouncedSplits("", a, b, c);
    IndexIn(a, '-', b + "/" + c);
    IndexIn(a + "-" + b, '/', c);
  }

  /** The announced numbers can be read back. */
  lemma ContentRangeReads(start: nat, end: nat, len: nat)
    requires start <= end < len < U64_LIMIT
    ensures var text := ContentRange(start, end, len)[6..];
      var dash, slash := IndexOf(text, '-'), IndexOf(text, '/');
      && dash < slash < |text|
      && ParseU64(text[..dash]) == Some(start) && ParseU64(text[dash + 1..slash]) == Some(end)
      && ParseU64(text[slash + 1..]) == Some(len)
  {
    AnnouncedSplits("bytes ", Decimal(start), Decimal(end), Decimal(len));
    ParseDecimal(start);
    ParseDecimal(end);
    ParseDecimal(len);
    DashAndSlash(Decimal(start), Decimal(end), Decimal(len));
  }

  /** Every printed range is a request for its positions, whatever comes after a comma. */
  lemma PrintedRequests(spec: Spec, more: Option<string>)
    requires spec.Valid()
    ensures Requests(Some(Header(spec, more)), spec)
  {
    var layout := Layout("", Before(spec), Behind(spec), if more.Some? then "," + more.value else "");
    BoundsTrim(spec);
    PrintedLayout(spec, more, layout);
    PrintedSpells(spec);
    assert Spelt(Header(spec, more), spec, layout);
  }

  lemma PrintedSpells(spec: Spec)
    ensures Spells(Before(spec), Behind(spec), spec)
  {
    match spec
    case Closed(start, end) =>
      DecimalIsNumeral(start);
      DecimalIsNumeral(end);
    case From(start) => DecimalIsNumeral(start);
    case Suffix(count) => DecimalIsNumeral(count);
  }

  lemma DecimalIsNumeral(n: nat)
    ensures Numeral(Decimal(n), n)
  {
    assert "" + "" + Decimal(n) == Decimal(n);
    assert IsNumeral(Decimal(n), "", "", n);
  }

  lemma PrintedText(spec: Spec)
    ensures spec.Print() == Before(spec) + "-" + Behind(spec)
    ensures '-' !in Before(spec) && ',' !in Before(spec) && ',' !in Behind(spec)
  {
    match spec
    case Closed(start, end) =>
      ParseDecimal(start);
      ParseDecimal(end);
    case From(start) => ParseDecimal(start);
    case Suffix(count) => ParseDecimal(count);
  }

  lemma LayoutText(word: string, before: string, behind: string, rest: string)
    ensures word + (before + "-" + behind + rest) == "" + word + before + "-" + behind + rest
  {
  }

  lemma PrintedLayout(spec: Spec, more: Option<string>, layout: Layout)
    requires layout == Layout("", Before(spec), Behind(spec), if more.Some? then "," + more.value else "")
    ensures Lays(Header(spec, more), layout)
  {
    PrintedText(spec);
    LayoutText(BYTES_UNIT, layout.before, layout.behind, layout.rest);
    assert List(spec, more) == spec.Print() + layout.rest;
  }

  lemma PrintedParses(spec: Spec, more: Option<string>, len: nat)
    ensures ParseRange(Some(Header(spec, more)), len) == if spec.Valid() then Select(spec, len) else Ignored
  {
    var layout := Layout("", Before(spec), Behind(spec), if more.Some? then "," + more.value else "");
    PrintedLayout(spec, more, layout);
    LayoutParses(layout, len);
    BoundsTrim(spec);
    BoundsSelect(spec, len);
  }

  /**
   A printed range reads back as exactly the positions it asks for, for every file size; further
   ranges after it are not looked at. It is ignored exactly when it ends before it starts or
   its numbers do not fit 64 bits.
   */
  lemma PrintedRangeIsAnswered(spec: Spec, more: Option<string>, len: nat)
    ensures spec.Valid() ==> Answers(ParseRange(Some(Header(spec, more)), len), spec, len)
    ensures !spec.Valid() ==> ParseRange(Some(Header(spec, more)), len) == Ignored
  {
    PrintedParses(spec, more, len);
    if spec.Valid() {
      SelectAnswers(spec, len);
    }
  }

  /** What each printed range is served; and what is served without a header, or for another unit. */
  lemma PrintedIsServed(file: Bytes, spec: Spec, more: Option<string>, other: string)
    ensures var r := ServeFile(file, false, Some(Header(spec, more)));
      if !spec.Valid() then r == Response(200, None, Some(|file|), file)
      else if AsksForNothing(spec, |file|) then r == Response(416, Some("bytes */" + Decimal(|file|)), None, [])
      else Serves(r, file, spec)
    ensures ServeFile(file, false, None) == Response(200, None, Some(|file|), file)
    ensures !("bytes=" <= Trim(other)) ==> ServeFile(file, false, Some(other)) == Response(200, None, Some(|file|), file)
  {
    PrintedRangeIsAnswered(spec, more, |file|);
    if spec.Valid() {
      RequestIsServed(file, Some(Header(spec, more)), spec);
    }
  }

  // ---------------------------------------------------------------------------
  // Piece by piece
  // ---------------------------------------------------------------------------

  /** Printing a range inside the file and parsing it gives the range back. */
  lemma RangeRoundTrip(range: HttpRange, len: nat)
    requires range.start <= range.end < len <= U64_LIMIT
    ensures ParseRange(Some(Header(Closed(range.start, range.end), None)), len) == Satisfiable(range)
  {
    PrintedParses(Closed(range.start, range.end), None, len);
  }

  /** What a client gets that asks for the bytes from `start` up to `end`, if there are any. */
  function Piece(file: Bytes, start: nat, end: nat): Bytes {
    if start < end then ServeFile(file, false, Some(Header(Closed(start, end - 1), None))).body else []
  }

  lemma PieceIsSlice(file: Bytes, start: nat, end: nat)
    requires start <= end <= |file| <= U64_LIMIT
    ensures Piece(file, start, end) == file[start..end]
  {
    if start < end {
      var header := Some(Header(Closed(start, end - 1), None));
      RangeRoundTrip(HttpRange(start, end - 1), |file|);
      PartialBody(file, header, HttpRange(start, end - 1));
    }
  }

  lemma SliceJoins(file: Bytes, a: nat, b: nat, c: nat)
    requires a <= b <= c <= |file|
    ensures file[a..b] + file[b..c] == file[a..c]
  {
  }

  /** The pieces between successive cuts. */
  function Pieces(file: Bytes, cuts: seq<nat>): Bytes {
    if |cuts| < 2 then [] else Piece(file, cuts[0], cuts[1]) + Pieces(file, cuts[1..])
  }

  predicate Ascending(cuts: seq<nat>, len: nat) {
    && (forall i :: 0 <= i < |cuts| ==> cuts[i] <= len)
    && (forall i :: 0 <= i < |cuts| - 1 ==> cuts[i] <= cuts[i + 1])
  }

  /** The bodies for any partition of the file into ranges concatenate to the file. */
  lemma {:induction false} PiecesMakeTheFile(file: Bytes, cuts: seq<nat>)
    requires cuts != [] && Ascending(cuts, |file|) && |file| <= U64_LIMIT
    ensures cuts[0] <= cuts[|cuts| - 1] <= |file|
    ensures Pieces(file, cuts) == file[cuts[0]..cuts[|cuts| - 1]]
  {
    if |cuts| > 1 {
      var rest := cuts[1..];
      assert forall i :: 0 <= i < |rest| ==> rest[i] == cuts[i + 1];
      PiecesMakeTheFile(file, rest);
      PieceIsSlice(file, cuts[0], cuts[1]);
      SliceJoins(file, cuts[0], cuts[1], cuts[|cuts| - 1]);
    }
  }
}
