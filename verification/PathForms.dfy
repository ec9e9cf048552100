/** The text that normalisation gives, form by form. */
module PathForms {
  import opened Text
  import opened UnixPaths
  import opened PathNormalize
  import opened PathWalk

  // ---------------------------------------------------------------------------
  // Extended prefixes
  // ---------------------------------------------------------------------------

  const UNC := "\\\\?\\UNC\\"
  const VERBATIM := "\\\\?\\"
  const DEVICE := "\\\\.\\"

  /** A share keeps its two backslashes; the other two prefixes go; other text stays. */
  lemma StripExactly(text: string, rest: string)
    ensures text == UNC + rest ==> StripExtended(text) == "\\\\" + rest
    ensures text == VERBATIM + rest && !(UNC <= text) ==> StripExtended(text) == rest
    ensures text == DEVICE + rest ==> StripExtended(text) == rest
    ensures !(VERBATIM <= text) && !(DEVICE <= text) ==> StripExtended(text) == text
  {
    assert UNC[..4] == VERBATIM;
    assert UNC <= text ==> text[..4] == VERBATIM;
    assert DEVICE <= text ==> text[2] == '.';
    assert VERBATIM <= text ==> text[2] == '?';
    assert text == UNC + rest ==> text[8..] == rest;
    assert text == VERBATIM + rest || text == DEVICE + rest ==> text[4..] == rest;
  }

  // ---------------------------------------------------------------------------
  // The normalised text
  // ---------------------------------------------------------------------------

  /** Each name after a slash. */
  function Below(names: seq<string>): string {
    if names == [] then "" else "/" + names[0] + Below(names[1..])
  }

  lemma {:induction false} JoinIsBelow(names: seq<string>)
    requires names != []
    ensures "/" + Join(names, '/') == Below(names)
  {
    if |names| > 1 {
      JoinIsBelow(names[1..]);
      assert "/" + (names[0] + "/" + Join(names[1..], '/')) == "/" + names[0] + ("/" + Join(names[1..], '/'));
    } else {
      assert Below(names[1..]) == "";
    }
  }

  lemma ResolvedIsWalked(pieces: seq<string>)
    ensures Resolve([], pieces, true) == Walk([], pieces)
  {
    var components := Resolve([], pieces, true);
    ResolveTidy([], pieces, true);
    ResolveWalks([], pieces, true, []);
    WalkFromRoot(components, true);
    assert Ups(components) == 0;
  }

  predicate IsText(input: string, text: string) {
    Trim(input) != "" && text == StripExtended(Trim(input))
  }

  /** Either kind separates. */
  predicate IsSlash(c: char) {
    c == '/' || c == '\\'
  }

  /** Nothing but blanks normalises to nothing. */
  lemma BlankForm(input: string)
    ensures Normalize(input) == "" <==> Blank(input)
  {
    TrimsToNothing(input);
  }

  /** `c:` and more: the letter as a capital, and where the rest leads from the root of the drive. */
  lemma DriveForm(input: string, letter: char, rest: string)
    requires IsText(input, [letter, ':'] + rest) && IsLetter(letter)
    ensures Normalize(input) == [Upper(letter), ':'] + Below(Walk([], Pieces(rest, SEPARATORS)))
    ensures 'A' <= letter <= 'Z' ==> Upper(letter) == letter
    ensures 'a' <= letter <= 'z' ==> 'A' <= Upper(letter) <= 'Z' && Upper(letter) as int - 'A' as int == letter as int - 'a' as int
  {
    var text := [letter, ':'] + rest;
    assert text[2..] == rest;
    ResolvedIsWalked(Pieces(rest, SEPARATORS));
    var names := Walk([], Pieces(rest, SEPARATORS));
    if names != [] {
      JoinIsBelow(names);
    }
    assert [Upper(letter)] + ":" == [Upper(letter), ':'];
  }

  /** Two separators, a server and a share, and where the rest leads from there; without a share the text stays. */
  lemma ShareForm(input: string, a: char, b: char, rest: string)
    requires IsText(input, [a, b] + rest) && IsSlash(a) && IsSlash(b)
    ensures var pieces := Pieces(rest, SEPARATORS);
      Normalize(input) ==
      if |pieces| < 2 then [a, b] + rest
      else "\\\\" + pieces[0] + "\\" + pieces[1] + Below(Walk([], pieces[2..]))
  {
    var text := [a, b] + rest;
    assert text[2..] == rest;
    var pieces := Pieces(rest, SEPARATORS);
    if |pieces| >= 2 {
      ResolvedIsWalked(pieces[2..]);
      var names := Walk([], pieces[2..]);
      if names != [] {
        JoinIsBelow(names);
      }
    }
  }

  lemma RootedReads(a: char, rest: string)
    requires a in SEPARATORS && (rest != "" ==> rest[0] !in SEPARATORS)
    ensures Read([a] + rest) == Reading(Rooted, Pieces(rest, SEPARATORS))
  {
    var text := [a] + rest;
    assert text[0] == a && text[1..] == rest;
    assert !IsLetter(a);
    assert |text| >= 2 ==> text[1] == rest[0];
  }

  lemma RootedText(names: seq<string>)
    ensures Render(Rooted, names) == if names == [] then "/" else Below(names)
  {
    if names != [] {
      JoinIsBelow(names);
    }
  }

  /** One separator in front: where the rest leads from the root, and the root itself if nowhere. */
  lemma RootedForm(input: string, a: char, rest: string)
    requires IsText(input, [a] + rest) && IsSlash(a) && (rest != "" ==> !IsSlash(rest[0]))
    ensures var names := Walk([], Pieces(rest, SEPARATORS)); Normalize(input) == if names == [] then "/" else Below(names)
  {
    RootedReads(a, rest);
    ResolvedIsWalked(Pieces(rest, SEPARATORS));
    RootedText(Walk([], Pieces(rest, SEPARATORS)));
  }

  /** No root: the tidy components with slashes between them, and a dot if there are none. */
  lemma RelativeForm(input: string, text: string)
    requires IsText(input, text) && (text != "" ==> !IsSlash(text[0]))
    requires |text| >= 2 && IsLetter(text[0]) ==> text[1] != ':'
    ensures Understood(input) == Reading(Relative, Pieces(text, SEPARATORS))
    ensures Normalize(input) == if NormalForm(input) == [] then "." else Below(NormalForm(input))[1..]
  {
    var names := Resolve([], Pieces(text, SEPARATORS), false);
    PiecesArePieces(text, SEPARATORS);
    StaysPieces([], Pieces(text, SEPARATORS), false);
    if names != [] {
      JoinStart(names);
      JoinIsBelow(names);
      assert ("/" + Join(names, '/'))[1..] == Join(names, '/');
    }
  }

  // ---------------------------------------------------------------------------
  // Joined paths
  // ---------------------------------------------------------------------------

  predicate AllBlank(parts: seq<string>) {
    forall p :: p in parts ==> Blank(p)
  }

  lemma {:induction false} JoinedBlank(base: string, parts: seq<string>)
    ensures JoinAll(base, parts) == "" <==> base == "" && AllBlank(parts)
    decreases parts
  {
    if parts != [] {
      TrimsToNothing(parts[0]);
      assert parts == [parts[0]] + parts[1..];
      JoinedBlank(if Trim(parts[0]) == "" then base else PushPath(base, Trim(parts[0])), parts[1..]);
    }
  }

  /** There is nothing to join exactly if all parts are blank. */
  lemma NothingToJoin(parts: seq<string>)
    ensures Trim(JoinAll("", parts)) == "" <==> AllBlank(parts)
  {
    JoinedBlank("", parts);
    JoinEdges("", parts);
    TrimEdges(JoinAll("", parts));
  }
}
