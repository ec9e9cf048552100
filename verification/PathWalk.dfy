/** What normalisation keeps: where a path leads. */
module PathWalk {
  import opened Wrappers
  import opened Text
  import opened UnixPaths
  import opened PathNormalize

  /** Follows components from a location, which is the list of names below its root; `..` stops at the root. */
  function Walk(from: seq<string>, pieces: seq<string>): seq<string>
    decreases pieces
  {
    if pieces == [] then from
    else if pieces[0] == "." then Walk(from, pieces[1..])
    else if pieces[0] == ".." then Walk(if from == [] then [] else from[..|from| - 1], pieces[1..])
    else Walk(from + [pieces[0]], pieces[1..])
  }

  lemma {:induction false} WalkConcat(from: seq<string>, a: seq<string>, b: seq<string>)
    ensures Walk(from, a + b) == Walk(Walk(from, a), b)
    decreases a
  {
    if a == [] {
      assert a + b == b;
    } else {
      assert (a + b)[1..] == a[1..] + b;
      var next := if a[0] == "." then from
        else if a[0] == ".." then (if from == [] then [] else from[..|from| - 1])
        else from + [a[0]];
      WalkConcat(next, a[1..], b);
    }
  }

  /** No `.`; `..` only in front, and not at all below a root. */
  ghost predicate Tidy(components: seq<string>, absolute: bool) {
    && (forall i :: 0 <= i < |components| ==> components[i] != "." && (absolute ==> components[i] != ".."))
    && (forall i :: 0 < i < |components| && components[i] == ".." ==> components[i - 1] == "..")
  }

  lemma {:induction false} ResolveTidy(stack: seq<string>, pieces: seq<string>, absolute: bool)
    requires Tidy(stack, absolute)
    ensures Tidy(Resolve(stack, pieces, absolute), absolute)
    decreases pieces
  {
    if pieces != [] {
      ResolveTidy(Stacked(stack, pieces[0], absolute), pieces[1..], absolute);
    }
  }

  /** One component moves the stack as it moves the walker. */
  lemma StackedWalks(stack: seq<string>, piece: string, absolute: bool, base: seq<string>)
    requires Tidy(stack, absolute) && (absolute ==> base == [])
    ensures Walk(base, Stacked(stack, piece, absolute)) == Walk(Walk(base, stack), [piece])
  {
    if piece == ".." && stack != [] && stack[|stack| - 1] != ".." {
      var n := |stack| - 1;
      assert stack == stack[..n] + [stack[n]];
      WalkConcat(base, stack[..n], [stack[n]]);
    } else if piece == ".." && absolute {
      assert stack == [];
    } else if piece != "." {
      WalkConcat(base, stack, [piece]);
    }
  }

  lemma {:induction false} ResolveWalks(stack: seq<string>, pieces: seq<string>, absolute: bool, base: seq<string>)
    requires Tidy(stack, absolute) && (absolute ==> base == [])
    ensures Walk(base, Resolve(stack, pieces, absolute)) == Walk(Walk(base, stack), pieces)
    decreases pieces
  {
    if pieces != [] {
      var next := Stacked(stack, pieces[0], absolute);
      StackedWalks(stack, pieces[0], absolute, base);
      ResolveWalks(next, pieces[1..], absolute, base);
      assert pieces == [pieces[0]] + pieces[1..];
      WalkConcat(Walk(base, stack), [pieces[0]], pieces[1..]);
    }
  }

  lemma {:induction false} StaysPieces(stack: seq<string>, pieces: seq<string>, absolute: bool)
    requires forall p :: p in stack || p in pieces ==> IsPiece(p, SEPARATORS)
    ensures forall p :: p in Resolve(stack, pieces, absolute) ==> IsPiece(p, SEPARATORS)
    decreases pieces
  {
    if pieces != [] {
      StaysPieces(Stacked(stack, pieces[0], absolute), pieces[1..], absolute);
    }
  }

  // ---------------------------------------------------------------------------
  // Normal forms are unique
  // ---------------------------------------------------------------------------

  /** The two ways lead to the same place, from wherever they may start. */
  ghost predicate SamePlace(a: seq<string>, b: seq<string>, absolute: bool) {
    forall base :: (absolute ==> base == []) ==> Walk(base, a) == Walk(base, b)
  }

  function Ups(components: seq<string>): (k: nat)
    ensures k <= |components| && forall i :: 0 <= i < k ==> components[i] == ".."
    ensures k < |components| ==> components[k] != ".."
  {
    if components == [] || components[0] != ".." then 0 else 1 + Ups(components[1..])
  }

  lemma {:induction false} WalkNames(from: seq<string>, names: seq<string>)
    requires forall n :: n in names ==> n != "." && n != ".."
    ensures Walk(from, names) == from + names
    decreases names
  {
    if names != [] {
      assert names[0] in names && forall n :: n in names[1..] ==> n in names;
      WalkNames(from + [names[0]], names[1..]);
    }
  }

  lemma {:induction false} NamesAfterUps(components: seq<string>, absolute: bool, i: nat)
    requires Tidy(components, absolute) && Ups(components) <= i < |components|
    ensures components[i] != "." && components[i] != ".."
  {
    if i > Ups(components) {
      NamesAfterUps(components, absolute, i - 1);
    }
  }

  /** The location `k` levels up, or the root. */
  function Above(from: seq<string>, k: nat): seq<string> {
    if k <= |from| then from[..|from| - k] else []
  }

  lemma {:induction false} WalkTidy(from: seq<string>, components: seq<string>, absolute: bool)
    requires Tidy(components, absolute)
    ensures Walk(from, components) == Above(from, Ups(components)) + components[Ups(components)..]
    decreases components
  {
    if Ups(components) == 0 {
      forall n | n in components
        ensures n != "." && n != ".."
      {
        var i :| 0 <= i < |components| && components[i] == n;
        NamesAfterUps(components, absolute, i);
      }
      WalkNames(from, components);
      assert Above(from, 0) == from;
    } else {
      assert Ups(components) == 1 + Ups(components[1..]);
      var next := if from == [] then [] else from[..|from| - 1];
      assert Tidy(components[1..], absolute);
      WalkTidy(next, components[1..], absolute);
      assert Above(next, Ups(components[1..])) == Above(from, Ups(components));
    }
  }

  lemma WalkFromRoot(components: seq<string>, absolute: bool)
    requires Tidy(components, absolute)
    ensures Walk([], components) == components[Ups(components)..]
  {
    WalkTidy([], components, absolute);
    assert Above([], Ups(components)) == [];
  }

  lemma WalkLength(from: seq<string>, components: seq<string>, absolute: bool)
    requires Tidy(components, absolute) && Ups(components) <= |from|
    ensures |Walk(from, components)| == |from| - 2 * Ups(components) + |components|
  {
    WalkTidy(from, components, absolute);
  }

  lemma SameUps(a: seq<string>, b: seq<string>, absolute: bool)
    requires Tidy(a, absolute) && Tidy(b, absolute) && SamePlace(a, b, absolute)
    ensures a[Ups(a)..] == b[Ups(b)..] && Ups(a) == Ups(b)
  {
    WalkFromRoot(a, absolute);
    WalkFromRoot(b, absolute);
    assert Walk([], a) == Walk([], b);
    assert |a| - Ups(a) == |b| - Ups(b);
    if !absolute {
      var base := seq(Ups(a) + Ups(b), _ => "x");
      WalkLength(base, a, absolute);
      WalkLength(base, b, absolute);
      assert Walk(base, a) == Walk(base, b);
    }
  }

  lemma TidyIsUnique(a: seq<string>, b: seq<string>, absolute: bool)
    requires Tidy(a, absolute) && Tidy(b, absolute) && SamePlace(a, b, absolute)
    ensures a == b
  {
    SameUps(a, b, absolute);
    var k := Ups(a);
    forall i | 0 <= i < |a|
      ensures |a| == |b| && a[i] == b[i]
    {
      if i >= k {
        assert a[k..][i - k] == b[k..][i - k];
      }
    }
    assert |a[k..]| == |b[k..]|;
  }

  /** Two paths normalise alike exactly when they lead to the same place from everywhere. */
  lemma NormalFormsAreUnique(a: seq<string>, b: seq<string>, absolute: bool)
    ensures Resolve([], a, absolute) == Resolve([], b, absolute) <==> SamePlace(a, b, absolute)
  {
    var na, nb := Resolve([], a, absolute), Resolve([], b, absolute);
    ResolveTidy([], a, absolute);
    ResolveTidy([], b, absolute);
    forall base | absolute ==> base == []
      ensures Walk(base, na) == Walk(base, a) && Walk(base, nb) == Walk(base, b)
    {
      ResolveWalks([], a, absolute, base);
      ResolveWalks([], b, absolute, base);
    }
    if SamePlace(a, b, absolute) {
      TidyIsUnique(na, nb, absolute);
    }
  }

  // ---------------------------------------------------------------------------
  // Whole paths
  // ---------------------------------------------------------------------------

  /** How the platform sees the normalised form of a reading. */
  function Seen(root: Root, components: seq<string>): seq<Component> {
    (match root
     case Relative => if components == [] then [CurDir] else []
     case Rooted => [RootDir]
     case Drive(_) => [Normal(Prefix(root))]
     case Share(_, _) => [Normal(Prefix(root))])
    + NormalComponents(components)
  }

  lemma NarrowPieces(components: seq<string>)
    requires forall p :: p in components ==> IsPiece(p, {'/'})
    ensures Pieces(Join(components, '/'), {'/'}) == components
  {
    PiecesOfJoin(components, '/', {'/'});
  }

  lemma JoinStart(components: seq<string>)
    requires components != [] && forall p :: p in components ==> IsPiece(p, SEPARATORS)
    ensures Join(components, '/') != "" && Join(components, '/')[0] !in SEPARATORS
  {
    assert components[0] in components;
    assert components[0][0] in components[0];
  }

  /** The rendered path splits into its root and its components again. */
  lemma RenderSplits(root: Root, components: seq<string>)
    requires IsRoot(root) && Tidy(components, !root.Relative?)
    requires forall p :: p in components ==> IsPiece(p, SEPARATORS)
    requires root.Drive? ==> IsLetter(root.letter)
    ensures Components(Render(root, components)) == Seen(root, components)
  {
    if components != [] {
      JoinStart(components);
    }
    NarrowPieces(components);
    match root
    case Relative => RelativeSplits(components);
    case Rooted => assert Render(root, components)[1..] == Join(components, '/');
    case _ => PrefixedSplits(root, components);
  }

  lemma RelativeSplits(components: seq<string>)
    requires Tidy(components, false) && Pieces(Join(components, '/'), {'/'}) == components
    requires components != [] ==> Join(components, '/') != "" && Join(components, '/')[0] !in SEPARATORS
    ensures Components(Render(Relative, components)) == Seen(Relative, components)
  {
    if components == [] {
      PiecesOfPiece(".", "", {'/'});
      assert "." + "" == ".";
    } else {
      assert Render(Relative, components) == Join(components, '/');
    }
  }

  lemma PrefixedSplits(root: Root, components: seq<string>)
    requires IsRoot(root) && (root.Drive? ==> IsLetter(root.letter)) && !root.Relative? && !root.Rooted?
    requires forall p :: p in components ==> IsPiece(p, SEPARATORS)
    ensures Components(Render(root, components)) == Seen(root, components)
  {
    var all := [Prefix(root)] + components;
    PrefixIsPiece(root);
    NarrowPieces(all);
    RenderJoins(root, components);
    assert all[1..] == components;
  }

  lemma RenderJoins(root: Root, components: seq<string>)
    requires Prefix(root) != "" && !root.Rooted? && !root.Relative? && '/' !in Prefix(root)
    ensures Render(root, components) == Join([Prefix(root)] + components, '/')
    ensures Render(root, components) != "" && Render(root, components)[0] != '/'
  {
    var all := [Prefix(root)] + components;
    assert all[1..] == components;
    assert Prefix(root)[0] in Prefix(root);
    assert Render(root, components)[0] == Prefix(root)[0];
  }

  lemma PrefixIsPiece(root: Root)
    requires IsRoot(root) && (root.Drive? ==> IsLetter(root.letter)) && !root.Relative? && !root.Rooted?
    ensures IsPiece(Prefix(root), {'/'}) && Prefix(root) != "." && Prefix(root) != ".."
  {
    match root
    case Drive(letter) => assert Prefix(root) == [letter, ':'];
    case Share(server, share) =>
      assert forall c :: c in Prefix(root) ==> c == '\\' || c in server || c in share;
      assert Prefix(root)[0] == '\\';
  }

  function Understood(input: string): Reading {
    Read(StripExtended(Trim(input)))
  }

  /** What the component stack leaves of an input. */
  function NormalForm(input: string): seq<string>
    requires Understood(input).Reading?
  {
    Resolve([], Understood(input).pieces, !Understood(input).root.Relative?)
  }

  /**
   Normalising keeps the root, and the components that the output splits into lead where the
   given ones do: from every base if the path is relative.
   */
  lemma NormalizeKeepsMeaning(input: string)
    requires Trim(input) != "" && Understood(input).Reading?
    ensures Components(Normalize(input)) == Seen(Understood(input).root, NormalForm(input))
    ensures Tidy(NormalForm(input), !Understood(input).root.Relative?)
    ensures SamePlace(NormalForm(input), Understood(input).pieces, !Understood(input).root.Relative?)
  {
    var text := StripExtended(Trim(input));
    var root, pieces := Understood(input).root, Understood(input).pieces;
    var absolute := !root.Relative?;
    ReadPieces(text);
    ResolveTidy([], pieces, absolute);
    StaysPieces([], pieces, absolute);
    RenderSplits(root, NormalForm(input));
    forall base | absolute ==> base == []
      ensures Walk(base, NormalForm(input)) == Walk(base, pieces)
    {
      ResolveWalks([], pieces, absolute, base);
    }
  }

  lemma {:induction false} NamedExactly(names: seq<string>, absolute: bool)
    requires Tidy(names, absolute)
    ensures |NormalComponents(names)| == |names|
    ensures forall i :: 0 <= i < |names| ==>
              NormalComponents(names)[i] == if names[i] == ".." then ParentDir else Normal(names[i])
  {
    if names != [] {
      assert Tidy(names[1..], absolute);
      NamedExactly(names[1..], absolute);
    }
  }

  lemma SamePrefix(a: seq<string>, b: seq<string>, absolute: bool)
    requires Tidy(a, absolute) && Tidy(b, absolute)
    ensures NormalComponents(a) <= NormalComponents(b) <==> a <= b
  {
    NamedExactly(a, absolute);
    NamedExactly(b, absolute);
    var na, nb := NormalComponents(a), NormalComponents(b);
    if na <= nb {
      forall i | 0 <= i < |a|
        ensures a[i] == b[i]
      {
        assert na[i] == nb[i];
      }
    }
  }

  lemma SeenDecides(root: Root, a: seq<string>, b: seq<string>)
    requires Tidy(a, !root.Relative?) && Tidy(b, !root.Relative?) && Seen(root, a) == Seen(root, b)
    ensures a == b
  {
    NamedExactly(a, !root.Relative?);
    NamedExactly(b, !root.Relative?);
    if root.Relative? {
      assert a != [] ==> Seen(root, a)[0] == NormalComponents(a)[0];
      assert b != [] ==> Seen(root, b)[0] == NormalComponents(b)[0];
      assert a == [] ==> Seen(root, a)[0] == CurDir;
      assert b == [] ==> Seen(root, b)[0] == CurDir;
      assert a != [] ==> Seen(root, a) == NormalComponents(a);
      assert b != [] ==> Seen(root, b) == NormalComponents(b);
      assert NormalComponents(a) == NormalComponents(b);
    } else {
      assert Seen(root, a)[1..] == NormalComponents(a) && Seen(root, b)[1..] == NormalComponents(b);
    }
    SamePrefix(a, b, !root.Relative?);
    SamePrefix(b, a, !root.Relative?);
  }

  /** With the same root, two inputs normalise to the same text exactly when they lead to the same place. */
  lemma NormalizeIsCanonical(a: string, b: string)
    requires Trim(a) != "" && Understood(a).Reading? && Trim(b) != "" && Understood(b).Reading?
    requires Understood(a).root == Understood(b).root
    ensures Normalize(a) == Normalize(b) <==>
            SamePlace(Understood(a).pieces, Understood(b).pieces, !Understood(a).root.Relative?)
  {
    NormalizeKeepsMeaning(a);
    NormalizeKeepsMeaning(b);
    NormalFormsAreUnique(Understood(a).pieces, Understood(b).pieces, !Understood(a).root.Relative?);
    if Normalize(a) == Normalize(b) {
      SeenDecides(Understood(a).root, NormalForm(a), NormalForm(b));
    }
  }

  /** One normalised rooted path is under another exactly when walking it ends at or below where walking the other does. */
  lemma UnderMeansBelow(child: string, base: string)
    requires Understood(child).Reading? && Understood(child).root == Rooted
    requires Understood(base).Reading? && Understood(base).root == Rooted
    ensures StartsWith(Normalize(child), Normalize(base)) <==>
            Walk([], Understood(base).pieces) <= Walk([], Understood(child).pieces)
  {
    var c, b := NormalForm(child), NormalForm(base);
    RootedMeaning(child);
    RootedMeaning(base);
    SamePrefix(b, c, true);
    assert ([RootDir] + NormalComponents(b))[1..] == NormalComponents(b);
    assert ([RootDir] + NormalComponents(c))[1..] == NormalComponents(c);
  }

  lemma RootedMeaning(input: string)
    requires Understood(input).Reading? && Understood(input).root == Rooted
    ensures Components(Normalize(input)) == [RootDir] + NormalComponents(NormalForm(input))
    ensures Tidy(NormalForm(input), true)
    ensures NormalForm(input) == Walk([], Understood(input).pieces)
  {
    NormalizeKeepsMeaning(input);
    var components := NormalForm(input);
    WalkFromRoot(components, true);
    assert Ups(components) == 0;
    assert Walk([], components) == Walk([], Understood(input).pieces);
  }

  // ---------------------------------------------------------------------------
  // Joining
  // ---------------------------------------------------------------------------

  /** `PathBuf::push`: a rooted part replaces what was there. */
  function PushPath(base: string, part: string): string {
    if part != "" && part[0] == '/' then part
    else if base == "" || base[|base| - 1] == '/' then base + part
    else base + "/" + part
  }

  function JoinAll(base: string, parts: seq<string>): string
    decreases parts
  {
    if parts == [] then base
    else if Trim(parts[0]) == "" then JoinAll(base, parts[1..])
    else JoinAll(PushPath(base, Trim(parts[0])), parts[1..])
  }

  method JoinPaths(parts: seq<string>) returns (out: Option<string>)
    ensures out == if Trim(JoinAll("", parts)) == "" then None else Some(Normalize(JoinAll("", parts)))
  {
    var combined := "";
    for i := 0 to |parts|
      invariant JoinAll(combined, parts[i..]) == JoinAll("", parts)
    {
      assert parts[i..][1..] == parts[i + 1..];
      if Trim(parts[i]) != "" {
        combined := PushPath(combined, Trim(parts[i]));
      }
    }
    var normalized := NormalizePath(combined);
    out := if normalized == "" then None else Some(normalized);
  }

  /** Going part by part; a rooted part starts over. */
  function WalkParts(from: seq<string>, parts: seq<string>): seq<string>
    decreases parts
  {
    if parts == [] then from
    else
      var part := Trim(parts[0]);
      if part == "" then WalkParts(from, parts[1..])
      else WalkParts(Walk(if part[0] == '/' then [] else from, Pieces(part, SEPARATORS)), parts[1..])
  }

  predicate HasRootedPart(parts: seq<string>) {
    exists p :: p in parts && Trim(p) != "" && Trim(p)[0] == '/'
  }

  lemma {:induction false} PiecesConcat(a: string, sep: char, b: string)
    requires sep in SEPARATORS
    ensures Pieces(a + [sep] + b, SEPARATORS) == Pieces(a, SEPARATORS) + Pieces(b, SEPARATORS)
    decreases |a|
  {
    if a == "" {
      assert (a + [sep] + b)[1..] == b;
    } else if a[0] in SEPARATORS {
      assert (a + [sep] + b)[1..] == a[1..] + [sep] + b;
      PiecesConcat(a[1..], sep, b);
    } else {
      var n := RunLength(a, SEPARATORS);
      PiecesConcat(a[n..], sep, b);
      FirstPiece(a, n, "");
      FirstPiece(a, n, [sep] + b);
      assert a + "" == a && a[n..] + "" == a[n..];
      Reassociate(a, [sep], b);
      Reassociate(a[n..], [sep], b);
    }
  }

  lemma FirstPiece(a: string, n: nat, behind: string)
    requires a != "" && a[0] !in SEPARATORS && n == RunLength(a, SEPARATORS)
    requires behind == "" || behind[0] in SEPARATORS
    ensures n > 0 && Pieces(a + behind, SEPARATORS) == [a[..n]] + Pieces(a[n..] + behind, SEPARATORS)
  {
    var piece, rest := a[..n], a[n..];
    assert a == piece + rest && IsPiece(piece, SEPARATORS);
    Reassociate(piece, rest, behind);
    assert rest != "" ==> (rest + behind)[0] == a[n];
    PiecesOfPiece(piece, rest + behind, SEPARATORS);
  }

  lemma Reassociate(a: string, b: string, c: string)
    ensures a + b + c == a + (b + c)
  {
  }

  lemma PushPieces(base: string, part: string)
    requires part != ""
    ensures Pieces(PushPath(base, part), SEPARATORS) ==
            (if part[0] == '/' then [] else Pieces(base, SEPARATORS)) + Pieces(part, SEPARATORS)
  {
    if part[0] != '/' {
      if base == "" {
        assert base + part == part;
      } else if base[|base| - 1] == '/' {
        var init := base[..|base| - 1];
        assert base == init + ['/'] + "" && base + part == init + ['/'] + part;
        PiecesConcat(init, '/', part);
        PiecesConcat(init, '/', "");
      } else {
        assert base + "/" + part == base + ['/'] + part;
        PiecesConcat(base, '/', part);
      }
    }
  }

  lemma {:induction false} JoinWalks(base: string, parts: seq<string>, from: seq<string>)
    requires from == [] || !HasRootedPart(parts)
    ensures Walk(from, Pieces(JoinAll(base, parts), SEPARATORS)) == WalkParts(Walk(from, Pieces(base, SEPARATORS)), parts)
    decreases parts
  {
    if parts != [] {
      assert parts[0] in parts && forall p :: p in parts[1..] ==> p in parts;
      var part := Trim(parts[0]);
      if part == "" {
        JoinWalks(base, parts[1..], from);
      } else {
        PushPieces(base, part);
        if part[0] != '/' {
          WalkConcat(from, Pieces(base, SEPARATORS), Pieces(part, SEPARATORS));
        }
        JoinWalks(PushPath(base, part), parts[1..], from);
      }
    }
  }

  lemma {:induction false} JoinEdges(base: string, parts: seq<string>)
    requires NoEdgeSpace(base)
    ensures NoEdgeSpace(JoinAll(base, parts))
    decreases parts
  {
    if parts != [] {
      TrimEdges(parts[0]);
      if Trim(parts[0]) == "" {
        JoinEdges(base, parts[1..]);
      } else {
        JoinEdges(PushPath(base, Trim(parts[0])), parts[1..]);
      }
    }
  }

  /**
   Joining parts leads where following them one after the other does, unless the joined text
   starts like a drive, a share or an extended path.
   */
  lemma JoinFollowsParts(parts: seq<string>, from: seq<string>)
    requires var joined := JoinAll("", parts);
             StripExtended(joined) == joined && Read(joined).Reading?
             && (Read(joined).root == Rooted || Read(joined).root == Relative)
    requires from == [] || (Read(JoinAll("", parts)).root.Relative? && !HasRootedPart(parts))
    ensures Understood(JoinAll("", parts)).Reading?
    ensures Walk(from, NormalForm(JoinAll("", parts))) == WalkParts(from, parts)
  {
    var joined := JoinAll("", parts);
    JoinEdges("", parts);
    TrimEdges(joined);
    JoinWalks("", parts, from);
    ResolveWalks([], Pieces(joined, SEPARATORS), !Read(joined).root.Relative?, from);
  }
}
