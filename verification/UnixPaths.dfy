/** Unix path strings and their components, as `std::path::Path` sees them. */
module UnixPaths {

  datatype Component = RootDir | CurDir | ParentDir | Normal(name: string)

  /** The length of the first run of characters that are not separators. */
  function RunLength(s: string, seps: set<char>): (n: nat)
    ensures n <= |s|
    ensures forall i :: 0 <= i < n ==> s[i] !in seps
    ensures n < |s| ==> s[n] in seps
  {
    if s == "" || s[0] in seps then 0 else 1 + RunLength(s[1..], seps)
  }

  /** The maximal runs of characters between separators. */
  function Pieces(s: string, seps: set<char>): seq<string>
    decreases |s|
  {
    if s == "" then []
    else if s[0] in seps then Pieces(s[1..], seps)
    else
      var n := RunLength(s, seps);
      [s[..n]] + Pieces(s[n..], seps)
  }

  predicate IsPiece(p: string, seps: set<char>) {
    p != "" && forall c :: c in p ==> c !in seps
  }

  function Join(pieces: seq<string>, sep: char): string {
    if pieces == [] then ""
    else if |pieces| == 1 then pieces[0]
    else pieces[0] + [sep] + Join(pieces[1..], sep)
  }

  lemma {:induction false} RunOfPiece(p: string, rest: string, seps: set<char>)
    requires forall c :: c in p ==> c !in seps
    requires rest == "" || rest[0] in seps
    ensures RunLength(p + rest, seps) == |p|
  {
    if p != "" {
      assert p[0] in p && (p + rest)[1..] == p[1..] + rest;
      RunOfPiece(p[1..], rest, seps);
    }
  }

  lemma PiecesOfPiece(p: string, rest: string, seps: set<char>)
    requires IsPiece(p, seps)
    requires rest == "" || rest[0] in seps
    ensures Pieces(p + rest, seps) == [p] + Pieces(rest, seps)
  {
    RunOfPiece(p, rest, seps);
    assert p[0] in p;
    assert (p + rest)[..|p|] == p && (p + rest)[|p|..] == rest;
  }

  /** Splitting a joined path gives the pieces back. */
  lemma {:induction false} PiecesOfJoin(pieces: seq<string>, sep: char, seps: set<char>)
    requires sep in seps && forall p :: p in pieces ==> IsPiece(p, seps)
    ensures Pieces(Join(pieces, sep), seps) == pieces
  {
    if |pieces| == 1 {
      PiecesOfPiece(pieces[0], "", seps);
      assert pieces[0] + "" == pieces[0];
    } else if pieces != [] {
      var rest := [sep] + Join(pieces[1..], sep);
      assert Join(pieces, sep) == pieces[0] + rest;
      PiecesOfPiece(pieces[0], rest, seps);
      assert rest[1..] == Join(pieces[1..], sep);
      PiecesOfJoin(pieces[1..], sep, seps);
    }
  }

  lemma {:induction false} PiecesArePieces(s: string, seps: set<char>)
    ensures forall p :: p in Pieces(s, seps) ==> IsPiece(p, seps)
    decreases |s|
  {
    if s != "" {
      if s[0] in seps {
        PiecesArePieces(s[1..], seps);
      } else {
        PiecesArePieces(s[RunLength(s, seps)..], seps);
      }
    }
  }

  function NormalComponents(pieces: seq<string>): seq<Component> {
    if pieces == [] then []
    else
      (if pieces[0] == "." then []
       else if pieces[0] == ".." then [ParentDir]
       else [Normal(pieces[0])]) + NormalComponents(pieces[1..])
  }

  /** `.` counts only at the very front of a relative path. */
  function Components(path: string): seq<Component> {
    var pieces := Pieces(path, {'/'});
    (if path != "" && path[0] == '/' then [RootDir]
     else if pieces != [] && pieces[0] == "." then [CurDir]
     else []) + NormalComponents(pieces)
  }

  /** `Path::starts_with`: by whole components. */
  predicate StartsWith(path: string, base: string) {
    Components(base) <= Components(path)
  }

}
