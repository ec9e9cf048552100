/** Lexical normalisation of paths, and what it means to walk them. */
module PathNormalize {
  import opened Wrappers
  import opened Text
  import opened UnixPaths

  const SEPARATORS: set<char> := {'/', '\\'}

  function StripExtended(s: string): string {
    if "\\\\?\\UNC\\" <= s then "\\\\" + s[8..]
    else if "\\\\?\\" <= s || "\\\\.\\" <= s then s[4..]
    else s
  }

  predicate IsLetter(c: char) {
    'a' <= c <= 'z' || 'A' <= c <= 'Z'
  }

  function Upper(c: char): char {
    if 'a' <= c <= 'z' then c - 'a' + 'A' else c
  }

  datatype Root = Relative | Rooted | Drive(letter: char) | Share(server: string, share: string)

  /** How a path is read: from where, and along which components. */
  datatype Reading = Reading(root: Root, pieces: seq<string>) | HalfShare

  function Read(text: string): Reading {
    if |text| >= 2 && text[1] == ':' && IsLetter(text[0]) then
      Reading(Drive(Upper(text[0])), Pieces(text[2..], SEPARATORS))
    else if |text| >= 2 && text[0] in SEPARATORS && text[1] in SEPARATORS then
      var pieces := Pieces(text[2..], SEPARATORS);
      if |pieces| < 2 then HalfShare else Reading(Share(pieces[0], pieces[1]), pieces[2..])
    else if text != "" && text[0] in SEPARATORS then Reading(Rooted, Pieces(text, SEPARATORS))
    else Reading(Relative, Pieces(text, SEPARATORS))
  }

  /** One component handled by the component stack. */
  function Stacked(stack: seq<string>, piece: string, absolute: bool): seq<string> {
    if piece == "." then stack
    else if piece == ".." then
      if stack != [] && stack[|stack| - 1] != ".." then stack[..|stack| - 1]
      else if absolute then stack
      else stack + [".."]
    else stack + [piece]
  }

  function Resolve(stack: seq<string>, pieces: seq<string>, absolute: bool): seq<string>
    decreases pieces
  {
    if pieces == [] then stack
    else Resolve(Stacked(stack, pieces[0], absolute), pieces[1..], absolute)
  }

  function Prefix(root: Root): string {
    match root
    case Relative => ""
    case Rooted => "/"
    case Drive(letter) => [letter] + ":"
    case Share(server, share) => "\\\\" + server + "\\" + share
  }

  function Render(root: Root, components: seq<string>): string {
    var prefix := Prefix(root);
    var out := prefix
      + (if components == [] then "" else (if root.Relative? || root.Rooted? then "" else "/") + Join(components, '/'));
    if out == "" then "." else out
  }

  function Normalize(input: string): string {
    var trimmed := Trim(input);
    var stripped := StripExtended(trimmed);
    if trimmed == "" then ""
    else
      match Read(stripped)
      case HalfShare => stripped
      case Reading(root, pieces) => Render(root, Resolve([], pieces, !root.Relative?))
  }

  // ---------------------------------------------------------------------------
  // The scanner
  // ---------------------------------------------------------------------------

  lemma {:induction false} PiecesSkip(chars: string, i: nat, j: nat)
    requires i <= j <= |chars| && forall k :: i <= k < j ==> chars[k] in SEPARATORS
    ensures Pieces(chars[i..], SEPARATORS) == Pieces(chars[j..], SEPARATORS)
    decreases j - i
  {
    if i < j {
      assert chars[i..][1..] == chars[i + 1..];
      PiecesSkip(chars, i + 1, j);
    }
  }

  /** The next component from `idx` on, and where the scan goes on. */
  method TakeComponent(chars: string, idx: nat) returns (component: Option<string>, next: nat)
    requires idx <= |chars|
    ensures idx <= next <= |chars|
    ensures component.None? ==> Pieces(chars[idx..], SEPARATORS) == [] && next == |chars|
    ensures component.Some? ==>
              idx < next && IsPiece(component.value, SEPARATORS)
              && Pieces(chars[idx..], SEPARATORS) == [component.value] + Pieces(chars[next..], SEPARATORS)
  {
    var start := idx;
    while start < |chars| && chars[start] in SEPARATORS
      invariant idx <= start <= |chars| && forall k :: idx <= k < start ==> chars[k] in SEPARATORS
    {
      start := start + 1;
    }
    PiecesSkip(chars, idx, start);
    next := start;
    while next < |chars| && chars[next] !in SEPARATORS
      invariant start <= next <= |chars| && forall k :: start <= k < next ==> chars[k] !in SEPARATORS
    {
      next := next + 1;
    }
    if start == next {
      component := None;
    } else {
      var text := chars[start..next];
      assert chars[start..] == text + chars[next..];
      PiecesOfPiece(text, chars[next..], SEPARATORS);
      component := Some(text);
    }
  }

  /** The component stack, from `idx` on. */
  method StackComponents(chars: string, start: nat, absolute: bool) returns (components: seq<string>)
    requires start <= |chars|
    ensures components == Resolve([], Pieces(chars[start..], SEPARATORS), absolute)
  {
    components := [];
    var component, idx := TakeComponent(chars, start);
    while component.Some?
      invariant idx <= |chars|
      invariant component.None? ==> components == Resolve([], Pieces(chars[start..], SEPARATORS), absolute)
      invariant component.Some? ==>
                  Resolve(components, [component.value] + Pieces(chars[idx..], SEPARATORS), absolute)
                  == Resolve([], Pieces(chars[start..], SEPARATORS), absolute)
      decreases component.Some?, |chars| - idx
    {
      ghost var next := Stacked(components, component.value, absolute);
      if component.value == "." {
      } else if component.value == ".." {
        if components != [] && components[|components| - 1] != ".." {
          components := components[..|components| - 1];
        } else if !absolute {
          components := components + [".."];
        }
      } else {
        components := components + [component.value];
      }
      assert components == next;
      component, idx := TakeComponent(chars, idx);
    }
  }

  predicate IsRoot(root: Root) {
    root.Share? ==> IsPiece(root.server, SEPARATORS) && IsPiece(root.share, SEPARATORS)
  }

  /** The components of a reading are pieces between separators. */
  lemma ReadPieces(text: string)
    ensures Read(text).Reading? ==> IsRoot(Read(text).root) && forall p :: p in Read(text).pieces ==> IsPiece(p, SEPARATORS)
  {
    PiecesArePieces(text, SEPARATORS);
    if |text| >= 2 {
      PiecesArePieces(text[2..], SEPARATORS);
    }
  }

  method NormalizePath(input: string) returns (out: string)
    ensures out == Normalize(input)
  {
    var trimmed := Trim(input);
    if trimmed == "" {
      return "";
    }
    var chars := StripExtended(trimmed);
    var idx := 0;
    var prefix, absolute := "", false;
    ghost var root := Relative;
    assert chars[0..] == chars;
    if |chars| >= 2 && chars[1] == ':' && IsLetter(chars[0]) {
      prefix, idx, absolute, root := [Upper(chars[0])] + ":", 2, true, Drive(Upper(chars[0]));
    } else if |chars| >= 2 && chars[0] in SEPARATORS && chars[1] in SEPARATORS {
      var server, share;
      server, idx := TakeComponent(chars, 2);
      if server.None? {
        return chars;
      }
      share, idx := TakeComponent(chars, idx);
      if share.None? {
        return chars;
      }
      prefix, absolute, root := "\\\\" + server.value + "\\" + share.value, true, Share(server.value, share.value);
    } else if chars != "" && chars[0] in SEPARATORS {
      absolute, root := true, Rooted;
    }
    ReadPieces(chars);
    assert Read(chars) == Reading(root, Pieces(chars[idx..], SEPARATORS));
    var components := StackComponents(chars, idx, absolute);
    out := Rendered(prefix, absolute, components, root);
  }

  method Rendered(prefix: string, absolute: bool, components: seq<string>, ghost root: Root) returns (out: string)
    requires IsRoot(root) && absolute == !root.Relative?
    requires prefix == if root.Rooted? then "" else Prefix(root)
    ensures out == Render(root, components)
  {
    assert Prefix(root) + "/" + Join(components, '/') == Prefix(root) + ("/" + Join(components, '/'));
    out := prefix;
    if absolute && out == "" {
      out := "/";
    }
    if components != [] {
      if out != "" && out[|out| - 1] != '/' {
        out := out + "/";
      }
      out := out + Join(components, '/');
    }
    if out == "" {
      out := ".";
    }
  }
}
