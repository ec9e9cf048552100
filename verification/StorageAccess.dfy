/** Access checks for files: which accesses prompt, over whole histories of grants. */
module StorageAccess {
  import opened Wrappers
  import opened Text
  import opened UnixPaths
  import opened PathNormalize
  import opened PathWalk
  import opened Permissions

  predicate IsName(name: string) {
    IsPiece(name, {'/'}) && name != "." && name != ".."
  }

  /** `RootDir` and `CurDir` stand only in front. */
  predicate WellFormed(path: seq<Component>) {
    forall i :: 0 <= i < |path| ==>
      match path[i]
      case RootDir => i == 0
      case CurDir => i == 0
      case ParentDir => true
      case Normal(name) => IsName(name)
  }

  type Path = path: seq<Component> | WellFormed(path)

  function ComponentText(component: Component): string {
    match component
    case RootDir => ""
    case CurDir => "."
    case ParentDir => ".."
    case Normal(name) => name
  }

  function ComponentTexts(path: seq<Component>): seq<string> {
    if path == [] then [] else [ComponentText(path[0])] + ComponentTexts(path[1..])
  }

  function PathString(path: Path): string {
    if path != [] && path[0] == RootDir then "/" + Join(ComponentTexts(path[1..]), '/') else Join(ComponentTexts(path), '/')
  }

  lemma WellFormedRest(path: seq<Component>)
    requires WellFormed(path) && RootDir !in path && path != []
    ensures IsPiece(ComponentText(path[0]), {'/'}) && (path[0].Normal? ==> IsName(path[0].name))
    ensures WellFormed(path[1..]) && RootDir !in path[1..] && (path[1..] != [] ==> path[1] != CurDir)
  {
    assert path[0] in path;
    forall i | 0 <= i < |path| - 1
      ensures path[1..][i] == path[i + 1]
    {
    }
  }

  lemma {:induction false} TextsSplit(path: seq<Component>)
    requires WellFormed(path) && RootDir !in path
    ensures |ComponentTexts(path)| == |path|
    ensures forall t :: t in ComponentTexts(path) ==> IsPiece(t, {'/'})
    ensures NormalComponents(ComponentTexts(path)) == if path != [] && path[0] == CurDir then path[1..] else path
  {
    if path != [] {
      var rest := path[1..];
      WellFormedRest(path);
      TextsSplit(rest);
      assert rest != [] ==> rest[0] == path[1];
      assert ComponentTexts(path)[1..] == ComponentTexts(rest) && ComponentTexts(path)[0] == ComponentText(path[0]);
      assert path == [path[0]] + rest;
    }
  }

  lemma UnrootedSplits(path: Path)
    requires path == [] || path[0] != RootDir
    ensures Components(Join(ComponentTexts(path), '/')) == path
  {
    TextsSplit(path);
    PiecesOfJoin(ComponentTexts(path), '/', {'/'});
    if path != [] {
      var first := ComponentTexts(path)[0];
      assert first in ComponentTexts(path) && first[0] in first;
      assert Join(ComponentTexts(path), '/')[0] == first[0];
    }
  }

  lemma RootedSplits(path: Path)
    requires path != [] && path[0] == RootDir
    ensures Components("/" + Join(ComponentTexts(path[1..]), '/')) == path
  {
    var rest := path[1..];
    forall i | 0 <= i < |rest|
      ensures rest[i] == path[i + 1] != RootDir
    {
    }
    TextsSplit(rest);
    PiecesOfJoin(ComponentTexts(rest), '/', {'/'});
    assert ("/" + Join(ComponentTexts(rest), '/'))[1..] == Join(ComponentTexts(rest), '/');
    assert path == [RootDir] + rest;
    assert rest != [] ==> rest[0] == path[1];
  }

  /** A path's text splits into the path again. */
  lemma PathStringSplits(path: Path)
    ensures Components(PathString(path)) == path
    ensures PathString(path) == "" <==> path == []
  {
    if path != [] && path[0] == RootDir {
      RootedSplits(path);
    } else {
      UnrootedSplits(path);
    }
  }

  lemma {:induction false} NormalWellFormed(pieces: seq<string>)
    requires forall p :: p in pieces ==> IsPiece(p, {'/'})
    ensures forall c :: c in NormalComponents(pieces) ==> c == ParentDir || (c.Normal? && IsName(c.name))
  {
    if pieces != [] {
      assert pieces[0] in pieces && forall p :: p in pieces[1..] ==> p in pieces;
      NormalWellFormed(pieces[1..]);
    }
  }

  lemma FrontOnly(text: string)
    requires forall c :: c in NormalComponents(Pieces(text, {'/'})) ==> c == ParentDir || (c.Normal? && IsName(c.name))
    ensures WellFormed(Components(text))
  {
    var path, rest := Components(text), NormalComponents(Pieces(text, {'/'}));
    var head := |path| - |rest|;
    forall i | 0 <= i < |path|
      ensures i == 0 || path[i] == ParentDir || (path[i].Normal? && IsName(path[i].name))
      ensures path[i] == ParentDir || path[i].Normal? || i < head
      ensures path[i].Normal? ==> IsName(path[i].name)
    {
      if i >= head {
        assert path[i] == rest[i - head];
      }
    }
  }

  function PathOf(text: string): (path: Path)
    ensures path == Components(text)
  {
    PiecesArePieces(text, {'/'});
    NormalWellFormed(Pieces(text, {'/'}));
    FrontOnly(text);
    Components(text)
  }

  // ---------------------------------------------------------------------------
  // The checked target
  // ---------------------------------------------------------------------------

  datatype AccessError = ContentUri | EmptyPath | Denied | PromptFailed

  function PreparePath(raw: string): Result<Path, AccessError> {
    if "content://" <= Trim(raw) then Err(ContentUri)
    else if Components(Normalize(raw)) == [] || Components(Normalize(raw)) == [CurDir] then Err(EmptyPath)
    else Ok(PathOf(Normalize(raw)))
  }

  function Parent(path: Path): Option<Path> {
    if path == [] || path[|path| - 1] == RootDir then None else Some(path[..|path| - 1])
  }

  function FileName(path: Path): Option<string> {
    if path != [] && path[|path| - 1].Normal? then Some(path[|path| - 1].name) else None
  }

  /** Symbolic links are followed as far as the target, or else its parent, exists; `canonical` is the platform's answer. */
  function ResolveForAccess(target: Path, canonical: Path -> Option<Path>): Path {
    if canonical(target).Some? then canonical(target).value
    else if FileName(target).Some? && canonical(target[..|target| - 1]).Some? then
      canonical(target[..|target| - 1]).value + [Normal(FileName(target).value)]
    else target
  }

  /** Operations on a directory ask for it, those on a file for the directory it is in. */
  function PermissionRoot(target: Path, dirTarget: bool): Path {
    if dirTarget then target
    else
      match Parent(target)
      case Some(parent) => parent
      case None => target
  }

  function Wanted(target: Path, write: bool, dirTarget: bool): Permission {
    Storage(PathString(PermissionRoot(target, dirTarget)), write)
  }

  /** An access to a resolved target, and what the user would say. */
  datatype Access = Access(target: Path, write: bool, dirTarget: bool, reply: Reply)

  function Root(a: Access): Path {
    PermissionRoot(a.target, a.dirTarget)
  }

  predicate Prompts(permissions: seq<Permission>, dataDir: Path, a: Access) {
    !(dataDir <= a.target) && !Covers(permissions, Wanted(a.target, a.write, a.dirTarget))
  }

  function Outcome(permissions: seq<Permission>, dataDir: Path, a: Access): Result<Path, AccessError> {
    if !Prompts(permissions, dataDir, a) then Ok(a.target)
    else
      match a.reply
      case Failed => Err(PromptFailed)
      case Answered(granted) => if granted then Ok(a.target) else Err(Denied)
  }

  function After(permissions: seq<Permission>, dataDir: Path, a: Access): seq<Permission> {
    if Prompts(permissions, dataDir, a) && a.reply == Answered(true)
    then Granting(permissions, Wanted(a.target, a.write, a.dirTarget))
    else permissions
  }

  method EnsureAccess(
    store: PermissionStore, dataDir: Path, raw: string, write: bool, dirTarget: bool,
    canonical: Path -> Option<Path>, reply: Reply
  ) returns (r: Result<Path, AccessError>)
    modifies store
    ensures
      match PreparePath(raw)
      case Err(e) => r == Err(e) && store.permissions == old(store.permissions)
      case Ok(path) =>
        var a := Access(ResolveForAccess(path, canonical), write, dirTarget, reply);
        && r == Outcome(old(store.permissions), dataDir, a)
        && store.permissions == After(old(store.permissions), dataDir, a)
  {
    var prepared := PreparePath(raw);
    if prepared.Err? {
      return Err(prepared.error);
    }
    var resolved := ResolveForAccess(prepared.value, canonical);
    if dataDir <= resolved {
      return Ok(resolved);
    }
    var permission := Wanted(resolved, write, dirTarget);
    if store.HasPermission(permission) {
      return Ok(resolved);
    }
    match reply {
      case Failed => return Err(PromptFailed);
      case Answered(granted) =>
        if !granted {
          return Err(Denied);
        }
    }
    store.Grant(permission);
    r := Ok(resolved);
  }

  // ---------------------------------------------------------------------------
  // Histories
  // ---------------------------------------------------------------------------

  /** A grant covers the tree below its root, at the same or a weaker level; the empty root covers nothing. */
  lemma GrantCoversTree(root: Path, write: bool, asked: Path, askedWrite: bool)
    ensures Storage(PathString(root), write).Allows(Storage(PathString(asked), askedWrite))
            <==> root != [] && root <= asked && (write || !askedWrite)
  {
    PathStringSplits(root);
    PathStringSplits(asked);
  }

  /**
   As long as no symbolic link is met, `..` leads out of no granted tree and around no grant:
   a rooted path is covered exactly if walking it ends below where walking the granted one does.
   */
  lemma DotsCannotEscape(granted: string, write: bool, asked: string, askedWrite: bool)
    requires Understood(granted).Reading? && Understood(granted).root == Rooted
    requires Understood(asked).Reading? && Understood(asked).root == Rooted
    ensures Storage(PathString(PathOf(Normalize(granted))), write).Allows(
              Storage(PathString(PathOf(Normalize(asked))), askedWrite))
            <==> Walk([], Understood(granted).pieces) <= Walk([], Understood(asked).pieces) && (write || !askedWrite)
  {
    GrantCoversTree(PathOf(Normalize(granted)), write, PathOf(Normalize(asked)), askedWrite);
    UnderMeansBelow(asked, granted);
    RootedMeaning(granted);
  }

  function AfterAll(dataDir: Path, history: seq<Access>): seq<Permission> {
    if history == [] then []
    else After(AfterAll(dataDir, history[..|history| - 1]), dataDir, history[|history| - 1])
  }

  /** The `i`-th access prompted and was granted. */
  predicate GrantedAt(dataDir: Path, history: seq<Access>, i: nat) {
    i < |history| && Prompts(AfterAll(dataDir, history[..i]), dataDir, history[i]) && history[i].reply == Answered(true)
  }

  /** What was granted in access `i` answers `a`. */
  predicate Answers(dataDir: Path, history: seq<Access>, i: nat, a: Access) {
    && GrantedAt(dataDir, history, i)
    && Root(history[i]) != [] && Root(history[i]) <= Root(a)
    && (history[i].write || !a.write)
  }

  /** What one access adds to what is covered. */
  lemma CoveredAfter(permissions: seq<Permission>, dataDir: Path, last: Access, a: Access)
    ensures Covers(After(permissions, dataDir, last), Wanted(a.target, a.write, a.dirTarget))
            <==> Covers(permissions, Wanted(a.target, a.write, a.dirTarget))
                 || (Prompts(permissions, dataDir, last) && last.reply == Answered(true)
                     && Root(last) != [] && Root(last) <= Root(a) && (last.write || !a.write))
  {
    var wanted, asked := Wanted(last.target, last.write, last.dirTarget), Wanted(a.target, a.write, a.dirTarget);
    GrantCoversTree(Root(last), last.write, Root(a), a.write);
    GrantingSpec(permissions, wanted, asked);
  }

  predicate AnsweredBefore(dataDir: Path, history: seq<Access>, n: nat, a: Access) {
    n <= |history| && exists i :: 0 <= i < n && Answers(dataDir, history, i, a)
  }

  predicate CoveredAt(dataDir: Path, history: seq<Access>, n: nat, a: Access) {
    n <= |history| && Covers(AfterAll(dataDir, history[..n]), Wanted(a.target, a.write, a.dirTarget))
  }

  lemma CoveredStep(dataDir: Path, history: seq<Access>, n: nat, a: Access)
    requires n < |history|
    ensures CoveredAt(dataDir, history, n + 1, a) <==>
            CoveredAt(dataDir, history, n, a) || Answers(dataDir, history, n, a)
  {
    assert history[..n + 1][..n] == history[..n] && history[..n + 1][n] == history[n];
    CoveredAfter(AfterAll(dataDir, history[..n]), dataDir, history[n], a);
  }

  lemma {:induction false} CoveredExactly(dataDir: Path, history: seq<Access>, n: nat, a: Access)
    requires n <= |history|
    ensures CoveredAt(dataDir, history, n, a) <==> AnsweredBefore(dataDir, history, n, a)
  {
    if n > 0 {
      CoveredExactly(dataDir, history, n - 1, a);
      StillExactly(dataDir, history, n, a);
    }
  }

  lemma StillExactly(dataDir: Path, history: seq<Access>, n: nat, a: Access)
    requires 0 < n <= |history|
    requires CoveredAt(dataDir, history, n - 1, a) <==> AnsweredBefore(dataDir, history, n - 1, a)
    ensures CoveredAt(dataDir, history, n, a) <==> AnsweredBefore(dataDir, history, n, a)
  {
    CoveredStep(dataDir, history, n - 1, a);
    OneMoreAnswer(dataDir, history, n, a);
  }

  lemma OneMoreAnswer(dataDir: Path, history: seq<Access>, n: nat, a: Access)
    requires 0 < n <= |history|
    ensures AnsweredBefore(dataDir, history, n, a) <==>
            AnsweredBefore(dataDir, history, n - 1, a) || Answers(dataDir, history, n - 1, a)
  {
  }

  /**
   After any history of accesses, the next one prompts exactly when it leaves the data
   directory and no earlier prompt was granted for a root above it, at its level or for writing.
   */
  lemma PromptsExactly(dataDir: Path, history: seq<Access>, a: Access)
    ensures Prompts(AfterAll(dataDir, history), dataDir, a) <==>
            !(dataDir <= a.target) && !AnsweredBefore(dataDir, history, |history|, a)
  {
    CoveredExactly(dataDir, history, |history|, a);
    assert history[..|history|] == history;
  }

  /** No stored permission is covered by an earlier one, and only grants for the empty root are stored again. */
  lemma {:induction false} HistoryIrredundant(dataDir: Path, history: seq<Access>)
    ensures Irredundant(AfterAll(dataDir, history))
    ensures var stored := AfterAll(dataDir, history);
            forall i, j :: 0 <= i < j < |stored| && stored[i] == stored[j] ==> stored[i].Storage? && stored[i].path == ""
  {
    var stored := AfterAll(dataDir, history);
    if history != [] {
      var n := |history| - 1;
      HistoryIrredundant(dataDir, history[..n]);
      var wanted := Wanted(history[n].target, history[n].write, history[n].dirTarget);
      GrantingSpec(AfterAll(dataDir, history[..n]), wanted, wanted);
    }
    forall i, j | 0 <= i < j < |stored| && stored[i] == stored[j]
      ensures stored[i].Storage? && stored[i].path == ""
    {
      OnlyEmptyPathsRepeat(stored, i, j);
    }
  }

  /**
   A granted prompt is remembered exactly when its root is not empty: a file named by a bare
   relative name that does not exist yet has the empty root and prompts every time.
   */
  lemma GrantedIsRemembered(dataDir: Path, history: seq<Access>, a: Access, again: Reply)
    requires Prompts(AfterAll(dataDir, history), dataDir, a) && a.reply == Answered(true)
    ensures Prompts(AfterAll(dataDir, history + [a]), dataDir, a.(reply := again)) <==> Root(a) == []
    ensures Root(a) == [] <==> a.target == [] || (!a.dirTarget && |a.target| == 1 && a.target[0] != RootDir)
  {
    assert (history + [a])[..|history|] == history;
    GrantIsRemembered(AfterAll(dataDir, history), dataDir, a);
  }

  lemma GrantIsRemembered(permissions: seq<Permission>, dataDir: Path, a: Access)
    requires Prompts(permissions, dataDir, a) && a.reply == Answered(true)
    ensures Covers(After(permissions, dataDir, a), Wanted(a.target, a.write, a.dirTarget)) <==> Root(a) != []
  {
    var wanted := Wanted(a.target, a.write, a.dirTarget);
    GrantCoversTree(Root(a), a.write, Root(a), a.write);
    GrantingSpec(permissions, wanted, wanted);
  }

  // ---------------------------------------------------------------------------
  // From the raw text to the answer
  // ---------------------------------------------------------------------------

  /**
   A raw path is rejected exactly if it is a content URI, blank, or relative and leads nowhere;
   what is left is its normal form below its root.
   */
  lemma PrepareExactly(raw: string)
    ensures PreparePath(raw) == Err(ContentUri) <==> "content://" <= Trim(raw)
    ensures Trim(raw) == "" ==> PreparePath(raw) == Err(EmptyPath)
    ensures !("content://" <= Trim(raw)) && Trim(raw) != "" && Understood(raw).Reading? ==>
              PreparePath(raw) ==
                if Understood(raw).root.Relative? && NormalForm(raw) == [] then Err(EmptyPath)
                else Ok(Seen(Understood(raw).root, NormalForm(raw)))
  {
    if Trim(raw) == "" {
      assert Pieces("", {'/'}) == [] && Components("") == [];
    } else if Understood(raw).Reading? {
      NormalizeKeepsMeaning(raw);
      SeenNowhere(Understood(raw).root, NormalForm(raw));
    }
  }

  lemma SeenNowhere(root: PathNormalize.Root, components: seq<string>)
    requires Tidy(components, !root.Relative?)
    ensures Seen(root, components) != []
    ensures Seen(root, components) == [CurDir] <==> root.Relative? && components == []
  {
    NamedExactly(components, !root.Relative?);
    if components != [] && root.Relative? {
      assert Seen(root, components)[0] == NormalComponents(components)[0];
    }
    assert !root.Relative? ==> Seen(root, components)[0] != CurDir;
  }

  /** Operations on a directory ask for it, those on a file for the directory around it, if there is one. */
  lemma RootExactly(a: Access)
    ensures Root(a) <= a.target
    ensures |a.target| - |Root(a)| ==
            if a.dirTarget || a.target == [] || a.target[|a.target| - 1] == RootDir then 0 else 1
  {
  }

  /** Some stored permission is for a directory at or above `root`, at this level or for writing. */
  predicate GrantedAbove(permissions: seq<Permission>, root: Path, write: bool) {
    exists p :: p in permissions && p.Storage? && p.path != "" && Components(p.path) <= root && (p.write || !write)
  }

  lemma CoversExactly(permissions: seq<Permission>, root: Path, write: bool)
    ensures Covers(permissions, Storage(PathString(root), write)) <==> GrantedAbove(permissions, root, write)
  {
    PathStringSplits(root);
    if Covers(permissions, Storage(PathString(root), write)) {
      var p :| p in permissions && p.Allows(Storage(PathString(root), write));
      KindsStayApart(p, Storage(PathString(root), write));
    }
    if GrantedAbove(permissions, root, write) {
      var p :| p in permissions && p.Storage? && p.path != "" && Components(p.path) <= root && (p.write || !write);
      assert p.Allows(Storage(PathString(root), write));
    }
  }

  /**
   An access passes unasked exactly if its target is in the data directory or a stored grant is
   at or above its root; else the user decides, and only a yes is stored.
   */
  lemma AnswerExactly(permissions: seq<Permission>, dataDir: Path, a: Access)
    ensures var free := dataDir <= a.target || GrantedAbove(permissions, Root(a), a.write);
            && (Prompts(permissions, dataDir, a) <==> !free)
            && Outcome(permissions, dataDir, a) ==
               (if free || a.reply == Answered(true) then Ok(a.target)
                else if a.reply == Failed then Err(PromptFailed)
                else Err(Denied))
            && (free || a.reply != Answered(true) ==> After(permissions, dataDir, a) == permissions)
            && (!free && a.reply == Answered(true) ==>
                  After(permissions, dataDir, a) == permissions + [Storage(PathString(Root(a)), a.write)])
  {
    CoversExactly(permissions, Root(a), a.write);
  }

  /**
   Links are followed before anything is judged: to where the path leads if it exists, else to
   where its directory leads; only a path of which neither exists is judged as written.
   */
  lemma LinksAreFollowed(path: Path, canonical: Path -> Option<Path>)
    ensures canonical(path).Some? ==> ResolveForAccess(path, canonical) == canonical(path).value
    ensures canonical(path).None? && path != [] && path[|path| - 1].Normal? ==>
              ResolveForAccess(path, canonical) ==
                match canonical(path[..|path| - 1])
                case Some(directory) => directory + [path[|path| - 1]]
                case None => path
    ensures canonical(path).None? && (path == [] || !path[|path| - 1].Normal?) ==> ResolveForAccess(path, canonical) == path
  {
  }

  /**
   No link leads out of the data directory or a granted tree unasked: an access to a path that
   really is elsewhere, where nothing is granted, fails unless the user agrees.
   */
  lemma LinkCannotEscape(permissions: seq<Permission>, dataDir: Path, path: Path, canonical: Path -> Option<Path>,
                         write: bool, dirTarget: bool, reply: Reply)
    requires canonical(path).Some? && !(dataDir <= canonical(path).value)
    requires !GrantedAbove(permissions, PermissionRoot(canonical(path).value, dirTarget), write)
    ensures var a := Access(ResolveForAccess(path, canonical), write, dirTarget, reply);
            && Prompts(permissions, dataDir, a)
            && (Outcome(permissions, dataDir, a).Ok? <==> reply == Answered(true))
            && (Outcome(permissions, dataDir, a).Ok? ==> Outcome(permissions, dataDir, a).value == canonical(path).value)
  {
    AnswerExactly(permissions, dataDir, Access(ResolveForAccess(path, canonical), write, dirTarget, reply));
  }

  // ---------------------------------------------------------------------------
  // A grant that is not remembered
  // ---------------------------------------------------------------------------

  /** A file name that is taken as it stands: one component, no drive, no blanks around it. */
  predicate IsPlainName(name: string) {
    && IsName(name) && IsPiece(name, SEPARATORS) && NoEdgeSpace(name)
    && !(|name| >= 2 && name[1] == ':')
  }

  lemma PlainNameReads(name: string)
    requires IsPlainName(name)
    ensures Trim(name) == name && StripExtended(name) == name && Read(name) == Reading(Relative, [name])
    ensures Components(name) == [Normal(name)]
  {
    TrimEdges(name);
    assert name[0] in name;
    assert name + "" == name;
    PiecesOfPiece(name, "", SEPARATORS);
    PiecesOfPiece(name, "", {'/'});
    assert [name][1..] == [] && NormalComponents([]) == [];
    assert NormalComponents([name]) == [Normal(name)];
  }

  lemma PlainNameStays(name: string)
    requires IsPlainName(name)
    ensures Normalize(name) == name
  {
    PlainNameReads(name);
    assert [name][1..] == [] && [] + [name] == [name];
    assert Resolve([name], [], false) == [name];
    assert Resolve([], [name], false) == [name];
  }

  lemma ContentUriHasSlash(name: string)
    ensures "content://" <= name ==> '/' in name
  {
    if "content://" <= name {
      assert "content://"[8] == '/';
      assert name[8] == '/';
    }
  }

  lemma PlainNamePrepares(name: string)
    requires IsPlainName(name)
    ensures PreparePath(name) == Ok([Normal(name)])
  {
    PlainNameReads(name);
    PlainNameStays(name);
    ContentUriHasSlash(name);
  }

  /** A new file given by its name alone has the empty root: writing it twice prompts twice. */
  lemma BareNamePromptsAgain(name: string, dataDir: Path, canonical: Path -> Option<Path>)
    requires IsPlainName(name) && dataDir != [] && dataDir[0] == RootDir
    requires canonical([Normal(name)]) == None && canonical([]) == None
    ensures PreparePath(name) == Ok([Normal(name)]) && ResolveForAccess([Normal(name)], canonical) == [Normal(name)]
    ensures var a := Access([Normal(name)], true, false, Answered(true));
            && Prompts(AfterAll(dataDir, []), dataDir, a)
            && Outcome(AfterAll(dataDir, []), dataDir, a) == Ok(a.target)
            && Prompts(AfterAll(dataDir, [a]), dataDir, a)
  {
    PlainNamePrepares(name);
    var a := Access([Normal(name)], true, false, Answered(true));
    assert [Normal(name)][..0] == [];
    EmptyRootPrompts(dataDir, a);
  }

  lemma EmptyRootPrompts(dataDir: Path, a: Access)
    requires Root(a) == [] && !(dataDir <= a.target) && a.reply == Answered(true)
    ensures Prompts(AfterAll(dataDir, []), dataDir, a) && Prompts(AfterAll(dataDir, [a]), dataDir, a)
  {
    PathStringSplits([]);
  }

  const NEW_FILE := "new.txt"

  lemma NewFileIsPlain()
    ensures IsPlainName(NEW_FILE)
  {
    assert NEW_FILE[0] == 'n' && NEW_FILE[1] == 'e' && NEW_FILE[2] == 'w' && NEW_FILE[3] == '.';
    assert NEW_FILE[4] == 't' && NEW_FILE[5] == 'x' && NEW_FILE[6] == 't';
  }

  /** For one: `new.txt`, wherever the data directory is. */
  lemma NewFilePromptsAgain(dataDir: Path, canonical: Path -> Option<Path>)
    requires dataDir != [] && dataDir[0] == RootDir
    requires canonical([Normal(NEW_FILE)]) == None && canonical([]) == None
    ensures PreparePath(NEW_FILE) == Ok([Normal(NEW_FILE)])
    ensures ResolveForAccess([Normal(NEW_FILE)], canonical) == [Normal(NEW_FILE)]
    ensures var a := Access([Normal(NEW_FILE)], true, false, Answered(true));
            Prompts(AfterAll(dataDir, []), dataDir, a) && Prompts(AfterAll(dataDir, [a]), dataDir, a)
  {
    NewFileIsPlain();
    BareNamePromptsAgain(NEW_FILE, dataDir, canonical);
  }
}
