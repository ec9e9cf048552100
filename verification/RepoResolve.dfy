/** Resolving a repository URL to a store, over any web of redirects. */
module RepoResolve {
  import opened Wrappers

  type Url = string

  const MAX_STORE_REDIRECTS := 10

  datatype RepoJson = RepoJson(indexV2: Option<Url>, name: string, shortName: Option<string>, fingerprint: string)

  datatype StoreData = StoreData(name: string, badge: string, key: string, listUrl: Option<Url>)

  /** A response body: its first character, and what each of the decoders makes of it. */
  datatype Body = Body(first: Option<char>, repoJson: Option<RepoJson>, storeJson: Option<StoreData>, storeProto: Option<StoreData>)

  /** What every URL serves, if anything. */
  type Web = Url -> Option<Body>

  datatype RepoStore = RepoStore(indexUrl: Url, name: string, badge: string, key: string, isLegacy: bool, listUrl: Option<Url>)

  datatype Error = TooManyRedirects | FetchFailed | BadPayload | EmptyPayload

  datatype Resolution = Store(store: RepoStore) | Legacy(repo: Option<RepoJson>)

  // ---------------------------------------------------------------------------
  // URLs
  // ---------------------------------------------------------------------------

  /** The last slash among the first `n` characters. */
  function LastSlash(url: Url, n: nat): (pos: Option<nat>)
    requires n <= |url|
    ensures pos.Some? ==> pos.value < n && url[pos.value] == '/' && forall i :: pos.value < i < n ==> url[i] != '/'
    ensures pos.None? ==> forall i :: 0 <= i < n ==> url[i] != '/'
  {
    if n == 0 then None
    else if url[n - 1] == '/' then Some(n - 1)
    else LastSlash(url, n - 1)
  }

  /** Everything before the final segment. */
  function RepoBase(url: Url): Url {
    match LastSlash(url, |url|)
    case Some(pos) => url[..pos]
    case None => url
  }

  const REPO_JSON := "/repo.json"

  function Sibling(url: Url): Url {
    RepoBase(url) + REPO_JSON
  }

  /** Where the extension list of a legacy store is looked for. */
  function ListBase(url: Url): Url {
    if |url| >= |REPO_JSON| && url[|url| - |REPO_JSON|..] == REPO_JSON
    then url[..|url| - |REPO_JSON|]
    else RepoBase(url)
  }

  lemma RepoJsonBase(base: Url)
    ensures RepoBase(base + REPO_JSON) == base && ListBase(base + REPO_JSON) == base
  {
    var url := base + REPO_JSON;
    assert url[|base|] == '/' && forall i :: |base| < i < |url| ==> url[i] != '/';
    assert LastSlash(url, |url|) == Some(|base|);
    assert url[|url| - |REPO_JSON|..] == REPO_JSON && url[..|base|] == base;
  }

  /** The list is looked for in the directory of the store, whichever of its files the store came from. */
  lemma ListIsBesideStore(url: Url)
    ensures ListBase(url) == RepoBase(url)
    ensures ListBase(Sibling(url)) == RepoBase(url) && Sibling(Sibling(url)) == Sibling(url)
  {
    var n := |REPO_JSON|;
    if |url| >= n && url[|url| - n..] == REPO_JSON {
      assert url == url[..|url| - n] + REPO_JSON;
      RepoJsonBase(url[..|url| - n]);
    }
    RepoJsonBase(RepoBase(url));
  }

  // ---------------------------------------------------------------------------
  // The fetch flow
  // ---------------------------------------------------------------------------

  function IntoStore(data: StoreData, url: Url): RepoStore {
    RepoStore(url, data.name, data.badge, data.key, false, data.listUrl)
  }

  /** The format is told by the first character. */
  function ParsePayload(url: Url, body: Body): Result<Resolution, Error> {
    match body.first
    case None => Err(EmptyPayload)
    case Some(c) =>
      if c == '[' then Ok(Legacy(None))
      else if c == '{' then
        if body.repoJson.Some? then Ok(Legacy(body.repoJson))
        else if body.storeJson.Some? then Ok(Store(IntoStore(body.storeJson.value, url)))
        else Err(BadPayload)
      else if body.storeProto.Some? then Ok(Store(IntoStore(body.storeProto.value, url)))
      else Err(BadPayload)
  }

  /** The outcome, and the URLs that were fetched for it. */
  datatype Fetched = Fetched(outcome: Result<RepoStore, Error>, requests: seq<Url>)

  function FetchStore(web: Web, url: Url, depth: nat): Fetched
    decreases MAX_STORE_REDIRECTS - depth, 1
  {
    if depth >= MAX_STORE_REDIRECTS then Fetched(Err(TooManyRedirects), [])
    else if web(url).None? then Fetched(Err(FetchFailed), [url])
    else
      match ParsePayload(url, web(url).value)
      case Err(e) => Fetched(Err(e), [url])
      case Ok(Store(store)) => Fetched(Ok(store), [url])
      case Ok(Legacy(repo)) =>
        var r := ResolveLegacy(web, url, repo, depth);
        Fetched(r.outcome, [url] + r.requests)
  }

  function SiblingJson(web: Web, url: Url): Option<RepoJson> {
    if web(Sibling(url)).Some? then web(Sibling(url)).value.repoJson else None
  }

  function Pointed(repo: Option<RepoJson>): Option<Url> {
    if repo.Some? && repo.value.indexV2.Some? && repo.value.indexV2.value != "" then repo.value.indexV2 else None
  }

  function LegacyStore(url: Url, repo: Option<RepoJson>): RepoStore {
    match repo
    case None => RepoStore(url, "", "", "", true, None)
    case Some(r) =>
      RepoStore(url, r.name, if r.shortName.Some? then r.shortName.value else "", r.fingerprint, true, None)
  }

  function ResolveLegacy(web: Web, url: Url, given: Option<RepoJson>, depth: nat): Fetched
    requires depth < MAX_STORE_REDIRECTS
    decreases MAX_STORE_REDIRECTS - depth, 0
  {
    var repo := if given.Some? then given else SiblingJson(web, url);
    var asked := if given.Some? then [] else [Sibling(url)];
    var own := LegacyStore(url, repo);
    match Pointed(repo)
    case None => Fetched(Ok(own), asked)
    case Some(v2) =>
      var r := FetchStore(web, v2, depth + 1);
      Fetched(if r.outcome.Ok? then r.outcome else Ok(own), asked + r.requests)
  }

  // ---------------------------------------------------------------------------
  // What a URL offers by itself
  // ---------------------------------------------------------------------------

  function Payload(web: Web, url: Url): Result<Resolution, Error> {
    if web(url).None? then Err(FetchFailed) else ParsePayload(url, web(url).value)
  }

  predicate Good(web: Web, url: Url) {
    Payload(web, url).Ok?
  }

  function Metadata(web: Web, url: Url): Option<RepoJson> {
    match Payload(web, url)
    case Ok(Legacy(repo)) => if repo.Some? then repo else SiblingJson(web, url)
    case _ => None
  }

  /** The `index_v2` link of a legacy index. */
  function NextUrl(web: Web, url: Url): Option<Url> {
    Pointed(Metadata(web, url))
  }

  function StoreAt(web: Web, url: Url): RepoStore
    requires Good(web, url)
  {
    match Payload(web, url)
    case Ok(Store(store)) => store
    case Ok(Legacy(_)) => LegacyStore(url, Metadata(web, url))
  }

  /** A store of the URL itself: what its metadata says, with the link unless that is empty. */
  predicate OffersLegacy(web: Web, url: Url, repo: Option<RepoJson>) {
    && Good(web, url)
    && var store := StoreAt(web, url);
    && store.indexUrl == url && store.isLegacy && store.listUrl == None
    && match repo
       case None => store.name == "" && store.badge == "" && store.key == "" && NextUrl(web, url) == None
       case Some(r) =>
         && store.name == r.name && store.key == r.fingerprint
         && (r.shortName.None? ==> store.badge == "")
         && (r.shortName.Some? ==> store.badge == r.shortName.value)
         && (r.indexV2.Some? && r.indexV2.value != "" ==> NextUrl(web, url) == r.indexV2)
         && (r.indexV2.None? || r.indexV2.value == "" ==> NextUrl(web, url) == None)
  }

  predicate OffersStore(web: Web, url: Url, data: StoreData) {
    && Good(web, url)
    && var store := StoreAt(web, url);
    && store.indexUrl == url && !store.isLegacy && store.listUrl == data.listUrl
    && store.name == data.name && store.badge == data.badge && store.key == data.key
    && NextUrl(web, url) == None
  }

  /**
   The first character decides who reads the body: of an array nothing is read, and its metadata is
   looked for beside it; an object is metadata, else a store; anything else is a binary store.
   */
  lemma NodeExactly(web: Web, url: Url)
    ensures web(url).None? ==> !Good(web, url)
    ensures web(url).Some? ==>
              var body := web(url).value;
              if body.first.None? then !Good(web, url)
              else if body.first.value == '[' then
                var sibling := web(RepoBase(url) + "/repo.json");
                OffersLegacy(web, url, if sibling.Some? then sibling.value.repoJson else None)
              else if body.first.value == '{' && body.repoJson.Some? then OffersLegacy(web, url, body.repoJson)
              else
                var data := if body.first.value == '{' then body.storeJson else body.storeProto;
                if data.Some? then OffersStore(web, url, data.value) else !Good(web, url)
  {
  }

  /** The base of a URL is what stands before its last slash. */
  lemma BaseExactly(base: Url, segment: string)
    requires '/' !in segment
    ensures RepoBase(base + "/" + segment) == base && RepoBase(segment) == segment
  {
    var url := base + "/" + segment;
    assert url[|base|] == '/' && forall i :: |base| < i < |url| ==> url[i] == segment[i - |base| - 1];
    assert LastSlash(url, |url|) == Some(|base|);
    assert url[..|base|] == base;
  }

  /** The requests that one URL costs. */
  function Cost(web: Web, url: Url): seq<Url> {
    [url] + (if Payload(web, url) == Ok(Legacy(None)) then [Sibling(url)] else [])
  }

  /** Follows the links from `url` over good nodes. */
  ghost predicate IsChain(web: Web, url: Url, path: seq<Url>) {
    && path != [] && path[0] == url
    && (forall i :: 0 <= i < |path| ==> Good(web, path[i]))
    && (forall i :: 0 <= i < |path| - 1 ==> NextUrl(web, path[i]) == Some(path[i + 1]))
  }

  /** A chain that cannot be followed further within `limit` nodes. */
  ghost predicate IsLongest(web: Web, url: Url, limit: nat, path: seq<Url>) {
    && IsChain(web, url, path) && |path| <= limit
    && var next := NextUrl(web, path[|path| - 1]);
       |path| == limit || next.None? || !Good(web, next.value)
  }

  /** The chain itself, and what following it requests: a link that leads nowhere is tried once. */
  function Chain(web: Web, url: Url, limit: nat): (path: seq<Url>)
    requires Good(web, url) && limit > 0
    ensures path != [] && Good(web, path[|path| - 1])
    decreases limit
  {
    var next := NextUrl(web, url);
    [url] + (if limit > 1 && next.Some? && Good(web, next.value) then Chain(web, next.value, limit - 1) else [])
  }

  function Requests(web: Web, url: Url, limit: nat): seq<Url>
    decreases limit
  {
    if limit == 0 then []
    else if !Good(web, url) then [url]
    else
      var next := NextUrl(web, url);
      Cost(web, url) + (if next.Some? then Requests(web, next.value, limit - 1) else [])
  }

  /** One level of the flow. */
  lemma GoodFetch(web: Web, url: Url, depth: nat)
    requires depth < MAX_STORE_REDIRECTS && Good(web, url)
    ensures
      var r := FetchStore(web, url, depth);
      match NextUrl(web, url)
      case None => r == Fetched(Ok(StoreAt(web, url)), Cost(web, url))
      case Some(v2) =>
        var s := FetchStore(web, v2, depth + 1);
        && r.outcome == (if s.outcome.Ok? then s.outcome else Ok(StoreAt(web, url)))
        && r.requests == Cost(web, url) + s.requests
  {
    if Payload(web, url).value.Legacy? {
      var given := Payload(web, url).value.repo;
      assert [url] + [] == [url];
      if NextUrl(web, url).Some? {
        var s := FetchStore(web, NextUrl(web, url).value, depth + 1);
      }
    }
  }

  predicate Succeeds(web: Web, url: Url, depth: nat, store: RepoStore) {
    FetchStore(web, url, depth).outcome == Ok(store)
  }

  lemma ResolvesHere(web: Web, url: Url, depth: nat)
    requires depth < MAX_STORE_REDIRECTS && Good(web, url)
    requires NextUrl(web, url).Some? ==> depth + 1 >= MAX_STORE_REDIRECTS || !Good(web, NextUrl(web, url).value)
    ensures Succeeds(web, url, depth, StoreAt(web, url))
  {
    GoodFetch(web, url, depth);
    if NextUrl(web, url).Some? {
      SucceedsExactly(web, NextUrl(web, url).value, depth + 1);
    }
  }

  function LastGood(web: Web, url: Url, limit: nat): (last: Url)
    requires Good(web, url) && limit > 0
    ensures Good(web, last)
    decreases limit
  {
    var next := NextUrl(web, url);
    if limit > 1 && next.Some? && Good(web, next.value) then LastGood(web, next.value, limit - 1) else url
  }

  lemma {:induction false} ChainEnds(web: Web, url: Url, limit: nat)
    requires Good(web, url) && limit > 0
    ensures Chain(web, url, limit)[|Chain(web, url, limit)| - 1] == LastGood(web, url, limit)
    decreases limit
  {
    var next := NextUrl(web, url);
    if limit > 1 && next.Some? && Good(web, next.value) {
      ChainEnds(web, next.value, limit - 1);
    }
  }

  lemma {:induction false} ResolvesToLastGood(web: Web, url: Url, depth: nat)
    requires depth < MAX_STORE_REDIRECTS && Good(web, url)
    ensures Succeeds(web, url, depth, StoreAt(web, LastGood(web, url, MAX_STORE_REDIRECTS - depth)))
    decreases MAX_STORE_REDIRECTS - depth
  {
    var next := NextUrl(web, url);
    if next.Some? && depth + 1 < MAX_STORE_REDIRECTS && Good(web, next.value) {
      ResolvesToLastGood(web, next.value, depth + 1);
    } else {
      ResolvesHere(web, url, depth);
    }
  }

  /** The result is the store of the last good node on the chain of links, within the limit. */
  lemma ResolvesToLast(web: Web, url: Url, depth: nat)
    requires depth < MAX_STORE_REDIRECTS && Good(web, url)
    ensures var path := Chain(web, url, MAX_STORE_REDIRECTS - depth);
            Succeeds(web, url, depth, StoreAt(web, path[|path| - 1]))
  {
    ResolvesToLastGood(web, url, depth);
    ChainEnds(web, url, MAX_STORE_REDIRECTS - depth);
  }

  predicate AsksFor(web: Web, url: Url, depth: nat, requests: seq<Url>) {
    FetchStore(web, url, depth).requests == requests
  }

  lemma AsksHere(web: Web, url: Url, depth: nat)
    requires depth < MAX_STORE_REDIRECTS
    ensures !Good(web, url) ==> AsksFor(web, url, depth, [url])
    ensures Good(web, url) && NextUrl(web, url).None? ==> AsksFor(web, url, depth, Cost(web, url))
  {
    if Good(web, url) {
      GoodFetch(web, url, depth);
    }
  }

  lemma AsksThere(web: Web, url: Url, next: Url, depth: nat, requests: seq<Url>)
    requires depth < MAX_STORE_REDIRECTS && Good(web, url) && NextUrl(web, url) == Some(next)
    requires AsksFor(web, next, depth + 1, requests)
    ensures AsksFor(web, url, depth, Cost(web, url) + requests)
  {
    GoodFetch(web, url, depth);
  }

  /** The requests are those of the nodes on the chain, and one more if it ends at a bad link. */
  lemma {:induction false} RequestsAlongChain(web: Web, url: Url, limit: nat)
    requires limit <= MAX_STORE_REDIRECTS
    ensures AsksFor(web, url, MAX_STORE_REDIRECTS - limit, Requests(web, url, limit))
    decreases limit
  {
    if limit > 0 {
      AsksHere(web, url, MAX_STORE_REDIRECTS - limit);
      var next := NextUrl(web, url);
      if Good(web, url) && next.Some? {
        RequestsAlongChain(web, next.value, limit - 1);
        AsksThere(web, url, next.value, MAX_STORE_REDIRECTS - limit, Requests(web, next.value, limit - 1));
      } else {
        assert Cost(web, url) + [] == Cost(web, url);
      }
    }
  }

  lemma {:induction false} ChainGood(web: Web, url: Url, limit: nat)
    requires Good(web, url) && limit > 0
    ensures IsLongest(web, url, limit, Chain(web, url, limit))
    decreases limit
  {
    var path, next := Chain(web, url, limit), NextUrl(web, url);
    if limit > 1 && next.Some? && Good(web, next.value) {
      ChainGood(web, next.value, limit - 1);
      var rest := Chain(web, next.value, limit - 1);
      forall i | 0 <= i < |path| - 1
        ensures NextUrl(web, path[i]) == Some(path[i + 1])
      {
        assert path[i + 1] == rest[i];
        if i > 0 {
          assert path[i] == rest[i - 1];
        }
      }
      assert path[|path| - 1] == rest[|rest| - 1];
    }
  }

  /** It is the only one, so the result does not depend on how the chain is found; cycles just run to the limit. */
  lemma {:induction false} ChainIsUnique(web: Web, url: Url, limit: nat, path: seq<Url>)
    requires IsLongest(web, url, limit, path)
    ensures Good(web, url) && limit > 0 && path == Chain(web, url, limit)
    decreases |path|
  {
    assert path == [url] + path[1..];
    if |path| > 1 {
      RestIsLongest(web, url, limit, path);
      ChainIsUnique(web, path[1], limit - 1, path[1..]);
    }
  }

  lemma RestIsLongest(web: Web, url: Url, limit: nat, path: seq<Url>)
    requires IsLongest(web, url, limit, path) && |path| > 1
    ensures NextUrl(web, url) == Some(path[1]) && Good(web, path[1])
    ensures limit > 1 && IsLongest(web, path[1], limit - 1, path[1..])
  {
    var rest := path[1..];
    assert NextUrl(web, path[0]) == Some(path[1]) && Good(web, path[1]);
    forall i | 0 <= i < |rest| - 1
      ensures NextUrl(web, rest[i]) == Some(rest[i + 1])
    {
      assert NextUrl(web, path[i + 1]) == Some(path[i + 2]);
    }
    assert rest[|rest| - 1] == path[|path| - 1];
  }

  /** Below the depth limit, resolution succeeds exactly when the URL itself serves a payload that parses. */
  lemma SucceedsExactly(web: Web, url: Url, depth: nat)
    ensures FetchStore(web, url, depth).outcome.Ok? <==> depth < 10 && Good(web, url)
  {
  }

  lemma {:induction false} RequestsBound(web: Web, url: Url, limit: nat)
    ensures |Requests(web, url, limit)| <= 2 * limit
    decreases limit
  {
    if limit > 0 && Good(web, url) && NextUrl(web, url).Some? {
      RequestsBound(web, NextUrl(web, url).value, limit - 1);
    }
  }

  /** Whatever the web looks like, a level costs at most two requests, and there are at most ten levels. */
  lemma RequestsAreBounded(web: Web, url: Url)
    ensures |FetchStore(web, url, 0).requests| <= 20
  {
    RequestsAlongChain(web, url, MAX_STORE_REDIRECTS);
    RequestsBound(web, url, MAX_STORE_REDIRECTS);
  }

  /** A link that leads back to its own node is followed to the limit and changes nothing. */
  lemma {:induction false} SelfLinkIsHarmless(web: Web, url: Url, depth: nat)
    requires depth < MAX_STORE_REDIRECTS && Good(web, url) && NextUrl(web, url) == Some(url)
    ensures FetchStore(web, url, depth).outcome == Ok(StoreAt(web, url))
    decreases MAX_STORE_REDIRECTS - depth
  {
    GoodFetch(web, url, depth);
    if depth + 1 < MAX_STORE_REDIRECTS {
      SelfLinkIsHarmless(web, url, depth + 1);
    }
  }
}
