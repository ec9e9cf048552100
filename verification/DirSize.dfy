/** Measuring a directory tree with a worklist, and the storage accounting built on it. */
module DirSize {
  /** What a path leads to; a link is what the platform resolves it to. */
  datatype Node =
    | File(size: nat)
    | Dir(entries: seq<Entry>)
    | Link(target: Node)
    | Opaque               // unreadable, or no file at all

  datatype Entry = Entry(name: string, node: Node)

  // ---------------------------------------------------------------------------
  // The recursive sum
  // ---------------------------------------------------------------------------

  /** The bytes of an entry: links inside a tree count nothing. */
  function Size(node: Node): nat {
    match node
    case File(size) => size
    case Dir(entries) => SizeAll(entries)
    case Link(_) => 0
    case Opaque => 0
  }

  function SizeAll(entries: seq<Entry>): nat {
    if entries == [] then 0 else Size(entries[0].node) + SizeAll(entries[1..])
  }

  /** What `read_dir` opens at a path: links are followed there. */
  function Opened(node: Node): seq<Entry> {
    match node
    case Dir(entries) => entries
    case Link(target) => Opened(target)
    case _ => []
  }

  // ---------------------------------------------------------------------------
  // The worklist
  // ---------------------------------------------------------------------------

  function Pending(stack: seq<Node>): nat {
    if stack == [] then 0 else Pending(stack[..|stack| - 1]) + SizeAll(Opened(stack[|stack| - 1]))
  }

  /** The number of directories that are still to be opened below a node. */
  function Dirs(node: Node): nat {
    match node
    case Dir(entries) => 1 + DirsAll(entries)
    case Link(target) => Dirs(target)
    case _ => 0
  }

  function DirsAll(entries: seq<Entry>): nat {
    if entries == [] then 0
    else (if entries[0].node.Dir? then Dirs(entries[0].node) else 0) + DirsAll(entries[1..])
  }

  function Weight(stack: seq<Node>): nat {
    if stack == [] then 0 else Weight(stack[..|stack| - 1]) + 1 + DirsAll(Opened(stack[|stack| - 1]))
  }

  /** The worklist: the sizes of the files it meets add up to the recursive sum. */
  method Measure(path: Node) returns (total: nat)
    ensures total == SizeAll(Opened(path))
  {
    var stack := [path];
    total := 0;
    assert [path][..0] == [];
    while stack != []
      invariant total + Pending(stack) == SizeAll(Opened(path))
      decreases Weight(stack)
    {
      var current := stack[|stack| - 1];
      ghost var before := stack;
      stack := stack[..|stack| - 1];
      var entries := Opened(current);
      ghost var base := Weight(stack);
      for i := 0 to |entries|
        invariant total + Pending(stack) + SizeAll(entries[i..]) == SizeAll(Opened(path))
        invariant Weight(stack) + DirsAll(entries[i..]) == base + DirsAll(entries)
      {
        var node := entries[i].node;
        assert entries[i..][1..] == entries[i + 1..] && entries[i..][0] == entries[i];
        if node.Dir? {
          assert (stack + [node])[..|stack|] == stack;
          stack := stack + [node];
        } else if node.File? {
          total := total + node.size;
        }
      }
      assert entries[|entries|..] == [];
    }
  }

  // ---------------------------------------------------------------------------
  // Storage usage
  // ---------------------------------------------------------------------------

  function Find(entries: seq<Entry>, name: string): Node {
    if entries == [] then Opaque
    else if entries[0].name == name then entries[0].node
    else Find(entries[1..], name)
  }

  predicate DistinctNames(entries: seq<Entry>) {
    forall i, j :: 0 <= i < j < |entries| ==> entries[i].name != entries[j].name
  }

  function SaturatingSub(a: nat, b: nat): nat {
    if a < b then 0 else a - b
  }

  datatype Usage = Usage(cache: nat, data: nat)

  /** `dataDir` holds the data cache in `cache` and the cache of the network client in `.httpcache`. */
  function CacheBytes(dataDir: Node): nat {
    SizeAll(Opened(Find(Opened(dataDir), "cache"))) + SizeAll(Opened(Find(Opened(dataDir), ".httpcache")))
  }

  method StorageUsage(dataDir: Node) returns (usage: Usage)
    ensures usage.cache == CacheBytes(dataDir)
    ensures usage.data == SaturatingSub(SizeAll(Opened(dataDir)), CacheBytes(dataDir))
  {
    var data := Measure(Find(Opened(dataDir), "cache"));
    var http := Measure(Find(Opened(dataDir), ".httpcache"));
    var total := Measure(dataDir);
    usage := Usage(data + http, SaturatingSub(total, data + http));
  }

  /** The entries that are neither cache. */
  function Others(entries: seq<Entry>): seq<Entry> {
    if entries == [] then []
    else
      (if entries[0].name == "cache" || entries[0].name == ".httpcache" then [] else [entries[0]]) + Others(entries[1..])
  }

  lemma {:induction false} SizeAllConcat(a: seq<Entry>, b: seq<Entry>)
    ensures SizeAll(a + b) == SizeAll(a) + SizeAll(b)
  {
    if a == [] {
      assert a + b == b;
    } else {
      assert (a + b)[1..] == a[1..] + b;
      SizeAllConcat(a[1..], b);
    }
  }

  lemma {:induction false} FindAbsent(entries: seq<Entry>, name: string)
    requires forall e :: e in entries ==> e.name != name
    ensures Find(entries, name) == Opaque
  {
    if entries != [] {
      assert entries[0] in entries;
      FindAbsent(entries[1..], name);
    }
  }

  /** With distinct names, the tree splits into the two caches and the rest. */
  lemma {:induction false} TotalSplits(entries: seq<Entry>)
    requires DistinctNames(entries)
    ensures SizeAll(entries) ==
            Size(Find(entries, "cache")) + Size(Find(entries, ".httpcache")) + SizeAll(Others(entries))
  {
    if entries != [] {
      var first, rest := entries[0], entries[1..];
      forall e | e in rest
        ensures e.name != first.name
      {
        var i :| 0 <= i < |rest| && rest[i] == e;
        assert entries[i + 1] == e;
      }
      FindAbsent(rest, first.name);
      TotalSplits(rest);
      assert |"cache"| != |".httpcache"|;
      SizeAllConcat([first], Others(rest));
      assert [first][1..] == [];
      assert SizeAll([first]) == Size(first.node);
      assert [] + Others(rest) == Others(rest);
      assert SizeAll(entries) == Size(first.node) + SizeAll(rest);
    }
  }

  /** What is measured at a cache path but lies outside the tree: the cache is a link. */
  function Outside(node: Node): nat {
    if node.Link? then SizeAll(Opened(node)) else 0
  }

  /** What lies in the tree but is not measured at a cache path: a plain file has its name. */
  function Stray(node: Node): nat {
    if node.File? then node.size else 0
  }

  /**
   `cache` and `data` add up to the measured total exactly when the caches hold no more bytes
   outside the data directory, behind links, than it holds beside them. If neither is a link,
   `data` is exactly what lies beside the caches: nothing saturates and nothing counts twice.
   It is nothing exactly when the caches hold as much as the whole or more.
   */
  lemma UsageIsConserved(dataDir: Node, usage: Usage)
    requires DistinctNames(Opened(dataDir))
    requires usage == Usage(CacheBytes(dataDir), SaturatingSub(SizeAll(Opened(dataDir)), CacheBytes(dataDir)))
    ensures
      var cache, http := Find(Opened(dataDir), "cache"), Find(Opened(dataDir), ".httpcache");
      var beside := SizeAll(Others(Opened(dataDir))) + Stray(cache) + Stray(http);
      && (usage.cache + usage.data == SizeAll(Opened(dataDir)) <==> Outside(cache) + Outside(http) <= beside)
      && (!cache.Link? && !http.Link? ==> usage.data == beside)
      && (usage.data == 0 <==> SizeAll(Opened(dataDir)) <= usage.cache)
  {
    TotalSplits(Opened(dataDir));
  }

  /** A data directory that holds only a link to a cache elsewhere reports more than its total. */
  lemma LinkedCacheSaturates(size: nat)
    requires size > 0
    ensures
      var dataDir := Dir([Entry("cache", Link(Dir([Entry("entry", File(size))])))]);
      && SizeAll(Opened(dataDir)) == 0
      && CacheBytes(dataDir) == size
      && SaturatingSub(SizeAll(Opened(dataDir)), CacheBytes(dataDir)) + CacheBytes(dataDir) != SizeAll(Opened(dataDir))
  {
    var elsewhere := [Entry("entry", File(size))];
    var entries := [Entry("cache", Link(Dir(elsewhere)))];
    assert elsewhere[1..] == [] && entries[1..] == [];
    assert SizeAll(elsewhere) == size && SizeAll(entries) == 0;
    assert |"cache"| != |".httpcache"|;
    assert Opened(Dir(entries)) == entries && Opened(Link(Dir(elsewhere))) == elsewhere;
    assert Find(entries[1..], ".httpcache") == Opaque;
    assert Find(entries, "cache") == Link(Dir(elsewhere)) && Find(entries, ".httpcache") == Opaque;
  }
}
