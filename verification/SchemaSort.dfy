/** The depth-first sort of exported types, and the names it cuts dependency cycles at. */
module SchemaSort {
  import opened SchemaTypes

  type Types = map<Name, Item>

  /** In which order the dependencies of each name come out of the hash set. */
  type Order = Name -> seq<Name>

  ghost predicate IsOrder(types: Types, order: Order) {
    forall n, d :: n in types ==> (d in order(n) <==> d in ItemDeps(types[n]))
  }

  /** Where the sort stands: all but `visiting` is what it has found so far. */
  datatype Dfs = Dfs(visited: set<Name>, visiting: set<Name>, sorted: seq<Name>, recursive: set<Name>)

  function Unseen(types: Types, st: Dfs): set<Name> {
    types.Keys - st.visited - st.visiting
  }

  function Visit(types: Types, order: Order, name: Name, st: Dfs): (r: Dfs)
    ensures r.visiting == st.visiting
    ensures st.visited <= r.visited && st.recursive <= r.recursive && st.sorted <= r.sorted
    ensures name in r.visited || (name in st.visiting && name in r.recursive)
    decreases |Unseen(types, st)|, 0, 0
  {
    if name in st.visited then st
    else if name in st.visiting then st.(recursive := st.recursive + {name})
    else
      var inside := st.(visiting := st.visiting + {name});
      var below :=
        if name in types then
          assert Unseen(types, inside) == Unseen(types, st) - {name};
          VisitAll(types, order, order(name), inside)
        else inside;
      Dfs(below.visited + {name}, below.visiting - {name}, below.sorted + [name], below.recursive)
  }

  /** Visits those of `names` that are exported. */
  function VisitAll(types: Types, order: Order, names: seq<Name>, st: Dfs): (r: Dfs)
    ensures r.visiting == st.visiting
    ensures st.visited <= r.visited && st.recursive <= r.recursive && st.sorted <= r.sorted
    ensures forall d :: d in names && d in types ==> d in r.visited || (d in st.visiting && d in r.recursive)
    decreases |Unseen(types, st)|, 1, |names|
  {
    if names == [] then st
    else
      var next := if names[0] in types then Visit(types, order, names[0], st) else st;
      assert Unseen(types, next) <= Unseen(types, st);
      Shrinking(Unseen(types, next), Unseen(types, st));
      VisitAll(types, order, names[1..], next)
  }

  lemma Shrinking<T>(a: set<T>, b: set<T>)
    requires a <= b
    ensures |a| <= |b|
  {
    if a != {} {
      var x :| x in a;
      Shrinking(a - {x}, b - {x});
    }
  }

  function Sort(types: Types, order: Order, roots: seq<Name>): Dfs {
    VisitAll(types, order, roots, Dfs({}, {}, [], {}))
  }

  // ---------------------------------------------------------------------------
  // Order of definition
  // ---------------------------------------------------------------------------

  predicate Edge(types: Types, a: Name, b: Name) {
    a in types && b in types && b in ItemDeps(types[a])
  }

  predicate Distinct(names: seq<Name>) {
    forall i, j :: 0 <= i < j < |names| ==> names[i] != names[j]
  }

  /** Whatever `sorted[i]` depends on comes earlier, or is recursive. */
  ghost predicate DepsFirst(types: Types, sorted: seq<Name>, recursive: set<Name>) {
    forall i, d :: 0 <= i < |sorted| && Edge(types, sorted[i], d) ==> d in recursive || d in sorted[..i]
  }

  ghost predicate Ordered(types: Types, st: Dfs) {
    && Distinct(st.sorted)
    && (forall n :: n in st.sorted <==> n in st.visited)
    && st.visited !! st.visiting
    && st.visited <= types.Keys
    && DepsFirst(types, st.sorted, st.recursive)
  }

  lemma {:induction false} VisitOrdered(types: Types, order: Order, name: Name, st: Dfs)
    requires IsOrder(types, order) && Ordered(types, st) && name in types
    ensures Ordered(types, Visit(types, order, name, st))
    decreases |Unseen(types, st)|, 0, 0
  {
    if name !in st.visited && name !in st.visiting {
      var inside := st.(visiting := st.visiting + {name});
      assert Unseen(types, inside) == Unseen(types, st) - {name};
      VisitAllOrdered(types, order, order(name), inside);
      var below := VisitAll(types, order, order(name), inside);
      PushOrdered(types, below, name);
    }
  }

  /** A name may be appended once its dependencies are sorted or recursive. */
  lemma PushOrdered(types: Types, st: Dfs, name: Name)
    requires Ordered(types, st) && name in types && name in st.visiting
    requires forall d :: Edge(types, name, d) ==> d in st.visited || d in st.recursive
    ensures Ordered(types, Dfs(st.visited + {name}, st.visiting - {name}, st.sorted + [name], st.recursive))
  {
    var sorted := st.sorted + [name];
    assert name !in st.sorted;
    forall i, d | 0 <= i < |sorted| && Edge(types, sorted[i], d)
      ensures d in st.recursive || d in sorted[..i]
    {
      if i < |st.sorted| {
        assert sorted[..i] == st.sorted[..i];
      } else {
        assert sorted[..i] == st.sorted;
      }
    }
  }

  lemma {:induction false} VisitAllOrdered(types: Types, order: Order, names: seq<Name>, st: Dfs)
    requires IsOrder(types, order) && Ordered(types, st)
    ensures Ordered(types, VisitAll(types, order, names, st))
    decreases |Unseen(types, st)|, 1, |names|
  {
    if names != [] {
      var next := if names[0] in types then Visit(types, order, names[0], st) else st;
      if names[0] in types {
        VisitOrdered(types, order, names[0], st);
      }
      Shrinking(Unseen(types, next), Unseen(types, st));
      VisitAllOrdered(types, order, names[1..], next);
    }
  }

  /** Each exported name is listed once, after everything it depends on but for recursive names. */
  lemma SortOrders(types: Types, order: Order, roots: seq<Name>)
    requires IsOrder(types, order) && forall n :: n in types ==> n in roots
    ensures Distinct(Sort(types, order, roots).sorted)
    ensures forall n :: n in Sort(types, order, roots).sorted <==> n in types
    ensures DepsFirst(types, Sort(types, order, roots).sorted, Sort(types, order, roots).recursive)
  {
    VisitAllOrdered(types, order, roots, Dfs({}, {}, [], {}));
  }

  // ---------------------------------------------------------------------------
  // The cycle cut is exact
  // ---------------------------------------------------------------------------

  ghost predicate IsPath(types: Types, path: seq<Name>) {
    |path| >= 2 && forall i :: 0 <= i < |path| - 1 ==> Edge(types, path[i], path[i + 1])
  }

  ghost predicate Reaches(types: Types, a: Name, b: Name) {
    exists path :: IsPath(types, path) && path[0] == a && path[|path| - 1] == b
  }

  lemma ReachesByEdge(types: Types, a: Name, b: Name, c: Name)
    requires a == b || Reaches(types, a, b)
    requires Edge(types, b, c)
    ensures Reaches(types, a, c)
  {
    if a == b {
      assert IsPath(types, [b, c]);
    } else {
      var path :| IsPath(types, path) && path[0] == a && path[|path| - 1] == b;
      assert IsPath(types, path + [c]);
      assert (path + [c])[0] == a && (path + [c])[|path|] == c;
    }
  }

  ghost predicate OnCycles(types: Types, names: set<Name>) {
    forall n :: n in names ==> Reaches(types, n, n)
  }

  /** Everything being visited leads to `name`. */
  ghost predicate LeadTo(types: Types, visiting: set<Name>, name: Name) {
    forall v :: v in visiting ==> Reaches(types, v, name)
  }

  lemma {:induction false} VisitCuts(types: Types, order: Order, name: Name, st: Dfs)
    requires IsOrder(types, order) && OnCycles(types, st.recursive) && LeadTo(types, st.visiting, name)
    ensures OnCycles(types, Visit(types, order, name, st).recursive)
    decreases |Unseen(types, st)|, 0, 0
  {
    if name !in st.visited && name !in st.visiting && name in types {
      var inside := st.(visiting := st.visiting + {name});
      assert Unseen(types, inside) == Unseen(types, st) - {name};
      forall d | d in order(name) && d in types
        ensures LeadTo(types, inside.visiting, d)
      {
        forall v | v in inside.visiting
          ensures Reaches(types, v, d)
        {
          ReachesByEdge(types, v, name, d);
        }
      }
      VisitAllCuts(types, order, order(name), inside);
    }
  }

  lemma {:induction false} VisitAllCuts(types: Types, order: Order, names: seq<Name>, st: Dfs)
    requires IsOrder(types, order) && OnCycles(types, st.recursive)
    requires forall d :: d in names && d in types ==> LeadTo(types, st.visiting, d)
    ensures OnCycles(types, VisitAll(types, order, names, st).recursive)
    decreases |Unseen(types, st)|, 1, |names|
  {
    if names != [] {
      var next := if names[0] in types then Visit(types, order, names[0], st) else st;
      if names[0] in types {
        VisitCuts(types, order, names[0], st);
      }
      Shrinking(Unseen(types, next), Unseen(types, st));
      VisitAllCuts(types, order, names[1..], next);
    }
  }

  /** A cycle, written as a path that ends where it starts. */
  ghost predicate IsCycle(types: Types, path: seq<Name>) {
    IsPath(types, path) && path[0] == path[|path| - 1]
  }

  function Position(names: seq<Name>, name: Name): (i: nat)
    requires name in names
    ensures i < |names| && names[i] == name && name !in names[..i]
  {
    if names[0] == name then 0 else 1 + Position(names[1..], name)
  }

  /** Along edges to names that are not recursive, one only moves towards the front. */
  lemma {:induction false} PathMovesForward(types: Types, sorted: seq<Name>, recursive: set<Name>, path: seq<Name>)
    requires DepsFirst(types, sorted, recursive) && (forall n :: n in types ==> n in sorted)
    requires IsPath(types, path) && forall i :: 1 <= i < |path| ==> path[i] !in recursive
    ensures path[0] in sorted && path[|path| - 1] in sorted
    ensures Position(sorted, path[|path| - 1]) < Position(sorted, path[0])
  {
    assert Edge(types, path[0], path[1]);
    var i := Position(sorted, path[0]);
    assert path[1] in sorted[..i];
    if |path| > 2 {
      var rest := path[1..];
      assert forall j :: 0 <= j < |rest| ==> rest[j] == path[j + 1];
      PathMovesForward(types, sorted, recursive, rest);
    }
  }

  /**
   The cut is exact: every recursive name lies on a cycle, and every cycle has a recursive name
   among the targets of its edges, so without the edges into them the graph is acyclic.
   */
  lemma CutIsExact(types: Types, order: Order, roots: seq<Name>)
    requires IsOrder(types, order) && forall n :: n in types ==> n in roots
    ensures OnCycles(types, Sort(types, order, roots).recursive)
    ensures forall path :: IsCycle(types, path) ==> exists i :: 1 <= i < |path| && path[i] in Sort(types, order, roots).recursive
  {
    VisitAllCuts(types, order, roots, Dfs({}, {}, [], {}));
    SortOrders(types, order, roots);
    var r := Sort(types, order, roots);
    forall path | IsCycle(types, path)
      ensures exists i :: 1 <= i < |path| && path[i] in r.recursive
    {
      if forall i :: 1 <= i < |path| ==> path[i] !in r.recursive {
        PathMovesForward(types, r.sorted, r.recursive, path);
        assert false;
      }
    }
  }

  lemma SelfReferencesAreCut(types: Types, order: Order, roots: seq<Name>)
    requires IsOrder(types, order) && forall n :: n in types ==> n in roots
    ensures forall n :: Edge(types, n, n) ==> n in Sort(types, order, roots).recursive
  {
    CutIsExact(types, order, roots);
    forall n | Edge(types, n, n)
      ensures n in Sort(types, order, roots).recursive
    {
      assert IsCycle(types, [n, n]);
    }
  }

  ghost predicate HasCycle(types: Types) {
    exists path :: IsCycle(types, path)
  }

  /** Nothing is made lazy needlessly: some name is recursive exactly when the types have a cycle. */
  lemma RecursiveIffCyclic(types: Types, order: Order, roots: seq<Name>)
    requires IsOrder(types, order) && forall n :: n in types ==> n in roots
    ensures Sort(types, order, roots).recursive != {} <==> HasCycle(types)
  {
    CutIsExact(types, order, roots);
    var recursive := Sort(types, order, roots).recursive;
    if recursive != {} {
      var n :| n in recursive;
      CycleThrough(types, n);
    }
    if HasCycle(types) {
      var path :| IsCycle(types, path);
      var i :| 1 <= i < |path| && path[i] in recursive;
    }
  }

  lemma CycleThrough(types: Types, n: Name)
    ensures Reaches(types, n, n) ==> HasCycle(types)
  {
    if Reaches(types, n, n) {
      var path :| IsPath(types, path) && path[0] == n && path[|path| - 1] == n;
      assert IsCycle(types, path);
    }
  }

  // ---------------------------------------------------------------------------
  // Cuts, when the roots come in name order
  // ---------------------------------------------------------------------------

  /** The order of names: character by character. */
  predicate Precedes(a: Name, b: Name) {
    b != "" && (a == "" || a[0] < b[0] || (a[0] == b[0] && Precedes(a[1..], b[1..])))
  }

  lemma {:induction false} PrecedesTotal(a: Name, b: Name)
    ensures a != b <==> Precedes(a, b) || Precedes(b, a)
    ensures !(Precedes(a, b) && Precedes(b, a))
  {
    if a != "" && b != "" {
      PrecedesTotal(a[1..], b[1..]);
      assert a == [a[0]] + a[1..] && b == [b[0]] + b[1..];
    }
  }

  lemma {:induction false} PrecedesTransitive(a: Name, b: Name, c: Name)
    requires Precedes(a, b) && Precedes(b, c)
    ensures Precedes(a, c)
  {
    if a != "" && a[0] == b[0] == c[0] {
      PrecedesTransitive(a[1..], b[1..], c[1..]);
    }
  }

  predicate Ascending(names: seq<Name>) {
    forall i, j :: 0 <= i < j < |names| ==> Precedes(names[i], names[j])
  }

  /** The edge from `n` to `d` was cut below an earlier name, from which the walk had started. */
  ghost predicate CutBelow(types: Types, recursive: set<Name>, n: Name, d: Name) {
    d in recursive && exists q :: q in types && Precedes(q, n) && (Edge(types, n, q) ==> q in recursive)
  }

  /** Whatever `sorted[i]` depends on comes earlier, or is itself, or was cut below an earlier name. */
  ghost predicate CutsBelow(types: Types, sorted: seq<Name>, recursive: set<Name>) {
    forall i, d :: 0 <= i < |sorted| && Edge(types, sorted[i], d) ==>
      d in sorted[..i] || d == sorted[i] || CutBelow(types, recursive, sorted[i], d)
  }

  /** The walk has started from `root`, the first name that was not visited. */
  ghost predicate StartedFrom(types: Types, st: Dfs, root: Name) {
    root in types && forall n :: n in types && n !in st.visited && n != root ==> Precedes(root, n)
  }

  lemma {:induction false} VisitCutsBelow(types: Types, order: Order, name: Name, st: Dfs, root: Name)
    requires IsOrder(types, order) && Ordered(types, st) && name in types
    requires StartedFrom(types, st, root) && CutsBelow(types, st.sorted, st.recursive)
    requires if name == root && name !in st.visiting then st.visiting == {} else root in st.visiting
    ensures var r := Visit(types, order, name, st); CutsBelow(types, r.sorted, r.recursive)
    decreases |Unseen(types, st)|, 0, 0
  {
    if name in st.visited {
    } else if name in st.visiting {
    } else {
      var inside := st.(visiting := st.visiting + {name});
      assert Unseen(types, inside) == Unseen(types, st) - {name};
      VisitAllCutsBelow(types, order, order(name), inside, root);
      VisitAllOrdered(types, order, order(name), inside);
      PushCut(types, VisitAll(types, order, order(name), inside), name, root);
    }
  }

  /** A dependency that is still being visited was cut below the root, and so was the root if it is one. */
  lemma PushCut(types: Types, st: Dfs, name: Name, root: Name)
    requires Ordered(types, st) && name in types && name in st.visiting && root in st.visiting && root in types
    requires name == root || Precedes(root, name)
    requires name == root ==> st.visiting == {name}
    requires CutsBelow(types, st.sorted, st.recursive)
    requires forall d :: Edge(types, name, d) ==> d in st.visited || (d in st.visiting && d in st.recursive)
    ensures CutsBelow(types, st.sorted + [name], st.recursive)
  {
    var sorted := st.sorted + [name];
    forall i, d | 0 <= i < |sorted| && Edge(types, sorted[i], d) && d !in sorted[..i] && d != sorted[i]
      ensures CutBelow(types, st.recursive, sorted[i], d)
    {
      if i < |st.sorted| {
        assert sorted[..i] == st.sorted[..i];
      } else {
        assert sorted[..i] == st.sorted;
        assert Edge(types, name, root) ==> root in st.recursive;
      }
    }
  }

  lemma {:induction false} VisitAllCutsBelow(types: Types, order: Order, names: seq<Name>, st: Dfs, root: Name)
    requires IsOrder(types, order) && Ordered(types, st)
    requires StartedFrom(types, st, root) && CutsBelow(types, st.sorted, st.recursive) && root in st.visiting
    ensures var r := VisitAll(types, order, names, st); CutsBelow(types, r.sorted, r.recursive)
    decreases |Unseen(types, st)|, 1, |names|
  {
    if names != [] {
      var next := if names[0] in types then Visit(types, order, names[0], st) else st;
      if names[0] in types {
        VisitCutsBelow(types, order, names[0], st, root);
        VisitOrdered(types, order, names[0], st);
      }
      Shrinking(Unseen(types, next), Unseen(types, st));
      VisitAllCutsBelow(types, order, names[1..], next, root);
    }
  }

  lemma {:induction false} RootsCutBelow(types: Types, order: Order, roots: seq<Name>, st: Dfs)
    requires IsOrder(types, order) && Ordered(types, st) && st.visiting == {}
    requires Ascending(roots) && (forall n :: n in types ==> n in st.visited || n in roots)
    requires CutsBelow(types, st.sorted, st.recursive)
    ensures var r := VisitAll(types, order, roots, st); CutsBelow(types, r.sorted, r.recursive)
    decreases roots
  {
    if roots != [] {
      var root := roots[0];
      var next := if root in types then Visit(types, order, root, st) else st;
      if root in types {
        VisitOrdered(types, order, root, st);
        if root !in st.visited {
          VisitCutsBelow(types, order, root, st, root);
        }
      }
      RootsCutBelow(types, order, roots[1..], next);
    }
  }

  /** With the roots in name order, whatever a definition depends on and is not before it was cut below an earlier name. */
  lemma SortCutsBelow(types: Types, order: Order, roots: seq<Name>)
    requires IsOrder(types, order) && Ascending(roots) && forall n :: n in types ==> n in roots
    ensures CutsBelow(types, Sort(types, order, roots).sorted, Sort(types, order, roots).recursive)
  {
    RootsCutBelow(types, order, roots, Dfs({}, {}, [], {}));
  }

  // ---------------------------------------------------------------------------
  // The sort itself
  // ---------------------------------------------------------------------------

  class Sorter {
    const types: Types
    const order: Order
    var visited: set<Name>
    var visiting: set<Name>
    var sorted: seq<Name>
    var recursive: set<Name>

    constructor (types: Types, order: Order)
      ensures this.types == types && this.order == order && State() == Dfs({}, {}, [], {})
    {
      this.types, this.order := types, order;
      visited, visiting, sorted, recursive := {}, {}, [], {};
    }

    function State(): Dfs
      reads this
    {
      Dfs(visited, visiting, sorted, recursive)
    }

    method TopoVisit(name: Name)
      requires IsOrder(types, order)
      modifies this
      ensures State() == Visit(types, order, name, old(State()))
      decreases |Unseen(types, State())|, 0
    {
      if name in visited {
        return;
      }
      if name in visiting {
        recursive := recursive + {name};
        return;
      }
      visiting := visiting + {name};
      assert name in types ==> Unseen(types, State()) == Unseen(types, old(State())) - {name};
      if name in types {
        var deps := CollectDeps(types[name]);
        var listed := order(name);
        assert forall d :: d in deps <==> d in listed;
        VisitEach(listed);
      }
      visiting := visiting - {name};
      visited := visited + {name};
      sorted := sorted + [name];
    }

    method VisitEach(names: seq<Name>)
      requires IsOrder(types, order)
      modifies this
      ensures State() == VisitAll(types, order, names, old(State()))
      decreases |Unseen(types, State())|, 1
    {
      var i := 0;
      while i < |names|
        invariant 0 <= i <= |names|
        invariant VisitAll(types, order, names[i..], State()) == VisitAll(types, order, names, old(State()))
        invariant Unseen(types, State()) <= Unseen(types, old(State()))
      {
        Shrinking(Unseen(types, State()), Unseen(types, old(State())));
        assert names[i..][1..] == names[i + 1..];
        if names[i] in types {
          TopoVisit(names[i]);
        }
        i := i + 1;
      }
    }
  }
}
