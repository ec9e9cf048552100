/** The emitted module: one constant per exported type, in sorted order. */
module SchemaExport {
  import opened Wrappers
  import opened SchemaTypes
  import opened SchemaEmit
  import opened SchemaReads
  import opened SchemaSort

  datatype Definition = Definition(name: Name, schema: Schema)

  function WithRecursive(conf: Config, names: set<Name>): Config {
    conf.(recursive := conf.recursive + names)
  }

  function EmitModule(types: Types, conf: Config, names: seq<Name>): Result<seq<Definition>, Error>
    requires forall n :: n in names ==> n in types
  {
    if names == [] then Ok([])
    else
      var schema :- EmitItem(conf, types[names[0]]);
      var rest :- EmitModule(types, conf, names[1..]);
      Ok([Definition(names[0], schema)] + rest)
  }

  /** The roots are all exported types, by name. */
  ghost predicate IsExport(types: Types, order: Order, roots: seq<Name>) {
    IsOrder(types, order) && Ascending(roots) && forall n :: n in types <==> n in roots
  }

  ghost function Export(types: Types, order: Order, roots: seq<Name>, conf: Config): Result<seq<Definition>, Error>
    requires IsExport(types, order, roots)
  {
    var r := Sort(types, order, roots);
    SortOrders(types, order, roots);
    EmitModule(types, WithRecursive(conf, r.recursive), r.sorted)
  }

  /** Evaluates the module from the top; reading an exported constant before its definition fails. */
  predicate Loads(types: Types, module_: seq<Definition>, defined: set<Name>) {
    module_ == []
    || ((forall r :: r in Reads(module_[0].schema) && r in types ==> r in defined)
        && Loads(types, module_[1..], defined + {module_[0].name}))
  }

  /** The emit loop. */
  method EmitEach(types: Types, conf: Config, names: seq<Name>) returns (out: Result<seq<Definition>, Error>)
    requires forall n :: n in names ==> n in types
    ensures out == EmitModule(types, conf, names)
  {
    var module_: seq<Definition> := [];
    assert names[0..] == names;
    assert forall rest: seq<Definition> :: [] + rest == rest;
    for i := 0 to |names|
      invariant EmitModule(types, conf, names) == Behind(module_, EmitModule(types, conf, names[i..]))
    {
      assert names[i..][1..] == names[i + 1..];
      var schema := EmitItem(conf, types[names[i]]);
      if schema.Err? {
        return Err(schema.error);
      }
      BehindOneMore(module_, Definition(names[i], schema.value), EmitModule(types, conf, names[i + 1..]));
      module_ := module_ + [Definition(names[i], schema.value)];
    }
    assert module_ + [] == module_;
    out := Ok(module_);
  }

  function Behind(module_: seq<Definition>, rest: Result<seq<Definition>, Error>): Result<seq<Definition>, Error> {
    match rest
    case Ok(definitions) => Ok(module_ + definitions)
    case Err(error) => Err(error)
  }

  lemma BehindOneMore(module_: seq<Definition>, next: Definition, rest: Result<seq<Definition>, Error>)
    ensures Behind(module_, Behind([next], rest)) == Behind(module_ + [next], rest)
  {
    if rest.Ok? {
      assert module_ + ([next] + rest.value) == module_ + [next] + rest.value;
    }
  }

  method Run(types: Types, order: Order, roots: seq<Name>, conf: Config) returns (out: Result<seq<Definition>, Error>)
    requires IsExport(types, order, roots)
    ensures out == Export(types, order, roots, conf)
  {
    var sorter := new Sorter(types, order);
    sorter.VisitEach(roots);
    SortOrders(types, order, roots);
    out := EmitEach(types, WithRecursive(conf, sorter.recursive), sorter.sorted);
  }

  // ---------------------------------------------------------------------------
  // Definition before use
  // ---------------------------------------------------------------------------

  /** A definition that refers to itself is always recursive. */
  function OwnCut(conf: Config, name: Name, item: Item): set<Name> {
    conf.recursive + (if name in ItemDeps(item) then {name} else {})
  }

  /** What else is recursive when the edge from this definition to `r` is cut below `q`. */
  function CutWith(conf: Config, name: Name, item: Item, r: Name, q: Name): set<Name> {
    OwnCut(conf, name, item) + {r} + (if q in ItemDeps(item) then {q} else {})
  }

  /**
   Every name that the body has bare is another one, and one that the dependency walk finds
   in it; and it is not bare any more once it is cut below an earlier name. What cannot be
   emitted does no harm.
   */
  ghost predicate SafeBody(conf: Config, name: Name, item: Item) {
    EmitItem(conf, item).Ok? ==>
      forall r :: r in BareItem(item, OwnCut(conf, name, item)) ==>
        && r != name && r in ItemDeps(item)
        && forall q :: Precedes(q, name) ==> r !in BareItem(item, CutWith(conf, name, item, r, q))
  }

  predicate ReadsItem(conf: Config, item: Item, r: Name) {
    EmitItem(conf, item).Ok? && r in Reads(EmitItem(conf, item).value)
  }

  lemma ReadsAreBare(conf: Config, recursive: set<Name>, item: Item, r: Name)
    requires conf.recursive <= recursive
    ensures ReadsItem(conf.(recursive := recursive), item, r) <==> EmitItem(conf, item).Ok? && r in BareItem(item, recursive)
  {
    ItemAntitone(conf, conf.(recursive := recursive), item);
    EmitItemReads(conf.(recursive := recursive), item);
  }

  /** More recursive names leave fewer names bare. */
  lemma BareLess(conf: Config, a: set<Name>, b: set<Name>, item: Item, r: Name)
    requires EmitItem(conf, item).Ok? && conf.recursive <= a <= b
    ensures r in BareItem(item, b) ==> r in BareItem(item, a)
  {
    ReadsAreBare(conf, a, item, r);
    ReadsAreBare(conf, b, item, r);
    ItemAntitone(conf.(recursive := a), conf.(recursive := b), item);
  }

  /** Bodies of references without inline enums, inlined types or generic parameters are safe. */
  lemma PlainIsSafe(conf: Config, name: Name, item: Item)
    requires PlainItem(item)
    ensures SafeBody(conf, name, item)
  {
    if EmitItem(conf, item).Ok? {
      PlainItemBare(item, OwnCut(conf, name, item));
      forall r, q | r in BareItem(item, OwnCut(conf, name, item))
        ensures r !in BareItem(item, CutWith(conf, name, item, r, q))
      {
        PlainItemBare(item, CutWith(conf, name, item, r, q));
      }
    }
  }

  /** What a safe body reads is a dependency that was not cut below an earlier name. */
  lemma SafeReads(types: Types, conf: Config, recursive: set<Name>, name: Name, r: Name)
    requires name in types && SafeBody(conf, name, types[name]) && r in types
    requires name in ItemDeps(types[name]) ==> name in recursive
    requires ReadsItem(WithRecursive(conf, recursive), types[name], r)
    requires forall q :: q in ItemDeps(types[name]) && q in types ==> Edge(types, name, q)
    ensures r != name && Edge(types, name, r) && !CutBelow(types, recursive, name, r)
  {
    var item, full := types[name], conf.recursive + recursive;
    ReadsAreBare(conf, full, item, r);
    BareLess(conf, OwnCut(conf, name, item), full, item, r);
    if CutBelow(types, recursive, name, r) {
      var q :| q in types && Precedes(q, name) && (Edge(types, name, q) ==> q in recursive);
      BareLess(conf, CutWith(conf, name, item, r, q), full, item, r);
    }
  }

  ghost predicate AllSafe(types: Types, conf: Config) {
    forall n :: n in types ==> SafeBody(conf, n, types[n])
  }

  /**
   No constant is read before its definition, for any graph of safe types and any order in
   which the dependencies of a type come.
   */
  lemma ModuleLoads(types: Types, order: Order, roots: seq<Name>, conf: Config)
    requires IsExport(types, order, roots) && AllSafe(types, conf)
    requires Export(types, order, roots, conf).Ok?
    ensures Loads(types, Export(types, order, roots, conf).value, {})
  {
    var r := Sort(types, order, roots);
    SortOrders(types, order, roots);
    SortCutsBelow(types, order, roots);
    SelfReferencesAreCut(types, order, roots);
    SuffixLoads(types, conf, r.sorted, r.recursive, 0, {});
    assert r.sorted[0..] == r.sorted;
  }

  lemma {:induction false} SuffixLoads(types: Types, conf: Config, sorted: seq<Name>, recursive: set<Name>, i: nat, defined: set<Name>)
    requires AllSafe(types, conf) && i <= |sorted|
    requires forall n :: n in sorted ==> n in types && (n in ItemDeps(types[n]) ==> n in recursive)
    requires CutsBelow(types, sorted, recursive)
    requires forall n :: n in defined <==> n in sorted[..i]
    requires EmitModule(types, WithRecursive(conf, recursive), sorted[i..]).Ok?
    ensures Loads(types, EmitModule(types, WithRecursive(conf, recursive), sorted[i..]).value, defined)
    decreases |sorted| - i
  {
    var full := WithRecursive(conf, recursive);
    if i < |sorted| {
      var n := sorted[i];
      var schema := EmitItem(full, types[n]).value;
      forall r | r in Reads(schema) && r in types
        ensures r in defined
      {
        assert ReadsItem(full, types[n], r);
        SafeReads(types, conf, recursive, n, r);
      }
      assert sorted[i..][1..] == sorted[i + 1..];
      assert sorted[..i + 1] == sorted[..i] + [n];
      SuffixLoads(types, conf, sorted, recursive, i + 1, defined + {n});
    }
  }

  // ---------------------------------------------------------------------------
  // The condition on bodies is exact
  // ---------------------------------------------------------------------------

  ghost function Listing(names: set<Name>): (listed: seq<Name>)
    ensures forall d :: d in listed <==> d in names
  {
    if names == {} then []
    else
      var d :| d in names;
      [d] + Listing(names - {d})
  }

  /** While everything exported below is being visited, the walk only records cycles. */
  lemma {:induction false} OnlyCycles(types: Types, order: Order, names: seq<Name>, st: Dfs)
    requires forall d :: d in names && d in types ==> d in st.visiting && d !in st.visited
    ensures VisitAll(types, order, names, st) == st.(recursive := st.recursive + set d | d in names && d in types)
  {
    if names != [] {
      var next := if names[0] in types then Visit(types, order, names[0], st) else st;
      OnlyCycles(types, order, names[1..], next);
    }
  }

  lemma VisitOne(types: Types, order: Order, a: Name, st: Dfs)
    requires a in types
    ensures VisitAll(types, order, [a], st) == Visit(types, order, a, st)
  {
  }

  lemma VisitTwo(types: Types, order: Order, a: Name, b: Name, st: Dfs)
    requires a in types && b in types
    ensures VisitAll(types, order, [a, b], st) == Visit(types, order, b, Visit(types, order, a, st))
  {
    assert [a, b][1..] == [b];
    VisitOne(types, order, b, Visit(types, order, a, st));
  }

  lemma VisitCloses(types: Types, order: Order, name: Name, st: Dfs)
    requires name in types && name !in st.visited && name !in st.visiting
    requires forall d :: d in order(name) && d in types ==> (d in st.visiting || d == name) && d !in st.visited
    ensures Visit(types, order, name, st) ==
            Dfs(st.visited + {name}, st.visiting, st.sorted + [name], st.recursive + set d | d in order(name) && d in types)
  {
    OnlyCycles(types, order, order(name), st.(visiting := st.visiting + {name}));
    assert st.visiting + {name} - {name} == st.visiting;
  }

  /** Some exported types that include this body, all others safe, give a module that does not load. */
  ghost predicate FailsIn(conf: Config, name: Name, item: Item, types: Types, order: Order, roots: seq<Name>) {
    && IsExport(types, order, roots)
    && name in types && types[name] == item
    && (forall n :: n in types && n != name ==> SafeBody(conf, n, types[n]))
    && Export(types, order, roots, conf).Ok?
    && !Loads(types, Export(types, order, roots, conf).value, {})
  }

  ghost predicate Breaks(conf: Config, name: Name, item: Item) {
    exists types, order, roots :: FailsIn(conf, name, item, types, order, roots)
  }

  /** Emitted first, it reads another exported constant or itself. */
  lemma FirstReadsLater(
    conf: Config, name: Name, item: Item, types: Types, order: Order, roots: seq<Name>, cut: set<Name>, r: Name
  )
    requires IsExport(types, order, roots) && name in types && types[name] == item
    requires forall n :: n in types && n != name ==> SafeBody(conf, n, types[n])
    requires Sort(types, order, roots).recursive == cut
    requires Sort(types, order, roots).sorted != [] && Sort(types, order, roots).sorted[0] == name
    requires r in types && ReadsItem(WithRecursive(conf, cut), item, r)
    requires Export(types, order, roots, conf).Ok?
    ensures Breaks(conf, name, item)
  {
    assert FailsIn(conf, name, item, types, order, roots);
  }

  function Back(name: Name): Item {
    TupleItem([Reference(name, [])])
  }

  ghost predicate IsBack(item: Item) {
    exists m :: item == Back(m)
  }

  lemma BackIsSafe(conf: Config, other: Name, name: Name)
    ensures ItemDeps(Back(name)) == {name} && SafeBody(conf, other, Back(name)) && EmitItem(conf, Back(name)).Ok?
  {
    var fields := [Reference(name, [])];
    assert fields[1..] == [];
    assert TypeDeps(fields[0]) == {name} && Plain(fields[0]);
    assert AllDeps(fields) == {name} && AllPlain(fields);
    PlainIsSafe(conf, other, Back(name));
    assert EmitAll(conf, []).Ok? && Emit(conf, fields[0]).Ok?;
    TupleReads(conf, fields);
  }

  lemma ModuleEmits(types: Types, conf: Config, names: seq<Name>)
    requires forall n :: n in names ==> n in types && EmitItem(conf, types[n]).Ok?
    ensures EmitModule(types, conf, names).Ok?
  {
    if names != [] {
      assert names[0] in names && forall n :: n in names[1..] ==> n in names;
      ModuleEmits(types, conf, names[1..]);
    }
  }

  /** A read of itself: export this type alone. */
  lemma OwnReadBreaks(conf: Config, name: Name, item: Item)
    requires EmitItem(conf, item).Ok? && name in BareItem(item, OwnCut(conf, name, item))
    ensures Breaks(conf, name, item)
  {
    var types := map[name := item];
    var order := (m: Name) => Listing(ItemDeps(item));
    var start := Dfs({}, {}, [], {});
    var own := set d | d in order(name) && d in types;
    VisitCloses(types, order, name, start);
    VisitOne(types, order, name, start);
    assert conf.recursive + own == OwnCut(conf, name, item);
    ReadsTooEarly(conf, name, item, types, order, [name], [name], own, name);
  }

  lemma EmitsAlike(conf: Config, recursive: set<Name>, item: Item)
    ensures EmitItem(WithRecursive(conf, recursive), item).Ok? <==> EmitItem(conf, item).Ok?
  {
    ItemAntitone(conf, WithRecursive(conf, recursive), item);
  }

  lemma CutReads(conf: Config, name: Name, item: Item, cut: set<Name>, r: Name)
    requires EmitItem(conf, item).Ok? && r in BareItem(item, conf.recursive + cut)
    ensures ReadsItem(WithRecursive(conf, cut), item, r)
  {
    ReadsAreBare(conf, conf.recursive + cut, item, r);
  }

  /** A definition whose dependencies are all above it is emitted first; what it reads comes too late. */
  lemma ReadsTooEarly(conf: Config, name: Name, item: Item, types: Types, order: Order, roots: seq<Name>, sorted: seq<Name>,
                      cut: set<Name>, r: Name)
    requires IsExport(types, order, roots) && name in types && types[name] == item && r in types
    requires forall n :: n in types && n != name ==> IsBack(types[n])
    requires Sort(types, order, roots).sorted == sorted && Sort(types, order, roots).recursive == cut
    requires sorted != [] && sorted[0] == name
    requires EmitItem(conf, item).Ok? && r in BareItem(item, conf.recursive + cut)
    ensures Breaks(conf, name, item)
  {
    SortOrders(types, order, roots);
    forall n | n in types
      ensures EmitItem(WithRecursive(conf, cut), types[n]).Ok?
      ensures n != name ==> SafeBody(conf, n, types[n])
    {
      if n == name {
        EmitsAlike(conf, cut, item);
      } else {
        var m :| types[n] == Back(m);
        BackIsSafe(conf, n, m);
        BackIsSafe(WithRecursive(conf, cut), n, m);
      }
    }
    ModuleEmits(types, WithRecursive(conf, cut), sorted);
    CutReads(conf, name, item, cut, r);
    FirstReadsLater(conf, name, item, types, order, roots, cut, r);
  }

  function Pair(a: Name, b: Name): seq<Name> {
    if Precedes(a, b) then [a, b] else [b, a]
  }

  /** With `r` referring back to `name`, whichever of the two comes first by name, `name` is emitted first. */
  lemma SortedPair(types: Types, order: Order, name: Name, r: Name, cut: set<Name>)
    requires r != name && types.Keys == {name, r}
    requires order(r) == [name] && cut == set d | d in order(name) && d in types
    requires Precedes(name, r) ==> r !in order(name)
    ensures Ascending(Pair(name, r))
    ensures Sort(types, order, Pair(name, r)).sorted == [name, r] && Sort(types, order, Pair(name, r)).recursive == cut
  {
    PrecedesTotal(name, r);
    if Precedes(name, r) {
      SortedForward(types, order, name, r, cut);
    } else {
      SortedBack(types, order, name, r, cut);
    }
  }

  lemma SortedForward(types: Types, order: Order, name: Name, r: Name, cut: set<Name>)
    requires r != name && types.Keys == {name, r}
    requires order(r) == [name] && r !in order(name) && cut == set d | d in order(name) && d in types
    ensures Sort(types, order, [name, r]) == Dfs({name, r}, {}, [name, r], cut)
  {
    var start := Dfs({}, {}, [], {});
    VisitCloses(types, order, name, start);
    var one := Visit(types, order, name, start);
    assert one == Dfs({name}, {}, [name], cut);
    var inside := one.(visiting := {r});
    VisitOne(types, order, name, inside);
    assert Visit(types, order, name, inside) == inside;
    assert one.visiting + {r} == {r};
    assert Visit(types, order, r, one) == Dfs({name, r}, {}, [name, r], cut);
    VisitTwo(types, order, name, r, start);
  }

  lemma SortedBack(types: Types, order: Order, name: Name, r: Name, cut: set<Name>)
    requires r != name && types.Keys == {name, r}
    requires order(r) == [name] && cut == set d | d in order(name) && d in types
    ensures Sort(types, order, [r, name]) == Dfs({name, r}, {}, [name, r], cut)
  {
    var start := Dfs({}, {}, [], {});
    var below := start.(visiting := {r});
    VisitCloses(types, order, name, below);
    var one := Visit(types, order, name, below);
    assert one == Dfs({name}, {r}, [name], cut);
    VisitOne(types, order, name, below);
    assert start.visiting + {r} == {r};
    var two := Visit(types, order, r, start);
    assert two == Dfs({name, r}, {}, [name, r], cut);
    VisitTwo(types, order, r, name, start);
  }

  lemma PairIsExport(conf: Config, name: Name, item: Item, r: Name, types: Types, order: Order)
    requires r != name && types == map[name := item, r := Back(name)]
    requires (forall d :: d in order(name) <==> d in ItemDeps(item)) && order(r) == [name]
    ensures types[name] == item && IsExport(types, order, Pair(name, r))
    ensures forall n :: n in types && n != name ==> IsBack(types[n])
  {
    PrecedesTotal(name, r);
    BackIsSafe(conf, r, name);
  }

  lemma PairCut(conf: Config, name: Name, item: Item, r: Name, cut: set<Name>)
    requires forall d :: d in cut <==> d in ItemDeps(item) && d in {name, r}
    ensures conf.recursive + cut == OwnCut(conf, name, item) + (if r in ItemDeps(item) then {r} else {})
  {
  }

  /** A read that the walk did not find, or of an earlier name that stays bare: let the target refer back. */
  lemma PairBreaks(conf: Config, name: Name, item: Item, r: Name)
    requires r != name && (r !in ItemDeps(item) || Precedes(r, name)) && EmitItem(conf, item).Ok?
    requires r in BareItem(item, OwnCut(conf, name, item) + (if r in ItemDeps(item) then {r} else {}))
    ensures Breaks(conf, name, item)
  {
    var types := map[name := item, r := Back(name)];
    var order := (m: Name) => if m == name then Listing(ItemDeps(item)) else [name];
    PairIsExport(conf, name, item, r, types, order);
    var cut := set d | d in order(name) && d in types;
    PrecedesTotal(name, r);
    SortedPair(types, order, name, r, cut);
    PairCut(conf, name, item, r, cut);
    ReadsTooEarly(conf, name, item, types, order, Pair(name, r), [name, r], cut, r);
  }

  lemma SortedChain(types: Types, order: Order, q: Name, name: Name, r: Name, cut: set<Name>)
    requires q != name && q != r && r != name && types.Keys == {q, name, r}
    requires order(q) == [r] && order(r) == [name] && cut == set d | d in order(name) && d in types
    ensures Sort(types, order, [q, name, r]) == Dfs({q, name, r}, {}, [name, r, q], cut)
  {
    var start := Dfs({}, {}, [], {});
    var inQ, inR := start.(visiting := {q}), start.(visiting := {q, r});
    VisitCloses(types, order, name, inR);
    assert Visit(types, order, name, inR) == Dfs({name}, {q, r}, [name], cut);
    VisitOne(types, order, name, inR);
    assert inQ.visiting + {r} == inR.visiting && inR.visiting - {r} == {q};
    assert Visit(types, order, r, inQ) == Dfs({name, r}, {q}, [name, r], cut);
    VisitOne(types, order, r, inQ);
    assert start.visiting + {q} == {q};
    var all := Dfs({q, name, r}, {}, [name, r, q], cut);
    assert Visit(types, order, q, start) == all;
    VisitTwo(types, order, name, r, all);
    assert [q, name, r][1..] == [name, r];
  }

  lemma ChainCut(conf: Config, name: Name, item: Item, r: Name, q: Name, cut: set<Name>)
    requires r in ItemDeps(item)
    requires forall d :: d in cut <==> d in ItemDeps(item) && d in {name, r, q}
    ensures conf.recursive + cut == CutWith(conf, name, item, r, q)
  {
  }

  lemma ChainIsExport(conf: Config, name: Name, item: Item, r: Name, q: Name, types: Types, order: Order)
    requires Precedes(q, name) && Precedes(name, r) && q != r
    requires types == map[name := item, r := Back(name), q := Back(r)]
    requires (forall d :: d in order(name) <==> d in ItemDeps(item)) && order(r) == [name] && order(q) == [r]
    ensures q != name && r != name && types[name] == item && IsExport(types, order, [q, name, r])
    ensures forall n :: n in types && n != name ==> IsBack(types[n])
  {
    PrecedesTotal(name, r);
    PrecedesTotal(q, name);
    PrecedesTransitive(q, name, r);
    BackIsSafe(conf, r, name);
    BackIsSafe(conf, q, r);
  }

  /** A read of a later name that stays bare: let an earlier one lead to it, and it back. */
  lemma ChainBreaks(conf: Config, name: Name, item: Item, r: Name, q: Name)
    requires r in ItemDeps(item) && Precedes(name, r) && Precedes(q, name) && EmitItem(conf, item).Ok?
    requires r in BareItem(item, CutWith(conf, name, item, r, q))
    ensures Breaks(conf, name, item)
  {
    PrecedesTransitive(q, name, r);
    PrecedesTotal(q, r);
    var types := map[name := item, r := Back(name), q := Back(r)];
    var order := (m: Name) => if m == name then Listing(ItemDeps(item)) else if m == r then [name] else [r];
    PrecedesTotal(name, r);
    PrecedesTotal(q, name);
    ChainIsExport(conf, name, item, r, q, types, order);
    var cut := set d | d in order(name) && d in types;
    SortedChain(types, order, q, name, r, cut);
    ChainCut(conf, name, item, r, q, cut);
    ReadsTooEarly(conf, name, item, types, order, [q, name, r], [name, r, q], cut, r);
  }

  /**
   A body is safe exactly when no exported types, sorted as the exporter sorts them, make the
   module fail because of it: the property fails for inline enums, inlined types and generic
   parameters that read a name which the dependency walk does not find or the cut does not
   reach, and only for those.
   */
  lemma SafeBodyIsExact(conf: Config, name: Name, item: Item)
    ensures SafeBody(conf, name, item) <==> !Breaks(conf, name, item)
  {
    if SafeBody(conf, name, item) {
      if Breaks(conf, name, item) {
        var types, order, roots :| FailsIn(conf, name, item, types, order, roots);
        assert AllSafe(types, conf);
        ModuleLoads(types, order, roots, conf);
        assert false;
      }
    } else {
      UnsafeBreaks(conf, name, item);
    }
  }

  lemma UnsafeBreaks(conf: Config, name: Name, item: Item)
    requires !SafeBody(conf, name, item)
    ensures Breaks(conf, name, item)
  {
    var own := OwnCut(conf, name, item);
    var r :| r in BareItem(item, own)
             && !(r != name && r in ItemDeps(item)
                  && forall q :: Precedes(q, name) ==> r !in BareItem(item, CutWith(conf, name, item, r, q)));
    if r == name {
      OwnReadBreaks(conf, name, item);
    } else if r !in ItemDeps(item) {
      assert own + {} == own;
      PairBreaks(conf, name, item, r);
    } else {
      var q :| Precedes(q, name) && r in BareItem(item, CutWith(conf, name, item, r, q));
      PrecedesTotal(name, r);
      if Precedes(name, r) {
        ChainBreaks(conf, name, item, r, q);
      } else {
        BareLess(conf, own + {r}, CutWith(conf, name, item, r, q), item, r);
        PairBreaks(conf, name, item, r);
      }
    }
  }

  /** The simplest unsafe body: an inline enum around a reference. */
  function InlineEnum(r: Name): Item {
    TupleItem([Enum(Untagged([Unnamed([Reference(r, [])])]))])
  }

  lemma InlineEnumHides(r: Name, recursive: set<Name>)
    requires r !in recursive
    ensures ItemDeps(InlineEnum(r)) == {} && BareItem(InlineEnum(r), recursive) == {r}
  {
    var references := [Reference(r, [])];
    var variants := [Unnamed(references)];
    var fields := [Enum(Untagged(variants))];
    assert references[1..] == [] && variants[1..] == [] && fields[1..] == [];
    assert TypeDeps(fields[0]) == {} && AllDeps(fields) == {};
    assert Bare(references[0], recursive) == {r} && BareAll(references, recursive) == {r};
    assert BareVariant(variants[0], recursive) == {r} && BareVariants(variants, recursive) == {r};
    assert Bare(fields[0], recursive) == BareEnum(Untagged(variants), recursive) == {r};
    assert BareAll(fields, recursive) == {r};
  }

  /** The walk does not look into it, so the module fails when `r` is emitted later. */
  lemma InlineEnumIsUnsafe(conf: Config, name: Name, r: Name)
    requires r !in conf.recursive
    ensures !SafeBody(conf, name, InlineEnum(r)) && Breaks(conf, name, InlineEnum(r))
  {
    InlineEnumHides(r, conf.recursive);
    assert OwnCut(conf, name, InlineEnum(r)) == conf.recursive;
    InlineEnumEmits(conf, r);
    SafeBodyIsExact(conf, name, InlineEnum(r));
  }

  lemma InlineEnumEmits(conf: Config, r: Name)
    ensures EmitItem(conf, InlineEnum(r)).Ok?
  {
    var references := [Reference(r, [])];
    var variants := [Unnamed(references)];
    var fields := [Enum(Untagged(variants))];
    assert references[1..] == [] && variants[1..] == [] && fields[1..] == [];
    assert EmitAll(conf, []).Ok? && Emit(conf, references[0]).Ok? && EmitAll(conf, references).Ok?;
    TupleReads(conf, references);
    assert EmitVariants(conf, []).Ok? && EmitVariants(conf, variants).Ok?;
    EnumReads(conf, Untagged(variants));
    TupleReads(conf, fields);
  }
}
