/** How an export ends, and what the module it writes means. */
module SchemaOutcome {
  import opened Wrappers
  import opened SchemaTypes
  import opened SchemaEmit
  import opened SchemaMeaning
  import opened SchemaSort
  import opened SchemaExport

  // ---------------------------------------------------------------------------
  // One body
  // ---------------------------------------------------------------------------

  lemma {:induction false} RelevantExactly(bigint: BigInts, troubles: seq<Error>)
    ensures forall e :: e in Relevant(bigint, troubles) <==> e in troubles && (e == BigIntForbidden ==> bigint == Forbidden)
  {
    if troubles != [] {
      RelevantExactly(bigint, troubles[1..]);
    }
  }

  /** Whether a body can be emitted, by what occurs in it. */
  lemma EmitsExactly(conf: Config, item: Item)
    ensures EmitItem(conf, item).Ok? <==>
            && (BigIntForbidden in ItemTroubles(item) ==> conf.bigint != Forbidden)
            && UnableToTagUnnamedType !in ItemTroubles(item)
  {
    var env := (name: Name, args: seq<Shape>) => iset{};
    EmitItemMeans(env, conf, item);
    RelevantExactly(conf.bigint, ItemTroubles(item));
    var found := Relevant(conf.bigint, ItemTroubles(item));
    if found != [] {
      assert found[0] in found;
    }
  }

  // ---------------------------------------------------------------------------
  // The module
  // ---------------------------------------------------------------------------

  /** Some body cannot be emitted, and this is its first trouble. */
  predicate FailsAt(types: Types, bigint: BigInts, names: seq<Name>, i: nat, error: Error)
    requires forall n :: n in names ==> n in types
  {
    && i < |names|
    && (forall j :: 0 <= j < i ==> Relevant(bigint, ItemTroubles(types[names[j]])) == [])
    && Relevant(bigint, ItemTroubles(types[names[i]])) != []
    && Relevant(bigint, ItemTroubles(types[names[i]]))[0] == error
  }

  /** One definition for each name, in this order, for the values of its type. */
  ghost predicate Defines(env: Env, types: Types, bigint: BigInts, names: seq<Name>, module_: seq<Definition>)
    requires forall n :: n in names ==> n in types
  {
    && |module_| == |names|
    && forall i :: 0 <= i < |names| ==>
         module_[i].name == names[i] && Denote(env, module_[i].schema) == ItemMeans(env, bigint, types[names[i]])
  }

  predicate StopsAt(types: Types, conf: Config, names: seq<Name>, i: nat, error: Error)
    requires forall n :: n in names ==> n in types
  {
    && i < |names|
    && (forall j :: 0 <= j < i ==> EmitItem(conf, types[names[j]]).Ok?)
    && EmitItem(conf, types[names[i]]) == Err(error)
  }

  /** One definition after the other, up to the first body that is not emitted. */
  lemma {:induction false} ModuleInOrder(types: Types, conf: Config, names: seq<Name>)
    requires forall n :: n in names ==> n in types
    ensures var r := EmitModule(types, conf, names);
      if r.Err? then exists i :: StopsAt(types, conf, names, i, r.error)
      else
        && |r.value| == |names|
        && forall i :: 0 <= i < |names| ==>
             EmitItem(conf, types[names[i]]) == Ok(r.value[i].schema) && r.value[i].name == names[i]
  {
    if names != [] {
      ModuleInOrder(types, conf, names[1..]);
      if EmitItem(conf, types[names[0]]).Err? {
        assert StopsAt(types, conf, names, 0, EmitItem(conf, types[names[0]]).error);
      } else if EmitModule(types, conf, names[1..]).Err? {
        var error := EmitModule(types, conf, names[1..]).error;
        var i: nat :| StopsAt(types, conf, names[1..], i, error);
        assert StopsAt(types, conf, names, i + 1, error);
      }
    }
  }

  lemma ModuleOutcome(env: Env, types: Types, conf: Config, names: seq<Name>)
    requires forall n :: n in names ==> n in types
    ensures var r := EmitModule(types, conf, names);
      if r.Err? then exists i :: FailsAt(types, conf.bigint, names, i, r.error)
      else
        && (forall n :: n in names ==> Relevant(conf.bigint, ItemTroubles(types[n])) == [])
        && Defines(env, types, conf.bigint, names, r.value)
  {
    ModuleInOrder(types, conf, names);
    forall n | n in names
      ensures var found := Relevant(conf.bigint, ItemTroubles(types[n]));
        if found == []
        then EmitItem(conf, types[n]).Ok? && Denote(env, EmitItem(conf, types[n]).value) == ItemMeans(env, conf.bigint, types[n])
        else EmitItem(conf, types[n]) == Err(found[0])
    {
      EmitItemMeans(env, conf, types[n]);
    }
    if EmitModule(types, conf, names).Err? {
      var error := EmitModule(types, conf, names).error;
      var i: nat :| StopsAt(types, conf, names, i, error);
      assert FailsAt(types, conf.bigint, names, i, error);
    }
  }

  /**
   The export succeeds exactly if no exported body has anything in it that keeps it from being
   emitted. Else the error is the first such thing in the first such body, in sorted order.
   */
  lemma ExportOutcome(types: Types, order: Order, roots: seq<Name>, conf: Config)
    requires IsExport(types, order, roots)
    ensures var sorted := Sort(types, order, roots).sorted;
      && (forall n :: n in sorted <==> n in types)
      && (Export(types, order, roots, conf).Ok? <==> forall n :: n in types ==> Relevant(conf.bigint, ItemTroubles(types[n])) == [])
      && (Export(types, order, roots, conf).Err? ==>
            exists i :: FailsAt(types, conf.bigint, sorted, i, Export(types, order, roots, conf).error))
  {
    var r := Sort(types, order, roots);
    SortOrders(types, order, roots);
    var env := (name: Name, args: seq<Shape>) => iset{};
    ModuleOutcome(env, types, WithRecursive(conf, r.recursive), r.sorted);
    if Export(types, order, roots, conf).Err? {
      var i: nat :| FailsAt(types, conf.bigint, r.sorted, i, Export(types, order, roots, conf).error);
      assert r.sorted[i] in types;
    }
  }

  ghost predicate ModuleHolds(env: Env, module_: seq<Definition>) {
    forall i :: 0 <= i < |module_| ==> Denote(env, module_[i].schema) == env(module_[i].name, [])
  }

  ghost predicate TypesHold(env: Env, types: Types, bigint: BigInts) {
    forall n :: n in types ==> ItemMeans(env, bigint, types[n]) == env(n, [])
  }

  /**
   The module has one definition for each exported type, in sorted order. Names that stand for
   the values of the types satisfy its definitions, and names that satisfy them stand for these.
   */
  lemma ModuleMeansTypes(env: Env, types: Types, order: Order, roots: seq<Name>, conf: Config)
    requires IsExport(types, order, roots) && Export(types, order, roots, conf).Ok?
    ensures var module_ := Export(types, order, roots, conf).value;
      && |module_| == |Sort(types, order, roots).sorted|
      && (forall i :: 0 <= i < |module_| ==> module_[i].name == Sort(types, order, roots).sorted[i])
      && (ModuleHolds(env, module_) <==> TypesHold(env, types, conf.bigint))
  {
    var r := Sort(types, order, roots);
    SortOrders(types, order, roots);
    ModuleOutcome(env, types, WithRecursive(conf, r.recursive), r.sorted);
    var module_ := Export(types, order, roots, conf).value;
    if ModuleHolds(env, module_) {
      forall n | n in types
        ensures ItemMeans(env, conf.bigint, types[n]) == env(n, [])
      {
        var i :| 0 <= i < |r.sorted| && r.sorted[i] == n;
      }
    }
  }
}
