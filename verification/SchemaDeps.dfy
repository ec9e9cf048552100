/** Which types the dependency walk finds in a body, and what follows for inlined types. */
module SchemaDeps {
  import opened SchemaTypes
  import opened SchemaSort

  /** A part of a type is the type, or a part of what it is made of; inline enums and inlined types have no parts. */
  predicate Occurs(part: DataType, ty: DataType)
    decreases ty
  {
    || part == ty
    || match ty
       case Nullable(inner) => Occurs(part, inner)
       case List(inner) => Occurs(part, inner)
       case Record(key, value) => Occurs(part, key) || Occurs(part, value)
       case Tuple(fields) => exists i :: 0 <= i < |fields| && Occurs(part, fields[i])
       case Object(object_) => exists i :: 0 <= i < |object_.fields| && Occurs(part, object_.fields[i].ty)
       case Reference(_, generics) => exists i :: 0 <= i < |generics| && Occurs(part, generics[i])
       case _ => false
  }

  predicate IsNamed(part: DataType, n: Name) {
    (part.Named? || part.Reference?) && part.name == n
  }

  ghost predicate Mentions(ty: DataType, n: Name) {
    exists part :: Occurs(part, ty) && IsNamed(part, n)
  }

  lemma {:induction false} AllDepsExactly(types: seq<DataType>, n: Name)
    ensures n in AllDeps(types) <==> exists i :: 0 <= i < |types| && n in TypeDeps(types[i])
  {
    if types != [] {
      AllDepsExactly(types[1..], n);
      assert forall i :: 0 <= i < |types| - 1 ==> types[i + 1] == types[1..][i];
    }
  }

  lemma {:induction false} FieldDepsExactly(fields: seq<Field>, n: Name)
    ensures n in FieldDeps(fields) <==> exists i :: 0 <= i < |fields| && n in TypeDeps(fields[i].ty)
  {
    if fields != [] {
      FieldDepsExactly(fields[1..], n);
      assert forall i :: 0 <= i < |fields| - 1 ==> fields[i + 1] == fields[1..][i];
    }
  }

  lemma {:induction false} VariantsDepsExactly(variants: seq<Variant>, n: Name)
    ensures n in VariantsDeps(variants) <==> exists i :: 0 <= i < |variants| && n in VariantDeps(variants[i])
  {
    if variants != [] {
      VariantsDepsExactly(variants[1..], n);
      assert forall i :: 0 <= i < |variants| - 1 ==> variants[i + 1] == variants[1..][i];
    }
  }

  lemma {:induction false} FindMention(ty: DataType, n: Name) returns (part: DataType)
    requires n in TypeDeps(ty)
    ensures Occurs(part, ty) && IsNamed(part, n)
    decreases ty
  {
    part := ty;
    if !IsNamed(ty, n) {
      match ty
      case Nullable(inner) => part := FindMention(inner, n);
      case List(inner) => part := FindMention(inner, n);
      case Record(key, value) =>
        if n in TypeDeps(key) {
          part := FindMention(key, n);
        } else {
          part := FindMention(value, n);
        }
      case Tuple(fields) => part := FindMentionIn(ty, fields, n);
      case Reference(_, generics) => part := FindMentionIn(ty, generics, n);
      case Object(object_) =>
        FieldDepsExactly(object_.fields, n);
        var i :| 0 <= i < |object_.fields| && n in TypeDeps(object_.fields[i].ty);
        part := FindMention(object_.fields[i].ty, n);
    }
  }

  lemma {:induction false} FindMentionIn(ty: DataType, types: seq<DataType>, n: Name) returns (part: DataType)
    requires n in AllDeps(types)
    ensures (exists i :: 0 <= i < |types| && Occurs(part, types[i])) && IsNamed(part, n)
    decreases types
  {
    AllDepsExactly(types, n);
    var i :| 0 <= i < |types| && n in TypeDeps(types[i]);
    part := FindMention(types[i], n);
  }

  lemma {:induction false} MentionIsDep(part: DataType, ty: DataType, n: Name)
    requires Occurs(part, ty) && IsNamed(part, n)
    ensures n in TypeDeps(ty)
    decreases ty
  {
    if part != ty {
      match ty
      case Nullable(inner) => MentionIsDep(part, inner, n);
      case List(inner) => MentionIsDep(part, inner, n);
      case Record(key, value) =>
        if Occurs(part, key) {
          MentionIsDep(part, key, n);
        } else {
          MentionIsDep(part, value, n);
        }
      case Tuple(fields) =>
        var i :| 0 <= i < |fields| && Occurs(part, fields[i]);
        MentionIsDep(part, fields[i], n);
        AllDepsExactly(fields, n);
      case Reference(_, generics) =>
        var i :| 0 <= i < |generics| && Occurs(part, generics[i]);
        MentionIsDep(part, generics[i], n);
        AllDepsExactly(generics, n);
      case Object(object_) =>
        var i :| 0 <= i < |object_.fields| && Occurs(part, object_.fields[i].ty);
        MentionIsDep(part, object_.fields[i].ty, n);
        FieldDepsExactly(object_.fields, n);
    }
  }

  lemma DepsExactly(ty: DataType, n: Name)
    ensures n in TypeDeps(ty) <==> Mentions(ty, n)
  {
    if n in TypeDeps(ty) {
      var part := FindMention(ty, n);
    }
    if Mentions(ty, n) {
      var part :| Occurs(part, ty) && IsNamed(part, n);
      MentionIsDep(part, ty, n);
    }
  }

  function VariantTypes(variant: Variant): set<DataType> {
    match variant
    case Unit => {}
    case Unnamed(fields) => set ty | ty in fields
    case NamedFields(object_) => set f | f in object_.fields :: f.ty
  }

  /** The type of a field, of an element or of something in a variant. */
  ghost predicate IsField(item: Item, ty: DataType) {
    match item
    case ObjectItem(object_) => exists f :: f in object_.fields && f.ty == ty
    case TupleItem(fields) => ty in fields
    case EnumItem(Untagged(variants)) => exists v :: v in variants && ty in VariantTypes(v)
    case EnumItem(Tagged(labelled, _)) => exists v :: v in labelled && ty in VariantTypes(v.variant)
  }

  ghost predicate ItemMentions(item: Item, n: Name) {
    exists ty :: IsField(item, ty) && Mentions(ty, n)
  }

  lemma VariantDepsExactly(variant: Variant, n: Name)
    ensures n in VariantDeps(variant) <==> exists ty :: ty in VariantTypes(variant) && n in TypeDeps(ty)
  {
    match variant
    case Unit =>
    case Unnamed(fields) => AllDepsExactly(fields, n);
    case NamedFields(object_) => FieldDepsExactly(object_.fields, n);
  }

  lemma EnumDepsExactly(item: Item, variants: seq<Variant>, n: Name)
    requires forall ty :: IsField(item, ty) <==> exists v :: v in variants && ty in VariantTypes(v)
    requires forall ty :: n in TypeDeps(ty) <==> Mentions(ty, n)
    ensures n in VariantsDeps(variants) <==> ItemMentions(item, n)
  {
    VariantsDepsExactly(variants, n);
    if n in VariantsDeps(variants) {
      var i :| 0 <= i < |variants| && n in VariantDeps(variants[i]);
      VariantDepsExactly(variants[i], n);
      var ty :| ty in VariantTypes(variants[i]) && n in TypeDeps(ty);
      assert IsField(item, ty);
    }
    if ty :| IsField(item, ty) && Mentions(ty, n) {
      var v :| v in variants && ty in VariantTypes(v);
      VariantDepsExactly(v, n);
      var i :| 0 <= i < |variants| && variants[i] == v;
    }
  }

  /** The dependencies of a body are the names of the references and of the inlined types that occur in it. */
  lemma ItemDepsExactly(item: Item, n: Name)
    ensures n in ItemDeps(item) <==> ItemMentions(item, n)
  {
    forall ty: DataType
      ensures n in TypeDeps(ty) <==> Mentions(ty, n)
    {
      DepsExactly(ty, n);
    }
    match item
    case ObjectItem(object_) => FieldDepsExactly(object_.fields, n);
    case TupleItem(fields) => AllDepsExactly(fields, n);
    case EnumItem(Untagged(variants)) => EnumDepsExactly(item, variants, n);
    case EnumItem(Tagged(labelled, _)) =>
      var variants := VariantsOf(labelled);
      forall ty: DataType
        ensures IsField(item, ty) <==> exists v :: v in variants && ty in VariantTypes(v)
      {
        if v :| v in labelled && ty in VariantTypes(v.variant) {
          var i :| 0 <= i < |labelled| && labelled[i] == v;
          assert variants[i] in variants;
        }
        if v :| v in variants && ty in VariantTypes(v) {
          var i :| 0 <= i < |variants| && variants[i] == v;
          assert labelled[i] in labelled;
        }
      }
      EnumDepsExactly(item, variants, n);
  }

  /** Types that inline or refer to each other are cut, whichever of the two it is. */
  lemma MutualMentionIsCut(types: Types, order: Order, roots: seq<Name>, a: Name, b: Name)
    requires IsOrder(types, order) && forall n :: n in types ==> n in roots
    requires a in types && b in types && ItemMentions(types[a], b) && ItemMentions(types[b], a)
    ensures a in Sort(types, order, roots).recursive || b in Sort(types, order, roots).recursive
  {
    ItemDepsExactly(types[a], b);
    ItemDepsExactly(types[b], a);
    var path := [a, b, a];
    assert IsCycle(types, path);
    CutIsExact(types, order, roots);
  }
}
