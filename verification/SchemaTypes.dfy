/** Exported data types, and the names that the exporter's dependency walk collects. */
module SchemaTypes {
  import opened Wrappers

  type Name = string

  /** Primitives in the groups that the emitter distinguishes. */
  datatype Primitive = SmallNumber | BigNumber | Text | Boolean

  datatype Constant = NumberConstant(number: real) | BooleanConstant(boolean: bool) | TextConstant(text: string) | NoneConstant

  datatype DataType =
    | Any
    | Primitive(primitive: Primitive)
    | Literal(constant: Constant)
    | Nullable(inner: DataType)
    | Record(key: DataType, value: DataType)
    | List(inner: DataType)
    | Named(name: Name, item: Item)
    | Tuple(fields: seq<DataType>)
    | Object(object_: ObjectType)
    | Enum(enum_: EnumType)
    | Reference(name: Name, generics: seq<DataType>)
    | Generic(ident: string)

  datatype Item = ObjectItem(object_: ObjectType) | TupleItem(fields: seq<DataType>) | EnumItem(enum_: EnumType)

  datatype Field = Field(key: string, optional: bool, flatten: bool, ty: DataType)

  datatype ObjectType = ObjectType(fields: seq<Field>, tag: Option<string>)

  datatype Repr = External | Internal(tag: string) | Adjacent(tag: string, content: string)

  datatype Variant = Unit | Unnamed(fields: seq<DataType>) | NamedFields(object_: ObjectType)

  datatype LabelledVariant = Labelled(title: string, variant: Variant)

  datatype EnumType = Untagged(variants: seq<Variant>) | Tagged(labelled: seq<LabelledVariant>, repr: Repr)

  // ---------------------------------------------------------------------------
  // The dependency walk
  // ---------------------------------------------------------------------------

  /** Does not look inside inline enums, nor inside the body of an inlined named type. */
  function TypeDeps(ty: DataType): set<Name> {
    match ty
    case Named(name, _) => {name}
    case Reference(name, generics) => {name} + AllDeps(generics)
    case Nullable(inner) => TypeDeps(inner)
    case List(inner) => TypeDeps(inner)
    case Record(key, value) => TypeDeps(key) + TypeDeps(value)
    case Tuple(fields) => AllDeps(fields)
    case Object(object_) => FieldDeps(object_.fields)
    case _ => {}
  }

  function AllDeps(types: seq<DataType>): set<Name> {
    if types == [] then {} else TypeDeps(types[0]) + AllDeps(types[1..])
  }

  function FieldDeps(fields: seq<Field>): set<Name> {
    if fields == [] then {} else TypeDeps(fields[0].ty) + FieldDeps(fields[1..])
  }

  function VariantDeps(variant: Variant): set<Name> {
    match variant
    case Unit => {}
    case Unnamed(fields) => AllDeps(fields)
    case NamedFields(object_) => FieldDeps(object_.fields)
  }

  function VariantsDeps(variants: seq<Variant>): set<Name> {
    if variants == [] then {} else VariantDeps(variants[0]) + VariantsDeps(variants[1..])
  }

  function VariantsOf(labelled: seq<LabelledVariant>): (variants: seq<Variant>)
    ensures |variants| == |labelled|
  {
    seq(|labelled|, i requires 0 <= i < |labelled| => labelled[i].variant)
  }

  function ItemDeps(item: Item): set<Name> {
    match item
    case ObjectItem(object_) => FieldDeps(object_.fields)
    case TupleItem(fields) => AllDeps(fields)
    case EnumItem(Untagged(variants)) => VariantsDeps(variants)
    case EnumItem(Tagged(labelled, _)) => VariantsDeps(VariantsOf(labelled))
  }

  // The walk itself inserts into one shared set.

  method CollectTypeDeps(ty: DataType, deps: set<Name>) returns (out: set<Name>)
    ensures out == deps + TypeDeps(ty)
    decreases ty, 1
  {
    match ty
    case Named(name, _) => out := deps + {name};
    case Reference(name, generics) => out := CollectAll(generics, deps + {name});
    case Nullable(inner) => out := CollectTypeDeps(inner, deps);
    case List(inner) => out := CollectTypeDeps(inner, deps);
    case Record(key, value) =>
      out := CollectTypeDeps(key, deps);
      out := CollectTypeDeps(value, out);
    case Tuple(fields) => out := CollectAll(fields, deps);
    case Object(object_) => out := CollectFields(object_.fields, deps);
    case _ => out := deps;
  }

  method CollectAll(types: seq<DataType>, deps: set<Name>) returns (out: set<Name>)
    ensures out == deps + AllDeps(types)
    decreases types, 0
  {
    out := deps;
    for i := 0 to |types|
      invariant out + AllDeps(types[i..]) == deps + AllDeps(types)
    {
      out := CollectTypeDeps(types[i], out);
      assert types[i..][1..] == types[i + 1..];
    }
  }

  method CollectFields(fields: seq<Field>, deps: set<Name>) returns (out: set<Name>)
    ensures out == deps + FieldDeps(fields)
    decreases fields, 0
  {
    out := deps;
    for i := 0 to |fields|
      invariant out + FieldDeps(fields[i..]) == deps + FieldDeps(fields)
    {
      out := CollectTypeDeps(fields[i].ty, out);
      assert fields[i..][1..] == fields[i + 1..];
    }
  }

  method CollectDeps(item: Item) returns (deps: set<Name>)
    ensures deps == ItemDeps(item)
  {
    deps := {};
    match item
    case ObjectItem(object_) => deps := CollectFields(object_.fields, deps);
    case TupleItem(fields) => deps := CollectAll(fields, deps);
    case EnumItem(e) =>
      var variants := match e case Untagged(variants) => variants case Tagged(labelled, _) => VariantsOf(labelled);
      for i := 0 to |variants|
        invariant deps + VariantsDeps(variants[i..]) == VariantsDeps(variants)
      {
        match variants[i] {
          case Unit =>
          case Unnamed(fields) => deps := CollectAll(fields, deps);
          case NamedFields(object_) => deps := CollectFields(object_.fields, deps);
        }
        assert variants[i..][1..] == variants[i + 1..];
      }
  }
}
