/** When a type can be emitted, and that the emitted validator accepts what the type means. */
module SchemaMeaning {
  import opened Wrappers
  import opened SchemaTypes
  import opened SchemaEmit

  // ---------------------------------------------------------------------------
  // Values, and the sets of them that a validator can ask for
  // ---------------------------------------------------------------------------

  datatype Value =
    | Null
    | Bool(boolean: bool)
    | Number(number: real)
    | BigInt(integer: int)
    | Str(text: string)
    | Arr(items: seq<Value>)
    | Obj(entries: map<string, Value>)

  type Shape = iset<Value>

  /** What each name stands for, given its arguments. */
  type Env = (Name, seq<Shape>) -> Shape

  datatype Keyed = Keyed(key: string, optional: bool, shape: Shape)

  predicate InSome(v: Value, shapes: seq<Shape>) {
    exists i :: 0 <= i < |shapes| && v in shapes[i]
  }

  predicate InEach(v: Value, shapes: seq<Shape>) {
    forall i :: 0 <= i < |shapes| ==> v in shapes[i]
  }

  ghost function AnyOf(shapes: seq<Shape>): Shape {
    iset v: Value | InSome(v, shapes)
  }

  /** Of no shapes at all, every value. */
  ghost function AllOf(shapes: seq<Shape>): Shape {
    iset v: Value | InEach(v, shapes)
  }

  ghost function ArraysOf(shape: Shape): Shape {
    iset v: Value | v.Arr? && forall x :: x in v.items ==> x in shape
  }

  ghost function TuplesOf(shapes: seq<Shape>): Shape {
    iset v: Value | v.Arr? && |shapes| <= |v.items| && forall i :: 0 <= i < |shapes| ==> v.items[i] in shapes[i]
  }

  ghost function MapsOf(key: Shape, value: Shape): Shape {
    iset v: Value | v.Obj? && forall k :: k in v.entries ==> Str(k) in key && v.entries[k] in value
  }

  /** The last one listed under a key counts. */
  predicate Counts(keyed: seq<Keyed>, i: nat) {
    i < |keyed| && forall j :: i < j < |keyed| ==> keyed[j].key != keyed[i].key
  }

  predicate Has(v: Value, keyed: Keyed) {
    v.Obj? && (if keyed.key in v.entries then v.entries[keyed.key] in keyed.shape else keyed.optional)
  }

  ghost function ObjectsOf(keyed: seq<Keyed>): Shape {
    iset v: Value | v.Obj? && forall i :: 0 <= i < |keyed| && Counts(keyed, i) ==> Has(v, keyed[i])
  }

  ghost function ConstantOf(constant: Constant): Shape {
    match constant
    case NumberConstant(n) => iset{Number(n)}
    case BooleanConstant(b) => iset{Bool(b)}
    case TextConstant(text) => iset{Str(text)}
    case NoneConstant => iset{Null}
  }

  ghost function Texts(): Shape {
    iset v: Value | v.Str?
  }

  ghost function Reals(): Shape {
    iset v: Value | v.Number?
  }

  ghost function Integers(): Shape {
    iset v: Value | v.BigInt?
  }

  ghost function Booleans(): Shape {
    iset v: Value | v.Bool?
  }

  // ---------------------------------------------------------------------------
  // What a type means
  // ---------------------------------------------------------------------------

  ghost function NumberMeans(bigint: BigInts): Shape {
    match bigint
    case AsString => Texts()
    case AsNumber => Reals()
    case AsBigInt => Integers()
    case Forbidden => iset{}
  }

  /** The values of a type. Which names are recursive does not come into it. */
  ghost function Means(env: Env, bigint: BigInts, ty: DataType): Shape
    decreases ty
  {
    match ty
    case Any => AllOf([])
    case Primitive(SmallNumber) => Reals()
    case Primitive(BigNumber) => NumberMeans(bigint)
    case Primitive(Text) => Texts()
    case Primitive(Boolean) => Booleans()
    case Literal(constant) => ConstantOf(constant)
    case Nullable(inner) => Means(env, bigint, inner) + iset{Null}
    case Record(key, value) => MapsOf(Means(env, bigint, key), Means(env, bigint, value))
    case List(inner) => ArraysOf(Means(env, bigint, inner))
    case Named(name, ObjectItem(object_)) => ObjectMeans(env, bigint, Some(name), object_)
    case Named(_, TupleItem(fields)) => TupleMeans(env, bigint, fields)
    case Named(_, EnumItem(enum_)) => EnumMeans(env, bigint, enum_)
    case Tuple(fields) => TupleMeans(env, bigint, fields)
    case Object(object_) => ObjectMeans(env, bigint, None, object_)
    case Enum(enum_) => EnumMeans(env, bigint, enum_)
    case Reference(name, generics) => env(name, AllMean(env, bigint, generics))
    case Generic(ident) => env(ident, [])
  }

  ghost function AllMean(env: Env, bigint: BigInts, types: seq<DataType>): (shapes: seq<Shape>)
    ensures |shapes| == |types|
    decreases types, 0
  {
    if types == [] then [] else [Means(env, bigint, types[0])] + AllMean(env, bigint, types[1..])
  }

  /** Nothing, the one field itself, or an array. */
  ghost function TupleMeans(env: Env, bigint: BigInts, fields: seq<DataType>): Shape
    decreases fields, 1
  {
    var shapes := AllMean(env, bigint, fields);
    if |shapes| == 0 then iset{Null} else if |shapes| == 1 then shapes[0] else TuplesOf(shapes)
  }

  ghost function FlattenedMean(env: Env, bigint: BigInts, fields: seq<Field>): seq<Shape>
    decreases fields
  {
    if fields == [] then []
    else if !fields[0].flatten then FlattenedMean(env, bigint, fields[1..])
    else [Means(env, bigint, fields[0].ty)] + FlattenedMean(env, bigint, fields[1..])
  }

  ghost function EntriesMean(env: Env, bigint: BigInts, fields: seq<Field>, all: bool): seq<Keyed>
    decreases fields
  {
    if fields == [] then []
    else if fields[0].flatten && !all then EntriesMean(env, bigint, fields[1..], all)
    else
      [Keyed(fields[0].key, fields[0].optional, Means(env, bigint, fields[0].ty))] + EntriesMean(env, bigint, fields[1..], all)
  }

  function Tag(key: string, title: string): Keyed {
    Keyed(key, false, iset{Str(title)})
  }

  /** What every flattened field means at once, with the other fields and the tag under their keys. */
  ghost function ObjectMeans(env: Env, bigint: BigInts, name: Option<Name>, object_: ObjectType): Shape
    decreases object_
  {
    if object_.fields == [] then iset{Null}
    else
      var keyed := EntriesMean(env, bigint, object_.fields, false)
                   + (if object_.tag.Some? && name.Some? then [Tag(object_.tag.value, name.value)] else []);
      AllOf(FlattenedMean(env, bigint, object_.fields)) * (if keyed == [] then AllOf([]) else ObjectsOf(keyed))
  }

  ghost function ContentMeans(env: Env, bigint: BigInts, variant: Variant): Shape
    decreases variant, 1
  {
    match variant
    case Unit => iset{Null}
    case Unnamed(fields) => TupleMeans(env, bigint, fields)
    case NamedFields(object_) => ObjectMeans(env, bigint, None, object_)
  }

  /** Where the title of a variant is written, and where its content. */
  ghost function VariantMeans(env: Env, bigint: BigInts, title: string, variant: Variant, repr: Repr): Shape
    decreases variant, 2
  {
    match repr
    case External =>
      if variant.Unit? then iset{Str(title)}
      else ObjectsOf([Keyed(title, false, ContentMeans(env, bigint, variant))])
    case Adjacent(tag, content) =>
      if variant.Unit? then ObjectsOf([Tag(tag, title)])
      else ObjectsOf([Tag(tag, title), Keyed(content, false, ContentMeans(env, bigint, variant))])
    case Internal(tag) =>
      match variant
      case Unit => ObjectsOf([Tag(tag, title)])
      case Unnamed(fields) => ObjectsOf([Tag(tag, title)]) * TupleMeans(env, bigint, fields)
      case NamedFields(object_) => ObjectsOf([Tag(tag, title)] + EntriesMean(env, bigint, object_.fields, true))
  }

  ghost function LabelledMean(env: Env, bigint: BigInts, labelled: seq<LabelledVariant>, repr: Repr): (shapes: seq<Shape>)
    ensures |shapes| == |labelled|
    decreases labelled
  {
    if labelled == [] then []
    else
      [VariantMeans(env, bigint, labelled[0].title, labelled[0].variant, repr)] + LabelledMean(env, bigint, labelled[1..], repr)
  }

  ghost function VariantsMean(env: Env, bigint: BigInts, variants: seq<Variant>): (shapes: seq<Shape>)
    ensures |shapes| == |variants|
    decreases variants
  {
    if variants == [] then [] else [ContentMeans(env, bigint, variants[0])] + VariantsMean(env, bigint, variants[1..])
  }

  /** One of the variants, in whatever form they are written. */
  ghost function EnumMeans(env: Env, bigint: BigInts, enum_: EnumType): Shape
    decreases enum_
  {
    match enum_
    case Untagged(variants) => AnyOf(VariantsMean(env, bigint, variants))
    case Tagged(labelled, repr) => AnyOf(LabelledMean(env, bigint, labelled, repr))
  }

  ghost function ItemMeans(env: Env, bigint: BigInts, item: Item): Shape {
    match item
    case ObjectItem(object_) => ObjectMeans(env, bigint, None, object_)
    case TupleItem(fields) => TupleMeans(env, bigint, fields)
    case EnumItem(enum_) => EnumMeans(env, bigint, enum_)
  }

  // ---------------------------------------------------------------------------
  // What keeps a type from being emitted
  // ---------------------------------------------------------------------------

  /** Each big number in the type, and each object with fields that has a tag but no name, as they come. */
  function Troubles(ty: DataType): seq<Error>
    decreases ty
  {
    match ty
    case Primitive(BigNumber) => [BigIntForbidden]
    case Nullable(inner) => Troubles(inner)
    case List(inner) => Troubles(inner)
    case Record(key, value) => Troubles(key) + Troubles(value)
    case Tuple(fields) => AllTroubles(fields)
    case Reference(_, generics) => AllTroubles(generics)
    case Object(object_) => ObjectTroubles(object_, false)
    case Enum(enum_) => EnumTroubles(enum_)
    case Named(_, ObjectItem(object_)) => ObjectTroubles(object_, true)
    case Named(_, TupleItem(fields)) => AllTroubles(fields)
    case Named(_, EnumItem(enum_)) => EnumTroubles(enum_)
    case _ => []
  }

  function AllTroubles(types: seq<DataType>): seq<Error>
    decreases types
  {
    if types == [] then [] else Troubles(types[0]) + AllTroubles(types[1..])
  }

  function FieldTroubles(fields: seq<Field>, flattened: bool, others: bool): seq<Error>
    decreases fields
  {
    if fields == [] then []
    else if (fields[0].flatten && flattened) || (!fields[0].flatten && others) then
      Troubles(fields[0].ty) + FieldTroubles(fields[1..], flattened, others)
    else FieldTroubles(fields[1..], flattened, others)
  }

  /** The flattened fields come first, and the tag last. */
  function ObjectTroubles(object_: ObjectType, named: bool): seq<Error>
    decreases object_
  {
    FieldTroubles(object_.fields, true, false) + FieldTroubles(object_.fields, false, true)
    + (if object_.fields != [] && object_.tag.Some? && !named then [UnableToTagUnnamedType] else [])
  }

  /** Fields written next to a tag are not an object of their own. */
  function VariantTroubles(variant: Variant, inPlace: bool): seq<Error>
    decreases variant
  {
    match variant
    case Unit => []
    case Unnamed(fields) => AllTroubles(fields)
    case NamedFields(object_) =>
      if inPlace then FieldTroubles(object_.fields, true, true) else ObjectTroubles(object_, false)
  }

  function VariantsTroubles(variants: seq<Variant>): seq<Error>
    decreases variants
  {
    if variants == [] then [] else VariantTroubles(variants[0], false) + VariantsTroubles(variants[1..])
  }

  function LabelledTroubles(labelled: seq<LabelledVariant>, inPlace: bool): seq<Error>
    decreases labelled
  {
    if labelled == [] then [] else VariantTroubles(labelled[0].variant, inPlace) + LabelledTroubles(labelled[1..], inPlace)
  }

  function EnumTroubles(enum_: EnumType): seq<Error>
    decreases enum_
  {
    match enum_
    case Untagged(variants) => VariantsTroubles(variants)
    case Tagged(labelled, repr) => LabelledTroubles(labelled, repr.Internal?)
  }

  function ItemTroubles(item: Item): seq<Error> {
    match item
    case ObjectItem(object_) => ObjectTroubles(object_, false)
    case TupleItem(fields) => AllTroubles(fields)
    case EnumItem(enum_) => EnumTroubles(enum_)
  }

  /** Big numbers matter only where they are forbidden. */
  function Relevant(bigint: BigInts, troubles: seq<Error>): seq<Error> {
    if troubles == [] then []
    else if troubles[0] == BigIntForbidden && bigint != Forbidden then Relevant(bigint, troubles[1..])
    else [troubles[0]] + Relevant(bigint, troubles[1..])
  }

  lemma {:induction false} RelevantConcat(bigint: BigInts, a: seq<Error>, b: seq<Error>)
    ensures Relevant(bigint, a + b) == Relevant(bigint, a) + Relevant(bigint, b)
  {
    if a == [] {
      assert a + b == b;
    } else {
      assert (a + b)[1..] == a[1..] + b;
      RelevantConcat(bigint, a[1..], b);
    }
  }

  // ---------------------------------------------------------------------------
  // What an emitted expression accepts
  // ---------------------------------------------------------------------------

  ghost function Accepted(check: Check): Shape {
    match check
    case Anything => AllOf([])
    case Numbers => Reals()
    case BigNumbers => Integers()
    case Strings => Texts()
    case Booleans => Booleans()
    case Nulls => iset{Null}
    case Nothing => iset{}
    case Equals(constant) => ConstantOf(constant)
    case OneOf(titles) => iset v: Value | v.Str? && v.text in titles
  }

  ghost function Apply(callee: Combinator, shapes: seq<Shape>): Shape {
    match callee
    case OrNull => if |shapes| == 1 then shapes[0] + iset{Null} else iset{}
    case Arrays => if |shapes| == 1 then ArraysOf(shapes[0]) else iset{}
    case Maps => if |shapes| == 2 then MapsOf(shapes[0], shapes[1]) else iset{}
    case Tuples => TuplesOf(shapes)
    case Intersect => AllOf(shapes)
    case Union => AnyOf(shapes)
  }

  predicate HasEntry(schema: Schema, key: string) {
    schema.Fields? && exists i :: 0 <= i < |schema.entries| && schema.entries[i].key == key
  }

  /** The values that an expression accepts. A deferred reference accepts what the name stands for. */
  ghost function Denote(env: Env, schema: Schema): Shape {
    match schema
    case Leaf(check) => Accepted(check)
    case Call(callee, args) => Apply(callee, DenoteAll(env, args))
    case Fields(entries) => ObjectsOf(DenoteEntries(env, entries))
    case Select(tag, options) => Selected(tag, options, DenoteAll(env, options))
    case Ref(name, args) => env(name, DenoteAll(env, args))
    case Lazy(name, args) => env(name, DenoteAll(env, args))
  }

  ghost function DenoteAll(env: Env, schemas: seq<Schema>): (shapes: seq<Shape>)
    ensures |shapes| == |schemas|
  {
    if schemas == [] then [] else [Denote(env, schemas[0])] + DenoteAll(env, schemas[1..])
  }

  ghost function DenoteEntries(env: Env, entries: seq<Entry>): (keyed: seq<Keyed>)
    ensures |keyed| == |entries|
  {
    if entries == [] then []
    else [Keyed(entries[0].key, entries[0].optional, Denote(env, entries[0].schema))] + DenoteEntries(env, entries[1..])
  }

  predicate Chosen(v: Value, tag: string, options: seq<Schema>, shapes: seq<Shape>)
    requires |shapes| == |options|
  {
    exists i :: 0 <= i < |options| && HasEntry(options[i], tag) && v in shapes[i]
  }

  /** Chooses among objects that have an entry for the tag, and among no others. */
  ghost function Selected(tag: string, options: seq<Schema>, shapes: seq<Shape>): Shape
    requires |shapes| == |options|
  {
    iset v: Value | Chosen(v, tag, options, shapes)
  }

  // ---------------------------------------------------------------------------
  // Emission succeeds without trouble, and keeps the meaning
  // ---------------------------------------------------------------------------

  /** Without relevant trouble an expression for the shape; else the first of it. */
  ghost predicate Renders(env: Env, bigint: BigInts, r: Result<Schema, Error>, troubles: seq<Error>, shape: Shape) {
    var found := Relevant(bigint, troubles);
    if found == [] then r.Ok? && Denote(env, r.value) == shape else r == Err(found[0])
  }

  ghost predicate AllRender(env: Env, bigint: BigInts, r: Result<seq<Schema>, Error>, troubles: seq<Error>, shapes: seq<Shape>) {
    var found := Relevant(bigint, troubles);
    if found == [] then r.Ok? && DenoteAll(env, r.value) == shapes else r == Err(found[0])
  }

  ghost predicate EntriesRender(env: Env, bigint: BigInts, r: Result<seq<Entry>, Error>, troubles: seq<Error>, keyed: seq<Keyed>) {
    var found := Relevant(bigint, troubles);
    if found == [] then r.Ok? && DenoteEntries(env, r.value) == keyed else r == Err(found[0])
  }

  lemma {:induction false} DenoteAllConcat(env: Env, a: seq<Schema>, b: seq<Schema>)
    ensures DenoteAll(env, a + b) == DenoteAll(env, a) + DenoteAll(env, b)
  {
    if a == [] {
      assert a + b == b;
    } else {
      assert (a + b)[1..] == a[1..] + b;
      DenoteAllConcat(env, a[1..], b);
    }
  }

  lemma {:induction false} DenoteEntriesConcat(env: Env, a: seq<Entry>, b: seq<Entry>)
    ensures DenoteEntries(env, a + b) == DenoteEntries(env, a) + DenoteEntries(env, b)
  {
    if a == [] {
      assert a + b == b;
    } else {
      assert (a + b)[1..] == a[1..] + b;
      DenoteEntriesConcat(env, a[1..], b);
    }
  }

  lemma DenoteOne(env: Env, schema: Schema)
    ensures DenoteAll(env, [schema]) == [Denote(env, schema)]
  {
  }

  lemma DenoteTwo(env: Env, a: Schema, b: Schema)
    ensures DenoteAll(env, [a, b]) == [Denote(env, a), Denote(env, b)]
  {
    DenoteAllConcat(env, [a], [b]);
    assert [a, b] == [a] + [b];
  }

  lemma DenoteTag(env: Env, key: string, title: string)
    ensures DenoteEntries(env, [Entry(key, false, TagLiteral(title))]) == [Tag(key, title)]
  {
  }

  lemma DenoteEntry(env: Env, key: string, optional: bool, schema: Schema)
    ensures DenoteEntries(env, [Entry(key, optional, schema)]) == [Keyed(key, optional, Denote(env, schema))]
  {
  }

  lemma AllOfConcat(a: seq<Shape>, b: seq<Shape>)
    ensures AllOf(a + b) == AllOf(a) * AllOf(b)
  {
    forall v: Value
      ensures InEach(v, a + b) <==> InEach(v, a) && InEach(v, b)
    {
      if InEach(v, a + b) {
        forall i | 0 <= i < |a|
          ensures v in a[i]
        {
          assert (a + b)[i] == a[i];
        }
        forall i | 0 <= i < |b|
          ensures v in b[i]
        {
          assert (a + b)[|a| + i] == b[i];
        }
      }
    }
  }

  lemma OneShape(shape: Shape)
    ensures AllOf([shape]) == shape && AnyOf([shape]) == shape
  {
    forall v: Value
      ensures InEach(v, [shape]) <==> v in shape
      ensures InSome(v, [shape]) <==> v in shape
    {
      assert [shape][0] == shape;
    }
  }

  lemma LeafMeans(env: Env, conf: Config, ty: DataType)
    requires ty.Any? || ty.Primitive? || ty.Literal? || ty.Generic?
    ensures Renders(env, conf.bigint, Emit(conf, ty), Troubles(ty), Means(env, conf.bigint, ty))
  {
  }

  lemma NestedMeans(env: Env, conf: Config, inner: DataType)
    requires Renders(env, conf.bigint, Emit(conf, inner), Troubles(inner), Means(env, conf.bigint, inner))
    ensures Renders(env, conf.bigint, Emit(conf, Nullable(inner)), Troubles(inner), Means(env, conf.bigint, Nullable(inner)))
    ensures Renders(env, conf.bigint, Emit(conf, List(inner)), Troubles(inner), Means(env, conf.bigint, List(inner)))
  {
    if Emit(conf, inner).Ok? {
      DenoteOne(env, Emit(conf, inner).value);
    }
  }

  lemma RecordMeans(env: Env, conf: Config, key: DataType, value: DataType)
    requires Renders(env, conf.bigint, Emit(conf, key), Troubles(key), Means(env, conf.bigint, key))
    requires Renders(env, conf.bigint, Emit(conf, value), Troubles(value), Means(env, conf.bigint, value))
    ensures Renders(env, conf.bigint, Emit(conf, Record(key, value)), Troubles(Record(key, value)),
                    Means(env, conf.bigint, Record(key, value)))
  {
    RelevantConcat(conf.bigint, Troubles(key), Troubles(value));
    if Emit(conf, key).Ok? && Emit(conf, value).Ok? {
      DenoteTwo(env, Emit(conf, key).value, Emit(conf, value).value);
    }
  }

  lemma {:induction false} EmitMeans(env: Env, conf: Config, ty: DataType)
    ensures Renders(env, conf.bigint, Emit(conf, ty), Troubles(ty), Means(env, conf.bigint, ty))
    decreases ty
  {
    match ty
    case Any => LeafMeans(env, conf, ty);
    case Primitive(_) => LeafMeans(env, conf, ty);
    case Literal(_) => LeafMeans(env, conf, ty);
    case Generic(_) => LeafMeans(env, conf, ty);
    case Nullable(inner) =>
      EmitMeans(env, conf, inner);
      NestedMeans(env, conf, inner);
    case List(inner) =>
      EmitMeans(env, conf, inner);
      NestedMeans(env, conf, inner);
    case Record(key, value) =>
      EmitMeans(env, conf, key);
      EmitMeans(env, conf, value);
      RecordMeans(env, conf, key, value);
    case Tuple(fields) => TupleRenders(env, conf, fields);
    case Object(object_) => ObjectRenders(env, conf, None, object_);
    case Enum(enum_) => EnumRenders(env, conf, enum_);
    case Named(name, ObjectItem(object_)) => ObjectRenders(env, conf, Some(name), object_);
    case Named(_, TupleItem(fields)) => TupleRenders(env, conf, fields);
    case Named(_, EnumItem(enum_)) => EnumRenders(env, conf, enum_);
    case Reference(_, generics) => AllEmitMeans(env, conf, generics);
  }

  lemma {:induction false} AllEmitMeans(env: Env, conf: Config, types: seq<DataType>)
    ensures AllRender(env, conf.bigint, EmitAll(conf, types), AllTroubles(types), AllMean(env, conf.bigint, types))
    decreases types, 0
  {
    if types != [] {
      EmitMeans(env, conf, types[0]);
      AllEmitMeans(env, conf, types[1..]);
      RelevantConcat(conf.bigint, Troubles(types[0]), AllTroubles(types[1..]));
    }
  }

  lemma {:induction false} TupleRenders(env: Env, conf: Config, fields: seq<DataType>)
    ensures Renders(env, conf.bigint, EmitTuple(conf, fields), AllTroubles(fields), TupleMeans(env, conf.bigint, fields))
    decreases fields, 1
  {
    AllEmitMeans(env, conf, fields);
    if |fields| == 1 && EmitAll(conf, fields).Ok? {
      DenoteOne(env, EmitAll(conf, fields).value[0]);
    }
  }

  lemma {:induction false} FlattenedRender(env: Env, conf: Config, fields: seq<Field>)
    ensures AllRender(env, conf.bigint, EmitFlattened(conf, fields), FieldTroubles(fields, true, false),
                      FlattenedMean(env, conf.bigint, fields))
    decreases fields
  {
    if fields != [] {
      EmitMeans(env, conf, fields[0].ty);
      FlattenedRender(env, conf, fields[1..]);
      RelevantConcat(conf.bigint, Troubles(fields[0].ty), FieldTroubles(fields[1..], true, false));
    }
  }

  lemma {:induction false} FieldsRender(env: Env, conf: Config, fields: seq<Field>, all: bool)
    ensures EntriesRender(env, conf.bigint, EmitEntries(conf, fields, all), FieldTroubles(fields, all, true),
                          EntriesMean(env, conf.bigint, fields, all))
    decreases fields
  {
    if fields != [] {
      EmitMeans(env, conf, fields[0].ty);
      FieldsRender(env, conf, fields[1..], all);
      RelevantConcat(conf.bigint, Troubles(fields[0].ty), FieldTroubles(fields[1..], all, true));
    }
  }

  lemma CombineMeans(env: Env, sections: seq<Schema>, entries: seq<Entry>)
    ensures Denote(env, Combine(sections, entries)) ==
            AllOf(DenoteAll(env, sections)) * (if entries == [] then AllOf([]) else ObjectsOf(DenoteEntries(env, entries)))
  {
    var last := if entries == [] then [] else [Fields(entries)];
    DenoteAllConcat(env, sections, last);
    AllOfConcat(DenoteAll(env, sections), DenoteAll(env, last));
    if entries != [] {
      DenoteOne(env, Fields(entries));
      OneShape(Denote(env, Fields(entries)));
    }
    var parts := sections + last;
    if |parts| == 1 {
      assert parts == [parts[0]];
      DenoteOne(env, parts[0]);
      OneShape(Denote(env, parts[0]));
    }
  }

  lemma RelevantInObject(bigint: BigInts, object_: ObjectType, named: bool)
    ensures Relevant(bigint, ObjectTroubles(object_, named)) ==
            Relevant(bigint, FieldTroubles(object_.fields, true, false)) + Relevant(bigint, FieldTroubles(object_.fields, false, true))
            + (if object_.fields != [] && object_.tag.Some? && !named then [UnableToTagUnnamedType] else [])
  {
    var first, others := FieldTroubles(object_.fields, true, false), FieldTroubles(object_.fields, false, true);
    RelevantConcat(bigint, first, others);
    RelevantConcat(bigint, first + others, if object_.fields != [] && object_.tag.Some? && !named then [UnableToTagUnnamedType] else []);
  }

  lemma {:induction false} ObjectRenders(env: Env, conf: Config, name: Option<Name>, object_: ObjectType)
    ensures Renders(env, conf.bigint, EmitObject(conf, name, object_), ObjectTroubles(object_, name.Some?),
                    ObjectMeans(env, conf.bigint, name, object_))
    decreases object_
  {
    var fields := object_.fields;
    FlattenedRender(env, conf, fields);
    FieldsRender(env, conf, fields, false);
    RelevantInObject(conf.bigint, object_, name.Some?);
    if fields != [] && EmitObject(conf, name, object_).Ok? {
      var sections, entries := EmitFlattened(conf, fields).value, EmitEntries(conf, fields, false).value;
      var tag := if object_.tag.Some? then [Entry(object_.tag.value, false, TagLiteral(name.value))] else [];
      if object_.tag.Some? {
        DenoteTag(env, object_.tag.value, name.value);
      }
      DenoteEntriesConcat(env, entries, tag);
      CombineMeans(env, sections, entries + tag);
    }
  }

  lemma {:induction false} ContentRenders(env: Env, conf: Config, variant: Variant)
    ensures Renders(env, conf.bigint, EmitContent(conf, variant), VariantTroubles(variant, false),
                    ContentMeans(env, conf.bigint, variant))
    decreases variant, 1
  {
    match variant
    case Unit =>
    case Unnamed(fields) => TupleRenders(env, conf, fields);
    case NamedFields(object_) => ObjectRenders(env, conf, None, object_);
  }

  lemma {:induction false} VariantRenders(env: Env, conf: Config, title: string, variant: Variant, repr: Repr)
    ensures Renders(env, conf.bigint, EmitVariant(conf, title, variant, repr), VariantTroubles(variant, repr.Internal?),
                    VariantMeans(env, conf.bigint, title, variant, repr))
    decreases variant, 2
  {
    match repr
    case Internal(tag) => InternalRenders(env, conf, title, variant, tag);
    case Adjacent(tag, content) =>
      ContentRenders(env, conf, variant);
      AdjacentRenders(env, conf, title, variant, tag, content);
    case External =>
      ContentRenders(env, conf, variant);
      if !variant.Unit? && EmitContent(conf, variant).Ok? {
        DenoteEntry(env, title, false, EmitContent(conf, variant).value);
      }
  }

  lemma AdjacentRenders(env: Env, conf: Config, title: string, variant: Variant, tag: string, content: string)
    requires Renders(env, conf.bigint, EmitContent(conf, variant), VariantTroubles(variant, false),
                     ContentMeans(env, conf.bigint, variant))
    ensures Renders(env, conf.bigint, EmitVariant(conf, title, variant, Adjacent(tag, content)), VariantTroubles(variant, false),
                    VariantMeans(env, conf.bigint, title, variant, Adjacent(tag, content)))
  {
    var first := Entry(tag, false, TagLiteral(title));
    DenoteTag(env, tag, title);
    if !variant.Unit? && EmitContent(conf, variant).Ok? {
      var last := Entry(content, false, EmitContent(conf, variant).value);
      DenoteEntry(env, content, false, last.schema);
      DenoteEntriesConcat(env, [first], [last]);
      assert [first, last] == [first] + [last];
      assert DenoteEntries(env, [first, last]) == [Tag(tag, title), Keyed(content, false, ContentMeans(env, conf.bigint, variant))];
    }
  }

  lemma {:induction false} InternalRenders(env: Env, conf: Config, title: string, variant: Variant, tag: string)
    ensures Renders(env, conf.bigint, EmitVariant(conf, title, variant, Internal(tag)), VariantTroubles(variant, true),
                    VariantMeans(env, conf.bigint, title, variant, Internal(tag)))
    decreases variant, 1
  {
    var first := [Entry(tag, false, TagLiteral(title))];
    DenoteTag(env, tag, title);
    match variant
    case Unit =>
    case Unnamed(fields) =>
      TupleRenders(env, conf, fields);
      if EmitTuple(conf, fields).Ok? {
        var content := EmitTuple(conf, fields).value;
        DenoteTwo(env, Fields(first), content);
        BothShapes(Denote(env, Fields(first)), Denote(env, content));
      }
    case NamedFields(object_) =>
      FieldsRender(env, conf, object_.fields, true);
      if EmitEntries(conf, object_.fields, true).Ok? {
        DenoteEntriesConcat(env, first, EmitEntries(conf, object_.fields, true).value);
      }
  }

  lemma BothShapes(a: Shape, b: Shape)
    ensures AllOf([a, b]) == a * b
  {
    assert [a, b] == [a] + [b];
    AllOfConcat([a], [b]);
    OneShape(a);
    OneShape(b);
  }

  lemma {:induction false} LabelledRender(env: Env, conf: Config, labelled: seq<LabelledVariant>, repr: Repr)
    ensures AllRender(env, conf.bigint, EmitLabelled(conf, labelled, repr), LabelledTroubles(labelled, repr.Internal?),
                      LabelledMean(env, conf.bigint, labelled, repr))
    decreases labelled, 0
  {
    if labelled != [] {
      VariantRenders(env, conf, labelled[0].title, labelled[0].variant, repr);
      LabelledRender(env, conf, labelled[1..], repr);
      RelevantConcat(conf.bigint, VariantTroubles(labelled[0].variant, repr.Internal?),
                     LabelledTroubles(labelled[1..], repr.Internal?));
    }
  }

  lemma {:induction false} VariantsRender(env: Env, conf: Config, variants: seq<Variant>)
    ensures AllRender(env, conf.bigint, EmitVariants(conf, variants), VariantsTroubles(variants),
                      VariantsMean(env, conf.bigint, variants))
    decreases variants
  {
    if variants != [] {
      ContentRenders(env, conf, variants[0]);
      VariantsRender(env, conf, variants[1..]);
      RelevantConcat(conf.bigint, VariantTroubles(variants[0], false), VariantsTroubles(variants[1..]));
    }
  }

  /** Unit variants without a tag are their titles, and never any trouble. */
  lemma {:induction false} TitlesMean(env: Env, bigint: BigInts, labelled: seq<LabelledVariant>)
    requires forall v :: v in labelled ==> v.variant.Unit?
    ensures LabelledTroubles(labelled, false) == []
    ensures forall i :: 0 <= i < |labelled| ==> LabelledMean(env, bigint, labelled, External)[i] == iset{Str(labelled[i].title)}
  {
    if labelled != [] {
      assert labelled[0] in labelled;
      TitlesMean(env, bigint, labelled[1..]);
    }
  }

  lemma PicklistRenders(env: Env, bigint: BigInts, labelled: seq<LabelledVariant>)
    requires forall v :: v in labelled ==> v.variant.Unit?
    ensures Accepted(OneOf(Titles(labelled))) == AnyOf(LabelledMean(env, bigint, labelled, External))
  {
    TitlesMean(env, bigint, labelled);
    var shapes := LabelledMean(env, bigint, labelled, External);
    forall v: Value
      ensures v in Accepted(OneOf(Titles(labelled))) <==> InSome(v, shapes)
    {
      if v.Str? && v.text in Titles(labelled) {
        var i :| 0 <= i < |labelled| && Titles(labelled)[i] == v.text;
        assert v in shapes[i];
      }
      if InSome(v, shapes) {
        var i :| 0 <= i < |shapes| && v in shapes[i];
        assert Titles(labelled)[i] == v.text;
      }
    }
  }

  /** Where the tag decides, every variant is an object with an entry for it. */
  lemma {:induction false} LabelledHaveTag(conf: Config, labelled: seq<LabelledVariant>, repr: Repr)
    requires !repr.External? && (repr.Internal? ==> forall v :: v in labelled ==> !v.variant.Unnamed?)
    requires EmitLabelled(conf, labelled, repr).Ok?
    ensures |EmitLabelled(conf, labelled, repr).value| == |labelled|
    ensures forall s :: s in EmitLabelled(conf, labelled, repr).value ==> HasEntry(s, repr.tag)
  {
    if labelled != [] {
      assert labelled[0] in labelled;
      var schema := EmitVariant(conf, labelled[0].title, labelled[0].variant, repr).value;
      assert schema.Fields? && schema.entries[0].key == repr.tag;
      LabelledHaveTag(conf, labelled[1..], repr);
    }
  }

  /** With several variants the tag decides exactly if each of them is an object with an entry for it. */
  lemma DecidedByTag(conf: Config, labelled: seq<LabelledVariant>, repr: Repr)
    requires |labelled| > 1 && !repr.External? && EmitLabelled(conf, labelled, repr).Ok?
    ensures var options := EmitLabelled(conf, labelled, repr).value;
            EmitEnum(conf, Tagged(labelled, repr)) ==
            Ok(if forall s :: s in options ==> HasEntry(s, repr.tag) then Select(repr.tag, options) else Call(Union, options))
  {
    var options := EmitLabelled(conf, labelled, repr).value;
    LabelledInOrder(conf, labelled, repr);
    if repr.Internal? && exists v :: v in labelled && v.variant.Unnamed? {
      var i :| 0 <= i < |labelled| && labelled[i].variant.Unnamed?;
      assert !HasEntry(options[i], repr.tag);
    } else {
      LabelledHaveTag(conf, labelled, repr);
    }
  }

  lemma {:induction false} LabelledInOrder(conf: Config, labelled: seq<LabelledVariant>, repr: Repr)
    requires EmitLabelled(conf, labelled, repr).Ok?
    ensures |EmitLabelled(conf, labelled, repr).value| == |labelled|
    ensures forall i :: 0 <= i < |labelled| ==>
              EmitVariant(conf, labelled[i].title, labelled[i].variant, repr) == Ok(EmitLabelled(conf, labelled, repr).value[i])
  {
    if labelled != [] {
      LabelledInOrder(conf, labelled[1..], repr);
    }
  }

  lemma SelectedIsAny(tag: string, options: seq<Schema>, shapes: seq<Shape>)
    requires |shapes| == |options| && forall s :: s in options ==> HasEntry(s, tag)
    ensures Selected(tag, options, shapes) == AnyOf(shapes)
  {
    forall v: Value
      ensures Chosen(v, tag, options, shapes) <==> InSome(v, shapes)
    {
      if InSome(v, shapes) {
        var i :| 0 <= i < |shapes| && v in shapes[i];
        assert options[i] in options;
      }
    }
  }

  lemma OneOption(env: Env, options: seq<Schema>)
    requires |options| == 1
    ensures AnyOf(DenoteAll(env, options)) == Denote(env, options[0])
  {
    assert options == [options[0]];
    DenoteOne(env, options[0]);
    OneShape(Denote(env, options[0]));
  }

  lemma {:induction false} EnumRenders(env: Env, conf: Config, enum_: EnumType)
    ensures Renders(env, conf.bigint, EmitEnum(conf, enum_), EnumTroubles(enum_), EnumMeans(env, conf.bigint, enum_))
    decreases enum_
  {
    match enum_
    case Untagged(variants) =>
      VariantsRender(env, conf, variants);
      if EmitVariants(conf, variants).Ok? && |EmitVariants(conf, variants).value| == 1 {
        OneOption(env, EmitVariants(conf, variants).value);
      }
    case Tagged(labelled, repr) => TaggedRenders(env, conf, labelled, repr);
  }

  lemma {:induction false} TaggedRenders(env: Env, conf: Config, labelled: seq<LabelledVariant>, repr: Repr)
    ensures Renders(env, conf.bigint, EmitEnum(conf, Tagged(labelled, repr)), LabelledTroubles(labelled, repr.Internal?),
                    AnyOf(LabelledMean(env, conf.bigint, labelled, repr)))
    decreases labelled, 1
  {
    if repr == External && forall v :: v in labelled ==> v.variant.Unit? {
      TitlesMean(env, conf.bigint, labelled);
      PicklistRenders(env, conf.bigint, labelled);
    } else {
      LabelledRender(env, conf, labelled, repr);
      OptionsRender(env, conf, labelled, repr);
    }
  }

  /** One option alone, a choice by tag or a union accepts the same. */
  lemma OptionsRender(env: Env, conf: Config, labelled: seq<LabelledVariant>, repr: Repr)
    requires repr == External ==> exists v :: v in labelled && !v.variant.Unit?
    ensures var options := EmitLabelled(conf, labelled, repr);
      if options.Err? then EmitEnum(conf, Tagged(labelled, repr)) == Err(options.error)
      else
        && EmitEnum(conf, Tagged(labelled, repr)).Ok?
        && Denote(env, EmitEnum(conf, Tagged(labelled, repr)).value) == AnyOf(DenoteAll(env, options.value))
  {
    if EmitLabelled(conf, labelled, repr).Ok? {
      var options := EmitLabelled(conf, labelled, repr).value;
      if |options| == 1 {
        OneOption(env, options);
      }
      if !repr.External? && (repr.Internal? ==> forall v :: v in labelled ==> !v.variant.Unnamed?) {
        LabelledHaveTag(conf, labelled, repr);
        SelectedIsAny(repr.tag, options, DenoteAll(env, options));
      }
    }
  }

  /**
   A body is emitted exactly if nothing in it keeps it from that, and else its first trouble is
   reported; what is emitted accepts the values of the type and no others, whichever names are
   recursive and whatever the names stand for.
   */
  lemma EmitItemMeans(env: Env, conf: Config, item: Item)
    ensures var found := Relevant(conf.bigint, ItemTroubles(item));
      if found == []
      then EmitItem(conf, item).Ok? && Denote(env, EmitItem(conf, item).value) == ItemMeans(env, conf.bigint, item)
      else EmitItem(conf, item) == Err(found[0])
  {
    match item
    case ObjectItem(object_) => ObjectRenders(env, conf, None, object_);
    case TupleItem(fields) => TupleRenders(env, conf, fields);
    case EnumItem(enum_) => EnumRenders(env, conf, enum_);
  }
}
