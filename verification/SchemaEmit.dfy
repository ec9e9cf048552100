/** Emission of one type as a validator expression, and the constants that the expression reads. */
module SchemaEmit {
  import opened Wrappers
  import opened SchemaTypes

  /** An emitted expression. `Ref` is evaluated with the definition, the inside of `Lazy` later. */
  datatype Schema =
    | Leaf(check: Check)
    | Call(callee: Combinator, args: seq<Schema>)
    | Fields(entries: seq<Entry>)
    | Select(tag: string, options: seq<Schema>)
    | Ref(name: Name, args: seq<Schema>)
    | Lazy(name: Name, args: seq<Schema>)

  datatype Entry = Entry(key: string, optional: bool, schema: Schema)

  datatype Check =
    | Anything
    | Numbers
    | BigNumbers
    | Strings
    | Booleans
    | Nulls
    | Nothing
    | Equals(constant: Constant)
    | OneOf(titles: seq<string>)

  datatype Combinator = OrNull | Maps | Arrays | Tuples | Intersect | Union

  datatype BigInts = AsString | AsNumber | AsBigInt | Forbidden

  datatype Config = Config(bigint: BigInts, recursive: set<Name>)

  datatype Error = BigIntForbidden | UnableToTagUnnamedType

  function Emit(conf: Config, ty: DataType): Result<Schema, Error>
    decreases ty
  {
    match ty
    case Any => Ok(Leaf(Anything))
    case Primitive(SmallNumber) => Ok(Leaf(Numbers))
    case Primitive(BigNumber) =>
      (match conf.bigint
       case AsString => Ok(Leaf(Strings))
       case AsNumber => Ok(Leaf(Numbers))
       case AsBigInt => Ok(Leaf(BigNumbers))
       case Forbidden => Err(BigIntForbidden))
    case Primitive(Text) => Ok(Leaf(Strings))
    case Primitive(Boolean) => Ok(Leaf(Booleans))
    case Literal(constant) => Ok(Leaf(if constant == NoneConstant then Nulls else Equals(constant)))
    case Nullable(inner) =>
      var schema :- Emit(conf, inner);
      Ok(Call(OrNull, [schema]))
    case Record(key, value) =>
      var k :- Emit(conf, key);
      var v :- Emit(conf, value);
      Ok(Call(Maps, [k, v]))
    case List(inner) =>
      var schema :- Emit(conf, inner);
      Ok(Call(Arrays, [schema]))
    case Named(name, ObjectItem(object_)) => EmitObject(conf, Some(name), object_)
    case Named(name, TupleItem(fields)) => EmitTuple(conf, fields)
    case Named(name, EnumItem(enum_)) => EmitEnum(conf, enum_)
    case Tuple(fields) => EmitTuple(conf, fields)
    case Object(object_) => EmitObject(conf, None, object_)
    case Enum(enum_) => EmitEnum(conf, enum_)
    case Reference(name, generics) =>
      var args :- EmitAll(conf, generics);
      Ok(if name in conf.recursive then Lazy(name, args) else Ref(name, args))
    case Generic(ident) => Ok(Ref(ident, []))
  }

  function EmitAll(conf: Config, types: seq<DataType>): Result<seq<Schema>, Error>
    decreases types, 0
  {
    if types == [] then Ok([])
    else
      var first :- Emit(conf, types[0]);
      var rest :- EmitAll(conf, types[1..]);
      Ok([first] + rest)
  }

  function EmitTuple(conf: Config, fields: seq<DataType>): Result<Schema, Error>
    decreases fields, 1
  {
    if fields == [] then Ok(Leaf(Nulls))
    else
      var parts :- EmitAll(conf, fields);
      Ok(if |fields| == 1 && |parts| == 1 then parts[0] else Call(Tuples, parts))
  }

  /** The types of the flattened fields. */
  function EmitFlattened(conf: Config, fields: seq<Field>): Result<seq<Schema>, Error>
    decreases fields
  {
    if fields == [] then Ok([])
    else if !fields[0].flatten then EmitFlattened(conf, fields[1..])
    else
      var first :- Emit(conf, fields[0].ty);
      var rest :- EmitFlattened(conf, fields[1..]);
      Ok([first] + rest)
  }

  /** The fields written out by key: all of them, or those that are not flattened. */
  function EmitEntries(conf: Config, fields: seq<Field>, all: bool): Result<seq<Entry>, Error>
    decreases fields
  {
    if fields == [] then Ok([])
    else if fields[0].flatten && !all then EmitEntries(conf, fields[1..], all)
    else
      var schema :- Emit(conf, fields[0].ty);
      var rest :- EmitEntries(conf, fields[1..], all);
      Ok([Entry(fields[0].key, fields[0].optional, schema)] + rest)
  }

  function TagLiteral(text: string): Schema {
    Leaf(Equals(TextConstant(text)))
  }

  function EmitObject(conf: Config, name: Option<Name>, object_: ObjectType): Result<Schema, Error>
    decreases object_
  {
    if object_.fields == [] then Ok(Leaf(Nulls))
    else
      var sections :- EmitFlattened(conf, object_.fields);
      var entries :- EmitEntries(conf, object_.fields, false);
      if object_.tag.Some? && name.None? then Err(UnableToTagUnnamedType)
      else
        Ok(Combine(sections, entries + (if object_.tag.Some? then [Entry(object_.tag.value, false, TagLiteral(name.value))] else [])))
  }

  function Combine(sections: seq<Schema>, entries: seq<Entry>): Schema {
    var parts := sections + (if entries == [] then [] else [Fields(entries)]);
    if |parts| == 1 then parts[0] else Call(Intersect, parts)
  }

  /** The type of a variant that is not a unit. */
  function EmitContent(conf: Config, variant: Variant): Result<Schema, Error>
    decreases variant, 1
  {
    match variant
    case Unit => Ok(Leaf(Nulls))
    case Unnamed(fields) => EmitTuple(conf, fields)
    case NamedFields(object_) => EmitObject(conf, None, object_)
  }

  function EmitVariant(conf: Config, name: string, variant: Variant, repr: Repr): Result<Schema, Error>
    decreases variant, 2
  {
    match (repr, variant)
    case (Internal(tag), Unit) => Ok(Fields([Entry(tag, false, TagLiteral(name))]))
    case (Internal(tag), Unnamed(fields)) =>
      var content :- EmitTuple(conf, fields);
      Ok(Call(Intersect, [Fields([Entry(tag, false, TagLiteral(name))]), content]))
    case (Internal(tag), NamedFields(object_)) =>
      var entries :- EmitEntries(conf, object_.fields, true);
      Ok(Fields([Entry(tag, false, TagLiteral(name))] + entries))
    case (External, Unit) => Ok(TagLiteral(name))
    case (External, v) =>
      var content :- EmitContent(conf, v);
      Ok(Fields([Entry(name, false, content)]))
    case (Adjacent(tag, _), Unit) => Ok(Fields([Entry(tag, false, TagLiteral(name))]))
    case (Adjacent(tag, key), v) =>
      var content :- EmitContent(conf, v);
      Ok(Fields([Entry(tag, false, TagLiteral(name)), Entry(key, false, content)]))
  }

  function EmitLabelled(conf: Config, labelled: seq<LabelledVariant>, repr: Repr): Result<seq<Schema>, Error>
    decreases labelled
  {
    if labelled == [] then Ok([])
    else
      var first :- EmitVariant(conf, labelled[0].title, labelled[0].variant, repr);
      var rest :- EmitLabelled(conf, labelled[1..], repr);
      Ok([first] + rest)
  }

  function EmitVariants(conf: Config, variants: seq<Variant>): Result<seq<Schema>, Error>
    decreases variants
  {
    if variants == [] then Ok([])
    else
      var first :- EmitContent(conf, variants[0]);
      var rest :- EmitVariants(conf, variants[1..]);
      Ok([first] + rest)
  }

  function Titles(labelled: seq<LabelledVariant>): seq<string> {
    seq(|labelled|, i requires 0 <= i < |labelled| => labelled[i].title)
  }

  function EmitEnum(conf: Config, enum_: EnumType): Result<Schema, Error>
    decreases enum_
  {
    match enum_
    case Untagged(variants) =>
      if variants == [] then Ok(Leaf(Nothing))
      else
        var options :- EmitVariants(conf, variants);
        Ok(if |options| == 1 then options[0] else Call(Union, options))
    case Tagged(labelled, repr) =>
      if labelled == [] then Ok(Leaf(Nothing))
      else if repr == External && forall v :: v in labelled ==> v.variant.Unit? then
        Ok(Leaf(OneOf(Titles(labelled))))
      else
        var options :- EmitLabelled(conf, labelled, repr);
        Ok(
          if |options| == 1 then options[0]
          else if repr.Internal? && forall v :: v in labelled ==> !v.variant.Unnamed? then Select(repr.tag, options)
          else if repr.Adjacent? then Select(repr.tag, options)
          else Call(Union, options))
  }

  function EmitItem(conf: Config, item: Item): Result<Schema, Error> {
    match item
    case ObjectItem(object_) => EmitObject(conf, None, object_)
    case TupleItem(fields) => EmitTuple(conf, fields)
    case EnumItem(enum_) => EmitEnum(conf, enum_)
  }

  // ---------------------------------------------------------------------------
  // Reads
  // ---------------------------------------------------------------------------

  /** The constants that evaluating the expression reads at once. */
  function Reads(schema: Schema): set<Name> {
    match schema
    case Leaf(_) => {}
    case Call(_, args) => ReadsAll(args)
    case Fields(entries) => ReadsEntries(entries)
    case Select(_, options) => ReadsAll(options)
    case Ref(name, args) => {name} + ReadsAll(args)
    case Lazy(_, _) => {}
  }

  function ReadsAll(schemas: seq<Schema>): set<Name> {
    if schemas == [] then {} else Reads(schemas[0]) + ReadsAll(schemas[1..])
  }

  function ReadsEntries(entries: seq<Entry>): set<Name> {
    if entries == [] then {} else Reads(entries[0].schema) + ReadsEntries(entries[1..])
  }

  lemma {:induction false} ReadsAllConcat(a: seq<Schema>, b: seq<Schema>)
    ensures ReadsAll(a + b) == ReadsAll(a) + ReadsAll(b)
  {
    if a == [] {
      assert a + b == b;
    } else {
      assert (a + b)[1..] == a[1..] + b;
      ReadsAllConcat(a[1..], b);
    }
  }

  lemma {:induction false} ReadsEntriesConcat(a: seq<Entry>, b: seq<Entry>)
    ensures ReadsEntries(a + b) == ReadsEntries(a) + ReadsEntries(b)
  {
    if a == [] {
      assert a + b == b;
    } else {
      assert (a + b)[1..] == a[1..] + b;
      ReadsEntriesConcat(a[1..], b);
    }
  }

  lemma OneRead(schema: Schema)
    ensures ReadsAll([schema]) == Reads(schema)
  {
  }

  lemma TwoReads(a: Schema, b: Schema)
    ensures ReadsAll([a, b]) == Reads(a) + Reads(b)
  {
    assert [a, b] == [a] + [b];
    ReadsAllConcat([a], [b]);
    OneRead(a);
    OneRead(b);
  }

  lemma OneEntry(key: string, schema: Schema)
    ensures ReadsEntries([Entry(key, false, schema)]) == Reads(schema)
  {
  }

  lemma CombineReads(sections: seq<Schema>, entries: seq<Entry>)
    ensures Reads(Combine(sections, entries)) == ReadsAll(sections) + ReadsEntries(entries)
  {
    var last := if entries == [] then [] else [Fields(entries)];
    ReadsAllConcat(sections, last);
    if entries != [] {
      OneRead(Fields(entries));
    }
    if |sections + last| == 1 {
      OneRead((sections + last)[0]);
    }
  }
}
