/** How the set of recursive names decides which constants an emitted expression reads. */
module SchemaReads {
  import opened Wrappers
  import opened SchemaTypes
  import opened SchemaEmit

  // ---------------------------------------------------------------------------
  // More recursive names: the same outcome, and fewer reads
  // ---------------------------------------------------------------------------

  predicate MoreRecursive(a: Config, b: Config) {
    a.bigint == b.bigint && a.recursive <= b.recursive
  }

  /** Both fail alike, or both succeed and the second reads no more. */
  predicate Shrinks(a: Result<Schema, Error>, b: Result<Schema, Error>) {
    if a.Ok? then b.Ok? && Reads(b.value) <= Reads(a.value) else a == b
  }

  predicate ShrinksAll(a: Result<seq<Schema>, Error>, b: Result<seq<Schema>, Error>) {
    if a.Ok? then b.Ok? && |a.value| == |b.value| && ReadsAll(b.value) <= ReadsAll(a.value) else a == b
  }

  predicate ShrinksEntries(a: Result<seq<Entry>, Error>, b: Result<seq<Entry>, Error>) {
    if a.Ok? then b.Ok? && |a.value| == |b.value| && ReadsEntries(b.value) <= ReadsEntries(a.value) else a == b
  }

  /** Whether a type can be emitted, and the error if not, does not depend on the recursive names. */
  lemma {:induction false} EmitAntitone(a: Config, b: Config, ty: DataType)
    requires MoreRecursive(a, b)
    ensures Shrinks(Emit(a, ty), Emit(b, ty))
    decreases ty
  {
    match ty
    case Nullable(inner) =>
      EmitAntitone(a, b, inner);
      NestedReads(a, b, inner, OrNull);
    case List(inner) =>
      EmitAntitone(a, b, inner);
      NestedReads(a, b, inner, Arrays);
    case Record(key, value) =>
      EmitAntitone(a, b, key);
      EmitAntitone(a, b, value);
      var ka, va, kb, vb := Emit(a, key), Emit(a, value), Emit(b, key), Emit(b, value);
      if ka.Ok? && va.Ok? {
        TwoReads(ka.value, va.value);
        TwoReads(kb.value, vb.value);
      }
    case Named(_, ObjectItem(object_)) => ObjectAntitone(a, b, Some(ty.name), object_);
    case Named(_, TupleItem(fields)) => TupleAntitone(a, b, fields);
    case Named(_, EnumItem(enum_)) => EnumAntitone(a, b, enum_);
    case Tuple(fields) => TupleAntitone(a, b, fields);
    case Object(object_) => ObjectAntitone(a, b, None, object_);
    case Enum(enum_) => EnumAntitone(a, b, enum_);
    case Reference(_, generics) => AllAntitone(a, b, generics);
    case _ =>
  }

  lemma NestedReads(a: Config, b: Config, inner: DataType, callee: Combinator)
    requires Shrinks(Emit(a, inner), Emit(b, inner))
    ensures Emit(a, inner).Ok? ==> Reads(Call(callee, [Emit(b, inner).value])) <= Reads(Call(callee, [Emit(a, inner).value]))
  {
    if Emit(a, inner).Ok? {
      OneRead(Emit(a, inner).value);
      OneRead(Emit(b, inner).value);
    }
  }

  lemma {:induction false} AllAntitone(a: Config, b: Config, types: seq<DataType>)
    requires MoreRecursive(a, b)
    ensures ShrinksAll(EmitAll(a, types), EmitAll(b, types))
    decreases types, 0
  {
    if types != [] {
      EmitAntitone(a, b, types[0]);
      AllAntitone(a, b, types[1..]);
    }
  }

  lemma {:induction false} TupleAntitone(a: Config, b: Config, fields: seq<DataType>)
    requires MoreRecursive(a, b)
    ensures Shrinks(EmitTuple(a, fields), EmitTuple(b, fields))
    decreases fields, 1
  {
    AllAntitone(a, b, fields);
    TupleReads(a, fields);
    TupleReads(b, fields);
  }

  lemma TupleReads(conf: Config, fields: seq<DataType>)
    ensures var parts := EmitAll(conf, fields);
      if parts.Ok?
      then |parts.value| == |fields| && EmitTuple(conf, fields).Ok? && Reads(EmitTuple(conf, fields).value) == ReadsAll(parts.value)
      else EmitTuple(conf, fields) == Err(parts.error)
  {
  }

  lemma {:induction false} FlattenedAntitone(a: Config, b: Config, fields: seq<Field>)
    requires MoreRecursive(a, b)
    ensures ShrinksAll(EmitFlattened(a, fields), EmitFlattened(b, fields))
    decreases fields
  {
    if fields != [] {
      EmitAntitone(a, b, fields[0].ty);
      FlattenedAntitone(a, b, fields[1..]);
    }
  }

  lemma {:induction false} EntriesAntitone(a: Config, b: Config, fields: seq<Field>, all: bool)
    requires MoreRecursive(a, b)
    ensures ShrinksEntries(EmitEntries(a, fields, all), EmitEntries(b, fields, all))
    decreases fields
  {
    if fields != [] {
      EmitAntitone(a, b, fields[0].ty);
      EntriesAntitone(a, b, fields[1..], all);
      if Emit(a, fields[0].ty).Ok? {
        OneRead(Emit(a, fields[0].ty).value);
        OneRead(Emit(b, fields[0].ty).value);
      }
    }
  }

  lemma {:induction false} ObjectAntitone(a: Config, b: Config, name: Option<Name>, object_: ObjectType)
    requires MoreRecursive(a, b)
    ensures Shrinks(EmitObject(a, name, object_), EmitObject(b, name, object_))
    decreases object_
  {
    FlattenedAntitone(a, b, object_.fields);
    EntriesAntitone(a, b, object_.fields, false);
    ObjectReads(a, name, object_);
    ObjectReads(b, name, object_);
  }

  /** An object reads what its flattened and its other fields read; a tag reads nothing. */
  lemma ObjectReads(conf: Config, name: Option<Name>, object_: ObjectType)
    ensures
      var sections, entries := EmitFlattened(conf, object_.fields), EmitEntries(conf, object_.fields, false);
      if sections.Err? then EmitObject(conf, name, object_) == Err(sections.error)
      else if entries.Err? then EmitObject(conf, name, object_) == Err(entries.error)
      else if object_.fields != [] && object_.tag.Some? && name.None? then
        EmitObject(conf, name, object_) == Err(UnableToTagUnnamedType)
      else
        && EmitObject(conf, name, object_).Ok?
        && Reads(EmitObject(conf, name, object_).value) == ReadsAll(sections.value) + ReadsEntries(entries.value)
  {
    var sections, entries := EmitFlattened(conf, object_.fields), EmitEntries(conf, object_.fields, false);
    if object_.fields != [] && sections.Ok? && entries.Ok? && (object_.tag.Some? ==> name.Some?) {
      var tag := if object_.tag.Some? then [Entry(object_.tag.value, false, TagLiteral(name.value))] else [];
      if object_.tag.Some? {
        OneEntry(object_.tag.value, TagLiteral(name.value));
      }
      ReadsEntriesConcat(entries.value, tag);
      CombineReads(sections.value, entries.value + tag);
    }
  }

  lemma {:induction false} ContentAntitone(a: Config, b: Config, variant: Variant)
    requires MoreRecursive(a, b)
    ensures Shrinks(EmitContent(a, variant), EmitContent(b, variant))
    decreases variant, 1
  {
    match variant
    case Unit =>
    case Unnamed(fields) => TupleAntitone(a, b, fields);
    case NamedFields(object_) => ObjectAntitone(a, b, None, object_);
  }

  lemma {:induction false} VariantAntitone(a: Config, b: Config, name: string, variant: Variant, repr: Repr)
    requires MoreRecursive(a, b)
    ensures Shrinks(EmitVariant(a, name, variant, repr), EmitVariant(b, name, variant, repr))
    decreases variant, 2
  {
    ContentAntitone(a, b, variant);
    match variant
    case Unit =>
    case Unnamed(fields) =>
      TupleAntitone(a, b, fields);
      VariantContent(a, name, variant, repr);
      VariantContent(b, name, variant, repr);
    case NamedFields(object_) =>
      EntriesAntitone(a, b, object_.fields, true);
      VariantContent(a, name, variant, repr);
      VariantContent(b, name, variant, repr);
  }

  /** A variant reads what its content reads; written in place, what its fields read. */
  lemma VariantContent(conf: Config, name: string, variant: Variant, repr: Repr)
    requires !variant.Unit?
    ensures if variant.NamedFields? && repr.Internal? then
        var entries := EmitEntries(conf, variant.object_.fields, true);
        if entries.Ok?
        then EmitVariant(conf, name, variant, repr).Ok?
             && Reads(EmitVariant(conf, name, variant, repr).value) == ReadsEntries(entries.value)
        else EmitVariant(conf, name, variant, repr) == Err(entries.error)
      else
        var content := EmitContent(conf, variant);
        if content.Ok?
        then EmitVariant(conf, name, variant, repr).Ok?
             && Reads(EmitVariant(conf, name, variant, repr).value) == Reads(content.value)
        else EmitVariant(conf, name, variant, repr) == content
  {
    if repr.Internal? && variant.NamedFields? {
      var entries := EmitEntries(conf, variant.object_.fields, true);
      if entries.Ok? {
        OneEntry(repr.tag, TagLiteral(name));
        ReadsEntriesConcat([Entry(repr.tag, false, TagLiteral(name))], entries.value);
      }
    } else {
      var content := EmitContent(conf, variant);
      if content.Ok? {
        match repr
        case Internal(tag) =>
          OneEntry(tag, TagLiteral(name));
          TwoReads(Fields([Entry(tag, false, TagLiteral(name))]), content.value);
        case External =>
          OneEntry(name, content.value);
        case Adjacent(tag, key) =>
          var first := [Entry(tag, false, TagLiteral(name))];
          assert [Entry(tag, false, TagLiteral(name)), Entry(key, false, content.value)] == first + [Entry(key, false, content.value)];
          OneEntry(tag, TagLiteral(name));
          OneEntry(key, content.value);
          ReadsEntriesConcat(first, [Entry(key, false, content.value)]);
      }
    }
  }

  lemma {:induction false} LabelledAntitone(a: Config, b: Config, labelled: seq<LabelledVariant>, repr: Repr)
    requires MoreRecursive(a, b)
    ensures ShrinksAll(EmitLabelled(a, labelled, repr), EmitLabelled(b, labelled, repr))
    decreases labelled
  {
    if labelled != [] {
      VariantAntitone(a, b, labelled[0].title, labelled[0].variant, repr);
      LabelledAntitone(a, b, labelled[1..], repr);
    }
  }

  lemma {:induction false} VariantsAntitone(a: Config, b: Config, variants: seq<Variant>)
    requires MoreRecursive(a, b)
    ensures ShrinksAll(EmitVariants(a, variants), EmitVariants(b, variants))
    decreases variants
  {
    if variants != [] {
      ContentAntitone(a, b, variants[0]);
      VariantsAntitone(a, b, variants[1..]);
    }
  }

  function Alternatives(conf: Config, enum_: EnumType): Result<seq<Schema>, Error> {
    match enum_
    case Untagged(variants) => EmitVariants(conf, variants)
    case Tagged(labelled, repr) => EmitLabelled(conf, labelled, repr)
  }

  predicate IsConstant(enum_: EnumType) {
    match enum_
    case Untagged(variants) => variants == []
    case Tagged(labelled, repr) => labelled == [] || (repr == External && forall v :: v in labelled ==> v.variant.Unit?)
  }

  /** An enum reads what its alternatives read, whichever form they are combined in. */
  lemma EnumReads(conf: Config, enum_: EnumType)
    ensures IsConstant(enum_) ==> EmitEnum(conf, enum_).Ok? && Reads(EmitEnum(conf, enum_).value) == {}
    ensures !IsConstant(enum_) ==>
              var options := Alternatives(conf, enum_);
              if options.Ok?
              then EmitEnum(conf, enum_).Ok? && Reads(EmitEnum(conf, enum_).value) == ReadsAll(options.value)
              else EmitEnum(conf, enum_) == Err(options.error)
  {
  }

  lemma {:induction false} EnumAntitone(a: Config, b: Config, enum_: EnumType)
    requires MoreRecursive(a, b)
    ensures Shrinks(EmitEnum(a, enum_), EmitEnum(b, enum_))
    decreases enum_
  {
    match enum_ {
      case Untagged(variants) => VariantsAntitone(a, b, variants);
      case Tagged(labelled, repr) => LabelledAntitone(a, b, labelled, repr);
    }
    EnumReads(a, enum_);
    EnumReads(b, enum_);
  }

  lemma ItemAntitone(a: Config, b: Config, item: Item)
    requires MoreRecursive(a, b)
    ensures Shrinks(EmitItem(a, item), EmitItem(b, item))
  {
    match item
    case ObjectItem(object_) => ObjectAntitone(a, b, None, object_);
    case TupleItem(fields) => TupleAntitone(a, b, fields);
    case EnumItem(enum_) => EnumAntitone(a, b, enum_);
  }

  // ---------------------------------------------------------------------------
  // Exactly which names are read
  // ---------------------------------------------------------------------------

  /** The names that occur in a type outside of references to recursive ones. */
  function Bare(ty: DataType, recursive: set<Name>): set<Name>
    decreases ty
  {
    match ty
    case Nullable(inner) => Bare(inner, recursive)
    case List(inner) => Bare(inner, recursive)
    case Record(key, value) => Bare(key, recursive) + Bare(value, recursive)
    case Tuple(fields) => BareAll(fields, recursive)
    case Object(object_) => BareFields(object_.fields, recursive)
    case Enum(enum_) => BareEnum(enum_, recursive)
    case Named(_, item) => BareItem(item, recursive)
    case Reference(name, generics) => if name in recursive then {} else {name} + BareAll(generics, recursive)
    case Generic(ident) => {ident}
    case _ => {}
  }

  function BareAll(types: seq<DataType>, recursive: set<Name>): set<Name>
    decreases types
  {
    if types == [] then {} else Bare(types[0], recursive) + BareAll(types[1..], recursive)
  }

  function BareFields(fields: seq<Field>, recursive: set<Name>): set<Name>
    decreases fields
  {
    if fields == [] then {} else Bare(fields[0].ty, recursive) + BareFields(fields[1..], recursive)
  }

  function BareVariant(variant: Variant, recursive: set<Name>): set<Name>
    decreases variant
  {
    match variant
    case Unit => {}
    case Unnamed(fields) => BareAll(fields, recursive)
    case NamedFields(object_) => BareFields(object_.fields, recursive)
  }

  function BareVariants(variants: seq<Variant>, recursive: set<Name>): set<Name>
    decreases variants
  {
    if variants == [] then {} else BareVariant(variants[0], recursive) + BareVariants(variants[1..], recursive)
  }

  function BareLabelled(labelled: seq<LabelledVariant>, recursive: set<Name>): set<Name>
    decreases labelled
  {
    if labelled == [] then {} else BareVariant(labelled[0].variant, recursive) + BareLabelled(labelled[1..], recursive)
  }

  function BareEnum(enum_: EnumType, recursive: set<Name>): set<Name>
    decreases enum_
  {
    match enum_
    case Untagged(variants) => BareVariants(variants, recursive)
    case Tagged(labelled, _) => BareLabelled(labelled, recursive)
  }

  function BareItem(item: Item, recursive: set<Name>): set<Name>
    decreases item
  {
    match item
    case ObjectItem(object_) => BareFields(object_.fields, recursive)
    case TupleItem(fields) => BareAll(fields, recursive)
    case EnumItem(enum_) => BareEnum(enum_, recursive)
  }

  predicate ReadsExactly(r: Result<Schema, Error>, names: set<Name>) {
    r.Ok? ==> Reads(r.value) == names
  }

  predicate AllReadExactly(r: Result<seq<Schema>, Error>, names: set<Name>) {
    r.Ok? ==> ReadsAll(r.value) == names
  }

  /** No occurrence is lost in emission, and only references to recursive names are deferred. */
  lemma {:induction false} EmitReads(conf: Config, ty: DataType)
    ensures ReadsExactly(Emit(conf, ty), Bare(ty, conf.recursive))
    decreases ty
  {
    match ty
    case Nullable(inner) =>
      EmitReads(conf, inner);
      if Emit(conf, inner).Ok? {
        OneRead(Emit(conf, inner).value);
      }
    case List(inner) =>
      EmitReads(conf, inner);
      if Emit(conf, inner).Ok? {
        OneRead(Emit(conf, inner).value);
      }
    case Record(key, value) =>
      EmitReads(conf, key);
      EmitReads(conf, value);
      if Emit(conf, key).Ok? && Emit(conf, value).Ok? {
        TwoReads(Emit(conf, key).value, Emit(conf, value).value);
      }
    case Tuple(fields) =>
      EmitAllReads(conf, fields);
      TupleReads(conf, fields);
    case Object(object_) => EmitObjectReads(conf, None, object_);
    case Enum(enum_) => EmitEnumReads(conf, enum_);
    case Named(name, ObjectItem(object_)) => EmitObjectReads(conf, Some(name), object_);
    case Named(_, TupleItem(fields)) =>
      EmitAllReads(conf, fields);
      TupleReads(conf, fields);
    case Named(_, EnumItem(enum_)) => EmitEnumReads(conf, enum_);
    case Reference(_, generics) => EmitAllReads(conf, generics);
    case _ =>
  }

  lemma {:induction false} EmitAllReads(conf: Config, types: seq<DataType>)
    ensures AllReadExactly(EmitAll(conf, types), BareAll(types, conf.recursive))
    decreases types
  {
    if types != [] {
      EmitReads(conf, types[0]);
      EmitAllReads(conf, types[1..]);
    }
  }

  lemma {:induction false} EmitFieldsRead(conf: Config, fields: seq<Field>)
    ensures EmitFlattened(conf, fields).Ok? && EmitEntries(conf, fields, false).Ok? ==>
              ReadsAll(EmitFlattened(conf, fields).value) + ReadsEntries(EmitEntries(conf, fields, false).value)
              == BareFields(fields, conf.recursive)
    decreases fields
  {
    if fields != [] {
      EmitReads(conf, fields[0].ty);
      EmitFieldsRead(conf, fields[1..]);
      if Emit(conf, fields[0].ty).Ok? {
        OneRead(Emit(conf, fields[0].ty).value);
      }
    }
  }

  lemma {:induction false} EmitEntriesRead(conf: Config, fields: seq<Field>)
    ensures EmitEntries(conf, fields, true).Ok? ==>
              ReadsEntries(EmitEntries(conf, fields, true).value) == BareFields(fields, conf.recursive)
    decreases fields
  {
    if fields != [] {
      EmitReads(conf, fields[0].ty);
      EmitEntriesRead(conf, fields[1..]);
      if Emit(conf, fields[0].ty).Ok? {
        OneRead(Emit(conf, fields[0].ty).value);
      }
    }
  }

  lemma {:induction false} EmitObjectReads(conf: Config, name: Option<Name>, object_: ObjectType)
    ensures ReadsExactly(EmitObject(conf, name, object_), BareFields(object_.fields, conf.recursive))
    decreases object_
  {
    EmitFieldsRead(conf, object_.fields);
    ObjectReads(conf, name, object_);
  }

  lemma {:induction false} EmitVariantReads(conf: Config, name: string, variant: Variant, repr: Repr)
    ensures ReadsExactly(EmitContent(conf, variant), BareVariant(variant, conf.recursive))
    ensures ReadsExactly(EmitVariant(conf, name, variant, repr), BareVariant(variant, conf.recursive))
    decreases variant
  {
    match variant
    case Unit =>
      if !repr.External? {
        OneEntry(repr.tag, TagLiteral(name));
      }
    case Unnamed(fields) =>
      EmitAllReads(conf, fields);
      TupleReads(conf, fields);
      VariantContent(conf, name, variant, repr);
    case NamedFields(object_) =>
      EmitObjectReads(conf, None, object_);
      EmitEntriesRead(conf, object_.fields);
      VariantContent(conf, name, variant, repr);
  }

  lemma {:induction false} EmitVariantsRead(conf: Config, variants: seq<Variant>)
    ensures AllReadExactly(EmitVariants(conf, variants), BareVariants(variants, conf.recursive))
    decreases variants
  {
    if variants != [] {
      EmitVariantReads(conf, "", variants[0], External);
      EmitVariantsRead(conf, variants[1..]);
    }
  }

  lemma {:induction false} EmitLabelledRead(conf: Config, labelled: seq<LabelledVariant>, repr: Repr)
    ensures AllReadExactly(EmitLabelled(conf, labelled, repr), BareLabelled(labelled, conf.recursive))
    decreases labelled
  {
    if labelled != [] {
      EmitVariantReads(conf, labelled[0].title, labelled[0].variant, repr);
      EmitLabelledRead(conf, labelled[1..], repr);
    }
  }

  lemma {:induction false} UnitsReadNothing(labelled: seq<LabelledVariant>, recursive: set<Name>)
    requires forall v :: v in labelled ==> v.variant.Unit?
    ensures BareLabelled(labelled, recursive) == {}
  {
    if labelled != [] {
      assert labelled[0] in labelled;
      UnitsReadNothing(labelled[1..], recursive);
    }
  }

  lemma {:induction false} EmitEnumReads(conf: Config, enum_: EnumType)
    ensures ReadsExactly(EmitEnum(conf, enum_), BareEnum(enum_, conf.recursive))
    decreases enum_
  {
    EnumReads(conf, enum_);
    match enum_
    case Untagged(variants) => EmitVariantsRead(conf, variants);
    case Tagged(labelled, repr) =>
      EmitLabelledRead(conf, labelled, repr);
      if IsConstant(enum_) {
        UnitsReadNothing(labelled, conf.recursive);
      }
  }

  /** An exported body reads exactly the names that occur in it outside of references to recursive ones. */
  lemma EmitItemReads(conf: Config, item: Item)
    ensures ReadsExactly(EmitItem(conf, item), BareItem(item, conf.recursive))
  {
    match item
    case ObjectItem(object_) => EmitObjectReads(conf, None, object_);
    case TupleItem(fields) =>
      EmitAllReads(conf, fields);
      TupleReads(conf, fields);
    case EnumItem(enum_) => EmitEnumReads(conf, enum_);
  }

  // ---------------------------------------------------------------------------
  // Plain types: only references, and all of them walked
  // ---------------------------------------------------------------------------

  /** No inline enum, no inlined named type and no generic parameter inside. */
  predicate Plain(ty: DataType) {
    match ty
    case Nullable(inner) => Plain(inner)
    case List(inner) => Plain(inner)
    case Record(key, value) => Plain(key) && Plain(value)
    case Tuple(fields) => AllPlain(fields)
    case Object(object_) => PlainFields(object_.fields)
    case Reference(_, generics) => AllPlain(generics)
    case Named(_, _) => false
    case Enum(_) => false
    case Generic(_) => false
    case _ => true
  }

  predicate AllPlain(types: seq<DataType>) {
    types == [] || (Plain(types[0]) && AllPlain(types[1..]))
  }

  predicate PlainFields(fields: seq<Field>) {
    fields == [] || (Plain(fields[0].ty) && PlainFields(fields[1..]))
  }

  predicate PlainVariant(variant: Variant) {
    match variant
    case Unit => true
    case Unnamed(fields) => AllPlain(fields)
    case NamedFields(object_) => PlainFields(object_.fields)
  }

  predicate PlainVariants(variants: seq<Variant>) {
    variants == [] || (PlainVariant(variants[0]) && PlainVariants(variants[1..]))
  }

  predicate PlainItem(item: Item) {
    match item
    case ObjectItem(object_) => PlainFields(object_.fields)
    case TupleItem(fields) => AllPlain(fields)
    case EnumItem(Untagged(variants)) => PlainVariants(variants)
    case EnumItem(Tagged(labelled, _)) => PlainVariants(VariantsOf(labelled))
  }

  lemma {:induction false} PlainBare(ty: DataType, recursive: set<Name>)
    requires Plain(ty)
    ensures Bare(ty, recursive) <= TypeDeps(ty) - recursive
    decreases ty
  {
    match ty
    case Nullable(inner) => PlainBare(inner, recursive);
    case List(inner) => PlainBare(inner, recursive);
    case Record(key, value) =>
      PlainBare(key, recursive);
      PlainBare(value, recursive);
    case Tuple(fields) => PlainBareAll(fields, recursive);
    case Object(object_) => PlainBareFields(object_.fields, recursive);
    case Reference(_, generics) => PlainBareAll(generics, recursive);
    case _ =>
  }

  lemma {:induction false} PlainBareAll(types: seq<DataType>, recursive: set<Name>)
    requires AllPlain(types)
    ensures BareAll(types, recursive) <= AllDeps(types) - recursive
    decreases types
  {
    if types != [] {
      PlainBare(types[0], recursive);
      PlainBareAll(types[1..], recursive);
    }
  }

  lemma {:induction false} PlainBareFields(fields: seq<Field>, recursive: set<Name>)
    requires PlainFields(fields)
    ensures BareFields(fields, recursive) <= FieldDeps(fields) - recursive
    decreases fields
  {
    if fields != [] {
      PlainBare(fields[0].ty, recursive);
      PlainBareFields(fields[1..], recursive);
    }
  }

  lemma PlainBareVariant(variant: Variant, recursive: set<Name>)
    requires PlainVariant(variant)
    ensures BareVariant(variant, recursive) <= VariantDeps(variant) - recursive
  {
    match variant
    case Unit =>
    case Unnamed(fields) => PlainBareAll(fields, recursive);
    case NamedFields(object_) => PlainBareFields(object_.fields, recursive);
  }

  lemma {:induction false} PlainBareVariants(variants: seq<Variant>, recursive: set<Name>)
    requires PlainVariants(variants)
    ensures BareVariants(variants, recursive) <= VariantsDeps(variants) - recursive
  {
    if variants != [] {
      PlainBareVariant(variants[0], recursive);
      PlainBareVariants(variants[1..], recursive);
    }
  }

  lemma {:induction false} LabelsDoNotMatter(labelled: seq<LabelledVariant>, recursive: set<Name>)
    ensures BareLabelled(labelled, recursive) == BareVariants(VariantsOf(labelled), recursive)
  {
    if labelled != [] {
      assert VariantsOf(labelled)[1..] == VariantsOf(labelled[1..]);
      LabelsDoNotMatter(labelled[1..], recursive);
    }
  }

  /** The bare names of a plain body are dependencies that are not recursive. */
  lemma PlainItemBare(item: Item, recursive: set<Name>)
    requires PlainItem(item)
    ensures BareItem(item, recursive) <= ItemDeps(item) - recursive
  {
    match item
    case ObjectItem(object_) => PlainBareFields(object_.fields, recursive);
    case TupleItem(fields) => PlainBareAll(fields, recursive);
    case EnumItem(enum_) =>
      assert BareItem(item, recursive) == BareEnum(enum_, recursive);
      PlainEnumBare(enum_, recursive);
  }

  lemma PlainEnumBare(enum_: EnumType, recursive: set<Name>)
    requires PlainItem(EnumItem(enum_))
    ensures BareEnum(enum_, recursive) <= ItemDeps(EnumItem(enum_)) - recursive
  {
    match enum_
    case Untagged(variants) => PlainBareVariants(variants, recursive);
    case Tagged(labelled, _) =>
      LabelsDoNotMatter(labelled, recursive);
      PlainBareVariants(VariantsOf(labelled), recursive);
  }

  /** A plain body reads only dependencies that are not recursive. */
  lemma PlainItemReads(conf: Config, item: Item)
    requires PlainItem(item)
    ensures EmitItem(conf, item).Ok? ==> Reads(EmitItem(conf, item).value) <= ItemDeps(item) - conf.recursive
  {
    EmitItemReads(conf, item);
    PlainItemBare(item, conf.recursive);
  }
}
