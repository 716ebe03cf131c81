/** What inference promises: which hints it accepts, what it maps each form
    of hint to, and how a pydantic model becomes an `Object`. */
module InferenceProperties {
  import opened TypeHintTypes
  import opened TypeHintInference

  /** The hints the engine supports, stated declaratively: primitives and
      `Any`; `list[X]` and `dict[str, X]` of a supported `X`; any union that
      is not an `Optional`, an `Optional` of more than one other type, an
      `Optional[X]` of a supported `X`; and a pydantic model whose fields are
      all annotated with supported types, none of them optional without a
      default. */
  predicate Supported(h: TypeHint)
    decreases h
  {
    match h
    case AnyT => true
    case Prim(_) => true
    case ListOf(args) => |args| == 1 && Supported(args[0])
    case DictOf(args) => |args| == 2 && args[0] == Prim(PStr) && Supported(args[1])
    case UnionOf(args) =>
      NoneT in args ==> |args| > 2 || (|args| == 2 && exists a :: a in args && a != NoneT && Supported(a))
    case Model(_, fields) => forall i :: 0 <= i < |fields| ==> FieldSupported(h, i)
    case _ => false
  }

  /** Field `i` of model `h` is annotated with a supported type, and is not
      an optional type that pydantic marks required. */
  predicate FieldSupported(h: TypeHint, i: nat)
    requires h.Model? && i < |h.fields|
    decreases h, 0
  {
    var f := h.fields[i];
    f.annotation.Some? && Supported(f.annotation.value) && (f.required ==> !IsOptional(f.annotation.value))
  }

  /** The field loop never raises on a field that is unannotated or
      supported. */
  predicate FieldInferable(h: TypeHint, i: nat)
    requires h.Model? && i < |h.fields|
  {
    h.fields[i].annotation.None? || FieldSupported(h, i)
  }

  /** Inference succeeds exactly on the supported hints. */
  lemma {:induction false} InferOkIffSupported(h: TypeHint)
    ensures Infer(h).Ok? <==> Supported(h)
    decreases h, 2
  {
    match h
    case ListOf(args) =>
      if |args| == 1 {
        InferOkIffSupported(args[0]);
      }
    case DictOf(args) =>
      if |args| == 2 {
        InferOkIffSupported(args[1]);
      }
    case UnionOf(args) => UnionOkIffSupported(h);
    case Model(_, _) => ModelOkIffSupported(h);
    case _ =>
  }

  lemma {:induction false} UnionOkIffSupported(h: TypeHint)
    requires h.UnionOf?
    ensures Infer(h).Ok? <==> Supported(h)
    decreases h, 1
  {
    var args := h.args;
    if NoneT in args && |args| == 2 {
      var first := FirstNonNone(args);
      if first.Some? {
        InferOkIffSupported(first.value);
        forall a | a in args && a != NoneT
          ensures a == first.value
        {
          var i :| 0 <= i < |args| && args[i] == first.value && forall j :: 0 <= j < i ==> args[j] == NoneT;
          assert args[0] == NoneT || args[1] == NoneT;
        }
      }
    }
  }

  lemma {:induction false} ModelOkIffSupported(h: TypeHint)
    requires h.Model?
    ensures Infer(h).Ok? <==> Supported(h)
    decreases h, 1
  {
    var n := |h.fields|;
    ObjectFoldOkIff(h, n);
    assert h.fields[..n] == h.fields;
    if ObjectFold(h, n).Ok? {
      ObjectFoldInvalidFields(h, n);
    }
    forall i | 0 <= i < n
      ensures FieldSupported(h, i) <==> FieldInferable(h, i) && h.fields[i].annotation.Some?
    {
    }
  }

  /** The field loop runs through the first `k` fields without raising
      exactly when each of them is unannotated or supported. */
  lemma {:induction false} ObjectFoldOkIff(h: TypeHint, k: nat)
    requires h.Model? && k <= |h.fields|
    ensures ObjectFold(h, k).Ok? <==> forall i :: 0 <= i < k ==> FieldInferable(h, i)
    decreases h, 0, k
  {
    if k > 0 {
      ObjectFoldOkIff(h, k - 1);
      var f := h.fields[k - 1];
      if f.annotation.Some? {
        InferOkIffSupported(f.annotation.value);
      }
      assert ObjectFold(h, k).Ok? <==> ObjectFold(h, k - 1).Ok? && FieldInferable(h, k - 1);
      assert (forall i :: 0 <= i < k ==> FieldInferable(h, i))
         <==> (forall i :: 0 <= i < k - 1 ==> FieldInferable(h, i)) && FieldInferable(h, k - 1);
    }
  }

  /** When the field loop has not raised, the unannotated-field list is empty
      exactly when every field seen so far is annotated. */
  lemma {:induction false} ObjectFoldInvalidFields(h: TypeHint, k: nat)
    requires h.Model? && k <= |h.fields| && ObjectFold(h, k).Ok?
    ensures ObjectFold(h, k).value.invalidFields == UnannotatedNames(h.fields[..k])
    decreases k
  {
    if k > 0 {
      ObjectFoldInvalidFields(h, k - 1);
      assert h.fields[..k] == h.fields[..k - 1] + [h.fields[k - 1]];
      UnannotatedNamesAppend(h.fields[..k - 1], h.fields[k - 1]);
    }
  }

  /** The names of the unannotated fields, in field order. */
  function UnannotatedNames(fields: seq<Field>): (names: seq<string>)
    ensures |names| <= |fields|
    ensures names == [] <==> forall i :: 0 <= i < |fields| ==> fields[i].annotation.Some?
  {
    if fields == [] then []
    else
      (if fields[0].annotation.None? then [fields[0].name] else [])
      + UnannotatedNames(fields[1..])
  }

  lemma {:induction false} UnannotatedNamesAppend(fields: seq<Field>, f: Field)
    ensures UnannotatedNames(fields + [f])
         == UnannotatedNames(fields) + (if f.annotation.None? then [f.name] else [])
  {
    if fields != [] {
      assert (fields + [f])[1..] == fields[1..] + [f];
      UnannotatedNamesAppend(fields[1..], f);
    } else {
      assert [f][1..] == [];
    }
  }

  /** While no field is unannotated, the loop has one property per field, in
      field order, carrying the field's name and its inferred type and
      required flag. */
  lemma {:induction false} ObjectFoldProperties(h: TypeHint, k: nat)
    requires h.Model? && k <= |h.fields| && ObjectFold(h, k).Ok?
    requires ObjectFold(h, k).value.invalidFields == []
    ensures var props := ObjectFold(h, k).value.properties;
      |props| == k &&
      forall i :: 0 <= i < k ==>
        h.fields[i].annotation.Some? && Infer(h.fields[i].annotation.value).Ok? &&
        props[i] == Property(h.fields[i].name,
                             Infer(h.fields[i].annotation.value).value.dtype,
                             Infer(h.fields[i].annotation.value).value.required) &&
        (h.fields[i].required ==> Infer(h.fields[i].annotation.value).value.required)
    decreases k
  {
    if k > 0 {
      ObjectFoldProperties(h, k - 1);
    }
  }

  /** A pydantic model infers an `Object` whose properties follow the model's
      fields in order, each with the field's name and inferred type; a field
      pydantic marks required is never an optional property. */
  lemma ObjectPropertiesFollowFields(h: TypeHint)
    requires h.Model? && ObjectOf(h).Ok?
    ensures ObjectOf(h).value.Object?
    ensures var props := ObjectOf(h).value.properties;
      |props| == |h.fields| &&
      forall i :: 0 <= i < |h.fields| ==>
        h.fields[i].annotation.Some? && Infer(h.fields[i].annotation.value).Ok? &&
        props[i].name == h.fields[i].name &&
        props[i].dtype == Infer(h.fields[i].annotation.value).value.dtype &&
        props[i].required == !IsOptional(h.fields[i].annotation.value) &&
        (h.fields[i].required ==> props[i].required)
  {
    ObjectFoldProperties(h, |h.fields|);
  }

  /** When every annotated field is inferable, the only possible failure is
      the one error that names all unannotated fields, in field order. */
  lemma UnannotatedFieldsReportedTogether(h: TypeHint)
    requires h.Model?
    requires forall i :: 0 <= i < |h.fields| ==> FieldInferable(h, i)
    ensures ObjectOf(h).Ok? <==> UnannotatedNames(h.fields) == []
    ensures ObjectOf(h).Err? ==> ObjectOf(h).error == UnannotatedFields(UnannotatedNames(h.fields))
  {
    ObjectFoldOkIff(h, |h.fields|);
    ObjectFoldInvalidFields(h, |h.fields|);
    assert h.fields[..|h.fields|] == h.fields;
  }

  /** A model with an optional field that pydantic marks required is
      rejected. */
  lemma OptionalRequiredFieldRejected(h: TypeHint, i: nat)
    requires h.Model? && i < |h.fields|
    requires h.fields[i].required && h.fields[i].annotation.Some? && IsOptional(h.fields[i].annotation.value)
    ensures Infer(h).Err?
  {
    InferOkIffSupported(h);
    assert !FieldSupported(h, i);
  }

  /** `Any` and the six primitives infer required columns of `AnyType` and of
      their mapped `DataType`. */
  lemma PrimitivesAndAny(p: Primitive)
    ensures Infer(AnyT) == Ok(ColSpecType(AnyType, true))
    ensures Infer(Prim(p)) == Ok(ColSpecType(Scalar(DataTypeOf(p)), true))
  {
  }

  /** `list[X]` infers a required array of `X`'s type; any other number of
      arguments is rejected; the bare generics are told to include an element
      type. */
  lemma ListsAndBareGenerics(h: TypeHint)
    ensures h.ListOf? && |h.args| == 1 && Infer(h.args[0]).Ok? ==>
      Infer(h) == Ok(ColSpecType(Array(Infer(h.args[0]).value.dtype), true))
    ensures h.ListOf? && |h.args| == 0 ==> Infer(h) == Err(ListWithoutElementType(h))
    ensures h.ListOf? && |h.args| > 1 ==> Infer(h) == Err(ListWithManyElementTypes(h))
    ensures IsBareGeneric(h) ==> Infer(h) == Err(Unsupported(UnsupportedHint(h, true)))
  {
  }

  /** `dict[str, X]` infers a required map of `X`'s type; another key type or
      another number of arguments is rejected. */
  lemma Dicts(h: TypeHint)
    requires h.DictOf?
    ensures |h.args| != 2 ==> Infer(h) == Err(DictArity(h))
    ensures |h.args| == 2 && h.args[0] != Prim(PStr) ==> Infer(h) == Err(DictKeyNotString(h.args[0], h))
    ensures |h.args| == 2 && h.args[0] == Prim(PStr) && Infer(h.args[1]).Ok? ==>
      Infer(h) == Ok(ColSpecType(MapType(Infer(h.args[1]).value.dtype), true))
  {
  }

  /** `Optional[X]`, written either way round, infers `X`'s type as not
      required. */
  lemma OptionalUnion(x: TypeHint)
    requires x != NoneT && Infer(x).Ok?
    ensures Infer(UnionOf([x, NoneT])) == Ok(ColSpecType(Infer(x).value.dtype, false))
    ensures Infer(UnionOf([NoneT, x])) == Ok(ColSpecType(Infer(x).value.dtype, false))
  {
    assert NoneT in [x, NoneT] && FirstNonNone([x, NoneT]) == Some(x);
    assert NoneT in [NoneT, x] && FirstNonNone([NoneT, x]) == Some(x);
  }

  /** `None` with two or more other members infers `AnyType`, not required;
      a union without `None` infers `AnyType`, required. */
  lemma OtherUnions(args: seq<TypeHint>)
    ensures NoneT in args && |args| > 2 ==> Infer(UnionOf(args)) == Ok(ColSpecType(AnyType, false))
    ensures NoneT !in args ==> Infer(UnionOf(args)) == Ok(ColSpecType(AnyType, true))
  {
  }

  /** `Optional[list[X]]` passes the list check of the model-input entry
      point, but its element lookup then sees two arguments and rejects it. */
  lemma OptionalListInputRejected(x: TypeHint)
    ensures InferSchemaFromListHint(UnionOf([ListOf([x]), NoneT]))
         == Err(ListWithManyElementTypes(UnionOf([ListOf([x]), NoneT])))
  {
    assert [ListOf([x]), NoneT][0] == ListOf([x]);
  }

  /** `Optional[X]`, written either way round, takes `X`'s origin. */
  lemma OptionalTakesOrigin(x: TypeHint)
    requires x != NoneT
    ensures OriginOf(UnionOf([x, NoneT])) == OriginOf(x)
    ensures OriginOf(UnionOf([NoneT, x])) == OriginOf(x)
  {
  }

  /** The hint with its `Optional[...]` wrappers removed, at any depth. */
  function StripOptional(h: TypeHint): TypeHint
  {
    if h.UnionOf? && |h.args| == 2 && h.args[0] != NoneT && h.args[1] == NoneT then StripOptional(h.args[0])
    else if h.UnionOf? && |h.args| == 2 && h.args[0] == NoneT && h.args[1] != NoneT then StripOptional(h.args[1])
    else h
  }

  /** A hint is a list hint exactly when, once its `Optional` wrappers are
      removed, it is a parametrised `list[...]`. */
  lemma {:induction false} ListHintIff(h: TypeHint)
    ensures IsListHint(h) <==> StripOptional(h).ListOf?
  {
    if h.UnionOf? && |h.args| == 2 && h.args[0] != NoneT && h.args[1] == NoneT {
      ListHintIff(h.args[0]);
    } else if h.UnionOf? && |h.args| == 2 && h.args[0] == NoneT && h.args[1] != NoneT {
      ListHintIff(h.args[1]);
    } else if h.UnionOf? && NoneT in h.args && |h.args| == 2 {
      assert h == UnionOf([NoneT, NoneT]);
    }
  }

  /** The model-input entry point succeeds exactly on `list[X]` of a
      supported, non-optional `X`; `list[int]` gives one required `long`
      column. */
  lemma {:induction false} ListSchemaOkIff(h: TypeHint)
    ensures InferSchemaFromListHint(h).Ok? <==>
      h.ListOf? && |h.args| == 1 && Supported(h.args[0]) && !IsOptional(h.args[0])
    ensures InferSchemaFromListHint(ListOf([Prim(PInt)])) == Ok([ColSpec(Scalar(Long), true)])
  {
    if h.ListOf? && |h.args| == 1 {
      InferOkIffSupported(h.args[0]);
    }
  }
}
