/** Inference of a column-spec type, and of a model-input schema, from a type
    hint (`_infer_colspec_type_from_type_hint` and the functions around it in
    mlflow/types/type_hints.py). */
module TypeHintInference {
  import opened TypeHintTypes

  /** The exceptions inference raises. */
  datatype InferError =
    | Unsupported(unsupported: UnsupportedHint)           // InvalidTypeHintException, default message
    | ListWithoutElementType(hint: TypeHint)              // "List type hint must contain the element type"
    | ListWithManyElementTypes(hint: TypeHint)            // "... must contain only one element type"
    | DictKeyNotString(key: TypeHint, hint: TypeHint)     // "Dictionary key type must be str"
    | DictArity(hint: TypeHint)                           // "... must contain two element types"
    | UnionWithoutNonNone(hint: TypeHint)                 // "... at least one non-None type"
    | OptionalFieldWithoutDefault(field: string, model: string)
    | UnannotatedFields(names: seq<string>)
    | NotPydanticModel(hint: TypeHint)                    // TypeError
    | NotListInput(hint: TypeHint)                        // "Type hint for model input must be `list[...]`"
    | OptionalInput                                       // "To define Optional inputs, use a Pydantic-based ..."

  /** What the loop over a pydantic model's fields has gathered so far. */
  datatype FieldScan = FieldScan(properties: seq<Property>, invalidFields: seq<string>)

  /** `_get_element_type_of_list_type_hint`: a list hint must have exactly one
      type argument. */
  function GetElementType(h: TypeHint): (r: Result<TypeHint, InferError>)
    ensures r.Ok? <==> |GetArgs(h)| == 1
    ensures r.Ok? ==> r.value == GetArgs(h)[0]
    ensures |GetArgs(h)| == 0 ==> r == Err(ListWithoutElementType(h))
    ensures |GetArgs(h)| > 1 ==> r == Err(ListWithManyElementTypes(h))
  {
    var args := GetArgs(h);
    if |args| == 0 then Err(ListWithoutElementType(h))
    else if |args| > 1 then Err(ListWithManyElementTypes(h))
    else Ok(args[0])
  }

  /** `_infer_colspec_type_from_type_hint`. A hint is inferred as required
      unless it is an `Optional[...]`. */
  function Infer(h: TypeHint): (r: Result<ColSpecType, InferError>)
    ensures r.Ok? ==> (r.value.required <==> !IsOptional(h))
    decreases h, 1
  {
    match h
    case AnyT => Ok(ColSpecType(AnyType, true))
    case Prim(p) => Ok(ColSpecType(Scalar(DataTypeOf(p)), true))
    case Model(_, _) =>
      (match ObjectOf(h)
       case Err(e) => Err(e)
       case Ok(d) => Ok(ColSpecType(d, true)))
    case ListOf(args) =>
      (match GetElementType(h)
       case Err(e) => Err(e)
       case Ok(element) =>
         assert element in args;
         match Infer(element)
         case Err(e) => Err(e)
         case Ok(c) => Ok(ColSpecType(Array(c.dtype), true)))
    case DictOf(args) =>
      if |args| == 2 then
        if args[0] != Prim(PStr) then Err(DictKeyNotString(args[0], h))
        else
          match Infer(args[1])
          case Err(e) => Err(e)
          case Ok(c) => Ok(ColSpecType(MapType(c.dtype), true))
      else Err(DictArity(h))
    case UnionOf(args) =>
      if NoneT in args then
        if |args| < 2 then Err(UnionWithoutNonNone(h))
        else if |args| == 2 then
          match FirstNonNone(args)
          case None => Err(Unsupported(InvalidTypeHint(NoneT)))
          case Some(effective) =>
            match Infer(effective)
            case Err(e) => Err(e)
            case Ok(c) => Ok(ColSpecType(c.dtype, false))
        else Ok(ColSpecType(AnyType, false))
      else Ok(ColSpecType(AnyType, true))
    case _ => Err(Unsupported(InvalidTypeHint(h)))
  }

  /** The state of the field loop of `_infer_type_from_pydantic_model` after
      its first `k` fields; once an exception is raised it stays raised. */
  function ObjectFold(h: TypeHint, k: nat): Result<FieldScan, InferError>
    requires h.Model? && k <= |h.fields|
    decreases h, 0, k
  {
    if k == 0 then Ok(FieldScan([], []))
    else
      match ObjectFold(h, k - 1)
      case Err(e) => Err(e)
      case Ok(scan) =>
        var f := h.fields[k - 1];
        match f.annotation
        case None => Ok(FieldScan(scan.properties, scan.invalidFields + [f.name]))
        case Some(annotation) =>
          match Infer(annotation)
          case Err(e) => Err(e)
          case Ok(c) =>
            if !c.required && f.required then Err(OptionalFieldWithoutDefault(f.name, h.name))
            else Ok(FieldScan(scan.properties + [Property(f.name, c.dtype, c.required)], scan.invalidFields))
  }

  /** `_infer_type_from_pydantic_model`, as a value. */
  function ObjectOf(h: TypeHint): Result<DType, InferError>
    decreases h, 0, if h.Model? then |h.fields| + 1 else 0
  {
    if !h.Model? then Err(NotPydanticModel(h))
    else
      match ObjectFold(h, |h.fields|)
      case Err(e) => Err(e)
      case Ok(scan) =>
        if |scan.invalidFields| > 0 then Err(UnannotatedFields(scan.invalidFields))
        else Ok(Object(scan.properties))
  }

  /** Once the field loop has raised, later fields do not change the outcome. */
  lemma {:induction false} ObjectFoldStaysFailed(h: TypeHint, k: nat, m: nat)
    requires h.Model? && k <= m <= |h.fields|
    requires ObjectFold(h, k).Err?
    ensures ObjectFold(h, m) == ObjectFold(h, k)
    decreases m
  {
    if m > k {
      ObjectFoldStaysFailed(h, k, m - 1);
    }
  }

  /** `_infer_type_from_pydantic_model`: walks the model's fields in order,
      collecting properties and the names of unannotated fields; raises at the
      first field whose type cannot be inferred or that is optional without a
      default, and after the loop if any field was unannotated. */
  method InferTypeFromPydanticModel(h: TypeHint) returns (r: Result<DType, InferError>)
    ensures r == ObjectOf(h)
  {
    if !h.Model? {
      return Err(NotPydanticModel(h));
    }
    var properties: seq<Property> := [];
    var invalidFields: seq<string> := [];
    var i := 0;
    while i < |h.fields|
      invariant i <= |h.fields|
      invariant ObjectFold(h, i) == Ok(FieldScan(properties, invalidFields))
    {
      var field := h.fields[i];
      if field.annotation.None? {
        invalidFields := invalidFields + [field.name];
      } else {
        var colspecType := Infer(field.annotation.value);
        if colspecType.Err? {
          ObjectFoldStaysFailed(h, i + 1, |h.fields|);
          return Err(colspecType.error);
        }
        if !colspecType.value.required && field.required {
          ObjectFoldStaysFailed(h, i + 1, |h.fields|);
          return Err(OptionalFieldWithoutDefault(field.name, h.name));
        }
        properties := properties + [Property(field.name, colspecType.value.dtype, colspecType.value.required)];
      }
      i := i + 1;
    }
    if |invalidFields| > 0 {
      return Err(UnannotatedFields(invalidFields));
    }
    return Ok(Object(properties));
  }

  /** `_get_origin_type`: an `Optional[X]` reports the origin of `X`, any other
      union reports `Any`; so no hint ever reports a union origin. */
  function OriginOf(h: TypeHint): (o: Origin)
    ensures o != UnionOrigin
    ensures !h.UnionOf? ==> o == GetOrigin(h)
    ensures h.UnionOf? && !(NoneT in h.args && |h.args| == 2) ==> o == AnyOrigin
    ensures h.UnionOf? && |h.args| == 2 && h.args[0] != NoneT && h.args[1] == NoneT ==> o == OriginOf(h.args[0])
    ensures h.UnionOf? && |h.args| == 2 && h.args[0] == NoneT && h.args[1] != NoneT ==> o == OriginOf(h.args[1])
    ensures h == UnionOf([NoneT, NoneT]) ==> o == NoOrigin
  {
    if h.UnionOf? then
      if NoneT in h.args && |h.args| == 2 then
        assert h.args[1] in h.args;
        match FirstNonNone(h.args)
        case None => GetOrigin(NoneT)
        case Some(effective) => OriginOf(effective)
      else AnyOrigin
    else GetOrigin(h)
  }

  /** `_is_list_type_hint`: a parametrised `list[...]`, possibly wrapped in
      `Optional`; the bare `list` class has no origin and is not one. */
  function IsListHint(h: TypeHint): (b: bool)
    ensures !h.UnionOf? ==> (b <==> h.ListOf?)
    ensures h.UnionOf? && !(NoneT in h.args && |h.args| == 2) ==> !b
    ensures h.UnionOf? && |h.args| == 2 && h.args[0] != NoneT && h.args[1] == NoneT ==> (b <==> IsListHint(h.args[0]))
    ensures h.UnionOf? && |h.args| == 2 && h.args[0] == NoneT && h.args[1] != NoneT ==> (b <==> IsListHint(h.args[1]))
    ensures h == UnionOf([NoneT, NoneT]) ==> !b
  {
    OriginOf(h) == ListOrigin
  }

  /** `_infer_schema_from_type_hint`: the schema holds exactly one required
      column; an optional hint cannot be a top-level input. */
  function InferSchema(h: TypeHint): (r: Result<seq<ColSpec>, InferError>)
    ensures r.Ok? <==> Infer(h).Ok? && !IsOptional(h)
    ensures r.Ok? ==> r.value == [ColSpec(Infer(h).value.dtype, true)]
    ensures IsOptional(h) && Infer(h).Ok? ==> r == Err(OptionalInput)
    ensures Infer(h).Err? ==> r == Err(Infer(h).error)
  {
    match Infer(h)
    case Err(e) => Err(e)
    case Ok(c) =>
      if !c.required then Err(OptionalInput)
      else Ok([ColSpec(c.dtype, c.required)])
  }

  /** `_infer_schema_from_list_type_hint`: the input of a pyfunc `predict`
      must be `list[X]`, and its schema is the schema of `X`. */
  function InferSchemaFromListHint(h: TypeHint): (r: Result<seq<ColSpec>, InferError>)
    ensures !IsListHint(h) ==> r == Err(NotListInput(h))
    ensures r.Ok? ==> h.ListOf? && |h.args| == 1 && r == InferSchema(h.args[0])
    ensures IsOptional(h) ==> r.Err?
    ensures h.ListOf? && |h.args| == 1 ==> r == InferSchema(h.args[0])
    ensures IsListHint(h) && |GetArgs(h)| != 1 ==> r == Err(GetElementType(h).error)
  {
    if !IsListHint(h) then Err(NotListInput(h))
    else
      match GetElementType(h)
      case Err(e) => Err(e)
      case Ok(element) => InferSchema(element)
  }
}
