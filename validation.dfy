/** Validation of an input example against a type hint
    (`_validate_example_against_type_hint` and the element loops it calls in
    mlflow/types/type_hints.py). The serving environment's parsing of strings
    into bytes and datetimes is not part of this model: validation here is
    the behaviour outside a serving environment. */
module TypeHintValidation {
  import opened TypeHintTypes

  /** The exceptions validation raises. All but the last two are
      `MlflowException`s. `KeywordsNotStrings` is the `TypeError` Python
      raises when a dictionary with a key that is not a string is unpacked
      into a pydantic model's constructor; `ArgIndexOutOfRange` is the
      `IndexError` Python raises when a `list` hint has no argument or a
      `dict` hint fewer than two. */
  datatype VError =
    | ExpectedDictOrModel(got: Value)          // pydantic hint, example neither dict nor model instance
    | ModelRejected(model: string)             // the pydantic validator refused the example
    | ExpectedType(expected: Primitive, got: Value)
    | ExpectedList(got: Value)
    | ExpectedDict(got: Value)
    | KeyNotString(key: Value)
    | InvalidListElements(errors: map<Value, VError>)
    | InvalidDictElements(errors: map<Value, VError>)
    | Unsupported(unsupported: UnsupportedHint)
    | KeywordsNotStrings(model: string)
    | ArgIndexOutOfRange(hint: TypeHint)

  /** `except MlflowException`: the errors `_get_example_validation_result`
      turns into a result instead of letting them propagate. */
  predicate Caught(e: VError)
  {
    !e.KeywordsNotStrings? && !e.ArgIndexOutOfRange?
  }

  /** The strict pydantic validator (`model_validate(model, values,
      strict=True)`) is a library call; it is a parameter of validation:
      whether the model accepts the given dictionary entries. */
  type PydanticValidator = (TypeHint, seq<(Value, Value)>) -> bool

  /** `ValidationResult`: either the validated value or an error message. */
  datatype ValidationResult = Passed(value: Value) | Failed(message: VError)

  /** What an element loop has gathered: the validated values (or entries)
      and the errors of the invalid elements, keyed by element (or key). */
  datatype Collected<T> = Collected(result: seq<T>, invalid: map<Value, VError>)

  /** Every key is a string, as unpacking into keyword arguments requires. */
  predicate KeywordKeys(entries: seq<(Value, Value)>)
  {
    forall i :: 0 <= i < |entries| ==> entries[i].0.VStr?
  }

  /** `_validate_example_against_type_hint`. A pydantic hint yields a model
      instance; a primitive hint returns the example itself, an instance of
      the class; `None` passes every `Optional`; list and dictionary hints
      yield a list and a dictionary; any other hint is unsupported. */
  function Validate(v: Value, h: TypeHint, accepts: PydanticValidator): (r: Result<Value, VError>)
    ensures r.Ok? && h.Model? ==> r.value.VModel?
    ensures r.Ok? && h.Prim? ==> r.value == v && IsInstance(v, h.p)
    ensures IsOptional(h) && v == VNone ==> r == Ok(VNone)
    ensures r.Ok? && h.ListOf? ==> r.value.VList? && v.VList?
    ensures r.Ok? && h.DictOf? ==> r.value.VDict? && v.VDict?
    ensures !(h.Model? || h.AnyT? || h.Prim? || h.ListOf? || h.DictOf? || h.UnionOf?) ==>
      r == Err(Unsupported(InvalidTypeHint(h)))
    decreases h, 0
  {
    match h
    case Model(name, _) =>
      if v.VModel? then
        if accepts(h, v.entries) then Ok(v) else Err(ModelRejected(name))
      else if v.VDict? then
        if !accepts(h, v.entries) then Err(ModelRejected(name))
        else if KeywordKeys(v.entries) then Ok(VModel(name, v.entries))
        else Err(KeywordsNotStrings(name))
      else Err(ExpectedDictOrModel(v))
    case AnyT => Ok(v)
    case Prim(p) => if IsInstance(v, p) then Ok(v) else Err(ExpectedType(p, v))
    case ListOf(args) =>
      if |args| == 0 then Err(ArgIndexOutOfRange(h)) else ListElements(args[0], v, accepts)
    case DictOf(args) =>
      if |args| < 2 then Err(ArgIndexOutOfRange(h)) else DictElements(args[1], v, accepts)
    case UnionOf(args) =>
      if NoneT in args && v == VNone then Ok(v)
      else if NoneT in args && |args| == 2 then
        match FirstNonNone(args)
        case None => Err(Unsupported(InvalidTypeHint(NoneT)))
        case Some(effective) => Validate(v, effective, accepts)
      else Ok(v)
    case _ => Err(Unsupported(InvalidTypeHint(h)))
  }

  /** `_get_example_validation_result`: an `MlflowException` becomes a failed
      result; any other exception propagates. */
  function GetExampleValidationResult(v: Value, h: TypeHint, accepts: PydanticValidator)
    : (r: Result<ValidationResult, VError>)
    ensures r.Err? ==> !Caught(r.error) && Validate(v, h, accepts) == Err(r.error)
    ensures r.Ok? && r.value.Failed? ==> Caught(r.value.message) && Validate(v, h, accepts) == Err(r.value.message)
    ensures r.Ok? && r.value.Passed? <==> Validate(v, h, accepts).Ok?
    ensures r.Ok? && r.value.Passed? ==> Validate(v, h, accepts) == Ok(r.value.value)
    decreases h, 1
  {
    match Validate(v, h, accepts)
    case Ok(value) => Ok(Passed(value))
    case Err(e) => if Caught(e) then Ok(Failed(e)) else Err(e)
  }

  /** The loop of `_validate_list_elements` after its first `k` elements. */
  function ListFold(e: TypeHint, items: seq<Value>, k: nat, accepts: PydanticValidator)
    : Result<Collected<Value>, VError>
    requires k <= |items|
    decreases e, 2, k
  {
    if k == 0 then Ok(Collected([], map[]))
    else
      match ListFold(e, items, k - 1, accepts)
      case Err(x) => Err(x)
      case Ok(c) =>
        match GetExampleValidationResult(items[k - 1], e, accepts)
        case Err(x) => Err(x)
        case Ok(Failed(message)) => Ok(Collected(c.result, c.invalid[items[k - 1] := message]))
        case Ok(Passed(value)) => Ok(Collected(c.result + [value], c.invalid))
  }

  /** `_validate_list_elements`, as a value. */
  function ListElements(e: TypeHint, v: Value, accepts: PydanticValidator): Result<Value, VError>
    decreases e, 3
  {
    if !v.VList? then Err(ExpectedList(v))
    else
      match ListFold(e, v.items, |v.items|, accepts)
      case Err(x) => Err(x)
      case Ok(c) => if c.invalid != map[] then Err(InvalidListElements(c.invalid)) else Ok(VList(c.result))
  }

  /** The loop of `_validate_dict_elements` after its first `k` entries. */
  function DictFold(e: TypeHint, entries: seq<(Value, Value)>, k: nat, accepts: PydanticValidator)
    : Result<Collected<(Value, Value)>, VError>
    requires k <= |entries|
    decreases e, 2, k
  {
    if k == 0 then Ok(Collected([], map[]))
    else
      match DictFold(e, entries, k - 1, accepts)
      case Err(x) => Err(x)
      case Ok(c) =>
        var (key, value) := entries[k - 1];
        if !key.VStr? then Ok(Collected(c.result, c.invalid[key := KeyNotString(key)]))
        else
          match GetExampleValidationResult(value, e, accepts)
          case Err(x) => Err(x)
          case Ok(Failed(message)) => Ok(Collected(c.result, c.invalid[key := message]))
          case Ok(Passed(validated)) => Ok(Collected(c.result + [(key, validated)], c.invalid))
  }

  /** `_validate_dict_elements`, as a value. */
  function DictElements(e: TypeHint, v: Value, accepts: PydanticValidator): Result<Value, VError>
    decreases e, 3
  {
    if !v.VDict? then Err(ExpectedDict(v))
    else
      match DictFold(e, v.entries, |v.entries|, accepts)
      case Err(x) => Err(x)
      case Ok(c) => if c.invalid != map[] then Err(InvalidDictElements(c.invalid)) else Ok(VDict(c.result))
  }

  /** Once an element has raised past the loop, later elements do not change
      the outcome. */
  lemma {:induction false} ListFoldStaysFailed(e: TypeHint, items: seq<Value>, k: nat, m: nat,
                                               accepts: PydanticValidator)
    requires k <= m <= |items| && ListFold(e, items, k, accepts).Err?
    ensures ListFold(e, items, m, accepts) == ListFold(e, items, k, accepts)
    decreases m
  {
    if m > k {
      ListFoldStaysFailed(e, items, k, m - 1, accepts);
    }
  }

  lemma {:induction false} DictFoldStaysFailed(e: TypeHint, entries: seq<(Value, Value)>, k: nat, m: nat,
                                               accepts: PydanticValidator)
    requires k <= m <= |entries| && DictFold(e, entries, k, accepts).Err?
    ensures DictFold(e, entries, m, accepts) == DictFold(e, entries, k, accepts)
    decreases m
  {
    if m > k {
      DictFoldStaysFailed(e, entries, k, m - 1, accepts);
    }
  }

  /** `_validate_list_elements`: validates every element in order, keeps the
      validated values, records the failures, and raises once at the end if
      any element failed. */
  method ValidateListElements(e: TypeHint, example: Value, accepts: PydanticValidator)
    returns (r: Result<Value, VError>)
    ensures r == ListElements(e, example, accepts)
  {
    if !example.VList? {
      return Err(ExpectedList(example));
    }
    var items := example.items;
    var invalidElems: map<Value, VError> := map[];
    var result: seq<Value> := [];
    var i := 0;
    while i < |items|
      invariant i <= |items|
      invariant ListFold(e, items, i, accepts) == Ok(Collected(result, invalidElems))
    {
      var validationResult := GetExampleValidationResult(items[i], e, accepts);
      if validationResult.Err? {
        ListFoldStaysFailed(e, items, i + 1, |items|, accepts);
        return Err(validationResult.error);
      }
      if validationResult.value.Failed? {
        invalidElems := invalidElems[items[i] := validationResult.value.message];
      } else {
        result := result + [validationResult.value.value];
      }
      i := i + 1;
    }
    if invalidElems != map[] {
      return Err(InvalidListElements(invalidElems));
    }
    return Ok(VList(result));
  }

  /** `_validate_dict_elements`: validates every entry in order; a key that
      is not a string and a value that fails are both recorded, and the call
      raises once at the end if anything was recorded. */
  method ValidateDictElements(e: TypeHint, example: Value, accepts: PydanticValidator)
    returns (r: Result<Value, VError>)
    ensures r == DictElements(e, example, accepts)
  {
    if !example.VDict? {
      return Err(ExpectedDict(example));
    }
    var entries := example.entries;
    var invalidElems: map<Value, VError> := map[];
    var result: seq<(Value, Value)> := [];
    var i := 0;
    while i < |entries|
      invariant i <= |entries|
      invariant DictFold(e, entries, i, accepts) == Ok(Collected(result, invalidElems))
    {
      var (key, value) := entries[i];
      if !key.VStr? {
        invalidElems := invalidElems[key := KeyNotString(key)];
      } else {
        var validationResult := GetExampleValidationResult(value, e, accepts);
        if validationResult.Err? {
          DictFoldStaysFailed(e, entries, i + 1, |entries|, accepts);
          return Err(validationResult.error);
        }
        if validationResult.value.Failed? {
          invalidElems := invalidElems[key := validationResult.value.message];
        } else {
          result := result + [(key, validationResult.value.value)];
        }
      }
      i := i + 1;
    }
    if invalidElems != map[] {
      return Err(InvalidDictElements(invalidElems));
    }
    return Ok(VDict(result));
  }
}
