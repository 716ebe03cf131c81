/** Shared vocabulary of the type-hint engine: the Python type hints it accepts,
    the column-spec types it infers, the example values it validates, and the
    small lookups over hints (`get_args`, `get_origin`, the primitive mapping)
    that inference and validation both use. */
module TypeHintTypes {

  datatype Option<+T> = None | Some(value: T)

  datatype Result<+T, +E> = Ok(value: T) | Err(error: E)

  /** The six Python classes that map directly to an MLflow `DataType`. */
  datatype Primitive = PInt | PStr | PBool | PFloat | PBytes | PDateTime

  /** A pydantic model field: its name, its annotation (`None` when pydantic
      reports none) and whether pydantic marks it required (no default). */
  datatype Field = Field(name: string, annotation: Option<TypeHint>, required: bool)

  /** A Python type hint, as far as the engine can tell hints apart. */
  datatype TypeHint =
    | Prim(p: Primitive)                        // int, str, bool, float, bytes, datetime
    | AnyT                                      // typing.Any
    | NoneT                                     // NoneType, as it appears inside Optional[...]
    | BareList | BareDict | BareOptional | BareUnion
                                                // list, dict, typing.Optional, typing.Union unparametrised
    | ListOf(args: seq<TypeHint>)               // list[...] (typing.List alone: no arguments)
    | DictOf(args: seq<TypeHint>)               // dict[...] (typing.Dict alone: no arguments)
    | UnionOf(args: seq<TypeHint>)              // Union[...], Optional[...], X | Y
    | Model(name: string, fields: seq<Field>)   // a pydantic BaseModel subclass
    | OtherGeneric(args: seq<TypeHint>)         // a parametrised generic of any other origin (tuple[...], set[...])
    | Other                                     // any other class or object

  /** MLflow's primitive column types. */
  datatype DataType = Long | String | Boolean | Double | Binary | Datetime

  datatype Property = Property(name: string, dtype: DType, required: bool)

  /** The column-spec types an inferred hint can have (COLSPEC_TYPES). */
  datatype DType =
    | Scalar(t: DataType)
    | Array(element: DType)
    | MapType(value: DType)
    | Object(properties: seq<Property>)
    | AnyType

  datatype ColSpecType = ColSpecType(dtype: DType, required: bool)

  /** An unnamed column of a model signature's input schema. */
  datatype ColSpec = ColSpec(dtype: DType, required: bool)

  /** An example value. Dictionaries and pydantic instances keep their
      entries in insertion order; a pydantic instance holds the entries its
      `model_dump()` returns. */
  datatype Value =
    | VNone
    | VBool(b: bool)
    | VInt(i: int)
    | VFloat(f: real)
    | VStr(s: string)
    | VBytes(bytes: seq<bv8>)
    | VDateTime(instant: int)
    | VList(items: seq<Value>)
    | VDict(entries: seq<(Value, Value)>)
    | VModel(model: string, entries: seq<(Value, Value)>)
    | VOther(kind: string)

  /** What `typing.get_origin` reports for a hint. */
  datatype Origin = NoOrigin | ListOrigin | DictOrigin | UnionOrigin | AnyOrigin | OtherOrigin

  /** The hint that `_invalid_type_hint_error` raises `InvalidTypeHintException`
      for, and whether the message adds ", it must include a valid element type". */
  datatype UnsupportedHint = UnsupportedHint(hint: TypeHint, missingElementType: bool)

  /** TYPE_HINTS_TO_DATATYPE_MAPPING. */
  function DataTypeOf(p: Primitive): (t: DataType)
    ensures p == PInt <==> t == Long
    ensures p == PStr <==> t == String
    ensures p == PBool <==> t == Boolean
    ensures p == PFloat <==> t == Double
    ensures p == PBytes <==> t == Binary
    ensures p == PDateTime <==> t == Datetime
  {
    match p
    case PInt => Long
    case PStr => String
    case PBool => Boolean
    case PFloat => Double
    case PBytes => Binary
    case PDateTime => Datetime
  }

  /** The exact Python class of a scalar example; other examples are not
      instances of any of the six classes. */
  function ClassOf(v: Value): Option<Primitive>
  {
    match v
    case VInt(_) => Some(PInt)
    case VStr(_) => Some(PStr)
    case VBool(_) => Some(PBool)
    case VFloat(_) => Some(PFloat)
    case VBytes(_) => Some(PBytes)
    case VDateTime(_) => Some(PDateTime)
    case _ => None
  }

  /** Subclassing among the six classes: each is its own subclass, and
      `bool` is a subclass of `int`. */
  predicate IsSubclass(q: Primitive, p: Primitive)
  {
    q == p || (q == PBool && p == PInt)
  }

  /** Python's `isinstance(v, p)`: the example's class is `p` or a subclass of
      it. So a boolean is an instance of `int`, and an `int` is not an
      instance of `float`. */
  function IsInstance(v: Value, p: Primitive): (b: bool)
    ensures b <==> ClassOf(v).Some? && IsSubclass(ClassOf(v).value, p)
    ensures v.VBool? ==> (b <==> p == PInt || p == PBool)
  {
    match p
    case PInt => v.VInt? || v.VBool?
    case PStr => v.VStr?
    case PBool => v.VBool?
    case PFloat => v.VFloat?
    case PBytes => v.VBytes?
    case PDateTime => v.VDateTime?
  }

  /** `typing.get_args`. */
  function GetArgs(h: TypeHint): seq<TypeHint>
  {
    match h
    case ListOf(args) => args
    case DictOf(args) => args
    case UnionOf(args) => args
    case OtherGeneric(args) => args
    case _ => []
  }

  /** `typing.get_origin`: only parametrised generics have an origin. */
  function GetOrigin(h: TypeHint): (o: Origin)
    ensures o == NoOrigin <==> !(h.ListOf? || h.DictOf? || h.UnionOf? || h.OtherGeneric?)
  {
    match h
    case ListOf(_) => ListOrigin
    case DictOf(_) => DictOrigin
    case UnionOf(_) => UnionOrigin
    case OtherGeneric(_) => OtherOrigin
    case _ => NoOrigin
  }

  /** `next((arg for arg in args if arg is not NONE_TYPE), None)`. */
  function FirstNonNone(args: seq<TypeHint>): (r: Option<TypeHint>)
    ensures r.Some? ==> r.value in args && r.value != NoneT
    ensures r.Some? ==> exists i :: 0 <= i < |args| && args[i] == r.value && forall j :: 0 <= j < i ==> args[j] == NoneT
    ensures r.None? <==> forall a :: a in args ==> a == NoneT
  {
    if |args| == 0 then None
    else if args[0] != NoneT then
      assert args[0] in args;
      Some(args[0])
    else
      var r := FirstNonNone(args[1..]);
      assert forall a :: a in args[1..] ==> a in args;
      assert forall a :: a in args ==> a == args[0] || a in args[1..];
      if r.Some? then
        var i :| 0 <= i < |args[1..]| && args[1..][i] == r.value && forall j :: 0 <= j < i ==> args[1..][j] == NoneT;
        assert args[i + 1] == r.value;
        assert forall j :: 1 <= j < i + 1 ==> args[j] == args[1..][j - 1];
        r
      else r
  }

  /** A union that lists `NoneType` among its members: what `Optional[...]`
      produces. */
  predicate IsOptional(h: TypeHint)
  {
    h.UnionOf? && NoneT in h.args
  }

  /** The unparametrised `list`, `dict`, `Optional` and `Union`. */
  predicate IsBareGeneric(h: TypeHint)
  {
    h.BareList? || h.BareDict? || h.BareOptional? || h.BareUnion?
  }

  /** `_invalid_type_hint_error`: the exception carries the hint, and the hint
      is told to include an element type exactly when it is one of the bare
      generics. */
  function InvalidTypeHint(h: TypeHint): (e: UnsupportedHint)
    ensures e.hint == h
    ensures e.missingElementType <==> h in {BareList, BareDict, BareOptional, BareUnion}
  {
    UnsupportedHint(h, IsBareGeneric(h))
  }
}
