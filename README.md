# MLflow type-hint schema inference and example validation, in Dafny

This project models the engine in `mlflow/types/type_hints.py` that turns the
type hint of a pyfunc model's `predict` input into a model signature, and
checks an input example against that hint.

- **Inference** maps a Python type hint to a column-spec type together with
  a `required` flag. The hint may be `int`, `str`, `bool`, `float`, `bytes`,
  `datetime`, `Any`, `list[...]`, `dict[str, ...]`, `Optional[...]`, a
  `Union`, or a pydantic model. The column-spec type is a primitive
  `DataType`, `Array`, `Map`, `Object` or `AnyType`. An unsupported hint
  raises `InvalidTypeHintException` or `MlflowException`.
- **The model-input entry points** build on inference. They insist on
  `list[...]` and refuse an optional top-level column. Otherwise the schema
  holds exactly one column.
- **Validation** checks an example against a hint. Lists and dictionaries
  are checked element by element, and every failing element is gathered
  into one error.

Files and modules:

- `types.dfy` (`TypeHintTypes`) holds the shared data:
  - the hint language `TypeHint`, and the pydantic `Field`;
  - the column-spec types `DType`, `ColSpecType` and `ColSpec`;
  - example values `Value`;
  - the primitive mapping, `isinstance`, `get_args`/`get_origin`, the
    first-non-`None` lookup and `_invalid_type_hint_error`.
- `inference.dfy` (`TypeHintInference`) holds:
  - `Infer`, the recursive `_infer_colspec_type_from_type_hint`;
  - the pydantic field loop. `ObjectFold` is the loop's state after `k`
    fields. `InferTypeFromPydanticModel` is the imperative loop, proved
    equal to it;
  - `_get_origin_type` and both schema entry points.
- `inference_properties.dfy` (`InferenceProperties`) holds what inference
  promises:
  - a declarative `Supported` predicate, with a proof that inference
    succeeds exactly on supported hints;
  - how model fields become `Object` properties;
  - the result for each form of hint.
- `validation.dfy` (`TypeHintValidation`) holds:
  - `Validate`, the recursive `_validate_example_against_type_hint`;
  - the `try/except` wrapper `_get_example_validation_result`;
  - the list and dictionary loops, each as a fold function and as an
    imperative method proved equal to it.
- `validation_properties.dfy` (`ValidationProperties`) holds what
  validation promises:
  - a declarative `Conforms` relation, with a proof that validation succeeds
    exactly on conforming examples;
  - list order and dictionary keys are kept, and every failure is collected;
  - validation returns the example unchanged unless a pydantic model is
    involved.

Modelling choices:

- **Exceptions are error values.** `InferError` and `VError` each have one
  constructor per raise site. The element loops catch only
  `MlflowException`. Two Python errors get through the loops:
  - `IndexError`, raised for `list` or `dict` hints with too few arguments
    (lines 406 and 408), is `ArgIndexOutOfRange`;
  - `TypeError`, raised when `type_hint(**example_dict)` (line 392) is
    given a dictionary with a key that is not a string, is
    `KeywordsNotStrings`.
- **`isinstance` follows Python.** A `bool` passes an `int` hint at line
  398, because `bool` subclasses `int`. `IsInstance` says so, and
  `ScalarValidation` states it.
- **The pydantic validator is a parameter.** The strict validator
  (`model_validate`, a library call) is `accepts: (TypeHint, entries) ->
  bool`. Validation is proved for every such function.
- **Pydantic instances store their dump.** A model instance holds the
  entries its `model_dump()` returns.
- **Dictionaries keep insertion order.** They are sequences of key/value
  pairs.

## Model

| member | source | states |
|---|---|---|
| `TypeHintTypes.DataTypeOf` | mlflow/types/type_hints.py:44-51 | each of int/str/bool/float/bytes/datetime maps to its own DataType (long/string/boolean/double/binary/datetime), one to one |
| `TypeHintTypes.FirstNonNone` | mlflow/types/type_hints.py:203 | the effective type of a union is its first member that is not `NoneType`; there is none only when every member is `NoneType` |
| `TypeHintTypes.IsInstance` | mlflow/types/type_hints.py:398 | an example is an instance of a primitive hint exactly when its own class is that class or a subclass of it, so a boolean is an instance of both `bool` and `int` and of nothing else |
| `TypeHintTypes.InvalidTypeHint` | mlflow/types/type_hints.py:225-238 | the unsupported-hint error carries the hint and adds "must include a valid element type" exactly for bare `list`, `dict`, `Optional`, `Union` |
| `TypeHintInference.GetElementType` | mlflow/types/type_hints.py:312-326 | a list hint yields its element type exactly when it has one argument; no argument and several arguments are the two distinct errors |
| `TypeHintInference.Infer` | mlflow/types/type_hints.py:161-222 | an inferred column is required exactly when the hint is not an `Optional` (a union listing `NoneType`) |
| `TypeHintInference.InferTypeFromPydanticModel` | mlflow/types/type_hints.py:241-278 | the field loop returns exactly the object type, or the first error, that the field-by-field fold specifies; a non-model raises `TypeError` |
| `TypeHintInference.OriginOf` | mlflow/types/type_hints.py:498-513 | `_get_origin_type` never reports a union: `Optional[X]`, with its two members in either order, takes `X`'s origin, `Union[None, None]` has none, every other union is `Any`, any other hint keeps `get_origin` |
| `TypeHintInference.IsListHint` | mlflow/types/type_hints.py:329-331 | a non-union hint is a list hint exactly when it is a parametrised `list[...]`; `Optional[X]` (either order) is one exactly when `X` is; no other union is |
| `TypeHintInference.InferSchema` | mlflow/types/type_hints.py:351-361 | the schema succeeds exactly when inference succeeds on a non-optional hint, and then holds one required column of the inferred type; an optional hint is refused |
| `TypeHintInference.InferSchemaFromListHint` | mlflow/types/type_hints.py:334-348 | a non-list hint is refused; `list[X]` has exactly `X`'s schema; any other list hint gets the element lookup's error; success implies the hint is literally `list[X]`; any `Optional` input is refused |
| `InferenceProperties.InferOkIffSupported` | mlflow/types/type_hints.py:161-222 | inference succeeds exactly on the declaratively supported hints: primitives, Any, `list[X]`, `dict[str, X]`, unions other than a bad `Optional`, fully annotated models without optional-required fields |
| `InferenceProperties.ObjectFoldOkIff` | mlflow/types/type_hints.py:252-264 | the field loop gets through the first k fields without raising exactly when each is unannotated or has a supported type that is not optional-but-required |
| `InferenceProperties.ObjectFoldInvalidFields` | mlflow/types/type_hints.py:256-258 | the loop's unannotated-field list is the names of the unannotated fields, in field order |
| `InferenceProperties.ObjectFoldProperties` | mlflow/types/type_hints.py:265-271 | with no unannotated field, the loop holds one property per field in field order, with the field's name, inferred dtype and required flag, and a required field's type is required |
| `InferenceProperties.ObjectPropertiesFollowFields` | mlflow/types/type_hints.py:241-278 | a model infers an Object whose properties follow the fields in order, each with the field's name and inferred dtype, required exactly when its annotation is not Optional |
| `InferenceProperties.UnannotatedFieldsReportedTogether` | mlflow/types/type_hints.py:272-276 | when every annotated field is inferable, the model fails exactly when some field is unannotated, with one error naming all of them in order |
| `InferenceProperties.OptionalRequiredFieldRejected` | mlflow/types/type_hints.py:260-264 | a model with an Optional field that pydantic marks required is rejected |
| `InferenceProperties.PrimitivesAndAny` | mlflow/types/type_hints.py:166-169 | `Any` infers required AnyType; each primitive infers its mapped DataType, required |
| `InferenceProperties.ListsAndBareGenerics` | mlflow/types/type_hints.py:175-180 | `list[X]` infers required `Array` of X's dtype; zero or several arguments raise their errors; bare generics raise the element-type error |
| `InferenceProperties.Dicts` | mlflow/types/type_hints.py:181-193 | `dict[str, X]` infers required `Map` of X's dtype; a non-str key type or an arity other than two raises |
| `InferenceProperties.OptionalUnion` | mlflow/types/type_hints.py:194-207 | `Optional[X]`, in either order, infers X's dtype with required false |
| `InferenceProperties.OtherUnions` | mlflow/types/type_hints.py:208-221 | None plus two or more members infers AnyType not required; a union without None infers AnyType required |
| `InferenceProperties.OptionalTakesOrigin` | mlflow/types/type_hints.py:505-509 | `Optional[X]`, written either way round, has the origin of `X` |
| `InferenceProperties.ListHintIff` | mlflow/types/type_hints.py:329-331 | a hint is a list hint exactly when removing its `Optional` wrappers at every depth leaves a parametrised `list[...]` |
| `InferenceProperties.ListSchemaOkIff` | mlflow/types/type_hints.py:334-348 | the model-input schema succeeds exactly on `list[X]` of a supported non-optional `X`, and `list[int]` gives one required `long` column |
| `InferenceProperties.OptionalListInputRejected` | mlflow/types/type_hints.py:329-348 | `Optional[list[X]]` passes the list-origin check but is refused by the element lookup as having two arguments |
| `TypeHintValidation.Validate` | mlflow/types/type_hints.py:364-422 | a pydantic hint only ever yields a model instance; a primitive hint returns the example itself, which is an instance of the class; `None` passes every `Optional`; list and dict hints need and yield a list and a dict; any other hint is unsupported |
| `TypeHintValidation.GetExampleValidationResult` | mlflow/types/type_hints.py:451-456 | an `MlflowException` becomes a failed result carrying its error, success carries the validated value, and only other exceptions propagate |
| `TypeHintValidation.ValidateListElements` | mlflow/types/type_hints.py:459-474 | the element loop returns exactly what the list fold specifies: a non-list is refused, an escaping exception stops the loop, failures raise once at the end |
| `TypeHintValidation.ValidateDictElements` | mlflow/types/type_hints.py:477-495 | the entry loop returns exactly what the dict fold specifies: a non-dict is refused, non-string keys and failing values are recorded, failures raise once at the end |
| `ValidationProperties.ListFoldAllPass` | mlflow/types/type_hints.py:464-474 | the list loop ends with nothing recorded exactly when every element validates, and then holds each validated value in input order |
| `ValidationProperties.DictFoldAllPass` | mlflow/types/type_hints.py:482-495 | the dict loop ends with nothing recorded exactly when every key is a string and every value validates, and then holds each key with its validated value in order |
| `ValidationProperties.ListFoldRaises` | mlflow/types/type_hints.py:466-471 | the list loop raises past itself exactly when some element raises a non-Mlflow exception, and then with such an exception |
| `ValidationProperties.ListFoldFirstEscape` | mlflow/types/type_hints.py:466-467 | when the list loop raises past itself, it raises exactly the exception of the first element that raises one |
| `ValidationProperties.ListFoldInvalid` | mlflow/types/type_hints.py:464-472 | the list loop records an element exactly when it fails, with that element's own error, and records nothing else |
| `ValidationProperties.DictFoldRaises` | mlflow/types/type_hints.py:484-492 | the dict loop raises past itself exactly when a value under a string key raises a non-Mlflow exception |
| `ValidationProperties.DictFoldFirstEscape` | mlflow/types/type_hints.py:484-488 | when the dict loop raises past itself, it raises exactly the exception of the first value under a string key that raises one |
| `ValidationProperties.DictFoldRecordsFailures` | mlflow/types/type_hints.py:485-490 | every entry with a non-string key or a failing value has its key recorded |
| `ValidationProperties.DictFoldRecordsOnlyFailures` | mlflow/types/type_hints.py:485-490 | every recorded key comes from a failing entry: `KeyNotString` for a non-string key, otherwise the value's own error |
| `ValidationProperties.ValidateOkIffConforms` | mlflow/types/type_hints.py:364-422 | validation succeeds exactly on the examples that conform to the hint, stated declaratively over all list elements, dict entries, union members and models (a dict given for a model needs string keys) |
| `ValidationProperties.ValidationIsIdentityWithoutModels` | mlflow/types/type_hints.py:364-373 | the only conversion is dict to pydantic model: for a hint without models a successful validation returns the example unchanged |
| `ValidationProperties.ListResultFollowsInput` | mlflow/types/type_hints.py:459-474 | a list validates exactly when every element does, and the result has the input's length and order, each entry the element's validated value |
| `ValidationProperties.ListRaisesPastLoop` | mlflow/types/type_hints.py:451-456 | list validation fails with a non-Mlflow exception exactly when some element raises one, and then with the exception of the first such element |
| `ValidationProperties.ListFailuresCollected` | mlflow/types/type_hints.py:464-473 | if no element escapes and some fail, the call fails once, listing exactly the failing elements, each with its own error |
| `ValidationProperties.DictResultKeepsKeys` | mlflow/types/type_hints.py:477-495 | a dict validates exactly when every key is a string and every value validates, and the result has the input's keys in order, each with its validated value |
| `ValidationProperties.DictRaisesPastLoop` | mlflow/types/type_hints.py:484-492 | dict validation fails with a non-Mlflow exception exactly when a value under a string key raises one, and then with the exception of the first such value |
| `ValidationProperties.DictFailuresCollected` | mlflow/types/type_hints.py:482-494 | if no value escapes and some entry fails, the call fails once, recording every failing key with the error of an entry that failed under it |
| `ValidationProperties.ScalarValidation` | mlflow/types/type_hints.py:393-421 | Any returns the example unchanged; a primitive returns it exactly when isinstance holds (a bool passes int, an int fails float); Optional accepts None; other unions return it unchecked |
| `ValidationProperties.PydanticValidation` | mlflow/types/type_hints.py:374-392 | a pydantic hint turns an accepted dict with string keys into a model instance; an accepted dict with another key raises a `TypeError` that escapes; an accepted instance is returned unchanged; anything else is refused |
| `ValidationProperties.MissingArgumentsEscape` | mlflow/types/type_hints.py:403-408 | a `list` hint without arguments or a `dict` hint with fewer than two raises an IndexError that the element loops do not catch |

## Left out

- Pandas and numpy conversions are not modelled, because they depend on
  those libraries: `_convert_dataframe_to_example_format` and
  `_convert_data_to_type_hint`.
- The import probing is not modelled, because it depends on which libraries
  are installed. That covers `type_hints_no_signature_inference` with its
  `lru_cache`, `_signature_cannot_be_inferred_from_type_hint`,
  `_is_type_hint_from_example` and `_is_example_valid_for_type_from_example`.
- The serving environment is not modelled. `_parse_data_for_datatype_hint`
  decodes base64 strings into bytes and ISO strings into datetimes only when
  an environment variable is set, using library decoders. Validation here
  behaves as outside a serving environment.
- Pydantic version branching is not modelled, because it is a library
  detail. `model_fields` and `field_required` become the `Field` records of
  a `Model` hint. `model_validate` becomes the `accepts` parameter.
  `model_dump` becomes the entries a `VModel` holds.
- Building a model instance is simplified. `type_hint(**example_dict)`
  becomes a `VModel` holding the dictionary's entries, or the uncaught
  `TypeError` when a key is not a string. The model does not cover
  coercions pydantic might make on construction.
- Logger warnings are not modelled, because they do not affect results.
- Exception messages are not modelled as text. Each error is a constructor
  carrying the hint or value it names.
- Failing elements are keyed by the value itself, not by its `str()`. The
  source keys them by `str(elem)` or `str(key)`, so distinct values with
  the same printed form overwrite each other there but not in the model.
- Self-referential pydantic models are not represented. A model whose field
  refers back to it, such as `children: list["Node"]`, makes the source
  recurse between lines 170-171, 259 and 176-178 until Python raises a
  `RecursionError`, which nothing in the file catches. `TypeHint` is a finite
  datatype, so `Infer` and `Validate` only ever see finite hints and always
  terminate.
- `typing`'s own normalisation of unions is not modelled. Python flattens
  and deduplicates union members; here unions are taken as given, so
  malformed unions such as `[NoneT, NoneT]` are also covered.
- The rest of the repository is not part of this model. That includes the
  gRPC prompt-service stubs, `mlflow/entities/run.py` and the evaluation
  tests.
