/** What validation promises: which examples a hint accepts, that lists keep
    their order and dictionaries their keys, that every failing element is
    reported in one error, and that validation converts nothing except a
    dictionary given for a pydantic model. */
module ValidationProperties {
  import opened TypeHintTypes
  import opened TypeHintValidation

  /** The examples a hint accepts, stated declaratively: anything under
      `Any`; an instance of a primitive's class; a list whose elements all
      conform to the element type; a dictionary whose keys are all strings
      and whose values all conform to the value type; under `Optional[X]`,
      `None` or an example conforming to `X`; anything under any other
      union; for a pydantic model, a model instance the validator accepts, or
      a dictionary with string keys the validator accepts. */
  predicate Conforms(v: Value, h: TypeHint, accepts: PydanticValidator)
    decreases h
  {
    match h
    case Model(_, _) => (v.VModel? || (v.VDict? && KeywordKeys(v.entries))) && accepts(h, v.entries)
    case AnyT => true
    case Prim(p) => IsInstance(v, p)
    case ListOf(args) =>
      |args| > 0 && v.VList? && forall i :: 0 <= i < |v.items| ==> Conforms(v.items[i], args[0], accepts)
    case DictOf(args) =>
      |args| > 1 && v.VDict? &&
      forall i :: 0 <= i < |v.entries| ==> v.entries[i].0.VStr? && Conforms(v.entries[i].1, args[1], accepts)
    case UnionOf(args) =>
      NoneT in args && |args| == 2 && v != VNone ==>
        exists a :: a in args && a != NoneT && Conforms(v, a, accepts)
    case _ => false
  }

  /** The hint mentions no pydantic model at any depth. */
  predicate NoModels(h: TypeHint)
    decreases h
  {
    match h
    case Model(_, _) => false
    case ListOf(args) => forall a :: a in args ==> NoModels(a)
    case DictOf(args) => forall a :: a in args ==> NoModels(a)
    case UnionOf(args) => forall a :: a in args ==> NoModels(a)
    case OtherGeneric(args) => forall a :: a in args ==> NoModels(a)
    case _ => true
  }

  /** The list loop ends with no failure exactly when every element
      validates, and then it holds each element's validated value, in
      order. */
  lemma {:induction false} ListFoldAllPass(e: TypeHint, items: seq<Value>, k: nat, accepts: PydanticValidator)
    requires k <= |items|
    ensures (ListFold(e, items, k, accepts).Ok? && ListFold(e, items, k, accepts).value.invalid == map[])
        <==> forall i :: 0 <= i < k ==> Validate(items[i], e, accepts).Ok?
    ensures ListFold(e, items, k, accepts).Ok? && ListFold(e, items, k, accepts).value.invalid == map[] ==>
      var result := ListFold(e, items, k, accepts).value.result;
      |result| == k && forall i :: 0 <= i < k ==> Validate(items[i], e, accepts) == Ok(result[i])
    decreases k
  {
    if k > 0 {
      ListFoldAllPass(e, items, k - 1, accepts);
      var x := items[k - 1];
      var prev := ListFold(e, items, k - 1, accepts);
      if prev.Ok? && prev.value.invalid != map[] {
        var y :| y in prev.value.invalid;
        assert ListFold(e, items, k, accepts).Ok? ==> y in ListFold(e, items, k, accepts).value.invalid;
      }
      if GetExampleValidationResult(x, e, accepts).Ok? && GetExampleValidationResult(x, e, accepts).value.Failed? {
        assert ListFold(e, items, k, accepts).Ok? ==> x in ListFold(e, items, k, accepts).value.invalid;
      }
    }
  }

  /** The dictionary loop ends with no failure exactly when every key is a
      string and every value validates, and then it holds each key with its
      validated value, in order. */
  lemma {:induction false} DictFoldAllPass(e: TypeHint, entries: seq<(Value, Value)>, k: nat,
                                           accepts: PydanticValidator)
    requires k <= |entries|
    ensures (DictFold(e, entries, k, accepts).Ok? && DictFold(e, entries, k, accepts).value.invalid == map[])
        <==> forall i :: 0 <= i < k ==> entries[i].0.VStr? && Validate(entries[i].1, e, accepts).Ok?
    ensures DictFold(e, entries, k, accepts).Ok? && DictFold(e, entries, k, accepts).value.invalid == map[] ==>
      var result := DictFold(e, entries, k, accepts).value.result;
      |result| == k &&
      forall i :: 0 <= i < k ==> result[i].0 == entries[i].0 && Validate(entries[i].1, e, accepts) == Ok(result[i].1)
    decreases k
  {
    if k > 0 {
      DictFoldAllPass(e, entries, k - 1, accepts);
      var (key, value) := entries[k - 1];
      var prev := DictFold(e, entries, k - 1, accepts);
      if prev.Ok? && prev.value.invalid != map[] {
        var y :| y in prev.value.invalid;
        assert DictFold(e, entries, k, accepts).Ok? ==> y in DictFold(e, entries, k, accepts).value.invalid;
      }
      if !key.VStr? ||
         (GetExampleValidationResult(value, e, accepts).Ok? && GetExampleValidationResult(value, e, accepts).value.Failed?) {
        assert DictFold(e, entries, k, accepts).Ok? ==> key in DictFold(e, entries, k, accepts).value.invalid;
      }
    }
  }

  /** The list loop raises past itself exactly when some element raises an
      exception that is not an `MlflowException`, and then with that
      exception. */
  lemma {:induction false} ListFoldRaises(e: TypeHint, items: seq<Value>, k: nat, accepts: PydanticValidator)
    requires k <= |items|
    ensures ListFold(e, items, k, accepts).Ok? <==>
      forall i :: 0 <= i < k ==> GetExampleValidationResult(items[i], e, accepts).Ok?
    ensures ListFold(e, items, k, accepts).Err? ==> !Caught(ListFold(e, items, k, accepts).error)
    decreases k
  {
    if k > 0 {
      ListFoldRaises(e, items, k - 1, accepts);
      assert (forall i :: 0 <= i < k ==> GetExampleValidationResult(items[i], e, accepts).Ok?)
         <==> (forall i :: 0 <= i < k - 1 ==> GetExampleValidationResult(items[i], e, accepts).Ok?) &&
              GetExampleValidationResult(items[k - 1], e, accepts).Ok?;
    }
  }

  /** When the list loop raises past itself, it raises the exception of the
      first element that raises one. */
  lemma {:induction false} ListFoldFirstEscape(e: TypeHint, items: seq<Value>, k: nat, accepts: PydanticValidator)
    requires k <= |items| && ListFold(e, items, k, accepts).Err?
    ensures exists i ::
      && 0 <= i < k
      && GetExampleValidationResult(items[i], e, accepts).Err?
      && GetExampleValidationResult(items[i], e, accepts).error == ListFold(e, items, k, accepts).error
      && forall j :: 0 <= j < i ==> GetExampleValidationResult(items[j], e, accepts).Ok?
    decreases k
  {
    if ListFold(e, items, k - 1, accepts).Err? {
      ListFoldFirstEscape(e, items, k - 1, accepts);
    } else {
      ListFoldRaises(e, items, k - 1, accepts);
      assert GetExampleValidationResult(items[k - 1], e, accepts).Err?;
    }
  }

  /** When the list loop does not raise, it records exactly the failing
      elements, each with its own error. */
  lemma {:induction false} ListFoldInvalid(e: TypeHint, items: seq<Value>, k: nat, accepts: PydanticValidator)
    requires k <= |items| && ListFold(e, items, k, accepts).Ok?
    ensures var invalid := ListFold(e, items, k, accepts).value.invalid;
      (forall i :: 0 <= i < k ==> (items[i] in invalid <==> Validate(items[i], e, accepts).Err?)) &&
      (forall x :: x in invalid ==> x in items[..k] && Validate(x, e, accepts) == Err(invalid[x]))
    decreases k
  {
    if k > 0 {
      ListFoldInvalid(e, items, k - 1, accepts);
      assert items[..k] == items[..k - 1] + [items[k - 1]];
    }
  }

  /** The dictionary loop raises past itself exactly when the value under
      some string key raises an exception that is not an `MlflowException`,
      and then with that exception. */
  lemma {:induction false} DictFoldRaises(e: TypeHint, entries: seq<(Value, Value)>, k: nat,
                                          accepts: PydanticValidator)
    requires k <= |entries|
    ensures DictFold(e, entries, k, accepts).Ok? <==>
      forall i :: 0 <= i < k && entries[i].0.VStr? ==> GetExampleValidationResult(entries[i].1, e, accepts).Ok?
    ensures DictFold(e, entries, k, accepts).Err? ==> !Caught(DictFold(e, entries, k, accepts).error)
    decreases k
  {
    if k > 0 {
      DictFoldRaises(e, entries, k - 1, accepts);
      assert (forall i :: 0 <= i < k && entries[i].0.VStr? ==> GetExampleValidationResult(entries[i].1, e, accepts).Ok?)
         <==> (forall i :: 0 <= i < k - 1 && entries[i].0.VStr? ==> GetExampleValidationResult(entries[i].1, e, accepts).Ok?) &&
              (entries[k - 1].0.VStr? ==> GetExampleValidationResult(entries[k - 1].1, e, accepts).Ok?);
    }
  }

  /** When the dictionary loop raises past itself, it raises the exception
      of the first value under a string key that raises one. */
  lemma {:induction false} DictFoldFirstEscape(e: TypeHint, entries: seq<(Value, Value)>, k: nat,
                                               accepts: PydanticValidator)
    requires k <= |entries| && DictFold(e, entries, k, accepts).Err?
    ensures exists i ::
      && 0 <= i < k && entries[i].0.VStr?
      && GetExampleValidationResult(entries[i].1, e, accepts).Err?
      && GetExampleValidationResult(entries[i].1, e, accepts).error == DictFold(e, entries, k, accepts).error
      && forall j :: 0 <= j < i && entries[j].0.VStr? ==> GetExampleValidationResult(entries[j].1, e, accepts).Ok?
    decreases k
  {
    if DictFold(e, entries, k - 1, accepts).Err? {
      DictFoldFirstEscape(e, entries, k - 1, accepts);
    } else {
      DictFoldRaises(e, entries, k - 1, accepts);
      assert entries[k - 1].0.VStr? && GetExampleValidationResult(entries[k - 1].1, e, accepts).Err?;
    }
  }

  /** A dictionary entry fails when its key is not a string or its value
      does not validate. */
  predicate EntryFails(entry: (Value, Value), e: TypeHint, accepts: PydanticValidator)
  {
    !entry.0.VStr? || Validate(entry.1, e, accepts).Err?
  }

  /** The error the dictionary loop records for a failing entry. */
  predicate RecordedFor(entry: (Value, Value), e: TypeHint, accepts: PydanticValidator, error: VError)
  {
    if entry.0.VStr? then Validate(entry.1, e, accepts) == Err(error) else error == KeyNotString(entry.0)
  }

  /** One step of the dictionary loop: a failing entry records its key with
      its error, any other entry leaves the record unchanged. */
  lemma DictFoldStep(e: TypeHint, entries: seq<(Value, Value)>, k: nat, accepts: PydanticValidator)
    requires 0 < k <= |entries| && DictFold(e, entries, k, accepts).Ok?
    ensures DictFold(e, entries, k - 1, accepts).Ok?
    ensures var prev := DictFold(e, entries, k - 1, accepts).value.invalid;
      var invalid := DictFold(e, entries, k, accepts).value.invalid;
      var entry := entries[k - 1];
      if EntryFails(entry, e, accepts)
      then entry.0 in invalid && RecordedFor(entry, e, accepts, invalid[entry.0]) && invalid == prev[entry.0 := invalid[entry.0]]
      else invalid == prev
  {
  }

  /** When the dictionary loop does not raise, it records the key of every
      failing entry. */
  lemma {:induction false} DictFoldRecordsFailures(e: TypeHint, entries: seq<(Value, Value)>, k: nat,
                                                   accepts: PydanticValidator)
    requires k <= |entries| && DictFold(e, entries, k, accepts).Ok?
    ensures var invalid := DictFold(e, entries, k, accepts).value.invalid;
      forall i :: 0 <= i < k && EntryFails(entries[i], e, accepts) ==> entries[i].0 in invalid
    decreases k
  {
    if k > 0 {
      DictFoldStep(e, entries, k, accepts);
      DictFoldRecordsFailures(e, entries, k - 1, accepts);
    }
  }

  /** When the dictionary loop does not raise, each recorded key comes from a
      failing entry whose error it holds. */
  lemma {:induction false} DictFoldRecordsOnlyFailures(e: TypeHint, entries: seq<(Value, Value)>, k: nat,
                                                       accepts: PydanticValidator)
    requires k <= |entries| && DictFold(e, entries, k, accepts).Ok?
    ensures var invalid := DictFold(e, entries, k, accepts).value.invalid;
      forall x :: x in invalid ==>
        exists i :: 0 <= i < k && entries[i].0 == x && RecordedFor(entries[i], e, accepts, invalid[x])
    decreases k
  {
    if k > 0 {
      DictFoldStep(e, entries, k, accepts);
      DictFoldRecordsOnlyFailures(e, entries, k - 1, accepts);
      var prev := DictFold(e, entries, k - 1, accepts).value.invalid;
      var invalid := DictFold(e, entries, k, accepts).value.invalid;
      var entry := entries[k - 1];
      forall x | x in invalid
        ensures exists i :: 0 <= i < k && entries[i].0 == x && RecordedFor(entries[i], e, accepts, invalid[x])
      {
        if EntryFails(entry, e, accepts) && x == entry.0 {
          assert entries[k - 1].0 == x && RecordedFor(entries[k - 1], e, accepts, invalid[x]);
        } else {
          assert x in prev && invalid[x] == prev[x];
          var i :| 0 <= i < k - 1 && entries[i].0 == x && RecordedFor(entries[i], e, accepts, prev[x]);
          assert entries[i].0 == x && RecordedFor(entries[i], e, accepts, invalid[x]);
        }
      }
    }
  }

  /** Validation succeeds exactly on the conforming examples. */
  lemma {:induction false} ValidateOkIffConforms(v: Value, h: TypeHint, accepts: PydanticValidator)
    ensures Validate(v, h, accepts).Ok? <==> Conforms(v, h, accepts)
    decreases h, 1
  {
    match h
    case ListOf(args) => ListOkIffConforms(v, h, accepts);
    case DictOf(args) => DictOkIffConforms(v, h, accepts);
    case UnionOf(args) => UnionOkIffConforms(v, h, accepts);
    case _ =>
  }

  lemma {:induction false} ListOkIffConforms(v: Value, h: TypeHint, accepts: PydanticValidator)
    requires h.ListOf?
    ensures Validate(v, h, accepts).Ok? <==> Conforms(v, h, accepts)
    decreases h, 0
  {
    if |h.args| > 0 && v.VList? {
      var e := h.args[0];
      ListFoldAllPass(e, v.items, |v.items|, accepts);
      forall i | 0 <= i < |v.items|
        ensures Validate(v.items[i], e, accepts).Ok? <==> Conforms(v.items[i], e, accepts)
      {
        ValidateOkIffConforms(v.items[i], e, accepts);
      }
    }
  }

  lemma {:induction false} DictOkIffConforms(v: Value, h: TypeHint, accepts: PydanticValidator)
    requires h.DictOf?
    ensures Validate(v, h, accepts).Ok? <==> Conforms(v, h, accepts)
    decreases h, 0
  {
    if |h.args| > 1 && v.VDict? {
      var e := h.args[1];
      DictFoldAllPass(e, v.entries, |v.entries|, accepts);
      forall i | 0 <= i < |v.entries|
        ensures Validate(v.entries[i].1, e, accepts).Ok? <==> Conforms(v.entries[i].1, e, accepts)
      {
        ValidateOkIffConforms(v.entries[i].1, e, accepts);
      }
    }
  }

  lemma {:induction false} UnionOkIffConforms(v: Value, h: TypeHint, accepts: PydanticValidator)
    requires h.UnionOf?
    ensures Validate(v, h, accepts).Ok? <==> Conforms(v, h, accepts)
    decreases h, 0
  {
    var args := h.args;
    if NoneT in args && |args| == 2 && v != VNone {
      var first := FirstNonNone(args);
      if first.Some? {
        ValidateOkIffConforms(v, first.value, accepts);
        forall a | a in args && a != NoneT
          ensures a == first.value
        {
          var i :| 0 <= i < |args| && args[i] == first.value && forall j :: 0 <= j < i ==> args[j] == NoneT;
          assert args[0] == NoneT || args[1] == NoneT;
        }
      }
    }
  }

  /** Outside pydantic models, a successful validation returns the example
      unchanged. */
  lemma {:induction false} ValidationIsIdentityWithoutModels(v: Value, h: TypeHint, accepts: PydanticValidator)
    requires NoModels(h) && Validate(v, h, accepts).Ok?
    ensures Validate(v, h, accepts).value == v
    decreases h
  {
    match h
    case ListOf(args) =>
      var e := args[0];
      ListFoldAllPass(e, v.items, |v.items|, accepts);
      var result := ListFold(e, v.items, |v.items|, accepts).value.result;
      forall i | 0 <= i < |v.items| ensures result[i] == v.items[i] {
        ValidationIsIdentityWithoutModels(v.items[i], e, accepts);
      }
    case DictOf(args) =>
      var e := args[1];
      DictFoldAllPass(e, v.entries, |v.entries|, accepts);
      var result := DictFold(e, v.entries, |v.entries|, accepts).value.result;
      forall i | 0 <= i < |v.entries| ensures result[i] == v.entries[i] {
        ValidationIsIdentityWithoutModels(v.entries[i].1, e, accepts);
      }
    case UnionOf(args) =>
      if !(NoneT in args && v == VNone) && NoneT in args && |args| == 2 {
        ValidationIsIdentityWithoutModels(v, FirstNonNone(args).value, accepts);
      }
    case _ =>
  }

  /** A validated list has one entry per element of the example, in the same
      order, each the element's validated value; and it is valid exactly when
      every element is. */
  lemma ListResultFollowsInput(e: TypeHint, items: seq<Value>, accepts: PydanticValidator)
    ensures ListElements(e, VList(items), accepts).Ok? <==>
      forall i :: 0 <= i < |items| ==> Validate(items[i], e, accepts).Ok?
    ensures ListElements(e, VList(items), accepts).Ok? ==>
      var w := ListElements(e, VList(items), accepts).value;
      w.VList? && |w.items| == |items| &&
      forall i :: 0 <= i < |items| ==> Validate(items[i], e, accepts) == Ok(w.items[i])
  {
    ListFoldAllPass(e, items, |items|, accepts);
  }

  /** A list fails with an exception that is not an `MlflowException`
      exactly when some element raises one. */
  lemma ListRaisesPastLoop(e: TypeHint, items: seq<Value>, accepts: PydanticValidator)
    ensures (ListElements(e, VList(items), accepts).Err? && !Caught(ListElements(e, VList(items), accepts).error))
        <==> exists i :: 0 <= i < |items| && GetExampleValidationResult(items[i], e, accepts).Err?
    ensures ListElements(e, VList(items), accepts).Err? && !Caught(ListElements(e, VList(items), accepts).error) ==>
      exists i :: 0 <= i < |items| && GetExampleValidationResult(items[i], e, accepts).Err? &&
        GetExampleValidationResult(items[i], e, accepts).error == ListElements(e, VList(items), accepts).error &&
        forall j :: 0 <= j < i ==> GetExampleValidationResult(items[j], e, accepts).Ok?
  {
    ListFoldRaises(e, items, |items|, accepts);
    if ListFold(e, items, |items|, accepts).Err? {
      ListFoldFirstEscape(e, items, |items|, accepts);
    }
  }

  /** When no element raises past the loop but some element fails, the call
      fails once with every failing element and its error. */
  lemma ListFailuresCollected(e: TypeHint, items: seq<Value>, accepts: PydanticValidator)
    requires forall i :: 0 <= i < |items| ==> GetExampleValidationResult(items[i], e, accepts).Ok?
    requires exists i :: 0 <= i < |items| && Validate(items[i], e, accepts).Err?
    ensures ListElements(e, VList(items), accepts).Err?
    ensures ListElements(e, VList(items), accepts).error.InvalidListElements?
    ensures var errors := ListElements(e, VList(items), accepts).error.errors;
      (forall i :: 0 <= i < |items| ==> (items[i] in errors <==> Validate(items[i], e, accepts).Err?)) &&
      (forall x :: x in errors ==> x in items && Validate(x, e, accepts) == Err(errors[x]))
  {
    ListFoldRaises(e, items, |items|, accepts);
    var fold := ListFold(e, items, |items|, accepts);
    ListFoldInvalid(e, items, |items|, accepts);
    assert items[..|items|] == items;
    var i :| 0 <= i < |items| && Validate(items[i], e, accepts).Err?;
    assert items[i] in fold.value.invalid;
  }

  /** A validated dictionary has exactly the example's keys, in the same
      order, each with its validated value; it is valid exactly when every
      key is a string and every value is valid. */
  lemma DictResultKeepsKeys(e: TypeHint, entries: seq<(Value, Value)>, accepts: PydanticValidator)
    ensures DictElements(e, VDict(entries), accepts).Ok? <==>
      forall i :: 0 <= i < |entries| ==> entries[i].0.VStr? && Validate(entries[i].1, e, accepts).Ok?
    ensures DictElements(e, VDict(entries), accepts).Ok? ==>
      var w := DictElements(e, VDict(entries), accepts).value;
      w.VDict? && |w.entries| == |entries| &&
      forall i :: 0 <= i < |entries| ==>
        w.entries[i].0 == entries[i].0 && Validate(entries[i].1, e, accepts) == Ok(w.entries[i].1)
  {
    DictFoldAllPass(e, entries, |entries|, accepts);
  }

  /** A dictionary fails with an exception that is not an
      `MlflowException` exactly when the value under some string key raises
      one. */
  lemma DictRaisesPastLoop(e: TypeHint, entries: seq<(Value, Value)>, accepts: PydanticValidator)
    ensures (DictElements(e, VDict(entries), accepts).Err? && !Caught(DictElements(e, VDict(entries), accepts).error))
        <==> exists i :: 0 <= i < |entries| && entries[i].0.VStr? &&
                         GetExampleValidationResult(entries[i].1, e, accepts).Err?
    ensures DictElements(e, VDict(entries), accepts).Err? && !Caught(DictElements(e, VDict(entries), accepts).error) ==>
      exists i :: 0 <= i < |entries| && entries[i].0.VStr? && GetExampleValidationResult(entries[i].1, e, accepts).Err? &&
        GetExampleValidationResult(entries[i].1, e, accepts).error == DictElements(e, VDict(entries), accepts).error &&
        forall j :: 0 <= j < i && entries[j].0.VStr? ==> GetExampleValidationResult(entries[j].1, e, accepts).Ok?
  {
    DictFoldRaises(e, entries, |entries|, accepts);
    if DictFold(e, entries, |entries|, accepts).Err? {
      DictFoldFirstEscape(e, entries, |entries|, accepts);
    }
  }

  /** When no value raises past the loop but some key is not a string or some
      value fails, the call fails once, recording every such key with the
      error of an entry that failed under it. */
  lemma DictFailuresCollected(e: TypeHint, entries: seq<(Value, Value)>, accepts: PydanticValidator)
    requires forall i :: 0 <= i < |entries| && entries[i].0.VStr? ==>
               GetExampleValidationResult(entries[i].1, e, accepts).Ok?
    requires exists i :: 0 <= i < |entries| && EntryFails(entries[i], e, accepts)
    ensures DictElements(e, VDict(entries), accepts).Err?
    ensures DictElements(e, VDict(entries), accepts).error.InvalidDictElements?
    ensures var errors := DictElements(e, VDict(entries), accepts).error.errors;
      (forall i :: 0 <= i < |entries| && EntryFails(entries[i], e, accepts) ==> entries[i].0 in errors) &&
      (forall x :: x in errors ==>
         exists i :: 0 <= i < |entries| && entries[i].0 == x && RecordedFor(entries[i], e, accepts, errors[x]))
  {
    DictFoldRaises(e, entries, |entries|, accepts);
    var fold := DictFold(e, entries, |entries|, accepts);
    DictFoldRecordsFailures(e, entries, |entries|, accepts);
    DictFoldRecordsOnlyFailures(e, entries, |entries|, accepts);
    var i :| 0 <= i < |entries| && EntryFails(entries[i], e, accepts);
    assert entries[i].0 in fold.value.invalid;
  }

  /** Scalar hints: `Any` returns the example unchanged; a primitive returns
      it exactly when it is an instance of the primitive's class, so a
      boolean passes `int`; `Optional[...]` accepts `None`; a union without
      `None`, or with `None` and two or more other members, returns the
      example unchecked. */
  lemma ScalarValidation(v: Value, p: Primitive, args: seq<TypeHint>, accepts: PydanticValidator)
    ensures Validate(v, AnyT, accepts) == Ok(v)
    ensures Validate(v, Prim(p), accepts) == if IsInstance(v, p) then Ok(v) else Err(ExpectedType(p, v))
    ensures Validate(VBool(true), Prim(PInt), accepts) == Ok(VBool(true))
    ensures Validate(VInt(1), Prim(PFloat), accepts).Err?
    ensures NoneT in args ==> Validate(VNone, UnionOf(args), accepts) == Ok(VNone)
    ensures NoneT !in args || |args| != 2 ==> Validate(v, UnionOf(args), accepts) == Ok(v)
  {
  }

  /** A pydantic hint accepts a dictionary as a new model instance and a
      model instance as it is, whenever the validator accepts its entries;
      an accepted dictionary with a key that is not a string cannot be
      unpacked into the constructor, and that `TypeError` escapes
      `_get_example_validation_result`; any other example is rejected. */
  lemma PydanticValidation(v: Value, h: TypeHint, accepts: PydanticValidator)
    requires h.Model?
    ensures v.VDict? && accepts(h, v.entries) && KeywordKeys(v.entries) ==>
      Validate(v, h, accepts) == Ok(VModel(h.name, v.entries))
    ensures v.VDict? && accepts(h, v.entries) && !KeywordKeys(v.entries) ==>
      Validate(v, h, accepts) == Err(KeywordsNotStrings(h.name)) &&
      GetExampleValidationResult(v, h, accepts) == Err(KeywordsNotStrings(h.name))
    ensures v.VModel? && accepts(h, v.entries) ==> Validate(v, h, accepts) == Ok(v)
    ensures !(v.VDict? || v.VModel?) ==> Validate(v, h, accepts) == Err(ExpectedDictOrModel(v))
    ensures (v.VDict? || v.VModel?) && !accepts(h, v.entries) ==> Validate(v, h, accepts) == Err(ModelRejected(h.name))
  {
  }

  /** A `list` hint without an argument and a `dict` hint with fewer than two
      raise an `IndexError` before the example is looked at, which element
      loops do not catch. */
  lemma MissingArgumentsEscape(v: Value, h: TypeHint, accepts: PydanticValidator)
    requires (h.ListOf? && |h.args| == 0) || (h.DictOf? && |h.args| < 2)
    ensures Validate(v, h, accepts) == Err(ArgIndexOutOfRange(h))
    ensures GetExampleValidationResult(v, h, accepts) == Err(ArgIndexOutOfRange(h))
  {
  }
}
