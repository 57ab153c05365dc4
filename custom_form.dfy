/** The form component: field validators, the per-form dictionaries of
    field values and validators, and the submit pass that collects every
    failing validator before deciding between submitting and reporting. */
module CustomForm {
  import opened Wrappers
  import opened Decimal
  import opened Money
  import opened Transactions

  // ---------------------------------------------------------------------
  // Field values
  // ---------------------------------------------------------------------

  /** The JavaScript values a field can hold. Numbers are integers or NaN. */
  datatype JsValue = Undefined | Null | Str(s: string) | Num(n: int) | NaN | Bool(b: bool)

  /** `String(value)`, the coercion `RegExp.prototype.test` and `exec`
      apply to their argument. */
  function Text(v: JsValue): string
  {
    match v
    case Undefined => "undefined"
    case Null => "null"
    case Str(s) => s
    case Num(n) => IntToString(n)
    case NaN => "NaN"
    case Bool(b) => if b then "true" else "false"
  }

  /** `!!value`. */
  predicate Truthy(v: JsValue)
  {
    match v
    case Undefined => false
    case Null => false
    case Str(s) => s != ""
    case Num(n) => n != 0
    case NaN => false
    case Bool(b) => b
  }

  // ---------------------------------------------------------------------
  // Validators
  // ---------------------------------------------------------------------

  datatype FieldValidator = FieldValidator(message: Option<string>, validate: JsValue -> bool)

  predicate IsFilled(v: JsValue)
  {
    !(v.Undefined? || v.Null? || (v.Str? && v.s == "") || v.NaN?)
  }

  /** `required(message)`: rejects undefined, null, "" and NaN. */
  function Required(message: Option<string>): (r: FieldValidator)
    ensures r.message == message
    ensures forall v :: r.validate(v) <==> !(v.Undefined? || v.Null? || v == Str("") || v.NaN?)
  {
    FieldValidator(message, IsFilled)
  }

  /** `pattern(regex, message)`: the verdict of `regex.test`, here the
      parameter `test`, on the value's text. */
  function Pattern(test: string -> bool, message: Option<string>): (r: FieldValidator)
    ensures r.message == message
    ensures forall v :: r.validate(v) == test(Text(v))
  {
    FieldValidator(message, (v: JsValue) => test(Text(v)))
  }

  /** `custom(validate, message)`: the predicate is used as given. */
  function Custom(validate: JsValue -> bool, message: Option<string>): (r: FieldValidator)
    ensures r.message == message
    ensures forall v :: r.validate(v) == validate(v)
  {
    FieldValidator(message, validate)
  }

  predicate IsPositiveAmount(v: JsValue)
  {
    match ParseInput(Text(v))
    case Ok(amount) => amount > 0
    case Err(_) => false
  }

  /** `monetaryAmount(message)`: the loose parser must succeed and give a
      positive amount; its exception counts as a rejection. */
  function MonetaryAmount(message: Option<string>): (r: FieldValidator)
    ensures r.message == message
    ensures forall v :: r.validate(v) <==> ParseInput(Text(v)).Ok? && ParseInput(Text(v)).value > 0
  {
    FieldValidator(message, IsPositiveAmount)
  }

  /** `/\d+,?\d{0,2}/.test(s)`, the amount pattern the transaction views
      use: unanchored, it succeeds where the loose parser's match does. */
  predicate AmountPattern(s: string)
  {
    MatchInput(s).Some?
  }

  /** `(value) => !!value && ExternalTransactionTypes.includes(value)`, the
      type choice the transaction views check with `custom`. */
  predicate IsExternalTypeChoice(v: JsValue)
  {
    Truthy(v) && v.Str? && (v.s == ExternalTypeName(Receita) || v.s == ExternalTypeName(Despesa))
  }

  // ---------------------------------------------------------------------
  // Dictionaries in insertion order
  // ---------------------------------------------------------------------

  /** A string-keyed JavaScript object, as its entries in insertion order. */
  type Entries<V> = seq<(string, V)>

  predicate UniqueKeys<V>(e: Entries<V>)
  {
    forall i, j :: 0 <= i < j < |e| ==> e[i].0 != e[j].0
  }

  predicate HasKey<V>(e: Entries<V>, key: string)
  {
    exists i :: 0 <= i < |e| && e[i].0 == key
  }

  /** `object[key]`, `None` standing for a missing property. */
  function Lookup<V>(e: Entries<V>, key: string): (r: Option<V>)
    ensures r.None? <==> !HasKey(e, key)
    ensures r.Some? ==> exists i :: 0 <= i < |e| && e[i] == (key, r.value)
  {
    if e == [] then None
    else if e[0].0 == key then Some(e[0].1)
    else
      var r := Lookup(e[1..], key);
      assert forall i :: 0 < i < |e| ==> e[i] == e[1..][i - 1];
      r
  }

  /** `object[key] = value`: an existing property keeps its position. */
  function Put<V>(e: Entries<V>, key: string, value: V): Entries<V>
  {
    if e == [] then [(key, value)]
    else if e[0].0 == key then [(key, value)] + e[1..]
    else [e[0]] + Put(e[1..], key, value)
  }

  /** `delete object[key]`. */
  function Remove<V>(e: Entries<V>, key: string): Entries<V>
  {
    if e == [] then []
    else if e[0].0 == key then Remove(e[1..], key)
    else [e[0]] + Remove(e[1..], key)
  }

  /** `values[name]`: undefined when the property is missing. */
  function ValueOf(values: Entries<JsValue>, name: string): JsValue
  {
    match Lookup(values, name)
    case Some(v) => v
    case None => Undefined
  }

  // ---------------------------------------------------------------------
  // handleSubmit
  // ---------------------------------------------------------------------

  datatype FieldError = FieldError(name: string, message: Option<string>)

  /** `onSubmit(values)` or `onError(errors)`. */
  datatype SubmitOutcome = Submitted(values: Entries<JsValue>) | Rejected(errors: seq<FieldError>)

  /** One error per failing validator of one field, in order. */
  function FieldErrors(name: string, validators: seq<FieldValidator>, value: JsValue): seq<FieldError>
  {
    if validators == [] then []
    else
      var last := validators[|validators| - 1];
      FieldErrors(name, validators[..|validators| - 1], value)
      + (if last.validate(value) then [] else [FieldError(name, last.message)])
  }

  /** The errors of every field, fields in dictionary order. */
  function Errors(fields: Entries<seq<FieldValidator>>, values: Entries<JsValue>): seq<FieldError>
  {
    if fields == [] then []
    else
      var last := fields[|fields| - 1];
      Errors(fields[..|fields| - 1], values) + FieldErrors(last.0, last.1, ValueOf(values, last.0))
  }

  /** The dictionaries `createCustomForm` keeps. A signal is represented by
      the value it holds. */
  class Form {
    var fieldSignals: Entries<JsValue>
    var fieldValidators: Entries<seq<FieldValidator>>

    /** The keys of a JavaScript object are distinct. */
    predicate Valid()
      reads this
    {
      UniqueKeys(fieldSignals) && UniqueKeys(fieldValidators)
    }

    constructor ()
      ensures fieldSignals == [] && fieldValidators == []
      ensures Valid()
    {
      fieldSignals := [];
      fieldValidators := [];
    }

    /** `getOrCreateFieldSignal(name)`, returning the current value: an
      existing signal is reused, a missing one is created holding
      undefined. */
    method GetOrCreateFieldSignal(name: string) returns (value: JsValue)
      modifies this
      ensures HasKey(old(fieldSignals), name) ==>
                fieldSignals == old(fieldSignals) && Lookup(fieldSignals, name) == Some(value)
      ensures !HasKey(old(fieldSignals), name) ==>
                fieldSignals == old(fieldSignals) + [(name, Undefined)] && value == Undefined
      ensures fieldValidators == old(fieldValidators)
      ensures old(Valid()) ==> Valid()
    {
      var existing := Lookup(fieldSignals, name);
      if existing.Some? {
        return existing.value;
      }
      PutMissing(fieldSignals, name, Undefined);
      fieldSignals := fieldSignals + [(name, Undefined)];
      value := Undefined;
    }

    /** `setFieldValue(name, value)` and the field's `value` setter. */
    method SetFieldValue(name: string, value: JsValue)
      modifies this
      ensures fieldSignals == Put(old(fieldSignals), name, value)
      ensures fieldValidators == old(fieldValidators)
      ensures old(Valid()) ==> Valid()
    {
      ghost var before := fieldSignals;
      var _ := GetOrCreateFieldSignal(name);
      PutKeepsUniqueKeys(fieldSignals, name, value);
      if !HasKey(before, name) {
        PutMissing(before, name, value);
        PutTwiceMissing(before, name, Undefined, value);
      }
      fieldSignals := Put(fieldSignals, name, value);
    }

    /** The field's `value` getter. */
    method ReadField(name: string) returns (value: JsValue)
      modifies this
      ensures value == ValueOf(old(fieldSignals), name)
      ensures fieldSignals == if HasKey(old(fieldSignals), name) then old(fieldSignals)
                              else old(fieldSignals) + [(name, Undefined)]
      ensures HasKey(fieldSignals, name)
      ensures fieldValidators == old(fieldValidators)
      ensures old(Valid()) ==> Valid()
    {
      value := GetOrCreateFieldSignal(name);
      assert HasKey(fieldSignals, name) by {
        if !HasKey(old(fieldSignals), name) {
          assert fieldSignals[|fieldSignals| - 1].0 == name;
        }
      }
    }

    /** What rendering a `FormField` registers: its validators, when it
      has any. */
    method RegisterField(name: string, validation: Option<seq<FieldValidator>>)
      modifies this
      ensures validation.Some? ==> fieldValidators == Put(old(fieldValidators), name, validation.value)
      ensures validation.None? ==> fieldValidators == old(fieldValidators)
      ensures fieldSignals == old(fieldSignals)
      ensures old(Valid()) ==> Valid()
    {
      if validation.Some? {
        PutKeepsUniqueKeys(fieldValidators, name, validation.value);
        fieldValidators := Put(fieldValidators, name, validation.value);
      }
    }

    /** The `onCleanup` handler of a `FormField`: both entries go. */
    method Cleanup(name: string)
      modifies this
      ensures fieldSignals == Remove(old(fieldSignals), name)
      ensures fieldValidators == Remove(old(fieldValidators), name)
      ensures old(Valid()) ==> Valid()
    {
      RemoveKeepsUniqueKeys(fieldSignals, name);
      RemoveKeepsUniqueKeys(fieldValidators, name);
      fieldSignals := Remove(fieldSignals, name);
      fieldValidators := Remove(fieldValidators, name);
    }

    /** `handleSubmit`: collects every field's value, runs every validator
      of every registered field, and submits only when none fails. */
    method HandleSubmit() returns (outcome: SubmitOutcome)
      requires Valid()
      ensures var errors := Errors(fieldValidators, fieldSignals);
        outcome == if errors == [] then Submitted(fieldSignals) else Rejected(errors)
    {
      var values: Entries<JsValue> := [];
      for i := 0 to |fieldSignals|
        invariant values == fieldSignals[..i]
      {
        PutMissing(values, fieldSignals[i].0, fieldSignals[i].1);
        assert fieldSignals[..i + 1] == fieldSignals[..i] + [fieldSignals[i]];
        values := Put(values, fieldSignals[i].0, fieldSignals[i].1);
      }
      assert values == fieldSignals;

      var errors: seq<FieldError> := [];
      for i := 0 to |fieldValidators|
        invariant errors == Errors(fieldValidators[..i], values)
      {
        var name := fieldValidators[i].0;
        var validators := fieldValidators[i].1;
        var value := ValueOf(values, name);
        for j := 0 to |validators|
          invariant errors == Errors(fieldValidators[..i], values) + FieldErrors(name, validators[..j], value)
        {
          assert validators[..j + 1][..j] == validators[..j];
          if !validators[j].validate(value) {
            errors := errors + [FieldError(name, validators[j].message)];
          }
        }
        assert validators[..|validators|] == validators;
        assert fieldValidators[..i + 1][..i] == fieldValidators[..i];
      }
      assert fieldValidators[..|fieldValidators|] == fieldValidators;

      if |errors| > 0 {
        return Rejected(errors);
      }
      return Submitted(values);
    }
  }

  // ---------------------------------------------------------------------
  // Lemmas: dictionaries
  // ---------------------------------------------------------------------

  /** A missing key is appended at the end. */
  lemma {:induction false} PutMissing<V>(e: Entries<V>, key: string, value: V)
    requires !HasKey(e, key)
    ensures Put(e, key, value) == e + [(key, value)]
    ensures UniqueKeys(e) ==> UniqueKeys(e + [(key, value)])
  {
    AppendMissingKeepsUniqueKeys(e, key, value);
    PutMissingAppends(e, key, value);
  }

  lemma AppendMissingKeepsUniqueKeys<V>(e: Entries<V>, key: string, value: V)
    requires !HasKey(e, key)
    ensures UniqueKeys(e) ==> UniqueKeys(e + [(key, value)])
  {
    var f := e + [(key, value)];
    assert forall i :: 0 <= i < |e| ==> f[i] == e[i];
  }

  lemma {:induction false} PutMissingAppends<V>(e: Entries<V>, key: string, value: V)
    requires !HasKey(e, key)
    ensures Put(e, key, value) == e + [(key, value)]
  {
    if e != [] {
      assert !HasKey(e[1..], key) by {
        assert forall i :: 0 <= i < |e[1..]| ==> e[1..][i] == e[i + 1];
      }
      PutMissingAppends(e[1..], key, value);
      assert [e[0]] + (e[1..] + [(key, value)]) == e + [(key, value)];
    }
  }

  /** Writing a key twice leaves the second value. */
  lemma {:induction false} PutTwiceMissing<V>(e: Entries<V>, key: string, first: V, second: V)
    requires !HasKey(e, key)
    ensures Put(e + [(key, first)], key, second) == Put(e, key, second)
  {
    if e == [] {
      assert [(key, first)][1..] == [];
    } else {
      assert (e + [(key, first)])[1..] == e[1..] + [(key, first)];
      assert !HasKey(e[1..], key) by {
        assert forall i :: 0 <= i < |e[1..]| ==> e[1..][i] == e[i + 1];
      }
      PutTwiceMissing(e[1..], key, first, second);
    }
  }

  /** A write is read back, and leaves every other key alone. */
  lemma {:induction false} LookupAfterPut<V>(e: Entries<V>, key: string, value: V, other: string)
    ensures Lookup(Put(e, key, value), key) == Some(value)
    ensures other != key ==> Lookup(Put(e, key, value), other) == Lookup(e, other)
  {
    if e != [] && e[0].0 != key {
      LookupAfterPut(e[1..], key, value, other);
      assert Put(e, key, value)[1..] == Put(e[1..], key, value);
    }
  }

  /** After a delete the key is gone and every other key is untouched. */
  lemma {:induction false} LookupAfterRemove<V>(e: Entries<V>, key: string, other: string)
    ensures !HasKey(Remove(e, key), key)
    ensures other != key ==> Lookup(Remove(e, key), other) == Lookup(e, other)
  {
    if e != [] {
      LookupAfterRemove(e[1..], key, other);
      if e[0].0 != key {
        assert Remove(e, key)[1..] == Remove(e[1..], key);
      }
    }
  }

  /** `Put` keeps the keys and where they are, adding `key` at the end
      when it was missing. */
  lemma {:induction false} PutKeys<V>(e: Entries<V>, key: string, value: V)
    ensures HasKey(e, key) ==> |Put(e, key, value)| == |e|
                               && forall i :: 0 <= i < |e| ==> Put(e, key, value)[i].0 == e[i].0
    ensures !HasKey(e, key) ==> Put(e, key, value) == e + [(key, value)]
  {
    if !HasKey(e, key) {
      PutMissing(e, key, value);
    } else if e[0].0 != key {
      assert HasKey(e[1..], key) by {
        var i :| 0 <= i < |e| && e[i].0 == key;
        assert e[1..][i - 1].0 == key;
      }
      PutKeys(e[1..], key, value);
      assert forall i :: 0 < i < |e| ==> Put(e, key, value)[i] == Put(e[1..], key, value)[i - 1];
    }
  }

  lemma PutKeepsUniqueKeys<V>(e: Entries<V>, key: string, value: V)
    ensures UniqueKeys(e) ==> UniqueKeys(Put(e, key, value))
  {
    PutKeys(e, key, value);
    if !HasKey(e, key) {
      PutMissing(e, key, value);
    }
  }

  /** Every entry `Remove` keeps comes from `e`, in the same order. */
  lemma {:induction false} RemoveKeepsUniqueKeys<V>(e: Entries<V>, key: string)
    ensures UniqueKeys(e) ==> UniqueKeys(Remove(e, key))
    ensures forall x :: x in Remove(e, key) ==> x in e
  {
    if e != [] {
      assert UniqueKeys(e) ==> UniqueKeys(e[1..]) by {
        assert forall i :: 0 <= i < |e[1..]| ==> e[1..][i] == e[i + 1];
      }
      RemoveKeepsUniqueKeys(e[1..], key);
      var r := Remove(e[1..], key);
      if e[0].0 != key && UniqueKeys(e) {
        assert forall x :: x in r ==> x.0 != e[0].0 by {
          forall x | x in r ensures x.0 != e[0].0 {
            assert x in e[1..];
            var i :| 0 <= i < |e[1..]| && e[1..][i] == x;
            assert e[i + 1] == x;
          }
        }
        assert forall i :: 0 < i < |[e[0]] + r| ==> ([e[0]] + r)[i] == r[i - 1];
      }
    }
  }

  // ---------------------------------------------------------------------
  // Lemmas: submission
  // ---------------------------------------------------------------------

  /** A field's validators yield no error exactly when all of them accept
      the value. */
  lemma {:induction false} FieldErrorsEmpty(name: string, validators: seq<FieldValidator>, value: JsValue)
    ensures FieldErrors(name, validators, value) == []
        <==> forall j :: 0 <= j < |validators| ==> validators[j].validate(value)
    decreases |validators|
  {
    if validators != [] {
      var front := validators[..|validators| - 1];
      FieldErrorsEmpty(name, front, value);
      assert forall j :: 0 <= j < |front| ==> front[j] == validators[j];
    }
  }

  /** Every error names the field and carries the message of one of its
      failing validators. */
  lemma {:induction false} FieldErrorsFromFailures(name: string, validators: seq<FieldValidator>, value: JsValue)
    ensures forall e :: e in FieldErrors(name, validators, value) ==>
      exists j :: 0 <= j < |validators| && !validators[j].validate(value)
                  && e == FieldError(name, validators[j].message)
    decreases |validators|
  {
    if validators != [] {
      var front := validators[..|validators| - 1];
      FieldErrorsFromFailures(name, front, value);
      assert forall j :: 0 <= j < |front| ==> front[j] == validators[j];
    }
  }

  /** The positions of the validators that reject `value`. */
  function Failing(validators: seq<FieldValidator>, value: JsValue): set<nat>
  {
    set j | 0 <= j < |validators| && !validators[j].validate(value)
  }

  /** One error per failing validator: the count of errors is the count
      of failures. */
  lemma {:induction false} FieldErrorsCount(name: string, validators: seq<FieldValidator>, value: JsValue)
    ensures |FieldErrors(name, validators, value)| == |Failing(validators, value)|
    decreases |validators|
  {
    if validators == [] {
      assert Failing(validators, value) == {};
    } else {
      var n := |validators| - 1;
      var front := validators[..n];
      FieldErrorsCount(name, front, value);
      FailuresSplit(validators, value);
    }
  }

  /** The failing positions of a list are those of its front, plus the
      last position when the last validator fails. */
  lemma FailuresSplit(validators: seq<FieldValidator>, value: JsValue)
    requires validators != []
    ensures var n := |validators| - 1;
      |Failing(validators, value)|
      == |Failing(validators[..n], value)|
         + (if validators[n].validate(value) then 0 else 1)
  {
    var n := |validators| - 1;
    var failing := Failing(validators, value);
    var failingFront := Failing(validators[..n], value);
    assert forall j :: 0 <= j < n ==> validators[..n][j] == validators[j];
    if validators[n].validate(value) {
      assert failing == failingFront;
    } else {
      assert failing == failingFront + {n};
      assert n !in failingFront;
    }
  }

  /** `onSubmit` runs exactly when every validator of every registered field
      accepts that field's value. */
  lemma {:induction false} ErrorsEmpty(fields: Entries<seq<FieldValidator>>, values: Entries<JsValue>)
    ensures Errors(fields, values) == []
        <==> forall i, j :: 0 <= i < |fields| && 0 <= j < |fields[i].1| ==>
               fields[i].1[j].validate(ValueOf(values, fields[i].0))
    decreases |fields|
  {
    if fields != [] {
      var front := fields[..|fields| - 1];
      var last := fields[|fields| - 1];
      ErrorsEmpty(front, values);
      FieldErrorsEmpty(last.0, last.1, ValueOf(values, last.0));
      assert forall i :: 0 <= i < |front| ==> front[i] == fields[i];
    }
  }

  /** Fields report in dictionary order: the errors of a split dictionary
      are the errors of its parts, one after the other. */
  lemma {:induction false} ErrorsAppend(x: Entries<seq<FieldValidator>>, y: Entries<seq<FieldValidator>>,
                                        values: Entries<JsValue>)
    ensures Errors(x + y, values) == Errors(x, values) + Errors(y, values)
    decreases |y|
  {
    if y == [] {
      assert x + y == x;
    } else {
      var y', last := y[..|y| - 1], y[|y| - 1];
      var tail := FieldErrors(last.0, last.1, ValueOf(values, last.0));
      assert (x + y)[..|x + y| - 1] == x + y';
      assert (x + y)[|x + y| - 1] == last;
      assert Errors(x + y, values) == Errors(x + y', values) + tail;
      assert Errors(y, values) == Errors(y', values) + tail;
      ErrorsAppend(x, y', values);
      assert Errors(x, values) + Errors(y', values) + tail == Errors(x, values) + (Errors(y', values) + tail);
    }
  }

  // ---------------------------------------------------------------------
  // Lemmas: validators
  // ---------------------------------------------------------------------

  /** The amount pattern accepts exactly the text the loose parser reads. */
  lemma AmountPatternIsParseable(s: string)
    ensures AmountPattern(s) <==> HasDigit(s)
    ensures AmountPattern(s) <==> ParseInput(s).Ok?
  {
  }

  /** `monetaryAmount` is stricter than the amount pattern. */
  lemma MonetaryAmountImpliesPattern(v: JsValue, m1: Option<string>, m2: Option<string>)
    ensures MonetaryAmount(m1).validate(v) ==> Pattern(AmountPattern, m2).validate(v)
  {
    assert MonetaryAmount(m1).validate(v) ==> ParseInput(Text(v)).Ok?;
  }

  /** Zero amounts pass the pattern and fail `monetaryAmount`; so does an
      empty field, which only `required` rejects. */
  lemma ZeroPassesPatternOnly()
    ensures Pattern(AmountPattern, None).validate(Str("0")) && !MonetaryAmount(None).validate(Str("0"))
    ensures Pattern(AmountPattern, None).validate(Str("0,0")) && !MonetaryAmount(None).validate(Str("0,0"))
    ensures !MonetaryAmount(None).validate(Str("")) && !Required(None).validate(Str(""))
  {
    ZeroExamples();
    assert !HasDigit("");
  }

  lemma ZeroExamples()
    ensures MatchInput("0") == Some(InputMatch("0", ""))
    ensures MatchInput("0,0") == Some(InputMatch("0", "0"))
    ensures ParseInput("0") == Ok(0) && ParseInput("0,0") == Ok(0)
  {
    MatchInputNoComma("0", "");
    assert "0" + "" == "0";
    MatchInputWithFraction("0", "0", "");
    assert "0" + "," + "0" + "" == "0,0";
    ParseInputOfMatch("0", InputMatch("0", ""));
    ParseInputOfMatch("0,0", InputMatch("0", "0"));
    assert Value("0") == 0;
  }

  /** A field never filled holds undefined, whose text has no digit: the
      amount validators reject it. */
  lemma UndefinedAmountRejected(m: Option<string>)
    ensures !Pattern(AmountPattern, m).validate(Undefined)
    ensures !MonetaryAmount(m).validate(Undefined)
  {
    forall i | 0 <= i < |"undefined"| ensures !IsDigit("undefined"[i]) {
      assert "undefined"[i] in "undefined";
    }
  }

  /** The type choice accepts exactly the two external transaction types. */
  lemma TypeChoiceAcceptsTypes(v: JsValue, m: Option<string>)
    ensures Custom(IsExternalTypeChoice, m).validate(v) <==> v == Str("Receita") || v == Str("Despesa")
  {
  }

  /** `required` accepts every other value, including "0", `false` and 0. */
  lemma RequiredAcceptsFalsyValues(m: Option<string>)
    ensures Required(m).validate(Str("0")) && Required(m).validate(Bool(false)) && Required(m).validate(Num(0))
  {
  }
}
