/** Validated values are complete, typed and within bounds, and validating them again changes nothing. */
module ProviderConfigLaws {
  import opened Wrappers
  import opened Json
  import opened ProviderFields
  import opened ProviderConfig

  // ---------- what a declared type means ----------

  // The wire form of a field's value.
  predicate HasDeclaredType(rt: Runtime, name: string, value: Value, spec: Entries) {
    if name == "aes_key" then (value.Str? && IsAesHex(value.s)) || (value.Arr? && IsAesBytes(value.items))
    else
      match FieldType(rt, spec)
      case "integer" => value.Int?
      case "number" => value.Float?
      case "boolean" => value.Bool?
      case "array" => value.Arr?
      case "object" => value.Obj?
      case _ => value.Str?
  }

  // Integers and floats are amounts; booleans are not.
  predicate IsAmount(value: Value) {
    value.Int? || value.Float?
  }

  function Amount(value: Value): real
    requires IsAmount(value)
  {
    if value.Int? then value.i as real else value.r
  }

  // Text matches the declared pattern, if there is a usable one; an amount lies within the declared bounds.
  predicate MeetsConstraints(rt: Runtime, value: Value, spec: Entries) {
    var pattern, minimum, maximum := Get(spec, "pattern"), Get(spec, "minimum"), Get(spec, "maximum");
    && (value.Str? && !Falsy(pattern) ==>
          var p := if pattern.value.Str? then pattern.value.s else rt.show(pattern.value);
          p != "" ==> rt.matches(p, value.s) != Some(false))
    && (IsAmount(value) && minimum.Some? && IsAmount(minimum.value) ==> Amount(minimum.value) <= Amount(value))
    && (IsAmount(value) && maximum.Some? && IsAmount(maximum.value) ==> Amount(value) <= Amount(maximum.value))
  }

  lemma CoercedHasType(rt: Runtime, name: string, raw: Value, spec: Entries)
    requires CoerceFieldValue(rt, name, raw, spec).Ok?
    ensures HasDeclaredType(rt, name, CoerceFieldValue(rt, name, raw, spec).value, spec)
  {
    hide FieldType, Strip, Lower;
  }

  lemma HexIsStripped(s: string)
    requires IsAesHex(s)
    ensures Strip(s) == s && s != ""
  {
    assert IsHexDigit(s[0]) && IsHexDigit(s[|s| - 1]);
  }

  // ---------- what coercion makes of a value ----------

  /** A value that already has its declared type, without outer space if it is text, is sent as it is. */
  lemma WellTypedIsKept(rt: Runtime, name: string, value: Value, spec: Entries)
    requires HasDeclaredType(rt, name, value, spec) && (value.Str? ==> Stripped(value.s))
    ensures CoerceFieldValue(rt, name, value, spec) == Ok(value)
  {
    hide FieldType, Lower;
  }

  lemma CoercedTextIsStripped(rt: Runtime, name: string, raw: Value, spec: Entries)
    requires rt.Valid() && !IsBlank(Some(raw)) && CoerceFieldValue(rt, name, raw, spec).Ok?
    ensures
      var value := CoerceFieldValue(rt, name, raw, spec).value;
      !IsBlank(Some(value)) && (value.Str? ==> Stripped(value.s))
  {
    hide FieldType, Lower;
    if name == "aes_key" && raw.Str? {
      HexIsStripped(Strip(raw.s));
    }
  }

  /** A coerced value is not blank and coerces to itself. */
  lemma CoercionIsIdempotent(rt: Runtime, name: string, raw: Value, spec: Entries)
    requires rt.Valid() && !IsBlank(Some(raw)) && CoerceFieldValue(rt, name, raw, spec).Ok?
    ensures
      var value := CoerceFieldValue(rt, name, raw, spec).value;
      !IsBlank(Some(value)) && CoerceFieldValue(rt, name, value, spec) == Ok(value)
  {
    hide CoerceFieldValue, HasDeclaredType, IsBlank;
    var value := CoerceFieldValue(rt, name, raw, spec).value;
    CoercedHasType(rt, name, raw, spec);
    CoercedTextIsStripped(rt, name, raw, spec);
    WellTypedIsKept(rt, name, value, spec);
  }

  /** The words of a boolean, in any case and with any outer space; any other text is refused. */
  lemma BooleanWords(rt: Runtime, name: string, text: string, spec: Entries)
    requires name != "aes_key" && FieldType(rt, spec) == "boolean"
    ensures
      var word := Lower(Strip(text));
      CoerceFieldValue(rt, name, Str(text), spec)
      == if word == "true" || word == "1" || word == "yes" || word == "on" then Ok(Bool(true))
         else if word == "false" || word == "0" || word == "no" || word == "off" then Ok(Bool(false))
         else Err(NotABoolean)
  {
    hide FieldType, Lower;
  }

  // The integer part of a number, toward zero.
  predicate IntegerPart(r: real, i: int) {
    if r >= 0.0 then i as real <= r < (i + 1) as real else (i - 1) as real < r <= i as real
  }

  /** Integers keep their number, floats their integer part, and text is what it parses to without its outer space. */
  lemma IntegersKeepTheirNumber(rt: Runtime, name: string, raw: Value, spec: Entries)
    requires name != "aes_key" && FieldType(rt, spec) == "integer"
    ensures
      var r := CoerceFieldValue(rt, name, raw, spec);
      match raw
      case Int(i) => r == Ok(Int(i))
      case Float(f) => r.Ok? && r.value.Int? && IntegerPart(f, r.value.i)
      case Bool(b) => r == Ok(Int(if b then 1 else 0))
      case Str(s) =>
        var n := rt.parseInt(Strip(s));
        r == if n.Some? then Ok(Int(n.value)) else Err(NotAnInteger)
      case _ => r == Err(NotAnInteger)
  {
    hide FieldType;
  }

  lemma NumbersKeepTheirValue(rt: Runtime, name: string, raw: Value, spec: Entries)
    requires name != "aes_key" && FieldType(rt, spec) == "number"
    ensures
      var r := CoerceFieldValue(rt, name, raw, spec);
      match raw
      case Int(i) => r == Ok(Float(i as real))
      case Float(f) => r == Ok(Float(f))
      case Bool(b) => r == Ok(Float(if b then 1.0 else 0.0))
      case Str(s) =>
        var n := rt.parseFloat(Strip(s));
        r == if n.Some? then Ok(Float(n.value)) else Err(NotANumber)
      case _ => r == Err(NotANumber)
  {
    hide FieldType;
  }

  /** Fields of other types: arrays and objects pass as they are, and everything else is sent as text. */
  lemma OtherValuesKeepTheirText(rt: Runtime, name: string, raw: Value, spec: Entries)
    requires name != "aes_key" && FieldType(rt, spec) !in {"integer", "number", "boolean"}
    ensures
      var r, fieldType := CoerceFieldValue(rt, name, raw, spec), FieldType(rt, spec);
      if fieldType == "array" then r == (if raw.Arr? then Ok(raw) else Err(NotAnArray))
      else if fieldType == "object" then r == (if raw.Obj? then Ok(raw) else Err(NotAnObject))
      else if raw.Arr? || raw.Obj? then r == Err(NotAString)
      else r == Ok(Str(if raw.Str? then Strip(raw.s) else rt.show(raw)))
  {
    hide FieldType;
  }

  /** An AES key is 32 hexadecimal digits, outer space aside, or 16 integers below 256, whatever its declared type. */
  lemma AesKeysAreHexOrBytes(rt: Runtime, raw: Value, spec: Entries)
    ensures
      var r := CoerceFieldValue(rt, "aes_key", raw, spec);
      match raw
      case Str(s) =>
        var key := Strip(s);
        var hex := |key| == 32 && forall i :: 0 <= i < 32 ==>
                     '0' <= key[i] <= '9' || 'a' <= key[i] <= 'f' || 'A' <= key[i] <= 'F';
        r == if hex then Ok(Str(key)) else Err(BadAesKey)
      case Arr(items) =>
        var bytes := |items| == 16 && forall i :: 0 <= i < 16 ==> items[i].Int? && 0 <= items[i].i < 256;
        r == if bytes then Ok(raw) else Err(BadAesKey)
      case _ => r == Err(BadAesKey)
  {}

  // ---------- the specs ----------

  predicate DistinctSpecs(specs: seq<FieldSpec>) {
    forall i, j :: 0 <= i < j < |specs| ==> specs[i].name != specs[j].name
  }

  lemma {:induction false} PutSpecKeepsDistinct(specs: seq<FieldSpec>, f: FieldSpec)
    requires DistinctSpecs(specs)
    ensures DistinctSpecs(PutSpec(specs, f))
    ensures forall i :: 0 <= i < |PutSpec(specs, f)| ==>
              || PutSpec(specs, f)[i].name == f.name
              || exists j :: 0 <= j < |specs| && specs[j].name == PutSpec(specs, f)[i].name
  {
    if specs != [] && specs[0].name != f.name {
      PutSpecKeepsDistinct(specs[1..], f);
    }
  }

  lemma {:induction false} CollectedSpecsAreDistinct(rt: Runtime, specs: seq<FieldSpec>, entries: seq<Value>)
    requires DistinctSpecs(specs)
    ensures DistinctSpecs(CollectSpecs(rt, specs, entries))
    decreases |entries|
  {
    hide SpecOf, PutSpec;
    if entries != [] {
      var f := SpecOf(rt, entries[0]);
      PutSpecKeepsDistinct(specs, f);
      CollectedSpecsAreDistinct(rt, if f.name == "" then specs else PutSpec(specs, f), entries[1..]);
    }
  }

  // The names of the entries that have one, in order.
  function EntryNames(rt: Runtime, entries: seq<Value>): seq<string> {
    if entries == [] then []
    else
      var f := SpecOf(rt, entries[0]);
      (if f.name == "" then [] else [f.name]) + EntryNames(rt, entries[1..])
  }

  function SpecNames(specs: seq<FieldSpec>): (names: seq<string>)
    ensures |names| == |specs| && forall i :: 0 <= i < |specs| ==> names[i] == specs[i].name
  {
    seq(|specs|, i requires 0 <= i < |specs| => specs[i].name)
  }

  lemma {:induction false} PutSpecNames(specs: seq<FieldSpec>, f: FieldSpec)
    ensures SpecNames(PutSpec(specs, f))
            == if f.name in SpecNames(specs) then SpecNames(specs) else SpecNames(specs) + [f.name]
  {
    if specs != [] && specs[0].name != f.name {
      PutSpecNames(specs[1..], f);
      assert SpecNames(specs) == [specs[0].name] + SpecNames(specs[1..]);
      var put := PutSpec(specs[1..], f);
      assert SpecNames([specs[0]] + put) == [specs[0].name] + SpecNames(put);
    } else if specs != [] {
      assert SpecNames(specs)[0] == f.name;
    }
  }

  lemma {:induction false} PutSpecMembers(specs: seq<FieldSpec>, f: FieldSpec, g: FieldSpec)
    requires g == f || (g in specs && g.name != f.name)
    ensures g in PutSpec(specs, f)
  {
    if specs != [] {
      assert specs == [specs[0]] + specs[1..];
      if specs[0].name != f.name && g != specs[0] {
        PutSpecMembers(specs[1..], f, g);
      }
    }
  }

  lemma {:induction false} CollectedNames(rt: Runtime, specs: seq<FieldSpec>, entries: seq<Value>)
    ensures SpecNames(CollectSpecs(rt, specs, entries)) == AddMissing(SpecNames(specs), EntryNames(rt, entries))
    decreases |entries|
  {
    hide SpecOf, PutSpec;
    if entries != [] {
      var f := SpecOf(rt, entries[0]);
      PutSpecNames(specs, f);
      CollectedNames(rt, if f.name == "" then specs else PutSpec(specs, f), entries[1..]);
      if f.name == "" {
        assert EntryNames(rt, entries) == EntryNames(rt, entries[1..]);
      } else {
        assert EntryNames(rt, entries)[1..] == EntryNames(rt, entries[1..]);
      }
    }
  }

  lemma {:induction false} UnnamedAgainIsKept(rt: Runtime, specs: seq<FieldSpec>, entries: seq<Value>, f: FieldSpec)
    requires f in specs && forall j :: 0 <= j < |entries| ==> SpecOf(rt, entries[j]).name != f.name
    ensures f in CollectSpecs(rt, specs, entries)
    decreases |entries|
  {
    hide SpecOf, PutSpec;
    if entries != [] {
      var g := SpecOf(rt, entries[0]);
      PutSpecMembers(specs, g, f);
      forall j | 0 <= j < |entries[1..]| ensures SpecOf(rt, entries[1..][j]).name != f.name {
        assert SpecOf(rt, entries[j + 1]).name != f.name;
      }
      UnnamedAgainIsKept(rt, if g.name == "" then specs else PutSpec(specs, g), entries[1..], f);
    }
  }

  lemma {:induction false} LastSpecIsKept(rt: Runtime, specs: seq<FieldSpec>, entries: seq<Value>, i: nat)
    requires i < |entries| && SpecOf(rt, entries[i]).name != ""
    requires forall j :: i < j < |entries| ==> SpecOf(rt, entries[j]).name != SpecOf(rt, entries[i]).name
    ensures SpecOf(rt, entries[i]) in CollectSpecs(rt, specs, entries)
    decreases |entries|
  {
    hide SpecOf, PutSpec;
    var f, rest := SpecOf(rt, entries[0]), entries[1..];
    var next := if f.name == "" then specs else PutSpec(specs, f);
    if i == 0 {
      PutSpecMembers(specs, f, f);
      forall j | 0 <= j < |rest| ensures SpecOf(rt, rest[j]).name != f.name {
        assert SpecOf(rt, entries[j + 1]).name != f.name;
      }
      UnnamedAgainIsKept(rt, next, rest, f);
    } else {
      forall j | i - 1 < j < |rest| ensures SpecOf(rt, rest[j]).name != SpecOf(rt, entries[i]).name {
        assert SpecOf(rt, entries[j + 1]).name != SpecOf(rt, entries[i]).name;
      }
      LastSpecIsKept(rt, next, rest, i - 1);
    }
  }

  /** The stored specs come in the order in which their names first come up; entries without a name are dropped. */
  lemma StoredSpecsInOrder(rt: Runtime, payload: Entries, entries: seq<Value>)
    requires Get(payload, "required_fields") == Some(Arr(entries))
    ensures StoredFieldSpecs(rt, payload).Ok?
    ensures SpecNames(StoredFieldSpecs(rt, payload).value) == AddMissing([], EntryNames(rt, entries))
  {
    hide SpecOf, Get, CollectSpecs, AddMissing;
    NothingToCollect(rt);
    CollectedNames(rt, [], entries);
  }

  // Entry i has a name that no later entry has.
  predicate LastOfItsName(rt: Runtime, entries: seq<Value>, i: nat) {
    && i < |entries| && SpecOf(rt, entries[i]).name != ""
    && forall j :: i < j < |entries| ==> SpecOf(rt, entries[j]).name != SpecOf(rt, entries[i]).name
  }

  /** Of several entries with one name the last counts. */
  lemma LastEntryOfANameCounts(rt: Runtime, payload: Entries, entries: seq<Value>, i: nat)
    requires Get(payload, "required_fields") == Some(Arr(entries)) && LastOfItsName(rt, entries, i)
    ensures StoredFieldSpecs(rt, payload).Ok?
    ensures SpecOf(rt, entries[i]) in StoredFieldSpecs(rt, payload).value
  {
    hide SpecOf, Get, CollectSpecs;
    LastSpecIsKept(rt, [], entries, i);
  }

  lemma NothingToCollect(rt: Runtime)
    ensures CollectSpecs(rt, [], []) == [] && SpecNames([]) == []
    ensures AddMissing([], EntryNames(rt, [])) == []
  {}

  /** An entry's name is its "name" without outer space; a bare name is a required string field. */
  lemma EntrySpecs(rt: Runtime, name: string, entries: Entries)
    ensures Get(entries, "name") == Some(Str(name)) ==> SpecOf(rt, Obj(entries)) == FieldSpec(Strip(name), entries)
    ensures
      var bare := SpecOf(rt, Str(name));
      bare.name == Strip(name) && Required(bare) && FieldType(rt, bare.spec) == "string"
  {
    hide Strip, Get, BareSpec, Lower;
    assert Strip("") == "";
    BareSpecGets(Strip(name));
    LowerString();
  }

  lemma BareSpecGets(name: string)
    ensures Get(BareSpec(name), "type") == Some(Str("string")) && Get(BareSpec(name), "required") == Some(Bool(true))
  {
    var e := BareSpec(name);
    assert e[1..] == [Entry("type", Str("string")), Entry("required", Bool(true))];
    assert e[1..][1..] == [Entry("required", Bool(true))];
    assert Get(e, "required") == Get(e[1..], "required") == Get(e[1..][1..], "required");
  }

  lemma LowerString()
    ensures Lower(Strip("string")) == "string"
  {
    hide Lower;
    var s := "string";
    assert Stripped(s);
    assert forall i :: 0 <= i < |s| ==> Lower(s)[i] == s[i];
  }

  /** A field without a declared type is text. */
  lemma UntypedFieldIsText(rt: Runtime, spec: Entries)
    requires Get(spec, "type").None?
    ensures FieldType(rt, spec) == "string"
  {
    hide Get;
    assert Lower(Strip("")) == "";
  }

  // ---------- the coerced values ----------

  // The result at a field is its coerced value, within its constraints, and nothing when no value was given.
  predicate Delivered(rt: Runtime, f: FieldSpec, values: Entries, result: Entries) {
    var raw := Get(values, f.name);
    if IsBlank(raw) then !Has(result, f.name)
    else
      && Get(result, f.name).Some?
      && CoerceFieldValue(rt, f.name, raw.value, f.spec) == Ok(Get(result, f.name).value)
      && CheckFieldConstraints(rt, Get(result, f.name).value, f.spec) == None
  }

  lemma {:induction false} CoerceAllDelivers(rt: Runtime, specs: seq<FieldSpec>, values: Entries)
    requires DistinctSpecs(specs) && CoerceAll(rt, specs, values).Ok?
    ensures
      var result := CoerceAll(rt, specs, values).value;
      && (forall i :: 0 <= i < |specs| ==> Delivered(rt, specs[i], values, result))
      && (forall k :: Has(result, k) ==> exists i :: 0 <= i < |specs| && specs[i].name == k)
  {
    hide CoerceFieldValue, CheckFieldConstraints, IsBlank, Get;
    if specs != [] {
      var n := |specs| - 1;
      CoerceAllDelivers(rt, specs[..n], values);
      var before, result := CoerceAll(rt, specs[..n], values).value, CoerceAll(rt, specs, values).value;
      forall k ensures Has(before, k) ==> exists i :: 0 <= i < n && specs[i].name == k {
        if Has(before, k) {
          var i :| 0 <= i < n && specs[..n][i].name == k;
          assert specs[i].name == k;
        }
      }
      assert !Has(before, specs[n].name);
      if result != before {
        forall k ensures Get(result, k) == if Has(before, k) then Get(before, k)
                                          else if k == specs[n].name then Some(result[|before|].value) else None {
          GetAppend(before, result[|before|], k);
        }
      }
      forall i | 0 <= i < |specs| ensures Delivered(rt, specs[i], values, result) {
        if i < n {
          assert Delivered(rt, specs[..n][i], values, before);
        }
      }
    }
  }

  ghost predicate Sound(rt: Runtime, specs: seq<FieldSpec>, result: Validated) {
    // every required field has a value, and only listed fields have one
    && (forall i :: 0 <= i < |specs| && Required(specs[i]) ==> Has(result.fieldValues, specs[i].name))
    && (forall k :: Has(result.fieldValues, k) ==> exists i :: 0 <= i < |specs| && specs[i].name == k)
    // every value has its declared type and meets its constraints
    && (forall i :: 0 <= i < |specs| && Has(result.fieldValues, specs[i].name) ==>
          var value := Get(result.fieldValues, specs[i].name).value;
          HasDeclaredType(rt, specs[i].name, value, specs[i].spec) && MeetsConstraints(rt, value, specs[i].spec))
  }

  /** The check finds nothing exactly when the value meets its constraints. */
  lemma ConstraintsCheckedExactly(rt: Runtime, value: Value, spec: Entries)
    ensures CheckFieldConstraints(rt, value, spec) == None <==> MeetsConstraints(rt, value, spec)
  {
    hide Get, Truthy, Falsy;
    FalsyIsNotTruthy(Get(spec, "pattern"));
  }

  lemma DeliveredIsTyped(rt: Runtime, f: FieldSpec, values: Entries, result: Entries)
    requires Delivered(rt, f, values, result) && Has(result, f.name)
    ensures
      var value := Get(result, f.name).value;
      HasDeclaredType(rt, f.name, value, f.spec) && MeetsConstraints(rt, value, f.spec)
  {
    hide CoerceFieldValue, CheckFieldConstraints, HasDeclaredType, MeetsConstraints, Get;
    CoercedHasType(rt, f.name, Get(values, f.name).value, f.spec);
    ConstraintsCheckedExactly(rt, Get(result, f.name).value, f.spec);
  }

  /** A payload that validates gives every required field, no unlisted one, and only typed values within bounds. */
  lemma {:induction false} ValidationIsSound(rt: Runtime, payload: Entries)
    requires Validate(rt, payload).Ok?
    ensures StoredFieldSpecs(rt, payload).Ok?
    ensures Sound(rt, StoredFieldSpecs(rt, payload).value, Validate(rt, payload).value)
  {
    hide Get, CoerceAll, CollectSpecs, IsBlank, HasDeclaredType, MeetsConstraints;
    hide CoerceFieldValue, CheckFieldConstraints;
    var specs, values := StoredFieldSpecs(rt, payload).value, FieldValues(payload).value;
    SpecsAreDistinct(rt, payload);
    CoerceAllDelivers(rt, specs, values);
    var result := Validate(rt, payload).value.fieldValues;
    forall i | 0 <= i < |specs| && Has(result, specs[i].name)
      ensures
        var value := Get(result, specs[i].name).value;
        HasDeclaredType(rt, specs[i].name, value, specs[i].spec) && MeetsConstraints(rt, value, specs[i].spec)
    {
      DeliveredIsTyped(rt, specs[i], values, result);
    }
    forall i | 0 <= i < |specs| && Required(specs[i]) ensures Has(result, specs[i].name) {
      assert Delivered(rt, specs[i], values, result);
    }
  }

  lemma SpecsAreDistinct(rt: Runtime, payload: Entries)
    requires StoredFieldSpecs(rt, payload).Ok?
    ensures DistinctSpecs(StoredFieldSpecs(rt, payload).value)
  {
    hide CollectSpecs;
    var stored := Get(payload, "required_fields");
    if stored.Some? && stored.value.Arr? {
      CollectedSpecsAreDistinct(rt, [], stored.value.items);
    }
  }

  // ---------- when a payload is accepted ----------

  // Missing, null, or nothing but white space.
  predicate NotSupplied(value: Option<Value>) {
    value.None? || value.value.Null? || (value.value.Str? && Strip(value.value.s) == "")
  }

  lemma SameBlank(value: Option<Value>)
    ensures NotSupplied(value) <==> IsBlank(value)
  {}

  // A value given for a field can be sent.
  predicate Sendable(rt: Runtime, f: FieldSpec, values: Entries) {
    var raw := Get(values, f.name);
    NotSupplied(raw)
    || (var coerced := CoerceFieldValue(rt, f.name, raw.value, f.spec);
        coerced.Ok? && MeetsConstraints(rt, coerced.value, f.spec))
  }

  lemma {:induction false} CoercesWhenSendable(rt: Runtime, specs: seq<FieldSpec>, values: Entries)
    ensures CoerceAll(rt, specs, values).Ok? <==> forall i :: 0 <= i < |specs| ==> Sendable(rt, specs[i], values)
  {
    hide CoerceFieldValue, CheckFieldConstraints, IsBlank, NotSupplied, Get, MeetsConstraints;
    if specs != [] {
      var n := |specs| - 1;
      SameBlank(Get(values, specs[n].name));
      CoercesWhenSendable(rt, specs[..n], values);
      assert forall i :: 0 <= i < n ==> specs[..n][i] == specs[i];
      var raw := Get(values, specs[n].name);
      if !IsBlank(raw) {
        var coerced := CoerceFieldValue(rt, specs[n].name, raw.value, specs[n].spec);
        if coerced.Ok? {
          ConstraintsCheckedExactly(rt, coerced.value, specs[n].spec);
        }
      }
    }
  }

  /**
   * A payload is accepted exactly when its field list is a list and its values an object (or either is left out), every
   * field not marked optional has a value, and every value given for a field can be sent.
   */
  lemma AcceptedExactlyWhenComplete(rt: Runtime, payload: Entries)
    ensures
      var fields, given := Get(payload, "required_fields"), Get(payload, "field_values");
      Validate(rt, payload).Ok? <==>
        && (Falsy(fields) || fields.value.Arr?)
        && (Falsy(given) || given.value.Obj?)
        && var specs := StoredFieldSpecs(rt, payload).value;
           var values := if Falsy(given) then [] else given.value.entries;
           && (forall i :: 0 <= i < |specs| && Get(specs[i].spec, "required") != Some(Bool(false)) ==>
                 !NotSupplied(Get(values, specs[i].name)))
           && forall i :: 0 <= i < |specs| ==> Sendable(rt, specs[i], values)
  {
    hide CoerceAll, CollectSpecs, IsBlank, NotSupplied, Get, RequiredNames, Truthy, Sendable, Falsy;
    var fields, given := Get(payload, "required_fields"), Get(payload, "field_values");
    FalsyIsNotTruthy(fields);
    FalsyIsNotTruthy(given);
    if (Falsy(fields) || fields.value.Arr?) && (Falsy(given) || given.value.Obj?) {
      var specs, values := StoredFieldSpecs(rt, payload).value, FieldValues(payload).value;
      CoercesWhenSendable(rt, specs, values);
      forall i | 0 <= i < |specs|
        ensures NotSupplied(Get(values, specs[i].name)) <==> IsBlank(Get(values, specs[i].name))
      {
        SameBlank(Get(values, specs[i].name));
      }
    }
  }

  /** An accepted payload whose values are already well typed is sent unchanged, blank and unlisted values aside. */
  lemma {:induction false} WellTypedPayloadIsUnchanged(rt: Runtime, payload: Entries)
    requires Validate(rt, payload).Ok?
    requires
      var specs, values := StoredFieldSpecs(rt, payload), FieldValues(payload);
      && specs.Ok? && values.Ok?
      && forall i :: 0 <= i < |specs.value| && !IsBlank(Get(values.value, specs.value[i].name)) ==>
                       var value := Get(values.value, specs.value[i].name).value;
                       && HasDeclaredType(rt, specs.value[i].name, value, specs.value[i].spec)
                       && (value.Str? ==> Stripped(value.s))
    ensures
      var specs, values := StoredFieldSpecs(rt, payload).value, FieldValues(payload).value;
      forall i :: 0 <= i < |specs| ==>
        var value := Get(values, specs[i].name);
        Get(Validate(rt, payload).value.fieldValues, specs[i].name) == if IsBlank(value) then None else value
  {
    hide Get, CoerceAll, CollectSpecs, IsBlank, HasDeclaredType, CoerceFieldValue, CheckFieldConstraints, RequiredNames;
    var specs, values := StoredFieldSpecs(rt, payload).value, FieldValues(payload).value;
    SpecsAreDistinct(rt, payload);
    CoerceAllDelivers(rt, specs, values);
    forall i | 0 <= i < |specs|
      ensures Get(Validate(rt, payload).value.fieldValues, specs[i].name)
              == if IsBlank(Get(values, specs[i].name)) then None else Get(values, specs[i].name)
    {
      assert Delivered(rt, specs[i], values, Validate(rt, payload).value.fieldValues);
      if !IsBlank(Get(values, specs[i].name)) {
        WellTypedIsKept(rt, specs[i].name, Get(values, specs[i].name).value, specs[i].spec);
      }
    }
  }

  // How many of the first i fields are not marked optional.
  function RequiredBefore(specs: seq<FieldSpec>, i: nat): nat
    requires i <= |specs|
  {
    if i == 0 then 0
    else RequiredBefore(specs, i - 1) + if Get(specs[i - 1].spec, "required") == Some(Bool(false)) then 0 else 1
  }

  // How many of the first i fields are supplied.
  function SuppliedBefore(specs: seq<FieldSpec>, values: Entries, i: nat): nat
    requires i <= |specs|
  {
    if i == 0 then 0
    else SuppliedBefore(specs, values, i - 1) + if NotSupplied(Get(values, specs[i - 1].name)) then 0 else 1
  }

  lemma {:induction false} RequiredAt(specs: seq<FieldSpec>, n: nat, i: nat)
    requires i < n <= |specs| && Get(specs[i].spec, "required") != Some(Bool(false))
    ensures RequiredBefore(specs, i) < |RequiredNames(specs[..n])| == RequiredBefore(specs, n)
    ensures RequiredNames(specs[..n])[RequiredBefore(specs, i)] == specs[i].name
    decreases n
  {
    hide Get;
    assert specs[..n][..n - 1] == specs[..n - 1];
    if i < n - 1 {
      RequiredAt(specs, n - 1, i);
    } else {
      RequiredCount(specs, n - 1);
    }
  }

  lemma {:induction false} RequiredCount(specs: seq<FieldSpec>, n: nat)
    requires n <= |specs|
    ensures |RequiredNames(specs[..n])| == RequiredBefore(specs, n)
  {
    hide Get;
    if n > 0 {
      assert specs[..n][..n - 1] == specs[..n - 1];
      RequiredCount(specs, n - 1);
    }
  }

  lemma {:induction false} SuppliedAt(rt: Runtime, specs: seq<FieldSpec>, values: Entries, n: nat, i: nat)
    requires i < n <= |specs| && !NotSupplied(Get(values, specs[i].name))
    requires CoerceAll(rt, specs[..n], values).Ok?
    ensures SuppliedBefore(specs, values, i) < |CoerceAll(rt, specs[..n], values).value|
    ensures CoerceAll(rt, specs[..n], values).value[SuppliedBefore(specs, values, i)].key == specs[i].name
    decreases n
  {
    hide Get, CoerceFieldValue, CheckFieldConstraints, NotSupplied, IsBlank;
    assert specs[..n][..n - 1] == specs[..n - 1];
    SameBlank(Get(values, specs[n - 1].name));
    if i < n - 1 {
      SuppliedAt(rt, specs, values, n - 1, i);
    } else {
      SuppliedCount(rt, specs, values, n - 1);
    }
  }

  lemma {:induction false} SuppliedCount(rt: Runtime, specs: seq<FieldSpec>, values: Entries, n: nat)
    requires n <= |specs| && CoerceAll(rt, specs[..n], values).Ok?
    ensures |CoerceAll(rt, specs[..n], values).value| == SuppliedBefore(specs, values, n)
    decreases n
  {
    hide Get, CoerceFieldValue, CheckFieldConstraints, NotSupplied, IsBlank;
    if n > 0 {
      assert specs[..n][..n - 1] == specs[..n - 1];
      SameBlank(Get(values, specs[n - 1].name));
      SuppliedCount(rt, specs, values, n - 1);
    }
  }

  /** The result lists the fields not marked optional, and the values of those supplied, in the order of the specs. */
  lemma {:induction false} ResultFollowsSpecOrder(rt: Runtime, payload: Entries, i: nat)
    requires Validate(rt, payload).Ok?
    requires i < |StoredFieldSpecs(rt, payload).value|
    ensures
      var specs, values := StoredFieldSpecs(rt, payload).value, FieldValues(payload).value;
      var result := Validate(rt, payload).value;
      && |result.requiredFields| == RequiredBefore(specs, |specs|)
      && |result.fieldValues| == SuppliedBefore(specs, values, |specs|)
      && (Get(specs[i].spec, "required") != Some(Bool(false)) ==>
            var k := RequiredBefore(specs, i);
            k < |result.requiredFields| && result.requiredFields[k] == specs[i].name)
      && (!NotSupplied(Get(values, specs[i].name)) ==>
            var k := SuppliedBefore(specs, values, i);
            k < |result.fieldValues| && result.fieldValues[k].key == specs[i].name)
  {
    hide Get, CoerceAll, CollectSpecs, NotSupplied, RequiredBefore, SuppliedBefore, RequiredNames;
    var specs, values := StoredFieldSpecs(rt, payload).value, FieldValues(payload).value;
    assert specs[..|specs|] == specs;
    RequiredCount(specs, |specs|);
    SuppliedCount(rt, specs, values, |specs|);
    if Get(specs[i].spec, "required") != Some(Bool(false)) {
      RequiredAt(specs, |specs|, i);
    }
    if !NotSupplied(Get(values, specs[i].name)) {
      SuppliedAt(rt, specs, values, |specs|, i);
    }
  }

  // ---------- idempotence ----------

  lemma {:induction false} CoerceAllAgain(rt: Runtime, specs: seq<FieldSpec>, n: nat, values: Entries)
    requires rt.Valid() && DistinctSpecs(specs) && CoerceAll(rt, specs, values).Ok? && n <= |specs|
    ensures CoerceAll(rt, specs[..n], values).Ok?
    ensures CoerceAll(rt, specs[..n], CoerceAll(rt, specs, values).value) == CoerceAll(rt, specs[..n], values)
    decreases n
  {
    hide CoerceFieldValue, CheckFieldConstraints, IsBlank, Get;
    if CoerceAll(rt, specs[..n], values).Err? {
      FailureStays(rt, specs, values, n);
    }
    if n > 0 {
      CoerceAllAgain(rt, specs, n - 1, values);
      assert specs[..n][..n - 1] == specs[..n - 1];
      CoerceAllDelivers(rt, specs, values);
      var result, f := CoerceAll(rt, specs, values).value, specs[n - 1];
      assert Delivered(rt, f, values, result);
      if !IsBlank(Get(values, f.name)) {
        CoercionIsIdempotent(rt, f.name, Get(values, f.name).value, f.spec);
      }
    }
  }

  /** Validating the validated values again, under the same specs, returns them unchanged. */
  lemma ValidationIsIdempotent(rt: Runtime, payload: Entries)
    requires rt.Valid() && Validate(rt, payload).Ok?
    ensures
      var result := Validate(rt, payload).value;
      Validate(rt, Put(payload, "field_values", Obj(result.fieldValues))) == Ok(result)
  {
    hide CoerceAll, CollectSpecs, IsBlank, CoerceFieldValue, CheckFieldConstraints, RequiredNames;
    var specs, values := StoredFieldSpecs(rt, payload).value, FieldValues(payload).value;
    var result := Validate(rt, payload).value;
    var again := Put(payload, "field_values", Obj(result.fieldValues));
    assert Get(again, "required_fields") == Get(payload, "required_fields");
    assert FieldValues(again) == Ok(result.fieldValues);
    SpecsAreDistinct(rt, payload);
    CoerceAllDelivers(rt, specs, values);
    CoerceAllAgain(rt, specs, |specs|, values);
    assert specs[..|specs|] == specs;
    forall i | 0 <= i < |specs| && Required(specs[i]) ensures !IsBlank(Get(result.fieldValues, specs[i].name)) {
      var f := specs[i];
      assert Delivered(rt, f, values, result.fieldValues);
      assert !IsBlank(Get(values, f.name));
      CoercionIsIdempotent(rt, f.name, Get(values, f.name).value, f.spec);
    }
  }
}
