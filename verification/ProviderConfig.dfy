/** Validating a driver's configuration values against stored field specs: sparkmeter/config/provider_settings.py. */
module ProviderConfig {
  import opened Wrappers
  import opened Json
  import opened ProviderFields

  // Python's text conversions and regular expressions, kept abstract. `matches` is None for an unusable pattern.
  datatype Runtime = Runtime(
    show: Value -> string,
    parseInt: string -> Option<int>,
    parseFloat: string -> Option<real>,
    matches: (string, string) -> Option<bool>
  ) {
    // str() of a number or boolean has no surrounding white space and is not empty.
    ghost predicate Valid() {
      forall v: Value :: (v.Int? || v.Float? || v.Bool?) ==> show(v) != "" && Stripped(show(v))
    }
  }

  datatype ConfigError =
    | RequiredFieldsNotAList
    | FieldValuesNotAnObject
    | MissingValues
    | BadAesKey
    | NotAnInteger
    | NotANumber
    | NotABoolean
    | NotAnArray
    | NotAnObject
    | NotAString
    | PatternMismatch
    | BelowMinimum
    | AboveMaximum

  type Checked<T> = Result<T, ConfigError>

  // ---------- stored field specs ----------

  datatype FieldSpec = FieldSpec(name: string, spec: Entries)

  // A bare name is a config written before types were recorded: a required string field.
  function BareSpec(name: string): Entries {
    [Entry("name", Str(name)), Entry("type", Str("string")), Entry("required", Bool(true))]
  }

  function SpecOf(rt: Runtime, entry: Value): FieldSpec {
    if entry.Obj? then
      var name := Get(entry.entries, "name");
      FieldSpec(if name.Some? && Truthy(name.value) then Strip(Text(rt.show, name.value)) else "", entry.entries)
    else
      var name := Strip(Text(rt.show, entry));
      FieldSpec(name, BareSpec(name))
  }

  // specs[name] = spec: a repeated name keeps its place and takes the later spec.
  function PutSpec(specs: seq<FieldSpec>, f: FieldSpec): seq<FieldSpec> {
    if specs == [] then [f]
    else if specs[0].name == f.name then [f] + specs[1..]
    else [specs[0]] + PutSpec(specs[1..], f)
  }

  function CollectSpecs(rt: Runtime, specs: seq<FieldSpec>, entries: seq<Value>): seq<FieldSpec>
    decreases |entries|
  {
    if entries == [] then specs
    else
      var f := SpecOf(rt, entries[0]);
      CollectSpecs(rt, if f.name == "" then specs else PutSpec(specs, f), entries[1..])
  }

  function StoredFieldSpecs(rt: Runtime, payload: Entries): Checked<seq<FieldSpec>> {
    var stored := Get(payload, "required_fields");
    if stored.None? || !Truthy(stored.value) then Ok([])
    else if !stored.value.Arr? then Err(RequiredFieldsNotAList)
    else Ok(CollectSpecs(rt, [], stored.value.items))
  }

  function FieldValues(payload: Entries): Checked<Entries> {
    var values := Get(payload, "field_values");
    if values.None? || !Truthy(values.value) then Ok([])
    else if !values.value.Obj? then Err(FieldValuesNotAnObject)
    else Ok(values.value.entries)
  }

  predicate Required(f: FieldSpec) {
    Get(f.spec, "required") != Some(Bool(false))
  }

  // ---------- values ----------

  predicate IsBlank(value: Option<Value>): (b: bool)
    ensures value.None? ==> b
  {
    value.None? || value.value.Null? || (value.value.Str? && Strip(value.value.s) == "")
  }

  predicate IsHexDigit(c: char) {
    '0' <= c <= '9' || 'a' <= c <= 'f' || 'A' <= c <= 'F'
  }

  predicate IsAesHex(s: string) {
    |s| == 32 && forall i :: 0 <= i < |s| ==> IsHexDigit(s[i])
  }

  predicate IsAesBytes(items: seq<Value>) {
    |items| == 16 && forall i :: 0 <= i < |items| ==> items[i].Int? && 0 <= items[i].i <= 255
  }

  function CoerceAesKey(value: Value): Checked<Value> {
    if value.Str? && IsAesHex(Strip(value.s)) then Ok(Str(Strip(value.s)))
    else if value.Arr? && IsAesBytes(value.items) then Ok(value)
    else Err(BadAesKey)
  }

  // int() of a float truncates toward zero.
  function Truncate(r: real): int {
    if r >= 0.0 then r.Floor else -((-r).Floor)
  }

  function ToInteger(rt: Runtime, value: Value): Checked<Value> {
    match value
    case Int(_) => Ok(value)
    case Bool(b) => Ok(Int(if b then 1 else 0))
    case Float(r) => Ok(Int(Truncate(r)))
    case Str(s) => var n := rt.parseInt(s); if n.Some? then Ok(Int(n.value)) else Err(NotAnInteger)
    case _ => Err(NotAnInteger)
  }

  function ToNumber(rt: Runtime, value: Value): Checked<Value> {
    match value
    case Float(_) => Ok(value)
    case Int(i) => Ok(Float(i as real))
    case Bool(b) => Ok(Float(if b then 1.0 else 0.0))
    case Str(s) => var n := rt.parseFloat(s); if n.Some? then Ok(Float(n.value)) else Err(NotANumber)
    case _ => Err(NotANumber)
  }

  function ToBoolean(rt: Runtime, value: Value): Checked<Value> {
    if value.Bool? then Ok(value)
    else
      var normalized := Lower(Strip(Text(rt.show, value)));
      if normalized in {"true", "1", "yes", "on"} then Ok(Bool(true))
      else if normalized in {"false", "0", "no", "off"} then Ok(Bool(false))
      else Err(NotABoolean)
  }

  function StripText(value: Value): Value {
    if value.Str? then Str(Strip(value.s)) else value
  }

  function FieldType(rt: Runtime, spec: Entries): string {
    var declared := SchemaType(rt.show, spec);
    if declared == "" then "string" else declared
  }

  function CoerceFieldValue(rt: Runtime, name: string, raw: Value, spec: Entries): Checked<Value> {
    if name == "aes_key" then CoerceAesKey(raw)
    else
      var value := StripText(raw);
      var fieldType := FieldType(rt, spec);
      if fieldType == "integer" then ToInteger(rt, value)
      else if fieldType == "number" then ToNumber(rt, value)
      else if fieldType == "boolean" then ToBoolean(rt, value)
      else if fieldType == "array" then (if value.Arr? then Ok(value) else Err(NotAnArray))
      else if fieldType == "object" then (if value.Obj? then Ok(value) else Err(NotAnObject))
      else if value.Arr? || value.Obj? then Err(NotAString)
      else Ok(Str(Text(rt.show, value)))
  }

  // The value of a JSON number; booleans are not numbers here.
  function NumberOf(value: Option<Value>): Option<real> {
    match value
    case Some(Int(i)) => Some(i as real)
    case Some(Float(r)) => Some(r)
    case _ => None
  }

  function PatternOf(rt: Runtime, spec: Entries): string {
    var pattern := Get(spec, "pattern");
    if pattern.Some? && Truthy(pattern.value) then Text(rt.show, pattern.value) else ""
  }

  function CheckFieldConstraints(rt: Runtime, value: Value, spec: Entries): Option<ConfigError> {
    var pattern := PatternOf(rt, spec);
    var number := NumberOf(Some(value));
    var minimum := NumberOf(Get(spec, "minimum"));
    var maximum := NumberOf(Get(spec, "maximum"));
    if pattern != "" && value.Str? && rt.matches(pattern, value.s) == Some(false) then Some(PatternMismatch)
    else if number.None? then None
    else if minimum.Some? && number.value < minimum.value then Some(BelowMinimum)
    else if maximum.Some? && number.value > maximum.value then Some(AboveMaximum)
    else None
  }

  // ---------- validation ----------

  // The values to send, by name in the order of the specs.
  function CoerceAll(rt: Runtime, specs: seq<FieldSpec>, values: Entries): Checked<Entries> {
    if specs == [] then Ok([])
    else
      var n := |specs| - 1;
      var before := CoerceAll(rt, specs[..n], values);
      if before.Err? then before
      else
        var raw := Get(values, specs[n].name);
        if IsBlank(raw) then before
        else
          var value := CoerceFieldValue(rt, specs[n].name, raw.value, specs[n].spec);
          if value.Err? then Err(value.error)
          else
            var failed := CheckFieldConstraints(rt, value.value, specs[n].spec);
            if failed.Some? then Err(failed.value)
            else Ok(before.value + [Entry(specs[n].name, value.value)])
  }

  predicate MissingRequired(specs: seq<FieldSpec>, values: Entries) {
    exists i :: 0 <= i < |specs| && Required(specs[i]) && IsBlank(Get(values, specs[i].name))
  }

  function RequiredNames(specs: seq<FieldSpec>): seq<string> {
    if specs == [] then []
    else
      var n := |specs| - 1;
      RequiredNames(specs[..n]) + if Required(specs[n]) then [specs[n].name] else []
  }

  // The typed init body.
  datatype Validated = Validated(requiredFields: seq<string>, fieldValues: Entries)

  function Validate(rt: Runtime, payload: Entries): Checked<Validated> {
    match StoredFieldSpecs(rt, payload)
    case Err(e) => Err(e)
    case Ok(specs) =>
      match FieldValues(payload)
      case Err(e) => Err(e)
      case Ok(values) =>
        if MissingRequired(specs, values) then Err(MissingValues)
        else
          match CoerceAll(rt, specs, values)
          case Err(e) => Err(e)
          case Ok(coerced) => Ok(Validated(RequiredNames(specs), coerced))
  }

  method CheckRequired(specs: seq<FieldSpec>, values: Entries) returns (names: seq<string>, missing: bool)
    ensures names == RequiredNames(specs)
    ensures missing <==> MissingRequired(specs, values)
  {
    hide IsBlank, Required;
    names, missing := [], false;
    for i := 0 to |specs|
      invariant names == RequiredNames(specs[..i])
      invariant missing <==> MissingRequired(specs[..i], values)
    {
      ghost var before, now := specs[..i], specs[..i + 1];
      assert now[..i] == before && now == before + [specs[i]];
      MissingAppend(before, specs[i], values);
      if Required(specs[i]) {
        names := names + [specs[i].name];
        if IsBlank(Get(values, specs[i].name)) {
          missing := true;
        }
      }
    }
    assert specs[..|specs|] == specs;
  }

  lemma MissingAppend(specs: seq<FieldSpec>, f: FieldSpec, values: Entries)
    ensures MissingRequired(specs + [f], values)
            <==> MissingRequired(specs, values) || (Required(f) && IsBlank(Get(values, f.name)))
  {
    hide IsBlank, Required;
    var all := specs + [f];
    assert all[|specs|] == f;
    assert forall i :: 0 <= i < |specs| ==> all[i] == specs[i];
  }

  method CoerceValues(rt: Runtime, specs: seq<FieldSpec>, values: Entries) returns (result: Checked<Entries>)
    ensures result == CoerceAll(rt, specs, values)
  {
    hide CoerceFieldValue, CheckFieldConstraints, IsBlank;
    var coerced: Entries := [];
    for i := 0 to |specs|
      invariant CoerceAll(rt, specs[..i], values) == Ok(coerced)
    {
      assert specs[..i + 1][..i] == specs[..i];
      var raw := Get(values, specs[i].name);
      if IsBlank(raw) {
        continue;
      }
      var value := CoerceFieldValue(rt, specs[i].name, raw.value, specs[i].spec);
      if value.Err? {
        FailureStays(rt, specs, values, i + 1);
        return Err(value.error);
      }
      var failed := CheckFieldConstraints(rt, value.value, specs[i].spec);
      if failed.Some? {
        FailureStays(rt, specs, values, i + 1);
        return Err(failed.value);
      }
      coerced := coerced + [Entry(specs[i].name, value.value)];
    }
    assert specs[..|specs|] == specs;
    return Ok(coerced);
  }

  /** Required names need values; then every value given for a listed field is coerced and checked. */
  method ValidateProviderConfigPayload(rt: Runtime, payload: Entries) returns (result: Checked<Validated>)
    ensures result == Validate(rt, payload)
  {
    hide StoredFieldSpecs, FieldValues, MissingRequired, CoerceAll, RequiredNames;
    var stored := StoredFieldSpecs(rt, payload);
    if stored.Err? {
      return Err(stored.error);
    }
    var given := FieldValues(payload);
    if given.Err? {
      return Err(given.error);
    }
    var names, missing := CheckRequired(stored.value, given.value);
    if missing {
      return Err(MissingValues);
    }
    var coerced := CoerceValues(rt, stored.value, given.value);
    if coerced.Err? {
      return Err(coerced.error);
    }
    return Ok(Validated(names, coerced.value));
  }

  lemma {:induction false} FailureStays(rt: Runtime, specs: seq<FieldSpec>, values: Entries, n: nat)
    requires n <= |specs| && CoerceAll(rt, specs[..n], values).Err?
    ensures CoerceAll(rt, specs, values) == CoerceAll(rt, specs[..n], values)
  {
    hide CoerceFieldValue, CheckFieldConstraints, IsBlank;
    if n == |specs| {
      assert specs[..n] == specs;
    } else {
      var init := specs[..|specs| - 1];
      assert init[..n] == specs[..n];
      FailureStays(rt, init, values, n);
    }
  }
}
