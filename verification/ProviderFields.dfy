/** Merged object schemas and the ordered list of a driver's init fields: sparkmeter/config/provider_settings.py. */
module ProviderFields {
  import opened Wrappers
  import opened Json
  import opened ProviderSchema

  const SCHEMA_DEPTH_LIMIT: nat := 8

  // ---------- merging allOf ----------

  function ItemsOf(value: Option<Value>): seq<Value> {
    if value.Some? && value.value.Arr? then value.value.items else []
  }

  // Append what is not there yet.
  function AddMissing<T(==)>(list: seq<T>, more: seq<T>): seq<T>
    decreases |more|
  {
    if more == [] then list
    else AddMissing(if more[0] in list then list else list + [more[0]], more[1..])
  }

  // merged.setdefault for every key but the three that are merged on their own.
  function SetDefaults(merged: Entries, part: Entries): Entries
    decreases |part|
  {
    if part == [] then merged
    else
      var e := part[0];
      SetDefaults(
        if e.key in {"properties", "required", "allOf"} || Has(merged, e.key) then merged else merged + [e],
        part[1..])
  }

  datatype Merge = Merge(rest: Entries, properties: Entries, required: seq<Value>)

  function AddPart(m: Merge, part: Entries): Merge {
    Merge(
      SetDefaults(m.rest, part),
      Update(m.properties, PropertiesOf(part)),
      AddMissing(m.required, RequiredOf(part)))
  }

  function ObjectSchema(spec: Value, schema: Value, depth: nat): Entries
    decreases SCHEMA_DEPTH_LIMIT - depth, 1, 0
  {
    var resolved := Resolve(spec, schema, {});
    var parts := Get(resolved, "allOf");
    if parts.None? || !parts.value.Arr? || depth >= SCHEMA_DEPTH_LIMIT then resolved
    else
      var own := Without(resolved, "allOf");
      var m := AddParts(spec, parts.value.items, depth, StartMerge(own));
      Put(Put(m.rest, "properties", Obj(m.properties)), "required", Arr(m.required))
  }

  function StartMerge(own: Entries): Merge {
    Merge(own, PropertiesOf(own), RequiredOf(own))
  }

  function AddParts(spec: Value, parts: seq<Value>, depth: nat, m: Merge): Merge
    requires depth < SCHEMA_DEPTH_LIMIT
    decreases SCHEMA_DEPTH_LIMIT - depth, 0, |parts|
  {
    if parts == [] then m
    else AddParts(spec, parts[1..], depth, AddPart(m, ObjectSchema(spec, parts[0], depth + 1)))
  }

  method MergeObjectSchema(spec: Value, schema: Value, depth: nat) returns (result: Entries)
    ensures result == ObjectSchema(spec, schema, depth)
    decreases SCHEMA_DEPTH_LIMIT - depth
  {
    hide AddPart, Resolve, Put, Without, StartMerge, Get;
    var resolved := ResolveSchema(spec, schema);
    var parts := Get(resolved, "allOf");
    if parts.None? || !parts.value.Arr? || depth >= SCHEMA_DEPTH_LIMIT {
      return resolved;
    }
    var items := parts.value.items;
    var m := StartMerge(Without(resolved, "allOf"));
    for i := 0 to |items|
      invariant AddParts(spec, items[i..], depth, m)
                == AddParts(spec, items, depth, StartMerge(Without(resolved, "allOf")))
    {
      var part := MergeObjectSchema(spec, items[i], depth + 1);
      m := AddPart(m, part);
    }
    return Put(Put(m.rest, "properties", Obj(m.properties)), "required", Arr(m.required));
  }

  lemma {:induction false} SetDefaultsAddsNoRef(merged: Entries, part: Entries)
    requires !Has(merged, "$ref") && !Has(part, "$ref")
    ensures !Has(SetDefaults(merged, part), "$ref")
    decreases |part|
  {
    if part != [] {
      var e := part[0];
      SetDefaultsAddsNoRef(
        if e.key in {"properties", "required", "allOf"} || Has(merged, e.key) then merged else merged + [e],
        part[1..]);
    }
  }

  lemma {:induction false} PartsAddNoRef(spec: Value, parts: seq<Value>, depth: nat, m: Merge)
    requires depth < SCHEMA_DEPTH_LIMIT && !Has(m.rest, "$ref")
    ensures !Has(AddParts(spec, parts, depth, m).rest, "$ref")
    decreases SCHEMA_DEPTH_LIMIT - depth, 0, |parts|
  {
    hide ObjectSchema, SetDefaults, Update, AddMissing;
    if parts != [] {
      var part := ObjectSchema(spec, parts[0], depth + 1);
      ObjectSchemaHasNoRef(spec, parts[0], depth + 1);
      SetDefaultsAddsNoRef(m.rest, part);
      PartsAddNoRef(spec, parts[1..], depth, AddPart(m, part));
    }
  }

  /** Every resolved and merged schema is free of $ref. */
  lemma {:induction false} ObjectSchemaHasNoRef(spec: Value, schema: Value, depth: nat)
    ensures !Has(ObjectSchema(spec, schema, depth), "$ref")
    decreases SCHEMA_DEPTH_LIMIT - depth, 1, 0
  {
    hide Resolve, Put, Without, AddParts, Get;
    var resolved := Resolve(spec, schema, {});
    var parts := Get(resolved, "allOf");
    if !(parts.None? || !parts.value.Arr? || depth >= SCHEMA_DEPTH_LIMIT) {
      PartsAddNoRef(spec, parts.value.items, depth, StartMerge(Without(resolved, "allOf")));
    }
  }

  function PropertiesOf(schema: Entries): Entries {
    EntriesOf(Get(schema, "properties"))
  }

  function RequiredOf(schema: Entries): seq<Value> {
    ItemsOf(Get(schema, "required"))
  }

  lemma {:induction false} UpdateKeys(entries: Entries, more: Entries, key: string)
    ensures Has(Update(entries, more), key) <==> Has(entries, key) || Has(more, key)
    decreases |more|
  {
    if more != [] {
      UpdateKeys(Put(entries, more[0].key, more[0].value), more[1..], key);
    }
  }

  lemma {:induction false} AddMissingMembers<T>(list: seq<T>, more: seq<T>, x: T)
    ensures x in AddMissing(list, more) <==> x in list || x in more
    decreases |more|
  {
    if more != [] {
      assert more == [more[0]] + more[1..];
      AddMissingMembers(if more[0] in list then list else list + [more[0]], more[1..], x);
    }
  }

  // Some part, merged in its turn, names this property or requires this name.
  ghost predicate PartHas(spec: Value, parts: seq<Value>, depth: nat, key: string) {
    exists p :: p in parts && Has(PropertiesOf(ObjectSchema(spec, p, depth + 1)), key)
  }

  ghost predicate PartRequires(spec: Value, parts: seq<Value>, depth: nat, name: Value) {
    exists p :: p in parts && name in RequiredOf(ObjectSchema(spec, p, depth + 1))
  }

  lemma NoParts(spec: Value, depth: nat, key: string, name: Value)
    ensures !PartHas(spec, [], depth, key) && !PartRequires(spec, [], depth, name)
  {}

  lemma PartsSplit(spec: Value, parts: seq<Value>, depth: nat, key: string, name: Value)
    requires parts != []
    ensures PartHas(spec, parts, depth, key) <==>
            || Has(PropertiesOf(ObjectSchema(spec, parts[0], depth + 1)), key)
            || PartHas(spec, parts[1..], depth, key)
    ensures PartRequires(spec, parts, depth, name) <==>
            || name in RequiredOf(ObjectSchema(spec, parts[0], depth + 1))
            || PartRequires(spec, parts[1..], depth, name)
  {
    hide ObjectSchema, PropertiesOf, RequiredOf, Has;
    assert forall p :: p in parts <==> p == parts[0] || p in parts[1..] by {
      assert parts == [parts[0]] + parts[1..];
    }
    assert parts[0] in parts;
  }

  lemma {:induction false} PartsAreUnited(
    spec: Value, parts: seq<Value>, depth: nat, m: Merge, key: string, name: Value)
    requires depth < SCHEMA_DEPTH_LIMIT
    ensures
      var r := AddParts(spec, parts, depth, m);
      && (Has(r.properties, key) <==> Has(m.properties, key) || PartHas(spec, parts, depth, key))
      && (name in r.required <==> name in m.required || PartRequires(spec, parts, depth, name))
    decreases |parts|
  {
    hide ObjectSchema, Get, Has, SetDefaults, Update, AddMissing, EntriesOf, ItemsOf, PartHas, PartRequires;
    assert parts == [] ==> !PartHas(spec, parts, depth, key) && !PartRequires(spec, parts, depth, name) by {
      NoParts(spec, depth, key, name);
    }
    if parts != [] {
      var first := ObjectSchema(spec, parts[0], depth + 1);
      UpdateKeys(m.properties, PropertiesOf(first), key);
      AddMissingMembers(m.required, RequiredOf(first), name);
      PartsAreUnited(spec, parts[1..], depth, AddPart(m, first), key, name);
      PartsSplit(spec, parts, depth, key, name);
    }
  }

  /** A merged schema has exactly the properties and required names of the schema itself and of its allOf parts. */
  lemma {:induction false} MergeUnitesProperties(spec: Value, schema: Value, depth: nat, key: string, name: Value)
    requires depth < 8
    requires Get(Resolve(spec, schema, {}), "allOf").Some? && Get(Resolve(spec, schema, {}), "allOf").value.Arr?
    ensures
      var resolved := Resolve(spec, schema, {});
      var parts := Get(resolved, "allOf").value.items;
      var merged := ObjectSchema(spec, schema, depth);
      && (Has(PropertiesOf(merged), key) <==> Has(PropertiesOf(resolved), key) || PartHas(spec, parts, depth, key))
      && (name in RequiredOf(merged) <==> name in RequiredOf(resolved) || PartRequires(spec, parts, depth, name))
  {
    hide Resolve, Put, Without, AddParts, Get;
    var resolved := Resolve(spec, schema, {});
    var parts := Get(resolved, "allOf").value.items;
    var own := Without(resolved, "allOf");
    PartsAreUnited(spec, parts, depth, StartMerge(own), key, name);
    assert Get(own, "properties") == Get(resolved, "properties");
    assert Get(own, "required") == Get(resolved, "required");
  }

  // ---------- which part's property wins ----------

  // The value of the last entry with this key; the one value where keys are distinct, as in every dictionary.
  function Latest(entries: Entries, key: string): Option<Value> {
    if entries == [] then None
    else
      var later := Latest(entries[1..], key);
      if later.Some? then later else if entries[0].key == key then Some(entries[0].value) else None
  }

  lemma {:induction false} LatestFindsKey(entries: Entries, key: string)
    ensures Latest(entries, key).Some? <==> key in Keys(entries)
    ensures Has(entries, key) <==> key in Keys(entries)
  {
    if entries != [] {
      LatestFindsKey(entries[1..], key);
    }
  }

  lemma NoRepeatsInTail<T>(s: seq<T>)
    requires NoRepeats(s) && s != []
    ensures NoRepeats(s[1..]) && s[0] !in s[1..]
  {}

  lemma {:induction false} LatestIsTheValue(entries: Entries, key: string)
    requires NoRepeats(Keys(entries))
    ensures Latest(entries, key) == Get(entries, key)
  {
    if entries != [] {
      NoRepeatsInTail(Keys(entries));
      assert Keys(entries)[1..] == Keys(entries[1..]);
      LatestFindsKey(entries[1..], key);
      LatestIsTheValue(entries[1..], key);
    }
  }

  lemma {:induction false} UpdateGet(entries: Entries, more: Entries, key: string)
    ensures Get(Update(entries, more), key) == if Has(more, key) then Latest(more, key) else Get(entries, key)
    decreases |more|
  {
    if more != [] {
      LatestFindsKey(more[1..], key);
      UpdateGet(Put(entries, more[0].key, more[0].value), more[1..], key);
    }
  }

  function PartProperties(spec: Value, part: Value, depth: nat): Entries {
    PropertiesOf(ObjectSchema(spec, part, depth + 1))
  }

  // Part i is the last to have the key; no part has it when i is negative.
  predicate LastToHave(spec: Value, parts: seq<Value>, depth: nat, key: string, i: int) {
    && -1 <= i < |parts|
    && (i >= 0 ==> Has(PartProperties(spec, parts[i], depth), key))
    && forall j :: i < j < |parts| ==> !Has(PartProperties(spec, parts[j], depth), key)
  }

  lemma {:induction false} PartsGet(spec: Value, parts: seq<Value>, depth: nat, m: Merge, key: string, i: int)
    requires depth < SCHEMA_DEPTH_LIMIT && LastToHave(spec, parts, depth, key, i)
    ensures Get(AddParts(spec, parts, depth, m).properties, key)
            == if i < 0 then Get(m.properties, key) else Latest(PartProperties(spec, parts[i], depth), key)
    decreases |parts|
  {
    hide ObjectSchema, Get, Has, SetDefaults, Update, AddMissing, PropertiesOf, ItemsOf, Latest;
    if parts != [] {
      var first := ObjectSchema(spec, parts[0], depth + 1);
      UpdateGet(m.properties, PropertiesOf(first), key);
      assert forall j :: 0 < j < |parts| ==> parts[1..][j - 1] == parts[j];
      var rest := if i < 0 then -1 else i - 1;
      assert LastToHave(spec, parts[1..], depth, key, rest);
      PartsGet(spec, parts[1..], depth, AddPart(m, first), key, rest);
    }
  }

  /** A property ends with the schema of the last part that has it, and keeps the schema's own when no part does. */
  lemma {:induction false} LastPartWins(spec: Value, schema: Value, depth: nat, key: string, i: int)
    requires depth < 8
    requires Get(Resolve(spec, schema, {}), "allOf").Some? && Get(Resolve(spec, schema, {}), "allOf").value.Arr?
    requires LastToHave(spec, Get(Resolve(spec, schema, {}), "allOf").value.items, depth, key, i)
    ensures
      var resolved := Resolve(spec, schema, {});
      var parts := Get(resolved, "allOf").value.items;
      Get(PropertiesOf(ObjectSchema(spec, schema, depth)), key)
      == if i < 0 then Get(PropertiesOf(resolved), key) else Latest(PartProperties(spec, parts[i], depth), key)
  {
    hide Resolve, Put, Without, AddParts, Get, LastToHave, Latest, PartProperties;
    var resolved := Resolve(spec, schema, {});
    var parts := Get(resolved, "allOf").value.items;
    var own := Without(resolved, "allOf");
    PartsGet(spec, parts, depth, StartMerge(own), key, i);
    assert Get(own, "properties") == Get(resolved, "properties");
  }

  // ---------- which part's other keys win ----------

  predicate MergedOnItsOwn(key: string) {
    key == "properties" || key == "required" || key == "allOf"
  }

  lemma {:induction false} SetDefaultsGet(merged: Entries, part: Entries, key: string)
    requires !MergedOnItsOwn(key)
    ensures Get(SetDefaults(merged, part), key) == if Has(merged, key) then Get(merged, key) else Get(part, key)
    decreases |part|
  {
    if part != [] {
      var e := part[0];
      var next := if e.key in {"properties", "required", "allOf"} || Has(merged, e.key) then merged else merged + [e];
      GetAppend(merged, e, key);
      SetDefaultsGet(next, part[1..], key);
    }
  }

  // Part i is the first to have the key; no part has it when i is their number.
  predicate FirstToHave(spec: Value, parts: seq<Value>, depth: nat, key: string, i: nat) {
    && i <= |parts|
    && (i < |parts| ==> Has(ObjectSchema(spec, parts[i], depth + 1), key))
    && forall j :: 0 <= j < i ==> !Has(ObjectSchema(spec, parts[j], depth + 1), key)
  }

  lemma {:induction false} PartsDefault(spec: Value, parts: seq<Value>, depth: nat, m: Merge, key: string, i: nat)
    requires depth < SCHEMA_DEPTH_LIMIT && !MergedOnItsOwn(key) && FirstToHave(spec, parts, depth, key, i)
    ensures Get(AddParts(spec, parts, depth, m).rest, key)
            == if Has(m.rest, key) then Get(m.rest, key)
               else if i < |parts| then Get(ObjectSchema(spec, parts[i], depth + 1), key)
               else None
    decreases |parts|
  {
    hide ObjectSchema, Get, SetDefaults, Update, AddMissing, PropertiesOf, ItemsOf, MergedOnItsOwn;
    if parts != [] {
      var first := ObjectSchema(spec, parts[0], depth + 1);
      SetDefaultsGet(m.rest, first, key);
      assert forall j :: 0 < j < |parts| ==> parts[1..][j - 1] == parts[j];
      if i > 0 {
        assert FirstToHave(spec, parts[1..], depth, key, i - 1);
        PartsDefault(spec, parts[1..], depth, AddPart(m, first), key, i - 1);
      } else {
        var k := FirstInRest(spec, parts[1..], depth, key);
        PartsDefault(spec, parts[1..], depth, AddPart(m, first), key, k);
      }
    }
  }

  lemma {:induction false} FirstInRest(spec: Value, parts: seq<Value>, depth: nat, key: string) returns (i: nat)
    ensures FirstToHave(spec, parts, depth, key, i)
    decreases |parts|
  {
    hide ObjectSchema, Has;
    i := 0;
    if parts != [] && !Has(ObjectSchema(spec, parts[0], depth + 1), key) {
      var k := FirstInRest(spec, parts[1..], depth, key);
      assert forall j :: 0 < j < |parts| ==> parts[1..][j - 1] == parts[j];
      i := k + 1;
    }
  }

  /** Any other key of a merged schema is the schema's own, or else that of the first part that has it. */
  lemma {:induction false} FirstPartFillsIn(spec: Value, schema: Value, depth: nat, key: string, i: nat)
    requires depth < 8 && !MergedOnItsOwn(key)
    requires Get(Resolve(spec, schema, {}), "allOf").Some? && Get(Resolve(spec, schema, {}), "allOf").value.Arr?
    requires FirstToHave(spec, Get(Resolve(spec, schema, {}), "allOf").value.items, depth, key, i)
    ensures
      var resolved := Resolve(spec, schema, {});
      var parts := Get(resolved, "allOf").value.items;
      Get(ObjectSchema(spec, schema, depth), key)
      == if Has(resolved, key) then Get(resolved, key)
         else if i < |parts| then Get(ObjectSchema(spec, parts[i], depth + 1), key)
         else None
  {
    hide Resolve, Put, Without, AddParts, Get, FirstToHave;
    var resolved := Resolve(spec, schema, {});
    PartsDefault(spec, Get(resolved, "allOf").value.items, depth, StartMerge(Without(resolved, "allOf")), key, i);
  }

  /** Eight levels down parts are no longer merged, and a schema without parts is only resolved at any level. */
  lemma UnmergedSchemas(spec: Value, schema: Value, depth: nat)
    ensures depth >= 8 || Get(Resolve(spec, schema, {}), "allOf").None? ==>
              ObjectSchema(spec, schema, depth) == Resolve(spec, schema, {})
  {
    hide Resolve, Get, Put, Without, AddParts;
  }

  // ---------- the order of what is added ----------

  lemma {:induction false} AddMissingPrefix<T>(list: seq<T>, more: seq<T>)
    ensures list <= AddMissing(list, more)
    decreases |more|
  {
    if more != [] {
      AddMissingPrefix(if more[0] in list then list else list + [more[0]], more[1..]);
    }
  }

  lemma {:induction false} AddedAt<T>(list: seq<T>, more: seq<T>, j: nat) returns (q: nat)
    requires |list| <= j < |AddMissing(list, more)|
    ensures q < |more| && AddMissing(list, more)[j] == more[q]
    ensures more[q] !in more[..q] && more[q] !in list
    decreases |more|
  {
    var next := if more[0] in list then list else list + [more[0]];
    AddMissingPrefix(next, more[1..]);
    if j < |next| {
      q := 0;
    } else {
      var k := AddedAt(next, more[1..], j);
      q := k + 1;
      assert more[..q] == [more[0]] + more[1..][..k];
    }
  }

  /** What is added to a list keeps the order in which it first comes up. */
  lemma {:induction false} AddMissingKeepsOrder<T>(list: seq<T>, more: seq<T>, i: nat, j: nat) returns (p: nat, q: nat)
    requires |list| <= i < j < |AddMissing(list, more)|
    ensures p < q < |more| && AddMissing(list, more)[i] == more[p] && AddMissing(list, more)[j] == more[q]
    ensures more[p] !in more[..p] && more[q] !in more[..q] && more[p] !in list && more[q] !in list
    decreases |more|
  {
    var next := if more[0] in list then list else list + [more[0]];
    AddMissingPrefix(next, more[1..]);
    if i < |next| {
      var k := AddedAt(next, more[1..], j);
      p, q := 0, k + 1;
      assert more[..q] == [more[0]] + more[1..][..k];
    } else {
      var a, b := AddMissingKeepsOrder(next, more[1..], i, j);
      p, q := a + 1, b + 1;
      assert more[..p] == [more[0]] + more[1..][..a] && more[..q] == [more[0]] + more[1..][..b];
    }
  }

  // ---------- fields ----------

  datatype Field = Field(name: string, schema: Entries, required: bool)

  // str() of a value that is not already a string.
  type Shower = Value -> string

  function Text(show: Shower, value: Value): string {
    if value.Str? then value.s else show(value)
  }

  function FirstNonNull(items: seq<Value>): Option<Value> {
    if items == [] then None
    else if items[0] != Str("null") then Some(items[0])
    else FirstNonNull(items[1..])
  }

  function SchemaType(show: Shower, schema: Entries): string {
    var value := Get(schema, "type");
    if value.None? then ""
    else if value.value.Arr? then
      var entry := FirstNonNull(value.value.items);
      if entry.None? then "" else Lower(Strip(Text(show, entry.value)))
    else if Truthy(value.value) then Lower(Strip(Text(show, value.value)))
    else ""
  }

  function ResolveNonEmpty(spec: Value, alternatives: seq<Value>): seq<Entries> {
    if alternatives == [] then []
    else
      var first := Resolve(spec, alternatives[0], {});
      (if first == [] then [] else [first]) + ResolveNonEmpty(spec, alternatives[1..])
  }

  function FirstStringTyped(show: Shower, schemas: seq<Entries>): Option<Entries> {
    if schemas == [] then None
    else if SchemaType(show, schemas[0]) == "string" then Some(schemas[0])
    else FirstStringTyped(show, schemas[1..])
  }

  function ScalarSchema(spec: Value, show: Shower, schema: Value): Entries {
    var resolved := Resolve(spec, schema, {});
    var oneOf := Get(resolved, "oneOf");
    var alternatives := ItemsOf(if oneOf.Some? && Truthy(oneOf.value) then oneOf else Get(resolved, "anyOf"));
    if SchemaType(show, resolved) != "" || alternatives == [] then resolved
    else
      var schemas := ResolveNonEmpty(spec, alternatives);
      match FirstStringTyped(show, schemas)
      case Some(s) => s
      case None => if schemas == [] then [] else schemas[0]
  }

  lemma {:induction false} ResolvedAlternativesHaveNoRef(spec: Value, alternatives: seq<Value>)
    ensures forall i :: 0 <= i < |ResolveNonEmpty(spec, alternatives)| ==>
              !Has(ResolveNonEmpty(spec, alternatives)[i], "$ref")
  {
    if alternatives != [] {
      ResolvedAlternativesHaveNoRef(spec, alternatives[1..]);
    }
  }

  lemma {:induction false} FirstStringTypedIsMember(show: Shower, schemas: seq<Entries>)
    ensures FirstStringTyped(show, schemas).Some? ==>
              FirstStringTyped(show, schemas).value in schemas
              && SchemaType(show, FirstStringTyped(show, schemas).value) == "string"
  {
    hide SchemaType;
    if schemas != [] && SchemaType(show, schemas[0]) != "string" {
      FirstStringTypedIsMember(show, schemas[1..]);
    }
  }

  /** The schema a field carries is free of $ref too, alternatives included. */
  lemma ScalarSchemaHasNoRef(spec: Value, show: Shower, schema: Value)
    ensures !Has(ScalarSchema(spec, show, schema), "$ref")
  {
    hide Resolve, ResolveNonEmpty, FirstStringTyped, SchemaType;
    var resolved := Resolve(spec, schema, {});
    var oneOf := Get(resolved, "oneOf");
    var alternatives := ItemsOf(if oneOf.Some? && Truthy(oneOf.value) then oneOf else Get(resolved, "anyOf"));
    ResolvedAlternativesHaveNoRef(spec, alternatives);
    FirstStringTypedIsMember(show, ResolveNonEmpty(spec, alternatives));
    assert !Has([], "$ref");
  }

  // The alternatives of a schema: those of oneOf, or of anyOf when oneOf is missing or empty.
  predicate HasAlternatives(resolved: Entries, alternatives: seq<Value>) {
    var oneOf, anyOf := Get(resolved, "oneOf"), Get(resolved, "anyOf");
    && alternatives != []
    && (oneOf == Some(Arr(alternatives))
        || (Falsy(oneOf) && anyOf == Some(Arr(alternatives))))
  }

  // Alternative i resolves to a schema, of the type string if that is asked for.
  predicate Eligible(spec: Value, show: Shower, alternatives: seq<Value>, i: nat, asString: bool)
    requires i < |alternatives|
  {
    var resolved := Resolve(spec, alternatives[i], {});
    resolved != [] && (asString ==> SchemaType(show, resolved) == "string")
  }

  // Alternative i is the first eligible one; i is their number when there is none.
  predicate FirstEligible(spec: Value, show: Shower, alternatives: seq<Value>, i: nat, asString: bool) {
    && i <= |alternatives|
    && (i < |alternatives| ==> Eligible(spec, show, alternatives, i, asString))
    && forall j :: 0 <= j < i ==> !Eligible(spec, show, alternatives, j, asString)
  }

  lemma EligibleInRest(spec: Value, show: Shower, alternatives: seq<Value>, i: nat, asString: bool)
    requires i > 0 && FirstEligible(spec, show, alternatives, i, asString)
    ensures FirstEligible(spec, show, alternatives[1..], i - 1, asString)
    ensures !Eligible(spec, show, alternatives, 0, asString)
  {
    hide Resolve, SchemaType;
    var rest := alternatives[1..];
    forall j | 0 <= j < i - 1 ensures !Eligible(spec, show, rest, j, asString) {
      assert !Eligible(spec, show, alternatives, j + 1, asString);
    }
  }

  lemma {:induction false} FirstStringAt(spec: Value, show: Shower, alternatives: seq<Value>, i: nat)
    requires FirstEligible(spec, show, alternatives, i, true)
    ensures FirstStringTyped(show, ResolveNonEmpty(spec, alternatives))
            == if i < |alternatives| then Some(Resolve(spec, alternatives[i], {})) else None
  {
    hide Resolve, SchemaType, FirstEligible;
    assert i <= |alternatives| by { FirstIsIndex(spec, show, alternatives, i, true); }
    if i > 0 {
      var first, rest := Resolve(spec, alternatives[0], {}), ResolveNonEmpty(spec, alternatives[1..]);
      EligibleInRest(spec, show, alternatives, i, true);
      FirstStringAt(spec, show, alternatives[1..], i - 1);
      assert ([first] + rest)[1..] == rest && [] + rest == rest;
    } else if alternatives != [] {
      FirstIsIndex(spec, show, alternatives, i, true);
    }
  }

  lemma FirstIsIndex(spec: Value, show: Shower, alternatives: seq<Value>, i: nat, asString: bool)
    requires FirstEligible(spec, show, alternatives, i, asString)
    ensures i <= |alternatives|
    ensures i < |alternatives| ==> Eligible(spec, show, alternatives, i, asString)
  {
    hide Eligible;
  }

  lemma {:induction false} FirstNonEmptyAt(spec: Value, show: Shower, alternatives: seq<Value>, i: nat)
    requires FirstEligible(spec, show, alternatives, i, false)
    ensures ResolveNonEmpty(spec, alternatives) != [] <==> i < |alternatives|
    ensures i < |alternatives| ==> ResolveNonEmpty(spec, alternatives)[0] == Resolve(spec, alternatives[i], {})
  {
    hide Resolve, SchemaType, FirstEligible;
    FirstIsIndex(spec, show, alternatives, i, false);
    if i > 0 {
      EligibleInRest(spec, show, alternatives, i, false);
      FirstNonEmptyAt(spec, show, alternatives[1..], i - 1);
    }
  }

  lemma NonEmptyIsTruthy(items: seq<Value>)
    requires items != []
    ensures !Falsy(Some(Arr(items)))
  {}

  /** A schema with a type of its own, or without alternatives, is the scalar schema itself. */
  lemma TypedSchemaIsItself(spec: Value, show: Shower, schema: Value)
    ensures
      var resolved := Resolve(spec, schema, {});
      SchemaType(show, resolved) != "" || (forall alternatives :: !HasAlternatives(resolved, alternatives)) ==>
        ScalarSchema(spec, show, schema) == resolved
  {
    hide Resolve, SchemaType, Truthy, Falsy;
    var resolved := Resolve(spec, schema, {});
    var oneOf := Get(resolved, "oneOf");
    FalsyIsNotTruthy(oneOf);
    var alternatives := ItemsOf(if oneOf.Some? && Truthy(oneOf.value) then oneOf else Get(resolved, "anyOf"));
    assert alternatives != [] ==> HasAlternatives(resolved, alternatives);
  }

  /**
   * Otherwise it is the first alternative of the type string; without one, the first that is a schema at all; without
   * any, the empty schema.
   */
  lemma AlternativePicked(spec: Value, show: Shower, schema: Value, alternatives: seq<Value>, typed: nat, any: nat)
    requires SchemaType(show, Resolve(spec, schema, {})) == ""
    requires HasAlternatives(Resolve(spec, schema, {}), alternatives)
    requires FirstEligible(spec, show, alternatives, typed, true)
    requires FirstEligible(spec, show, alternatives, any, false)
    ensures ScalarSchema(spec, show, schema)
            == if typed < |alternatives| then Resolve(spec, alternatives[typed], {})
               else if any < |alternatives| then Resolve(spec, alternatives[any], {})
               else []
  {
    hide Resolve, SchemaType, ResolveNonEmpty, FirstStringTyped, FirstEligible, Truthy, Falsy;
    FalsyIsNotTruthy(Get(Resolve(spec, schema, {}), "oneOf"));
    FalsyIsNotTruthy(Some(Arr(alternatives)));
    assert !Falsy(Some(Arr(alternatives))) by { NonEmptyIsTruthy(alternatives); }
    FirstStringAt(spec, show, alternatives, typed);
    FirstNonEmptyAt(spec, show, alternatives, any);
  }

  // The entries before the first that is not "null".
  predicate FirstNamedType(items: seq<Value>, i: nat) {
    i < |items| && items[i] != Str("null") && forall j :: 0 <= j < i ==> items[j] == Str("null")
  }

  lemma {:induction false} FirstNonNullAt(items: seq<Value>, i: nat)
    requires FirstNamedType(items, i)
    ensures FirstNonNull(items) == Some(items[i])
  {
    if i > 0 {
      FirstNonNullAt(items[1..], i - 1);
    }
  }

  /** A schema's type is the one given, or the first of a list that is not "null", without outer space or upper case. */
  lemma DeclaredType(show: Shower, schema: Entries, t: string, items: seq<Value>, i: nat)
    ensures Get(schema, "type").None? ==> SchemaType(show, schema) == ""
    ensures Get(schema, "type") == Some(Str(t)) ==> SchemaType(show, schema) == Lower(Strip(t))
    ensures Get(schema, "type") == Some(Arr(items)) && FirstNamedType(items, i) && items[i] == Str(t) ==>
              SchemaType(show, schema) == Lower(Strip(t))
  {
    hide Get;
    assert Lower(Strip("")) == "";
    if FirstNamedType(items, i) {
      FirstNonNullAt(items, i);
    }
  }

  function Dig(node: Value, keys: seq<string>): Entries
    decreases |keys|
  {
    if !node.Obj? then []
    else if keys == [] then node.entries
    else
      var child := Get(node.entries, keys[0]);
      if child.None? then [] else Dig(child.value, keys[1..])
  }

  const INIT_BODY: seq<string> :=
    ["paths", "/v1/init", "post", "requestBody", "content", "application/json", "schema"]

  // The request body's schema, or components.schemas.InitRequest when that one lists no properties.
  function InitRequestSchema(spec: Value): Entries {
    var resolved := ObjectSchema(spec, Obj(Dig(spec, INIT_BODY)), 0);
    if PropertiesOf(resolved) != [] then resolved
    else
      var named := Get(Dig(spec, ["components", "schemas"]), "InitRequest");
      ObjectSchema(spec, if named.Some? then named.value else Obj([]), 0)
  }

  lemma {:induction false} DigReaches(node: Value, keys: seq<string>)
    ensures Dig(node, keys) == match Descend(node, keys) case Some(Obj(entries)) => entries case _ => []
    decreases |keys|
  {
    if node.Obj? && keys != [] && Has(node.entries, keys[0]) {
      DigReaches(Get(node.entries, keys[0]).value, keys[1..]);
    }
  }

  lemma OnlyObjectsAreSchemas(spec: Value, value: Option<Value>)
    ensures ObjectSchema(spec, Null, 0) == ObjectSchema(spec, Obj([]), 0) == []
    ensures value.Some? && !value.value.Obj? ==> ObjectSchema(spec, value.value, 0) == []
  {}

  lemma NamedSchema(spec: Value, a: string, b: string, c: string)
    ensures
      var found, reached := Get(Dig(spec, [a, b]), c), Descend(spec, [a, b, c]);
      (if found.Some? && !found.value.Null? then found else None) == reached
  {
    DigReaches(spec, [a, b]);
    DescendOneMore(spec, [a, b], c);
    assert [a, b] + [c] == [a, b, c];
  }

  lemma {:induction false} DescendOneMore(node: Value, keys: seq<string>, key: string)
    ensures
      var last := Descend(node, keys);
      Descend(node, keys + [key])
      == if last.Some? && last.value.Obj? && Has(last.value.entries, key) && !Get(last.value.entries, key).value.Null?
         then Get(last.value.entries, key)
         else None
    decreases |keys|
  {
    if keys == [] {
      assert keys + [key] == [key] && [key][1..] == [];
    } else {
      assert (keys + [key])[1..] == keys[1..] + [key];
      if node.Obj? && Has(node.entries, keys[0]) {
        DescendOneMore(Get(node.entries, keys[0]).value, keys[1..], key);
      }
    }
  }

  /**
   * The init fields are those of the request body of POST /v1/init, or of the schema named InitRequest when the body
   * lists none.
   */
  lemma InitRequestIsTheBodyOrTheNamed(spec: Value)
    ensures
      var body := Descend(
        spec, ["paths", "/v1/init", "post", "requestBody", "content", "application/json", "schema"]);
      var named := Descend(spec, ["components", "schemas", "InitRequest"]);
      var fromBody := ObjectSchema(spec, if body.Some? then body.value else Null, 0);
      InitRequestSchema(spec)
      == if PropertiesOf(fromBody) != [] then fromBody
         else ObjectSchema(spec, if named.Some? then named.value else Null, 0)
  {
    hide ObjectSchema, Dig, Descend;
    DigReaches(spec, INIT_BODY);
    OnlyObjectsAreSchemas(spec, Descend(spec, INIT_BODY));
    NamedSchema(spec, "components", "schemas", "InitRequest");
    OnlyObjectsAreSchemas(spec, Descend(spec, ["components", "schemas", "InitRequest"]));
  }

  lemma {:induction false} AddMissingKeepsDistinct<T>(list: seq<T>, more: seq<T>)
    requires NoRepeats(list)
    ensures NoRepeats(AddMissing(list, more))
    ensures list <= AddMissing(list, more)
    ensures forall x :: x in AddMissing(list, more) <==> x in list || x in more
    decreases |more|
  {
    if more != [] {
      assert more == [more[0]] + more[1..];
      AddMissingKeepsDistinct(if more[0] in list then list else list + [more[0]], more[1..]);
    }
  }

  /** The names a driver requires, each once and in the driver's order; None when one of them is blank. */
  method RequiredFieldNames(listed: seq<string>) returns (names: Option<seq<string>>)
    ensures names.None? <==> exists i :: 0 <= i < |listed| && Strip(listed[i]) == ""
    ensures names.Some? ==> names.value == AddMissing([], listed)
    ensures names.Some? ==> NoRepeats(names.value) && forall n :: n in names.value <==> n in listed
  {
    var kept: seq<string> := [];
    for i := 0 to |listed|
      invariant forall j :: 0 <= j < i ==> Strip(listed[j]) != ""
      invariant AddMissing(kept, listed[i..]) == AddMissing([], listed)
    {
      if Strip(listed[i]) == "" {
        return None;
      }
      if listed[i] !in kept {
        kept := kept + [listed[i]];
      }
    }
    AddMissingKeepsDistinct([], listed);
    return Some(kept);
  }

  function Names(fields: seq<Field>): (names: seq<string>)
    ensures |names| == |fields|
    ensures forall i :: 0 <= i < |fields| ==> names[i] == fields[i].name
  {
    seq(|fields|, i requires 0 <= i < |fields| => fields[i].name)
  }

  function PropertySchema(spec: Value, show: Shower, properties: Entries, name: string): Entries {
    var described := Get(properties, name);
    ScalarSchema(spec, show, if described.Some? then described.value else Obj([]))
  }

  // Typed fields, required or not, in front of optional ones.
  ghost predicate Typed(spec: Value, show: Shower, properties: Entries, required: nat, fields: seq<Field>) {
    forall i :: 0 <= i < |fields| ==>
                  && (fields[i].required <==> i < required)
                  && fields[i].schema == PropertySchema(spec, show, properties, fields[i].name)
  }

  // _extract_fields_from_requirements
  method RequiredFields(spec: Value, show: Shower, properties: Entries, names: seq<string>) returns (fields: seq<Field>)
    ensures Names(fields) == names
    ensures Typed(spec, show, properties, |names|, fields)
  {
    hide PropertySchema;
    fields := [];
    for i := 0 to |names|
      invariant Names(fields) == names[..i]
      invariant Typed(spec, show, properties, |names|, fields)
    {
      fields := fields + [Field(names[i], PropertySchema(spec, show, properties, names[i]), true)];
    }
  }

  lemma {:induction false} FirstPropertySchema(spec: Value, show: Shower, properties: Entries, i: nat)
    requires i < |properties| && forall j :: 0 <= j < i ==> properties[j].key != properties[i].key
    ensures PropertySchema(spec, show, properties, properties[i].key) == ScalarSchema(spec, show, properties[i].value)
  {
    hide ScalarSchema;
    FirstEntry(properties, i);
  }

  lemma TypedAppend(spec: Value, show: Shower, properties: Entries, required: nat, fields: seq<Field>, f: Field)
    requires Typed(spec, show, properties, required, fields) && required <= |fields|
    requires !f.required && f.schema == PropertySchema(spec, show, properties, f.name)
    ensures Typed(spec, show, properties, required, fields + [f])
  {
    hide PropertySchema;
  }

  method AddOptionalFields(spec: Value, show: Shower, properties: Entries, first: seq<Field>)
    returns (fields: seq<Field>)
    requires Typed(spec, show, properties, |first|, first)
    ensures Names(fields) == AddMissing(Names(first), Keys(properties))
    ensures Typed(spec, show, properties, |first|, fields)
  {
    hide ScalarSchema, PropertySchema, Typed;
    fields := first;
    var known := set n | n in Names(first);
    for i := 0 to |properties|
      invariant known == set n | n in Names(fields)
      invariant AddMissing(Names(fields), Keys(properties[i..])) == AddMissing(Names(first), Keys(properties))
      invariant |first| <= |fields| && Typed(spec, show, properties, |first|, fields)
      invariant forall j :: 0 <= j < i ==> properties[j].key in known
    {
      var e := properties[i];
      assert Keys(properties[i..]) == [e.key] + Keys(properties[i + 1..]);
      if e.key !in known {
        ghost var before := fields;
        FirstPropertySchema(spec, show, properties, i);
        fields := fields + [Field(e.key, ScalarSchema(spec, show, e.value), false)];
        assert Names(fields) == Names(before) + [e.key];
        TypedAppend(spec, show, properties, |first|, before, fields[|before|]);
        known := known + {e.key};
      }
    }
  }

  // An optional copy of the first vendor field of this name.
  ghost predicate IsVendorExtra(vendor: seq<Field>, f: Field) {
    exists k :: 0 <= k < |vendor| && f == vendor[k].(required := false)
                && forall j :: 0 <= j < k ==> vendor[j].name != f.name
  }

  method AddVendorFields(typed: seq<Field>, vendor: seq<Field>) returns (fields: seq<Field>)
    ensures Names(fields) == AddMissing(Names(typed), Names(vendor))
    ensures |typed| <= |fields| && fields[..|typed|] == typed
    ensures forall i :: |typed| <= i < |fields| ==> IsVendorExtra(vendor, fields[i])
  {
    fields := typed;
    var known := set n | n in Names(typed);
    for i := 0 to |vendor|
      invariant known == set n | n in Names(fields)
      invariant AddMissing(Names(fields), Names(vendor[i..])) == AddMissing(Names(typed), Names(vendor))
      invariant |typed| <= |fields| && fields[..|typed|] == typed
      invariant forall j :: |typed| <= j < |fields| ==> IsVendorExtra(vendor, fields[j])
      invariant forall j :: 0 <= j < i ==> vendor[j].name in known
    {
      assert Names(vendor[i..])[1..] == Names(vendor[i + 1..]);
      if vendor[i].name !in known {
        ghost var before := fields;
        fields := fields + [vendor[i].(required := false)];
        assert Names(fields) == Names(before) + [vendor[i].name];
        known := known + {vendor[i].name};
      }
    }
  }

  /**
   * The init fields, for the names a driver lists as required: its names in its order, then the other InitRequest
   * properties in schema order, then vendor extras for names not yet listed. Names are pairwise distinct, exactly the
   * first group is required, and the first two groups carry the types the InitRequest schema declares. None is the
   * error for a blank name.
   */
  method ExtractDriverRequirementFields(spec: Value, show: Shower, listed: seq<string>, vendor: seq<Field>)
    returns (fields: Option<seq<Field>>)
    ensures fields.None? <==> exists i :: 0 <= i < |listed| && Strip(listed[i]) == ""
    ensures fields.Some? ==> AreInitFields(spec, show, listed, vendor, fields.value)
  {
    hide InitRequestSchema, Typed;
    var found := RequiredFieldNames(listed);
    if found.None? {
      return None;
    }
    var names := found.value;
    var properties := PropertiesOf(InitRequestSchema(spec));
    AddMissingKeepsDistinct(names, Keys(properties));
    AddMissingKeepsDistinct(AddMissing(names, Keys(properties)), Names(vendor));
    var required := RequiredFields(spec, show, properties, names);
    var typed := AddOptionalFields(spec, show, properties, required);
    var all := AddVendorFields(typed, vendor);
    return Some(all);
  }

  ghost predicate AreInitFields(
    spec: Value, show: Shower, listed: seq<string>, vendor: seq<Field>, fields: seq<Field>)
  {
    var properties := PropertiesOf(InitRequestSchema(spec));
    var names := AddMissing([], listed);
    var described := AddMissing(names, Keys(properties));
    && Names(fields) == AddMissing(described, Names(vendor))
    && NoRepeats(Names(fields))
    && |names| <= |described| <= |fields|
    && Typed(spec, show, properties, |names|, fields[..|described|])
    && forall i :: |described| <= i < |fields| ==> IsVendorExtra(vendor, fields[i])
  }

  lemma {:induction false} FirstEntry(entries: Entries, i: nat)
    requires i < |entries| && forall j :: 0 <= j < i ==> entries[j].key != entries[i].key
    ensures Get(entries, entries[i].key) == Some(entries[i].value)
  {
    if i > 0 {
      FirstEntry(entries[1..], i - 1);
    }
  }
}
