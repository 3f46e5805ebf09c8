/** Flattening a schema to command-line options and rebuilding a request body: sparkmeter/metering/cli.py. */
module CliBody {
  import opened Wrappers
  import opened Text

  // ---------- data ----------

  datatype Scalar = Text(text: string) | Number(number: real) | Flag(flag: bool)

  type Fields = map<string, Json>

  datatype Json = One(value: Scalar) | List(items: seq<Scalar>) | Object(fields: Fields)

  datatype Property = Property(name: string, schema: Schema)

  // A resolved schema: its properties in document order, and the names it requires.
  datatype Schema = Schema(isObject: bool, required: seq<string>, properties: seq<Property>) {
    // Objects that list properties are descended into; everything else is one option.
    predicate Nested() {
      isObject && properties != []
    }
  }

  type Path = seq<string>

  datatype LeafOption = LeafOption(path: Path, required: bool)

  // A parsed option: not given, one value, or the tuple of a repeatable option.
  datatype Arg = Absent | Single(value: Scalar) | Tuple(items: seq<Scalar>)

  // Property names of a dictionary are distinct at every level.
  predicate WellFormed(schema: Schema) {
    && (forall i, j :: 0 <= i < j < |schema.properties| ==> schema.properties[i].name != schema.properties[j].name)
    && (forall i :: 0 <= i < |schema.properties| ==> WellFormed(schema.properties[i].schema))
  }

  // ---------- schema -> options ----------

  function LeafOptions(schema: Schema, prefix: Path): seq<LeafOption> {
    LeavesFrom(schema, prefix, 0)
  }

  // The options of the properties from number i on.
  function LeavesFrom(schema: Schema, prefix: Path, i: nat): seq<LeafOption>
    requires i <= |schema.properties|
    decreases schema, |schema.properties| - i
  {
    if i == |schema.properties| then []
    else
      var p := schema.properties[i];
      (if p.schema.Nested() then LeavesFrom(p.schema, prefix + [p.name], 0)
       else [LeafOption(prefix + [p.name], p.name in schema.required)])
      + LeavesFrom(schema, prefix, i + 1)
  }

  /** The options in document order, collected by appending and extending a list. */
  method CollectLeafOptions(schema: Schema, prefix: Path) returns (out: seq<LeafOption>)
    ensures out == LeafOptions(schema, prefix)
    decreases schema
  {
    out := [];
    for i := 0 to |schema.properties|
      invariant out + LeavesFrom(schema, prefix, i) == LeafOptions(schema, prefix)
    {
      var p := schema.properties[i];
      if p.schema.Nested() {
        var nested := CollectLeafOptions(p.schema, prefix + [p.name]);
        out := out + nested;
      } else {
        out := out + [LeafOption(prefix + [p.name], p.name in schema.required)];
      }
    }
  }

  function OptionDest(path: Path): string {
    Join("__", path)
  }

  // ---------- options -> body ----------

  function ToJson(arg: Arg): Option<Json> {
    match arg
    case Absent => None
    case Single(v) => Some(One(v))
    case Tuple(items) => if items == [] then None else Some(List(items))
  }

  // Walk down the path, creating objects, and set its last key; None is the error of descending into a non-object.
  function SetPath(fields: Fields, path: Path, value: Json): Option<Fields>
    requires path != []
    decreases |path|
  {
    if |path| == 1 then Some(fields[path[0] := value])
    else
      var child := if path[0] in fields then fields[path[0]] else Object(map[]);
      if !child.Object? then None
      else
        match SetPath(child.fields, path[1..], value)
        case None => None
        case Some(sub) => Some(fields[path[0] := Object(sub)])
  }

  predicate NonEmptyPaths(leaves: seq<LeafOption>) {
    forall i :: 0 <= i < |leaves| ==> leaves[i].path != []
  }

  function Assemble(body: Fields, leaves: seq<LeafOption>, kwargs: map<string, Arg>): Option<Fields>
    requires NonEmptyPaths(leaves)
    decreases |leaves|
  {
    if leaves == [] then Some(body)
    else
      var dest := OptionDest(leaves[0].path);
      var value := if dest in kwargs then ToJson(kwargs[dest]) else None;
      if value.None? then Assemble(body, leaves[1..], kwargs)
      else
        match SetPath(body, leaves[0].path, value.value)
        case None => None
        case Some(next) => Assemble(next, leaves[1..], kwargs)
  }

  method AssembleBody(leaves: seq<LeafOption>, kwargs: map<string, Arg>) returns (body: Option<Fields>)
    requires NonEmptyPaths(leaves)
    ensures body == Assemble(map[], leaves, kwargs)
  {
    var fields: Fields := map[];
    for i := 0 to |leaves|
      invariant Assemble(fields, leaves[i..], kwargs) == Assemble(map[], leaves, kwargs)
    {
      var dest := OptionDest(leaves[i].path);
      var value := if dest in kwargs then ToJson(kwargs[dest]) else None;
      if value.None? {
        continue;
      }
      var next := SetPath(fields, leaves[i].path, value.value);
      if next.None? {
        return None;
      }
      fields := next.value;
    }
    return Some(fields);
  }

  // ---------- body -> options, the inverse ----------

  function Lookup(fields: Fields, path: Path): Option<Json>
    decreases |path|
  {
    if path == [] || path[0] !in fields then None
    else if |path| == 1 then Some(fields[path[0]])
    else if fields[path[0]].Object? then Lookup(fields[path[0]].fields, path[1..])
    else None
  }

  function ToArg(value: Option<Json>): Arg {
    match value
    case Some(One(v)) => Single(v)
    case Some(List(items)) => Tuple(items)
    case _ => Absent
  }

  // The option map a body stands for.
  function Flatten(leaves: seq<LeafOption>, body: Fields): map<string, Arg> {
    if leaves == [] then map[]
    else
      var last := leaves[|leaves| - 1];
      Flatten(leaves[..|leaves| - 1], body)[OptionDest(last.path) := ToArg(Lookup(body, last.path))]
  }

  // ---------- bodies that follow a schema ----------

  function PropertyIndex(schema: Schema, name: string): (r: Option<nat>)
    ensures r.Some? ==> r.value < |schema.properties| && schema.properties[r.value].name == name
    ensures r.None? ==> forall i :: 0 <= i < |schema.properties| ==> schema.properties[i].name != name
  {
    IndexFrom(schema, name, 0)
  }

  function IndexFrom(schema: Schema, name: string, i: nat): (r: Option<nat>)
    requires i <= |schema.properties|
    ensures r.Some? ==> i <= r.value < |schema.properties| && schema.properties[r.value].name == name
    ensures r.None? ==> forall k :: i <= k < |schema.properties| ==> schema.properties[k].name != name
    decreases |schema.properties| - i
  {
    if i == |schema.properties| then None
    else if schema.properties[i].name == name then Some(i)
    else IndexFrom(schema, name, i + 1)
  }

  // Non-null leaves, non-empty lists, and no empty nested object.
  predicate LeafValue(value: Json) {
    value.One? || (value.List? && value.items != [])
  }

  predicate Conforms(schema: Schema, fields: Fields)
    decreases schema
  {
    forall name <- fields ::
      var i := PropertyIndex(schema, name);
      && i.Some?
      && var p := schema.properties[i.value].schema;
         if p.Nested()
         then fields[name].Object? && fields[name].fields != map[] && Conforms(p, fields[name].fields)
         else LeafValue(fields[name])
  }

  predicate IsLeafPath(schema: Schema, path: Path)
    decreases schema
  {
    path != [] &&
    var i := PropertyIndex(schema, path[0]);
    i.Some? &&
    var p := schema.properties[i.value].schema;
    if p.Nested() then IsLeafPath(p, path[1..]) else |path| == 1
  }
}
