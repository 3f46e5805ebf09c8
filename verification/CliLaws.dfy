/** Flatten then assemble is the identity, exactly when option names tell leaf paths apart. */
module CliLaws {
  import opened Wrappers
  import opened CliBody

  // ---------- setting and looking up leaves ----------

  lemma {:induction false} SetPathConforms(schema: Schema, fields: Fields, path: Path, value: Json)
    requires Conforms(schema, fields) && IsLeafPath(schema, path) && LeafValue(value)
    ensures SetPath(fields, path, value).Some?
    ensures path[0] in SetPath(fields, path, value).value
    ensures Conforms(schema, SetPath(fields, path, value).value)
    decreases |path|
  {
    var p := schema.properties[PropertyIndex(schema, path[0]).value].schema;
    if |path| > 1 {
      var child := if path[0] in fields then fields[path[0]] else Object(map[]);
      SetPathConforms(p, child.fields, path[1..], value);
    }
  }

  lemma {:induction false} SetPathThenLookup(fields: Fields, path: Path, value: Json)
    requires path != [] && SetPath(fields, path, value).Some?
    ensures Lookup(SetPath(fields, path, value).value, path) == Some(value)
    decreases |path|
  {
    if |path| > 1 {
      var child := if path[0] in fields then fields[path[0]] else Object(map[]);
      SetPathThenLookup(child.fields, path[1..], value);
    }
  }

  lemma SetPathSetsLeaf(schema: Schema, fields: Fields, path: Path, value: Json)
    requires Conforms(schema, fields) && IsLeafPath(schema, path) && LeafValue(value)
    ensures SetPath(fields, path, value).Some?
    ensures Conforms(schema, SetPath(fields, path, value).value)
    ensures Lookup(SetPath(fields, path, value).value, path) == Some(value)
  {
    SetPathConforms(schema, fields, path, value);
    SetPathThenLookup(fields, path, value);
  }

  lemma {:induction false} SetPathKeepsOthers(schema: Schema, fields: Fields, path: Path, other: Path, value: Json)
    requires Conforms(schema, fields) && IsLeafPath(schema, path) && IsLeafPath(schema, other) && path != other
    requires SetPath(fields, path, value).Some?
    ensures Lookup(SetPath(fields, path, value).value, other) == Lookup(fields, other)
    decreases |path|
  {
    var p := schema.properties[PropertyIndex(schema, path[0]).value].schema;
    if path[0] == other[0] && p.Nested() {
      assert path == [path[0]] + path[1..] && other == [other[0]] + other[1..];
      var child := if path[0] in fields then fields[path[0]] else Object(map[]);
      SetPathKeepsOthers(p, child.fields, path[1..], other[1..], value);
    }
  }

  lemma {:induction false} LookupIsLeafValue(schema: Schema, fields: Fields, path: Path)
    requires Conforms(schema, fields) && IsLeafPath(schema, path)
    ensures Lookup(fields, path).Some? ==> LeafValue(Lookup(fields, path).value)
    decreases |path|
  {
    var p := schema.properties[PropertyIndex(schema, path[0]).value].schema;
    if p.Nested() && path[0] in fields {
      LookupIsLeafValue(p, fields[path[0]].fields, path[1..]);
    }
  }

  lemma {:induction false} NonEmptyBodyHasLeaf(schema: Schema, fields: Fields) returns (path: Path)
    requires Conforms(schema, fields) && fields != map[]
    ensures IsLeafPath(schema, path) && Lookup(fields, path).Some?
    decreases schema
  {
    var name :| name in fields;
    var p := schema.properties[PropertyIndex(schema, name).value].schema;
    if p.Nested() {
      var rest := NonEmptyBodyHasLeaf(p, fields[name].fields);
      path := [name] + rest;
      assert path[1..] == rest;
    } else {
      path := [name];
    }
  }

  // A body that follows the schema is determined by its leaves.
  lemma {:induction false} SameLeavesSameKeys(schema: Schema, f: Fields, g: Fields, name: string)
    requires Conforms(schema, f) && Conforms(schema, g)
    requires forall path | IsLeafPath(schema, path) :: Lookup(f, path) == Lookup(g, path)
    requires name in f
    ensures name in g
  {
    var p := schema.properties[PropertyIndex(schema, name).value].schema;
    if p.Nested() {
      var rest := NonEmptyBodyHasLeaf(p, f[name].fields);
      var path := [name] + rest;
      assert path[1..] == rest;
      assert IsLeafPath(schema, path);
      assert Lookup(f, path).Some?;
    } else {
      assert IsLeafPath(schema, [name]);
      assert Lookup(f, [name]).Some?;
    }
  }

  lemma {:induction false} SameLeavesSameBody(schema: Schema, f: Fields, g: Fields)
    requires Conforms(schema, f) && Conforms(schema, g)
    requires forall path | IsLeafPath(schema, path) :: Lookup(f, path) == Lookup(g, path)
    ensures f == g
    decreases schema
  {
    forall name ensures name in f <==> name in g {
      if name in f { SameLeavesSameKeys(schema, f, g, name); }
      if name in g { SameLeavesSameKeys(schema, g, f, name); }
    }
    forall name <- f ensures f[name] == g[name] {
      var p := schema.properties[PropertyIndex(schema, name).value].schema;
      if p.Nested() {
        forall rest | IsLeafPath(p, rest) ensures Lookup(f[name].fields, rest) == Lookup(g[name].fields, rest) {
          var path := [name] + rest;
          assert path[1..] == rest;
          assert IsLeafPath(schema, path);
          assert Lookup(f, path) == Lookup(g, path);
        }
        SameLeavesSameBody(p, f[name].fields, g[name].fields);
      } else {
        assert IsLeafPath(schema, [name]);
        assert Lookup(f, [name]) == Lookup(g, [name]);
      }
    }
  }

  // ---------- the options are the leaf paths ----------

  predicate HasPath(leaves: seq<LeafOption>, path: Path) {
    exists k :: 0 <= k < |leaves| && leaves[k].path == path
  }

  lemma {:induction false} NamesHaveTheirIndex(schema: Schema, i: nat)
    requires WellFormed(schema) && i < |schema.properties|
    ensures PropertyIndex(schema, schema.properties[i].name) == Some(i)
  {}

  lemma {:induction false} OptionsAreLeafPaths(schema: Schema, prefix: Path, i: nat, k: nat) returns (path: Path)
    requires WellFormed(schema) && i <= |schema.properties| && k < |LeavesFrom(schema, prefix, i)|
    ensures IsLeafPath(schema, path) && LeavesFrom(schema, prefix, i)[k].path == prefix + path
    ensures PropertyIndex(schema, path[0]).value >= i
    decreases schema, |schema.properties| - i
  {
    var p := schema.properties[i];
    NamesHaveTheirIndex(schema, i);
    if p.schema.Nested() {
      var nested := LeavesFrom(p.schema, prefix + [p.name], 0);
      if k < |nested| {
        var rest := OptionsAreLeafPaths(p.schema, prefix + [p.name], 0, k);
        path := [p.name] + rest;
        assert path[1..] == rest;
        assert prefix + [p.name] + rest == prefix + path;
      } else {
        path := OptionsAreLeafPaths(schema, prefix, i + 1, k - |nested|);
      }
    } else if k == 0 {
      path := [p.name];
    } else {
      path := OptionsAreLeafPaths(schema, prefix, i + 1, k - 1);
    }
  }

  lemma {:induction false} LeafPathsAreOptions(schema: Schema, prefix: Path, i: nat, path: Path) returns (k: nat)
    requires WellFormed(schema) && IsLeafPath(schema, path)
    requires i <= PropertyIndex(schema, path[0]).value
    ensures k < |LeavesFrom(schema, prefix, i)| && LeavesFrom(schema, prefix, i)[k].path == prefix + path
    decreases schema, |schema.properties| - i
  {
    var p := schema.properties[i];
    NamesHaveTheirIndex(schema, i);
    if PropertyIndex(schema, path[0]).value == i {
      if p.schema.Nested() {
        k := LeafPathsAreOptions(p.schema, prefix + [p.name], 0, path[1..]);
        assert path == [p.name] + path[1..];
        assert prefix + [p.name] + path[1..] == prefix + path;
      } else {
        k := 0;
        assert path == [p.name];
      }
    } else {
      k := LeafPathsAreOptions(schema, prefix, i + 1, path);
      k := k + if p.schema.Nested() then |LeavesFrom(p.schema, prefix + [p.name], 0)| else 1;
    }
  }

  /** The options of a schema are exactly its leaf paths; none is a prefix of another. */
  lemma OptionsCoverLeafPaths(schema: Schema)
    requires WellFormed(schema)
    ensures forall path :: HasPath(LeafOptions(schema, []), path) <==> IsLeafPath(schema, path)
    ensures NonEmptyPaths(LeafOptions(schema, []))
  {
    var leaves := LeafOptions(schema, []);
    forall k: nat | k < |leaves| ensures IsLeafPath(schema, leaves[k].path) {
      var path := OptionsAreLeafPaths(schema, [], 0, k);
      assert [] + path == path;
    }
    forall path | IsLeafPath(schema, path) ensures HasPath(leaves, path) {
      var k := LeafPathsAreOptions(schema, [], 0, path);
      assert [] + path == path;
      assert leaves[k].path == path;
    }
  }

  // ---------- the order and the flags of the options ----------

  // The schema reached by property names.
  function SubSchema(schema: Schema, path: Path): Option<Schema>
    decreases |path|
  {
    if path == [] then Some(schema)
    else
      var i := PropertyIndex(schema, path[0]);
      if i.None? then None else SubSchema(schema.properties[i.value].schema, path[1..])
  }

  // Where the two paths part, the first goes to an earlier property.
  predicate Before(schema: Schema, p: Path, q: Path)
    decreases |p|
  {
    && p != [] && q != []
    && var i, j := PropertyIndex(schema, p[0]), PropertyIndex(schema, q[0]);
    && i.Some? && j.Some?
    && (i.value < j.value || (i == j && Before(schema.properties[i.value].schema, p[1..], q[1..])))
  }

  // The leaves of property i.
  function LeavesOf(schema: Schema, prefix: Path, i: nat): seq<LeafOption>
    requires i < |schema.properties|
  {
    var p := schema.properties[i];
    if p.schema.Nested() then LeavesFrom(p.schema, prefix + [p.name], 0)
    else [LeafOption(prefix + [p.name], p.name in schema.required)]
  }

  lemma LeavesSplit(schema: Schema, prefix: Path, i: nat)
    requires i < |schema.properties|
    ensures LeavesFrom(schema, prefix, i) == LeavesOf(schema, prefix, i) + LeavesFrom(schema, prefix, i + 1)
  {}

  // The leaves of property i start with its name.
  lemma {:induction false} LeafOfProperty(schema: Schema, prefix: Path, i: nat, k: nat) returns (path: Path)
    requires WellFormed(schema) && i < |schema.properties| && k < |LeavesOf(schema, prefix, i)|
    ensures LeavesOf(schema, prefix, i)[k].path == prefix + path
    ensures path != [] && path[0] == schema.properties[i].name
  {
    var property := schema.properties[i];
    if property.schema.Nested() {
      var rest := OptionsAreLeafPaths(property.schema, prefix + [property.name], 0, k);
      path := [property.name] + rest;
      assert prefix + [property.name] + rest == prefix + path;
    } else {
      path := [property.name];
    }
  }

  lemma BeforeInside(schema: Schema, i: nat, a: Path, b: Path)
    requires WellFormed(schema) && i < |schema.properties| && Before(schema.properties[i].schema, a, b)
    ensures Before(schema, [schema.properties[i].name] + a, [schema.properties[i].name] + b)
  {
    var name := schema.properties[i].name;
    NamesHaveTheirIndex(schema, i);
    assert ([name] + a)[1..] == a && ([name] + b)[1..] == b;
  }

  lemma {:induction false} LeavesInOrder(schema: Schema, prefix: Path, i: nat, k: nat, l: nat)
    returns (p: Path, q: Path)
    requires WellFormed(schema) && i <= |schema.properties| && k < l < |LeavesFrom(schema, prefix, i)|
    ensures LeavesFrom(schema, prefix, i)[k].path == prefix + p && LeavesFrom(schema, prefix, i)[l].path == prefix + q
    ensures Before(schema, p, q)
    decreases schema, |schema.properties| - i
  {
    NoLeavesAtTheEnd(schema, prefix);
    hide LeavesFrom, Before, IsLeafPath;
    LeavesSplit(schema, prefix, i);
    var size := |LeavesOf(schema, prefix, i)|;
    if k >= size {
      p, q := LeavesInOrder(schema, prefix, i + 1, k - size, l - size);
    } else if l >= size {
      p := LeafOfProperty(schema, prefix, i, k);
      q := OptionsAreLeafPaths(schema, prefix, i + 1, l - size);
      BeforeAnother(schema, i, p, q);
    } else {
      var property := schema.properties[i];
      var a, b := LeavesInOrder(property.schema, prefix + [property.name], 0, k, l);
      p, q := [property.name] + a, [property.name] + b;
      BeforeInside(schema, i, a, b);
      assert prefix + [property.name] + a == prefix + p && prefix + [property.name] + b == prefix + q;
    }
  }

  lemma NoLeavesAtTheEnd(schema: Schema, prefix: Path)
    ensures LeavesFrom(schema, prefix, |schema.properties|) == []
  {}

  lemma BeforeAnother(schema: Schema, i: nat, p: Path, q: Path)
    requires WellFormed(schema) && i < |schema.properties| && p != [] && p[0] == schema.properties[i].name
    requires IsLeafPath(schema, q) && PropertyIndex(schema, q[0]).value > i
    ensures Before(schema, p, q)
  {
    NamesHaveTheirIndex(schema, i);
  }

  /** The options come in document order, so no two are the same. */
  lemma {:induction false} OptionsInDocumentOrder(schema: Schema, k: nat, l: nat)
    requires WellFormed(schema) && k < l < |LeafOptions(schema, [])|
    ensures Before(schema, LeafOptions(schema, [])[k].path, LeafOptions(schema, [])[l].path)
    ensures LeafOptions(schema, [])[k].path != LeafOptions(schema, [])[l].path
  {
    var p, q := LeavesInOrder(schema, [], 0, k, l);
    assert [] + p == p && [] + q == q;
    NotBeforeItself(schema, p);
  }

  lemma {:induction false} NotBeforeItself(schema: Schema, p: Path)
    ensures !Before(schema, p, p)
    decreases |p|
  {
    if p != [] && PropertyIndex(schema, p[0]).Some? {
      NotBeforeItself(schema.properties[PropertyIndex(schema, p[0]).value].schema, p[1..]);
    }
  }

  // The object that holds the last property of a path requires it.
  predicate RequiredInItsObject(schema: Schema, path: Path)
    requires path != []
  {
    var n := |path| - 1;
    var holder := SubSchema(schema, path[..n]);
    holder.Some? && path[n] in holder.value.required
  }

  lemma {:induction false} LeafRequired(schema: Schema, prefix: Path, i: nat, k: nat) returns (path: Path)
    requires WellFormed(schema) && i <= |schema.properties| && k < |LeavesFrom(schema, prefix, i)|
    ensures path != [] && LeavesFrom(schema, prefix, i)[k].path == prefix + path
    ensures SubSchema(schema, path[..|path| - 1]).Some?
    ensures LeavesFrom(schema, prefix, i)[k].required <==> RequiredInItsObject(schema, path)
    decreases schema, |schema.properties| - i
  {
    var p := schema.properties[i];
    NamesHaveTheirIndex(schema, i);
    if p.schema.Nested() {
      var nested := LeavesFrom(p.schema, prefix + [p.name], 0);
      if k < |nested| {
        var rest := LeafRequired(p.schema, prefix + [p.name], 0, k);
        path := [p.name] + rest;
        assert prefix + [p.name] + rest == prefix + path;
        assert path[..|path| - 1][1..] == rest[..|rest| - 1];
      } else {
        path := LeafRequired(schema, prefix, i + 1, k - |nested|);
      }
    } else if k == 0 {
      path := [p.name];
      assert path[..0] == [];
    } else {
      path := LeafRequired(schema, prefix, i + 1, k - 1);
    }
  }

  // An object that lists properties is descended into; anything else is one option.
  predicate IsOption(schema: Schema) {
    !schema.isObject || schema.properties == []
  }

  /** A leaf path goes through objects that list properties and ends at a property that is no such object. */
  lemma {:induction false} LeafPathsEndAtOptions(schema: Schema, path: Path)
    ensures IsLeafPath(schema, path) <==>
            && path != [] && SubSchema(schema, path).Some? && IsOption(SubSchema(schema, path).value)
            && forall k :: 0 < k < |path| ==>
                 SubSchema(schema, path[..k]).Some? && !IsOption(SubSchema(schema, path[..k]).value)
    decreases |path|
  {
    if path != [] && PropertyIndex(schema, path[0]).Some? {
      var p, rest := schema.properties[PropertyIndex(schema, path[0]).value].schema, path[1..];
      LeafPathsEndAtOptions(p, rest);
      SubSchemaInside(schema, path, 1);
      forall k | 0 < k <= |rest| ensures SubSchema(schema, path[..k + 1]) == SubSchema(p, rest[..k]) {
        SubSchemaInside(schema, path, k + 1);
      }
      assert path[..|path|] == path && rest[..|rest|] == rest;
      if |path| > 1 {
        PrefixesInside(schema, path, p);
      }
    }
  }

  lemma SubSchemaInside(schema: Schema, path: Path, k: nat)
    requires 0 < k <= |path| && PropertyIndex(schema, path[0]).Some?
    ensures SubSchema(schema, path[..k])
            == SubSchema(schema.properties[PropertyIndex(schema, path[0]).value].schema, path[1..][..k - 1])
  {
    assert path[..k][1..] == path[1..][..k - 1];
  }

  lemma PrefixesInside(schema: Schema, path: Path, p: Schema)
    requires |path| > 1 && PropertyIndex(schema, path[0]).Some?
    requires p == schema.properties[PropertyIndex(schema, path[0]).value].schema
    ensures (forall k :: 0 < k < |path| ==>
               SubSchema(schema, path[..k]).Some? && !IsOption(SubSchema(schema, path[..k]).value))
            <==> !IsOption(p)
                 && forall k :: 0 < k < |path[1..]| ==>
                      SubSchema(p, path[1..][..k]).Some? && !IsOption(SubSchema(p, path[1..][..k]).value)
  {
    var rest := path[1..];
    SubSchemaInside(schema, path, 1);
    forall k | 0 < k < |rest| ensures SubSchema(schema, path[..k + 1]) == SubSchema(p, rest[..k]) {
      SubSchemaInside(schema, path, k + 1);
    }
    if forall k :: 0 < k < |rest| ==> SubSchema(p, rest[..k]).Some? && !IsOption(SubSchema(p, rest[..k]).value) {
      forall k | 1 < k < |path| ensures SubSchema(schema, path[..k]) == SubSchema(p, rest[..k - 1]) {
        SubSchemaInside(schema, path, k);
      }
    }
    if forall k :: 0 < k < |path| ==>
         SubSchema(schema, path[..k]).Some? && !IsOption(SubSchema(schema, path[..k]).value) {
      assert SubSchema(schema, path[..1]).Some?;
      forall k | 0 < k < |rest|
        ensures SubSchema(p, rest[..k]).Some? && !IsOption(SubSchema(p, rest[..k]).value)
      {
        assert SubSchema(schema, path[..k + 1]).Some?;
      }
    }
  }

  /** An option is required exactly when the object it belongs to requires its property, wherever that object is. */
  lemma OptionRequiredByItsObject(schema: Schema, k: nat)
    requires WellFormed(schema) && k < |LeafOptions(schema, [])|
    ensures LeafOptions(schema, [])[k].path != []
    ensures LeafOptions(schema, [])[k].required <==> RequiredInItsObject(schema, LeafOptions(schema, [])[k].path)
  {
    var path := LeafRequired(schema, [], 0, k);
    assert [] + path == path;
  }

  lemma {:induction false} LeafPathsArePrefixFree(schema: Schema, p: Path, q: Path)
    requires IsLeafPath(schema, p) && IsLeafPath(schema, q) && p <= q
    ensures p == q
    decreases |p|
  {
    var s := schema.properties[PropertyIndex(schema, p[0]).value].schema;
    assert p == [p[0]] + p[1..] && q == [q[0]] + q[1..];
    if s.Nested() {
      LeafPathsArePrefixFree(s, p[1..], q[1..]);
    }
  }

  // ---------- assembling ----------

  // The value an option map gives for a path.
  function Given(kwargs: map<string, Arg>, path: Path): Option<Json> {
    if OptionDest(path) in kwargs then ToJson(kwargs[OptionDest(path)]) else None
  }

  predicate AllLeafPaths(schema: Schema, leaves: seq<LeafOption>) {
    forall k :: 0 <= k < |leaves| ==> IsLeafPath(schema, leaves[k].path)
  }

  /** Assembling never fails, follows the schema, and holds at each leaf what its option gave. */
  lemma {:induction false} AssembleSetsGivenLeaves(
    schema: Schema, body: Fields, leaves: seq<LeafOption>, kwargs: map<string, Arg>)
    requires Conforms(schema, body) && AllLeafPaths(schema, leaves) && NonEmptyPaths(leaves)
    ensures Assemble(body, leaves, kwargs).Some?
    ensures Conforms(schema, Assemble(body, leaves, kwargs).value)
    ensures forall path | IsLeafPath(schema, path) ::
              Lookup(Assemble(body, leaves, kwargs).value, path)
              == if HasPath(leaves, path) && Given(kwargs, path).Some? then Given(kwargs, path) else Lookup(body, path)
    decreases |leaves|
  {
    hide SetPath, Lookup, IsLeafPath, Conforms, OptionDest;
    if leaves != [] {
      var first, rest := leaves[0].path, leaves[1..];
      var value := Given(kwargs, first);
      var next := body;
      if value.Some? {
        SetPathSetsLeaf(schema, body, first, value.value);
        next := SetPath(body, first, value.value).value;
      }
      AssembleSetsGivenLeaves(schema, next, rest, kwargs);
      forall path | IsLeafPath(schema, path)
        ensures Lookup(Assemble(body, leaves, kwargs).value, path)
                == if HasPath(leaves, path) && Given(kwargs, path).Some? then Given(kwargs, path)
                   else Lookup(body, path)
      {
        HasPathSplit(leaves, path);
        if value.Some? && path != first {
          SetPathKeepsOthers(schema, body, first, path, value.value);
        }
      }
    }
  }

  lemma HasPathSplit(leaves: seq<LeafOption>, path: Path)
    requires leaves != []
    ensures HasPath(leaves, path) <==> leaves[0].path == path || HasPath(leaves[1..], path)
  {
    if HasPath(leaves[1..], path) {
      var k :| 0 <= k < |leaves[1..]| && leaves[1..][k].path == path;
      assert leaves[k + 1].path == path;
    }
    if HasPath(leaves, path) && leaves[0].path != path {
      var k :| 0 <= k < |leaves| && leaves[k].path == path;
      assert leaves[1..][k - 1].path == path;
    }
  }

  // ---------- flattening ----------

  // An option map entry comes from the last leaf with that destination.
  lemma {:induction false} FlattenEntry(leaves: seq<LeafOption>, body: Fields, path: Path) returns (source: Path)
    requires HasPath(leaves, path)
    ensures OptionDest(path) in Flatten(leaves, body)
    ensures HasPath(leaves, source) && OptionDest(source) == OptionDest(path)
    ensures Flatten(leaves, body)[OptionDest(path)] == ToArg(Lookup(body, source))
  {
    hide OptionDest, Lookup;
    var n := |leaves| - 1;
    if OptionDest(leaves[n].path) == OptionDest(path) {
      source := leaves[n].path;
    } else {
      var k :| 0 <= k < |leaves| && leaves[k].path == path;
      assert leaves[..n][k].path == path;
      source := FlattenEntry(leaves[..n], body, path);
      var j :| 0 <= j < n && leaves[..n][j].path == source;
      assert leaves[j].path == source;
    }
  }

  ghost predicate DestinationsDistinct(schema: Schema) {
    forall p, q | IsLeafPath(schema, p) && IsLeafPath(schema, q) && OptionDest(p) == OptionDest(q) :: p == q
  }

  ghost predicate RoundTrips(schema: Schema, body: Fields)
    requires NonEmptyPaths(LeafOptions(schema, []))
  {
    var leaves := LeafOptions(schema, []);
    Assemble(map[], leaves, Flatten(leaves, body)) == Some(body)
  }

  lemma DistinctDestinationsRoundTrip(schema: Schema, body: Fields)
    requires WellFormed(schema) && NonEmptyPaths(LeafOptions(schema, []))
    requires DestinationsDistinct(schema) && Conforms(schema, body)
    ensures RoundTrips(schema, body)
  {
    hide Conforms, Lookup, IsLeafPath, SetPath, OptionDest, LeafOptions, Assemble, Flatten;
    OptionsCoverLeafPaths(schema);
    var leaves := LeafOptions(schema, []);
    var kwargs := Flatten(leaves, body);
    EmptyConforms(schema);
    AllOptionsAreLeaves(schema);
    AssembleSetsGivenLeaves(schema, map[], leaves, kwargs);
    var r := Assemble(map[], leaves, kwargs).value;
    forall path | IsLeafPath(schema, path) ensures Lookup(r, path) == Lookup(body, path) {
      assert HasPath(leaves, path);
      var source := FlattenEntry(leaves, body, path);
      assert IsLeafPath(schema, source) && source == path;
      LookupIsLeafValue(schema, body, path);
      EmptyLookup(path);
      assert ToJson(ToArg(Lookup(body, path))) == Lookup(body, path);
    }
    SameLeavesSameBody(schema, r, body);
  }

  lemma EmptyConforms(schema: Schema)
    ensures Conforms(schema, map[])
  {}

  lemma EmptyLookup(path: Path)
    ensures Lookup(map[], path) == None
  {}

  lemma AllOptionsAreLeaves(schema: Schema)
    requires WellFormed(schema)
    ensures AllLeafPaths(schema, LeafOptions(schema, []))
  {
    OptionsCoverLeafPaths(schema);
    var leaves := LeafOptions(schema, []);
    forall k | 0 <= k < |leaves| ensures IsLeafPath(schema, leaves[k].path) {
      assert HasPath(leaves, leaves[k].path);
    }
  }

  // Two leaves with one destination: a body with only the first of them does not come back.
  lemma SharedDestinationBreaks(schema: Schema, p: Path, q: Path) returns (body: Fields)
    requires WellFormed(schema) && NonEmptyPaths(LeafOptions(schema, []))
    requires IsLeafPath(schema, p) && IsLeafPath(schema, q) && p != q && OptionDest(p) == OptionDest(q)
    ensures Conforms(schema, body) && !RoundTrips(schema, body)
  {
    assert p != [];
    hide Conforms, Lookup, IsLeafPath, SetPath, OptionDest, LeafOptions, Assemble, Flatten;
    var leaves := LeafOptions(schema, []);
    EmptyConforms(schema);
    SetPathSetsLeaf(schema, map[], p, One(Flag(true)));
    body := SetPath(map[], p, One(Flag(true))).value;
    SetPathKeepsOthers(schema, map[], p, q, One(Flag(true)));
    EmptyLookup(p);
    EmptyLookup(q);
    OptionsCoverLeafPaths(schema);
    AllOptionsAreLeaves(schema);
    var kwargs := Flatten(leaves, body);
    AssembleSetsGivenLeaves(schema, map[], leaves, kwargs);
    assert Given(kwargs, p) == Given(kwargs, q);
    var r := Assemble(map[], leaves, kwargs).value;
    assert Lookup(r, p) == Lookup(r, q);
  }

  /** Every body that follows the schema is rebuilt from its options exactly when no two leaves share an option. */
  lemma FlattenThenAssembleIsIdentity(schema: Schema)
    requires WellFormed(schema)
    ensures NonEmptyPaths(LeafOptions(schema, []))
    ensures (forall body | Conforms(schema, body) :: RoundTrips(schema, body)) <==> DestinationsDistinct(schema)
  {
    hide Conforms, RoundTrips, LeafOptions, NonEmptyPaths;
    OptionsCoverLeafPaths(schema);
    if DestinationsDistinct(schema) {
      forall body | Conforms(schema, body) ensures RoundTrips(schema, body) {
        DistinctDestinationsRoundTrip(schema, body);
      }
    } else {
      var p, q :| IsLeafPath(schema, p) && IsLeafPath(schema, q) && OptionDest(p) == OptionDest(q) && p != q;
      var body := SharedDestinationBreaks(schema, p, q);
    }
  }

  // ---------- when options tell leaf paths apart ----------

  // A name that "__" cannot be confused with: no "__" inside it and no "_" at its end.
  predicate CleanName(name: string) {
    && (forall i :: 0 <= i < |name| - 1 ==> !SeparatorAt(name, i))
    && (name != "" ==> name[|name| - 1] != '_')
  }

  predicate SeparatorAt(s: string, i: nat)
    requires i < |s| - 1
  {
    s[i] == '_' && s[i + 1] == '_'
  }

  predicate CleanPath(path: Path) {
    forall i :: 0 <= i < |path| ==> CleanName(path[i])
  }

  // In a joined path the first "__" stands right after the first name.
  lemma FirstSeparator(path: Path)
    requires path != [] && CleanPath(path)
    ensures |path| == 1 ==> forall i :: 0 <= i < |OptionDest(path)| - 1 ==> !SeparatorAt(OptionDest(path), i)
    ensures |path| > 1 ==>
              var d, n := OptionDest(path), |path[0]|;
              && n < |d| - 1 && SeparatorAt(d, n)
              && (forall i :: 0 <= i < n ==> !SeparatorAt(d, i))
              && d[..n] == path[0] && d[n + 2..] == OptionDest(path[1..])
  {
    if |path| > 1 {
      var name, d := path[0], OptionDest(path);
      assert d == name + "__" + OptionDest(path[1..]);
      assert d[..|name|] == name && d[|name| + 2..] == OptionDest(path[1..]);
      forall i | 0 <= i < |name| ensures !SeparatorAt(d, i) {
        assert d[i] == name[i];
        if i < |name| - 1 {
          assert !SeparatorAt(name, i);
          assert d[i + 1] == name[i + 1];
        }
      }
    }
  }

  /** "__".join tells lists of clean names apart. */
  lemma {:induction false} JoinIsInjective(p: Path, q: Path)
    requires p != [] && q != [] && CleanPath(p) && CleanPath(q)
    requires OptionDest(p) == OptionDest(q)
    ensures p == q
    decreases |p|
  {
    FirstSeparator(p);
    FirstSeparator(q);
    var d := OptionDest(p);
    assert |p| > 1 ==> SeparatorAt(d, |p[0]|);
    assert |q| > 1 ==> SeparatorAt(d, |q[0]|);
    assert |p| == 1 <==> |q| == 1;
    if |p| == 1 {
      assert p == [p[0]] && q == [q[0]];
    } else {
      assert |p[0]| == |q[0]|;
      JoinIsInjective(p[1..], q[1..]);
      assert p == [p[0]] + p[1..] && q == [q[0]] + q[1..];
    }
  }

  predicate CleanSchema(schema: Schema) {
    forall i :: 0 <= i < |schema.properties| ==>
                  CleanName(schema.properties[i].name) && CleanSchema(schema.properties[i].schema)
  }

  lemma {:induction false} LeafPathsAreClean(schema: Schema, path: Path)
    requires CleanSchema(schema) && IsLeafPath(schema, path)
    ensures CleanPath(path)
    decreases |path|
  {
    var p := schema.properties[PropertyIndex(schema, path[0]).value];
    assert path == [path[0]] + path[1..];
    if p.schema.Nested() {
      LeafPathsAreClean(p.schema, path[1..]);
    }
  }

  /** A schema whose names are clean round-trips every body that follows it. */
  lemma CleanSchemasRoundTrip(schema: Schema, body: Fields)
    requires WellFormed(schema) && CleanSchema(schema) && Conforms(schema, body)
    ensures NonEmptyPaths(LeafOptions(schema, [])) && RoundTrips(schema, body)
  {
    hide Conforms, CleanSchema, RoundTrips, LeafOptions, NonEmptyPaths, OptionDest, CleanPath;
    forall p, q | IsLeafPath(schema, p) && IsLeafPath(schema, q) && OptionDest(p) == OptionDest(q) ensures p == q {
      LeafPathsAreClean(schema, p);
      LeafPathsAreClean(schema, q);
      JoinIsInjective(p, q);
    }
    FlattenThenAssembleIsIdentity(schema);
  }

  const TEXT_LEAF := Schema(false, [], [])

  // {a_: {b}, a: {_b}}: both leaves become the option destination a___b.
  const COLLIDING_SCHEMA := Schema(true, [], [
    Property("a_", Schema(true, [], [Property("b", TEXT_LEAF)])),
    Property("a", Schema(true, [], [Property("_b", TEXT_LEAF)]))])

  lemma CollidingLeaves()
    ensures WellFormed(COLLIDING_SCHEMA)
    ensures IsLeafPath(COLLIDING_SCHEMA, ["a_", "b"]) && IsLeafPath(COLLIDING_SCHEMA, ["a", "_b"])
  {
    var s := COLLIDING_SCHEMA;
    NamesHaveTheirIndex(s.properties[0].schema, 0);
    NamesHaveTheirIndex(s.properties[1].schema, 0);
    NamesHaveTheirIndex(s, 0);
    NamesHaveTheirIndex(s, 1);
    assert ["a_", "b"][1..] == ["b"];
    assert ["a", "_b"][1..] == ["_b"];
  }

  /** A name ending in "_" is enough to break the round trip. */
  lemma TrailingUnderscoreBreaks() returns (body: Fields)
    ensures NonEmptyPaths(LeafOptions(COLLIDING_SCHEMA, []))
    ensures Conforms(COLLIDING_SCHEMA, body) && !RoundTrips(COLLIDING_SCHEMA, body)
  {
    hide Conforms, RoundTrips, LeafOptions, NonEmptyPaths, IsLeafPath, WellFormed;
    CollidingLeaves();
    assert OptionDest(["a_", "b"]) == "a___b" by { assert ["a_", "b"][1..] == ["b"]; }
    assert OptionDest(["a", "_b"]) == "a___b" by { assert ["a", "_b"][1..] == ["_b"]; }
    OptionsCoverLeafPaths(COLLIDING_SCHEMA);
    body := SharedDestinationBreaks(COLLIDING_SCHEMA, ["a_", "b"], ["a", "_b"]);
  }
}
