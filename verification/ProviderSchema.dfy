/** Contract discovery for a meter driver's OpenAPI document: sparkmeter/config/provider_settings.py. */
module ProviderSchema {
  import opened Wrappers
  import opened Json
  import opened Text

  // ---------- local references ----------

  // A reference token back to its key, by section 4 of RFC 6901: escaped slashes first, then escaped tildes.
  function Unescape(part: string): string {
    ReplaceTilde(ReplaceTilde(part, '1', '/'), '0', '~')
  }

  function ReplaceTilde(s: string, digit: char, replacement: char): string {
    if |s| < 2 then s
    else if s[0] == '~' && s[1] == digit then [replacement] + ReplaceTilde(s[2..], digit, replacement)
    else [s[0]] + ReplaceTilde(s[1..], digit, replacement)
  }

  // Walk down the parts; anything missing, null or not an object on the way is no node.
  function Walk(node: Value, parts: seq<string>): Option<Value>
    decreases |parts|
  {
    if parts == [] then Some(node)
    else if !node.Obj? then None
    else
      var child := Get(node.entries, Unescape(parts[0]));
      if child.None? || child.value.Null? then None else Walk(child.value, parts[1..])
  }

  function ResolveLocalRef(spec: Value, ref: string): Option<Value> {
    if !("#/" <= ref) then None else Walk(spec, Split(ref[2..], '/'))
  }

  // A key as a reference token, by section 4 of RFC 6901.
  function Escape(key: string): string {
    if key == "" then ""
    else
      (if key[0] == '~' then "~0" else if key[0] == '/' then "~1" else [key[0]]) + Escape(key[1..])
  }

  // A key after only its slashes have been unescaped.
  function EscapeTildes(key: string): string {
    if key == "" then "" else (if key[0] == '~' then "~0" else [key[0]]) + EscapeTildes(key[1..])
  }

  lemma {:induction false} SlashesComeBack(key: string)
    ensures ReplaceTilde(Escape(key), '1', '/') == EscapeTildes(key)
  {
    if key != "" {
      SlashesComeBack(key[1..]);
      var e := Escape(key);
      if key[0] == '~' {
        assert e[1..] == "0" + Escape(key[1..]);
        assert e[1..][1..] == Escape(key[1..]) == e[2..];
      } else if key[0] == '/' {
        assert e[2..] == Escape(key[1..]);
      } else {
        assert e[1..] == Escape(key[1..]);
      }
    }
  }

  lemma {:induction false} TildesComeBack(key: string)
    ensures ReplaceTilde(EscapeTildes(key), '0', '~') == key
  {
    if key != "" {
      TildesComeBack(key[1..]);
      var e := EscapeTildes(key);
      if key[0] == '~' {
        assert e[2..] == EscapeTildes(key[1..]);
      } else {
        assert e[1..] == EscapeTildes(key[1..]);
      }
      assert key == [key[0]] + key[1..];
    }
  }

  lemma {:induction false} EscapedHasNoSlash(key: string)
    ensures '/' !in Escape(key)
  {
    if key != "" {
      EscapedHasNoSlash(key[1..]);
    }
  }

  function EscapeAll(keys: seq<string>): (tokens: seq<string>)
    ensures |tokens| == |keys|
    ensures forall i :: 0 <= i < |keys| ==> tokens[i] == Escape(keys[i])
  {
    seq(|keys|, i requires 0 <= i < |keys| => Escape(keys[i]))
  }

  // The value reached through nested objects by their keys.
  function Descend(node: Value, keys: seq<string>): Option<Value>
    decreases |keys|
  {
    if keys == [] then Some(node)
    else if !node.Obj? || !Has(node.entries, keys[0]) || Get(node.entries, keys[0]).value.Null? then None
    else Descend(Get(node.entries, keys[0]).value, keys[1..])
  }

  lemma {:induction false} WalkDescends(node: Value, keys: seq<string>)
    ensures Walk(node, EscapeAll(keys)) == Descend(node, keys)
    decreases |keys|
  {
    if keys != [] {
      SlashesComeBack(keys[0]);
      TildesComeBack(keys[0]);
      assert EscapeAll(keys)[1..] == EscapeAll(keys[1..]);
      if node.Obj? && Has(node.entries, keys[0]) {
        WalkDescends(Get(node.entries, keys[0]).value, keys[1..]);
      }
    }
  }

  /** The pointer written for a list of keys, whatever characters they contain, resolves to what those keys reach. */
  lemma PointerReachesItsKeys(spec: Value, keys: seq<string>)
    requires keys != []
    ensures ResolveLocalRef(spec, "#/" + Join("/", EscapeAll(keys))) == Descend(spec, keys)
  {
    hide Walk, Descend, Escape;
    var tokens := EscapeAll(keys);
    var ref := "#/" + Join("/", tokens);
    assert ref[2..] == Join("/", tokens);
    forall i | 0 <= i < |tokens| ensures '/' !in tokens[i] {
      EscapedHasNoSlash(keys[i]);
    }
    SplitJoin(tokens, '/');
    WalkDescends(spec, keys);
  }

  // ---------- every reference a document contains ----------

  function RefOf(value: Value): Option<Value> {
    if value.Obj? then Get(value.entries, "$ref") else None
  }

  function AllRefs(value: Value): set<string> {
    match value
    case Obj(entries) =>
      (if RefOf(value).Some? && RefOf(value).value.Str? then {RefOf(value).value.s} else {}) + EntryRefs(entries)
    case Arr(items) => ItemRefs(items)
    case _ => {}
  }

  function EntryRefs(entries: Entries): set<string> {
    if entries == [] then {} else AllRefs(entries[0].value) + EntryRefs(entries[1..])
  }

  function ItemRefs(items: seq<Value>): set<string> {
    if items == [] then {} else AllRefs(items[0]) + ItemRefs(items[1..])
  }

  lemma {:induction false} ChildRefs(entries: Entries, key: string)
    requires Get(entries, key).Some?
    ensures AllRefs(Get(entries, key).value) <= EntryRefs(entries)
  {
    if entries[0].key != key {
      ChildRefs(entries[1..], key);
    }
  }

  lemma {:induction false} WalkRefs(node: Value, parts: seq<string>)
    requires Walk(node, parts).Some?
    ensures AllRefs(Walk(node, parts).value) <= AllRefs(node)
    decreases |parts|
  {
    if parts != [] {
      ChildRefs(node.entries, Unescape(parts[0]));
      WalkRefs(Get(node.entries, Unescape(parts[0])).value, parts[1..]);
    }
  }

  // Following a new reference leaves fewer references to follow.
  lemma FollowingDecreases(spec: Value, schema: Value, ref: string, seen: set<string>)
    requires RefOf(schema) == Some(Str(ref)) && ref !in seen && ResolveLocalRef(spec, ref).Some?
    ensures AllRefs(spec) + AllRefs(ResolveLocalRef(spec, ref).value) - (seen + {ref})
            < AllRefs(spec) + AllRefs(schema) - seen
  {
    WalkRefs(spec, Split(ref[2..], '/'));
    assert ref in AllRefs(spec) + AllRefs(schema) - seen;
  }

  // ---------- following $ref chains ----------

  // Stops at the first reference already seen; anything but a $ref-free object is an empty schema.
  function Resolve(spec: Value, schema: Value, seen: set<string>): (r: Entries)
    ensures !Has(r, "$ref")
    decreases AllRefs(spec) + AllRefs(schema) - seen
  {
    var ref := RefOf(schema);
    if ref.None? then (if schema.Obj? then schema.entries else [])
    else if !ref.value.Str? || ref.value.s in seen then []
    else
      var next := ResolveLocalRef(spec, ref.value.s);
      if next.None? then []
      else
        FollowingDecreases(spec, schema, ref.value.s, seen);
        Resolve(spec, next.value, seen + {ref.value.s})
  }

  method ResolveSchema(spec: Value, schema: Value) returns (resolved: Entries)
    ensures resolved == Resolve(spec, schema, {})
    ensures !Has(resolved, "$ref")
  {
    var seen: set<string> := {};
    var current := schema;
    while current.Obj? && Has(current.entries, "$ref")
      invariant Resolve(spec, current, seen) == Resolve(spec, schema, {})
      decreases AllRefs(spec) + AllRefs(current) - seen
    {
      var ref := Get(current.entries, "$ref").value;
      if !ref.Str? || ref.s in seen {
        return [];
      }
      var next := ResolveLocalRef(spec, ref.s);
      if next.None? {
        return [];
      }
      FollowingDecreases(spec, current, ref.s, seen);
      seen := seen + {ref.s};
      current := next.value;
    }
    return if current.Obj? then current.entries else [];
  }

  // The n-th schema of the chain that starts at `schema`, if the chain gets that far.
  function Chain(spec: Value, schema: Value, n: nat): Option<Value>
    decreases n
  {
    if n == 0 then Some(schema)
    else
      var ref := RefOf(schema);
      if ref.None? || !ref.value.Str? then None
      else
        var next := ResolveLocalRef(spec, ref.value.s);
        if next.None? then None else Chain(spec, next.value, n - 1)
  }

  predicate Final(value: Value) {
    value.Obj? && RefOf(value).None?
  }

  predicate Reaches(spec: Value, schema: Value, n: nat) {
    Chain(spec, schema, n).Some? && Final(Chain(spec, schema, n).value)
  }

  lemma {:induction false} ChainAppend(spec: Value, schema: Value, i: nat, k: nat)
    requires Chain(spec, schema, i).Some?
    ensures Chain(spec, schema, i + k) == Chain(spec, Chain(spec, schema, i).value, k)
    decreases i
  {
    hide ResolveLocalRef, RefOf;
    if i > 0 {
      var next := ResolveLocalRef(spec, RefOf(schema).value.s).value;
      ChainAppend(spec, next, i - 1, k);
    }
  }

  lemma {:induction false} EndIsUnique(spec: Value, schema: Value, n: nat, m: nat)
    requires Reaches(spec, schema, n) && Reaches(spec, schema, m)
    ensures n == m
    decreases n
  {
    hide ResolveLocalRef, RefOf;
    if n > 0 && m > 0 {
      EndIsUnique(spec, ResolveLocalRef(spec, RefOf(schema).value.s).value, n - 1, m - 1);
    }
  }

  // The reference followed at step k of a chain.
  function RefAt(spec: Value, schema: Value, k: nat): Option<string> {
    var at := Chain(spec, schema, k);
    if at.Some? && RefOf(at.value).Some? && RefOf(at.value).value.Str? then Some(RefOf(at.value).value.s) else None
  }

  lemma {:induction false} ChainPrefix(spec: Value, schema: Value, i: nat, n: nat)
    requires i <= n && Chain(spec, schema, n).Some?
    ensures Chain(spec, schema, i).Some?
    decreases n
  {
    hide ResolveLocalRef, RefOf;
    if i > 0 {
      ChainPrefix(spec, ResolveLocalRef(spec, RefOf(schema).value.s).value, i - 1, n - 1);
    }
  }

  lemma RefsBeforeTheEnd(spec: Value, schema: Value, n: nat, k: nat)
    requires Reaches(spec, schema, n) && k < n
    ensures RefAt(spec, schema, k).Some?
    ensures Chain(spec, schema, k + 1) == ResolveLocalRef(spec, RefAt(spec, schema, k).value)
  {
    hide ResolveLocalRef, RefOf;
    ChainPrefix(spec, schema, k, n);
    ChainPrefix(spec, schema, k + 1, n);
    ChainAppend(spec, schema, k, 1);
    var at := Chain(spec, schema, k).value;
    assert Chain(spec, at, 1).Some?;
    assert Chain(spec, at, 1) == ResolveLocalRef(spec, RefOf(at).value.s);
  }

  // On a chain that ends, its first reference is never followed again.
  lemma FirstRefDoesNotRepeat(spec: Value, schema: Value, n: nat, k: nat)
    requires Reaches(spec, schema, n) && 0 < k < n
    ensures RefAt(spec, schema, k) != RefAt(spec, schema, 0)
  {
    hide ResolveLocalRef, RefOf;
    RefsBeforeTheEnd(spec, schema, n, 0);
    RefsBeforeTheEnd(spec, schema, n, k);
    if RefAt(spec, schema, k) == RefAt(spec, schema, 0) {
      var next := Chain(spec, schema, 1).value;
      ChainAppend(spec, schema, 1, n - 1);
      ChainAppend(spec, schema, k + 1, n - (k + 1));
      EndIsUnique(spec, next, n - 1, n - (k + 1));
    }
  }

  lemma {:induction false} ResolveReachesEnd(spec: Value, schema: Value, n: nat, seen: set<string>)
    requires Reaches(spec, schema, n)
    requires forall k: nat | k < n :: RefAt(spec, schema, k).Some? && RefAt(spec, schema, k).value !in seen
    ensures Resolve(spec, schema, seen) == Chain(spec, schema, n).value.entries
    decreases n
  {
    hide ResolveLocalRef, RefOf, AllRefs;
    if n > 0 {
      RefsBeforeTheEnd(spec, schema, n, 0);
      var ref := RefAt(spec, schema, 0).value;
      var next := Chain(spec, schema, 1).value;
      ChainAppend(spec, schema, 1, n - 1);
      forall k: nat | k < n - 1
        ensures RefAt(spec, next, k).Some? && RefAt(spec, next, k).value !in seen + {ref}
      {
        FirstRefDoesNotRepeat(spec, schema, n, k + 1);
        ChainAppend(spec, schema, 1, k);
        assert RefAt(spec, next, k) == RefAt(spec, schema, k + 1);
      }
      ResolveReachesEnd(spec, next, n - 1, seen + {ref});
    }
  }

  lemma {:induction false} NonEmptyResolveReaches(spec: Value, schema: Value, seen: set<string>) returns (n: nat)
    requires Resolve(spec, schema, seen) != []
    ensures Reaches(spec, schema, n)
    decreases AllRefs(spec) + AllRefs(schema) - seen
  {
    hide ResolveLocalRef, AllRefs;
    var ref := RefOf(schema);
    if ref.None? {
      n := 0;
    } else {
      var next := ResolveLocalRef(spec, ref.value.s).value;
      FollowingDecreases(spec, schema, ref.value.s, seen);
      n := NonEmptyResolveReaches(spec, next, seen + {ref.value.s});
      n := n + 1;
    }
  }

  /**
   * Stopping at the first repeated reference loses nothing: a schema resolves to the $ref-free object its chain ends
   * in, however long the chain, and to the empty schema exactly when there is no such end or that end is empty.
   */
  lemma ResolveIsTheEndOfTheChain(spec: Value, schema: Value)
    ensures forall n: nat | Reaches(spec, schema, n) ::
              Resolve(spec, schema, {}) == Chain(spec, schema, n).value.entries
    ensures (forall n: nat :: !Reaches(spec, schema, n)) ==> Resolve(spec, schema, {}) == []
  {
    forall n: nat | Reaches(spec, schema, n)
      ensures Resolve(spec, schema, {}) == Chain(spec, schema, n).value.entries
    {
      forall k: nat | k < n ensures RefAt(spec, schema, k).Some? {
        RefsBeforeTheEnd(spec, schema, n, k);
      }
      ResolveReachesEnd(spec, schema, n, {});
    }
    if Resolve(spec, schema, {}) != [] {
      var n := NonEmptyResolveReaches(spec, schema, {});
    }
  }
}
