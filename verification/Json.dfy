/** JSON documents, with objects as ordered lists of entries as Python dictionaries keep them. */
module Json {
  import opened Wrappers

  datatype Entry = Entry(key: string, value: Value)

  datatype Value =
    | Null
    | Bool(b: bool)
    | Int(i: int)
    | Float(r: real)
    | Str(s: string)
    | Arr(items: seq<Value>)
    | Obj(entries: seq<Entry>)

  type Entries = seq<Entry>

  // dict.get(key)
  function Get(entries: Entries, key: string): (r: Option<Value>)
    ensures r.Some? ==> exists i :: 0 <= i < |entries| && entries[i] == Entry(key, r.value)
    ensures r.None? <==> forall i :: 0 <= i < |entries| ==> entries[i].key != key
  {
    if entries == [] then None
    else if entries[0].key == key then Some(entries[0].value)
    else Get(entries[1..], key)
  }

  predicate Has(entries: Entries, key: string) {
    Get(entries, key).Some?
  }

  lemma {:induction false} GetAppend(entries: Entries, e: Entry, key: string)
    ensures Get(entries + [e], key)
            == if Has(entries, key) then Get(entries, key) else if e.key == key then Some(e.value) else None
  {
    if entries == [] {
      assert entries + [e] == [e];
    } else {
      assert (entries + [e])[1..] == entries[1..] + [e];
      if entries[0].key != key {
        GetAppend(entries[1..], e, key);
      }
    }
  }

  // d[key] = value: an existing key keeps its position, a new one goes to the end.
  function Put(entries: Entries, key: string, value: Value): (r: Entries)
    ensures Get(r, key) == Some(value)
    ensures forall k :: k != key ==> Get(r, k) == Get(entries, k)
  {
    if entries == [] then [Entry(key, value)]
    else if entries[0].key == key then [Entry(key, value)] + entries[1..]
    else [entries[0]] + Put(entries[1..], key, value)
  }

  // {k: v for k, v in d.items() if k != key}
  function Without(entries: Entries, key: string): (r: Entries)
    ensures !Has(r, key)
    ensures forall k :: k != key ==> Get(r, k) == Get(entries, k)
  {
    if entries == [] then []
    else
      var rest := Without(entries[1..], key);
      if entries[0].key == key then rest
      else
        assert ([entries[0]] + rest)[1..] == rest;
        [entries[0]] + rest
  }

  // d.update(more)
  function Update(entries: Entries, more: Entries): Entries
    decreases |more|
  {
    if more == [] then entries else Update(Put(entries, more[0].key, more[0].value), more[1..])
  }

  function Keys(entries: Entries): seq<string> {
    if entries == [] then [] else [entries[0].key] + Keys(entries[1..])
  }

  // An object's entries, and nothing for any other value.
  function EntriesOf(value: Option<Value>): Entries {
    if value.Some? && value.value.Obj? then value.value.entries else []
  }

  // bool(value)
  predicate Truthy(value: Value) {
    match value
    case Null => false
    case Bool(b) => b
    case Int(i) => i != 0
    case Float(r) => r != 0.0
    case Str(s) => s != ""
    case Arr(items) => items != []
    case Obj(entries) => entries != []
  }

  // Missing, null, false, zero or empty.
  predicate Falsy(value: Option<Value>) {
    value in {None, Some(Null), Some(Bool(false)), Some(Int(0)), Some(Float(0.0)), Some(Str("")), Some(Arr([])),
              Some(Obj([]))}
  }

  lemma FalsyIsNotTruthy(value: Option<Value>)
    ensures Falsy(value) <==> value.None? || !Truthy(value.value)
  {}

  // ---------- text ----------

  predicate IsSpace(c: char) {
    c in {' ', '\t', '\n', '\r', '\U{000B}', '\U{000C}'}
  }

  function StripLeft(s: string): (r: string)
    ensures r == "" || !IsSpace(r[0])
    ensures |r| <= |s|
    ensures s == "" || !IsSpace(s[0]) ==> r == s
  {
    if s != "" && IsSpace(s[0]) then StripLeft(s[1..]) else s
  }

  function StripRight(s: string): (r: string)
    ensures r == "" || !IsSpace(r[|r| - 1])
    ensures r <= s
    ensures s == "" || !IsSpace(s[|s| - 1]) ==> r == s
  {
    if s != "" && IsSpace(s[|s| - 1]) then StripRight(s[..|s| - 1]) else s
  }

  // str.strip()
  function Strip(s: string): (r: string)
    ensures Stripped(r)
    ensures Stripped(s) ==> r == s
  {
    StripRight(StripLeft(s))
  }

  /** Only white space at the ends is stripped. */
  lemma StripDropsOuterSpace(s: string) returns (i: nat, j: nat)
    ensures i <= j <= |s| && Strip(s) == s[i..j]
    ensures forall k :: (0 <= k < i || j <= k < |s|) ==> s[k] in {' ', '\t', '\n', '\r', '\U{000B}', '\U{000C}'}
    ensures i < j ==> s[i] !in {' ', '\t', '\n', '\r', '\U{000B}', '\U{000C}'}
    ensures i < j ==> s[j - 1] !in {' ', '\t', '\n', '\r', '\U{000B}', '\U{000C}'}
  {
    i := LeftEnd(s);
    var left := StripLeft(s);
    var n := RightEnd(left);
    j := i + n;
    forall k | j <= k < |s| ensures IsSpace(s[k]) {
      assert s[k] == left[k - i];
    }
  }

  lemma {:induction false} LeftEnd(s: string) returns (i: nat)
    ensures i <= |s| && StripLeft(s) == s[i..] && forall k :: 0 <= k < i ==> IsSpace(s[k])
  {
    i := 0;
    if s != "" && IsSpace(s[0]) {
      var n := LeftEnd(s[1..]);
      assert forall k :: 0 < k < n + 1 ==> s[k] == s[1..][k - 1];
      i := n + 1;
    }
  }

  lemma {:induction false} RightEnd(s: string) returns (j: nat)
    ensures j <= |s| && StripRight(s) == s[..j] && forall k :: j <= k < |s| ==> IsSpace(s[k])
  {
    j := |s|;
    if s != "" && IsSpace(s[|s| - 1]) {
      j := RightEnd(s[..|s| - 1]);
      assert s[..|s| - 1][..j] == s[..j];
    }
  }

  predicate Stripped(s: string) {
    s == "" || (!IsSpace(s[0]) && !IsSpace(s[|s| - 1]))
  }

  function LowerChar(c: char): char {
    if 'A' <= c <= 'Z' then (c as int + 32) as char else c
  }

  // str.lower()
  function Lower(s: string): (r: string)
    ensures |r| == |s|
    ensures forall i :: 0 <= i < |s| ==> r[i] == if 'A' <= s[i] <= 'Z' then (s[i] as int + 32) as char else s[i]
  {
    if s == "" then "" else [LowerChar(s[0])] + Lower(s[1..])
  }
}
