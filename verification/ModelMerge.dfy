/** Merging a site's current limits into the default meter models, in place: sparkmeter/meter/meterutils.py. */
module ModelMerge {
  import opened Wrappers

  // A model's dictionary entries. Identifiers are given or derived from a name by as_uuid.
  datatype Id = Given(id: int) | UuidOf(name: string)

  datatype Row = Row(name: string, id: Id, inrushLimit: real, attributes: int)

  // ---------- model names ----------

  predicate IsDigit(c: char) { '0' <= c <= '9' }

  predicate IsWordChar(c: char) {
    IsDigit(c) || 'a' <= c <= 'z' || 'A' <= c <= 'Z' || c == '_'
  }

  predicate IsWord(s: string) {
    forall i :: 0 <= i < |s| ==> IsWordChar(s[i])
  }

  predicate IsXVariant(name: string) {
    'X' in name
  }

  // The end of the longest run of characters from `i` on that satisfy the test.
  function RunEnd(s: string, i: nat, test: char -> bool): (e: nat)
    requires i <= |s|
    ensures i <= e <= |s|
    ensures forall j :: i <= j < e ==> test(s[j])
    ensures e < |s| ==> !test(s[e])
    decreases |s| - i
  {
    if i < |s| && test(s[i]) then RunEnd(s, i + 1, test) else i
  }

  // Where the designator starts in a name of an SM series: after all digits that leave it one character.
  function SeriesEnd(name: string): Option<nat> {
    if !("SM" <= name) then None
    else
      var e := RunEnd(name, 2, IsDigit);
      if e == 2 then None
      else if e < |name| && IsWordChar(name[e]) then Some(e)
      else if e > 3 then Some(e - 1)
      else None
  }

  datatype NameError = AlreadyXVariant | UnknownModel

  type NameResult = Result<string, NameError>

  function GetXVariantName(name: string): NameResult {
    if IsXVariant(name) then Err(AlreadyXVariant)
    else
      match SeriesEnd(name)
      case None => Err(UnknownModel)
      case Some(k) => Ok(name[..k] + "X" + name[k..RunEnd(name, k, IsWordChar)])
  }

  function RemoveX(s: string): string {
    if s == "" then "" else (if s[0] == 'X' then "" else [s[0]]) + RemoveX(s[1..])
  }

  lemma {:induction false} RemoveXAppend(a: string, b: string)
    ensures RemoveX(a + b) == RemoveX(a) + RemoveX(b)
  {
    if a == "" {
      assert a + b == b;
    } else {
      assert (a + b)[1..] == a[1..] + b;
      RemoveXAppend(a[1..], b);
    }
  }

  lemma {:induction false} RemoveXOfOther(s: string)
    requires !IsXVariant(s)
    ensures RemoveX(s) == s
  {
    if s != "" {
      assert !IsXVariant(s[1..]);
      RemoveXOfOther(s[1..]);
    }
  }

  lemma InsertedXIsRemoved(name: string, k: nat)
    requires !IsXVariant(name) && k <= |name|
    ensures RemoveX(name[..k] + "X" + name[k..]) == name
  {
    hide RemoveX;
    RemoveXAppend(name[..k] + "X", name[k..]);
    RemoveXAppend(name[..k], "X");
    RemoveXOfX();
    RemoveXAppend(name[..k], name[k..]);
    assert name[..k] + name[k..] == name;
    RemoveXOfOther(name);
  }

  lemma RemoveXOfX()
    ensures RemoveX("X") == ""
  {}

  /** The X variant of a model is an X model, and dropping the X gives the model's own name back. */
  lemma VariantDeterminesModel(name: string)
    requires IsWord(name) && GetXVariantName(name).Ok?
    ensures IsXVariant(GetXVariantName(name).value)
    ensures RemoveX(GetXVariantName(name).value) == name
  {
    hide SeriesEnd, RunEnd, RemoveX;
    var k := SeriesEnd(name).value;
    InsertedXIsRemoved(name, k);
    assert RunEnd(name, k, IsWordChar) == |name|;
    assert name[k..|name|] == name[k..];
    assert (name[..k] + "X" + name[k..])[k] == 'X';
  }

  // Where a variant's X goes: after the series, "SM" and all digits but those the designator needs.
  predicate IsSeriesEnd(name: string, k: nat) {
    && 3 <= k < |name| && name[..2] == "SM"
    && (forall j :: 2 <= j < k ==> IsDigit(name[j]))
    && (k < |name| - 1 ==> !IsDigit(name[k]))
  }

  /** The variant's name puts an X between the series and the designator. */
  lemma VariantPutsXAfterSeries(name: string) returns (k: nat)
    requires IsWord(name) && GetXVariantName(name).Ok?
    ensures IsSeriesEnd(name, k)
    ensures GetXVariantName(name).value == name[..k] + "X" + name[k..]
  {
    k := SeriesEnd(name).value;
    var e := RunEnd(name, k, IsWordChar);
    assert e == |name| && name[k..e] == name[k..];
  }

  /** A model has a variant's name exactly when it is no X model and begins with SM, a digit and a word character. */
  lemma NameableModels(name: string)
    ensures GetXVariantName(name).Ok? <==>
            && 'X' !in name && |name| >= 4 && name[..2] == "SM" && IsDigit(name[2]) && IsWordChar(name[3])
    ensures GetXVariantName(name) == Err(AlreadyXVariant) <==> 'X' in name
  {}

  // ---------- the merged limits ----------

  type Limits = map<string, real>

  predicate ConfiguredHigher(d: Row, limits: Limits) {
    d.name in limits && limits[d.name] > d.inrushLimit
  }

  // The model whose limit a default model's configuration raises: itself, or its X variant.
  function Target(d: Row): NameResult {
    if IsXVariant(d.name) then Ok(d.name) else GetXVariantName(d.name)
  }

  predicate RaisesTo(d: Row, limits: Limits, name: string) {
    ConfiguredHigher(d, limits) && Target(d) == Ok(name)
  }

  predicate DistinctNames(defaults: seq<Row>) {
    forall i, j :: 0 <= i < j < |defaults| ==> defaults[i].name != defaults[j].name
  }

  predicate IsDefault(defaults: seq<Row>, name: string) {
    exists i :: 0 <= i < |defaults| && defaults[i].name == name
  }

  // The limit of a name after the first `n` default models have been looked at; None while there is no such model.
  function MergedLimit(defaults: seq<Row>, limits: Limits, name: string, n: nat): Option<real>
    requires n <= |defaults|
  {
    if n == 0 then DefaultLimit(defaults, name)
    else
      var before := MergedLimit(defaults, limits, name, n - 1);
      if RaisesTo(defaults[n - 1], limits, name) then
        var configured := limits[defaults[n - 1].name];
        Some(if before.Some? && before.value >= configured then before.value else configured)
      else before
  }

  function DefaultLimit(defaults: seq<Row>, name: string): Option<real> {
    if defaults == [] then None
    else if defaults[0].name == name then Some(defaults[0].inrushLimit)
    else DefaultLimit(defaults[1..], name)
  }

  lemma {:induction false} DefaultLimitAt(defaults: seq<Row>, i: nat)
    requires DistinctNames(defaults) && i < |defaults|
    ensures DefaultLimit(defaults, defaults[i].name) == Some(defaults[i].inrushLimit)
  {
    if i > 0 {
      DefaultLimitAt(defaults[1..], i - 1);
    }
  }

  lemma {:induction false} DefaultLimitNone(defaults: seq<Row>, name: string)
    ensures DefaultLimit(defaults, name).None? <==> !IsDefault(defaults, name)
  {
    if defaults != [] {
      DefaultLimitNone(defaults[1..], name);
      assert forall i :: 1 <= i < |defaults| ==> defaults[i] == defaults[1..][i - 1];
    }
  }

  // ---------- the mutable models ----------

  class Model {
    const name: string
    const id: Id
    const attributes: int
    var inrushLimit: real

    constructor (row: Row)
      ensures View() == row
    {
      name := row.name;
      id := row.id;
      attributes := row.attributes;
      inrushLimit := row.inrushLimit;
    }

    function View(): Row
      reads this
    {
      Row(name, id, inrushLimit, attributes)
    }
  }

  class ModelMapper {
    var models: map<string, Model>

    constructor (models: seq<Model>)
      requires forall i, j :: 0 <= i < j < |models| ==> models[i].name != models[j].name
      ensures forall i :: 0 <= i < |models| ==>
                            models[i].name in this.models && this.models[models[i].name] == models[i]
      ensures forall n :: n in this.models ==> exists i :: 0 <= i < |models| && models[i].name == n
    {
      var m: map<string, Model> := map[];
      for k := 0 to |models|
        invariant forall i :: 0 <= i < k ==> models[i].name in m && m[models[i].name] == models[i]
        invariant forall n :: n in m ==> exists i :: 0 <= i < k && models[i].name == n
      {
        m := m[models[k].name := models[k]];
      }
      this.models := m;
    }

    // None is the MeterError for an unrecognized model.
    method GetModel(name: string) returns (model: Option<Model>)
      ensures model == if name in models then Some(models[name]) else None
    {
      if name !in models { return None; }
      return Some(models[name]);
    }

    // None is a MeterError: not a known series, or no such variant. Callers ask about models that are not X variants.
    method GetXModel(name: string) returns (model: Option<Model>)
      requires !IsXVariant(name)
      ensures model == match GetXVariantName(name)
                       case Ok(variant) => if variant in models then Some(models[variant]) else None
                       case Err(_) => None
    {
      match GetXVariantName(name) {
        case Ok(variant) => model := GetModel(variant);
        case Err(_) => return None;
      }
    }

    method UpdateModel(model: Model)
      requires model.name in models
      modifies this
      ensures models == old(models)[model.name := model]
    {
      models := models[model.name := model];
    }

    method AddModel(model: Model)
      requires model.name !in models
      modifies this
      ensures models == old(models)[model.name := model]
    {
      models := models[model.name := model];
    }
  }

  lemma VariantIsX(d: Row, name: string)
    requires Target(d) == Ok(name)
    ensures IsXVariant(name)
  {
    if !IsXVariant(d.name) {
      var k := SeriesEnd(d.name).value;
      assert name[k] == 'X';
    }
  }

  lemma {:induction false} OtherModelsKeepTheirLimit(defaults: seq<Row>, limits: Limits, name: string, n: nat)
    requires n <= |defaults| && !IsXVariant(name)
    ensures MergedLimit(defaults, limits, name, n) == DefaultLimit(defaults, name)
  {
    if n > 0 {
      OtherModelsKeepTheirLimit(defaults, limits, name, n - 1);
      if RaisesTo(defaults[n - 1], limits, name) {
        VariantIsX(defaults[n - 1], name);
      }
    }
  }

  lemma {:induction false} LimitsOnlyRise(defaults: seq<Row>, limits: Limits, name: string, m: nat, n: nat)
    requires m <= n <= |defaults| && MergedLimit(defaults, limits, name, m).Some?
    ensures MergedLimit(defaults, limits, name, n).Some?
    ensures MergedLimit(defaults, limits, name, m).value <= MergedLimit(defaults, limits, name, n).value
  {
    if m < n {
      LimitsOnlyRise(defaults, limits, name, m, n - 1);
    }
  }

  // ---------- one step of the merge, on rows ----------

  type Rows = map<string, Row>

  // What the loop body does for one default model; None is the MeterError that propagates.
  function MergeStep(rows: Rows, name: string, limits: Limits): Option<Rows>
    requires name in rows
  {
    var row := rows[name];
    if !(name in limits && limits[name] > row.inrushLimit) then Some(rows)
    else if IsXVariant(name) then Some(rows[name := row.(inrushLimit := limits[name])])
    else
      match GetXVariantName(name)
      case Err(_) => None
      case Ok(x) =>
        if x !in rows then Some(rows[x := Row(x, UuidOf(x), limits[name], row.attributes)])
        else if limits[name] > rows[x].inrushLimit then Some(rows[x := rows[x].(inrushLimit := limits[name])])
        else Some(rows)
  }

  // An added model is a copy of the default model that asked for it, under the variant's name and identifier.
  predicate AddedVariant(defaults: seq<Row>, limits: Limits, name: string, n: nat, row: Row)
    requires n <= |defaults|
  {
    exists j :: 0 <= j < n && RaisesTo(defaults[j], limits, name) && !IsXVariant(defaults[j].name)
                && row.id == UuidOf(name) && row.attributes == defaults[j].attributes
  }

  // After `n` models the rows hold exactly the merged limits.
  ghost predicate Merged(defaults: seq<Row>, limits: Limits, n: nat, rows: Rows)
    requires n <= |defaults|
  {
    && (forall name :: name in rows <==> MergedLimit(defaults, limits, name, n).Some?)
    && (forall name <- rows ::
          rows[name].name == name && rows[name].inrushLimit == MergedLimit(defaults, limits, name, n).value)
    && (forall j :: 0 <= j < |defaults| ==>
          var d := defaults[j];
          d.name in rows && rows[d.name].id == d.id && rows[d.name].attributes == d.attributes)
    && (forall name <- rows :: !IsDefault(defaults, name) ==> AddedVariant(defaults, limits, name, n, rows[name]))
  }

  lemma {:induction false} MergeStepKeepsMerged(defaults: seq<Row>, limits: Limits, n: nat, rows: Rows)
    requires n < |defaults| && DistinctNames(defaults) && Merged(defaults, limits, n, rows)
    ensures MergeStep(rows, defaults[n].name, limits).None?
            <==> ConfiguredHigher(defaults[n], limits) && !Target(defaults[n]).Ok?
    ensures MergeStep(rows, defaults[n].name, limits).Some?
            ==> Merged(defaults, limits, n + 1, MergeStep(rows, defaults[n].name, limits).value)
  {
    hide GetXVariantName, DefaultLimit, IsDefault;
    var d := defaults[n];
    DefaultLimitAt(defaults, n);
    LimitsOnlyRise(defaults, limits, d.name, 0, n);
    if !IsXVariant(d.name) {
      OtherModelsKeepTheirLimit(defaults, limits, d.name, n);
    }
    var step := MergeStep(rows, d.name, limits);
    if step.Some? {
      var after := step.value;
      forall name ensures name in after <==> MergedLimit(defaults, limits, name, n + 1).Some? {}
      forall name <- after
        ensures after[name].name == name
        ensures after[name].inrushLimit == MergedLimit(defaults, limits, name, n + 1).value {}
      forall name <- after | !IsDefault(defaults, name)
        ensures AddedVariant(defaults, limits, name, n + 1, after[name])
      {
        if name in rows {
          assert AddedVariant(defaults, limits, name, n, rows[name]);
        }
      }
    }
  }

  // ---------- the merge in place ----------

  ghost function View(mapper: ModelMapper): Rows
    reads mapper, mapper.models.Values
  {
    map name | name in mapper.models :: mapper.models[name].View()
  }

  // The loop's list and the mapper share their model objects.
  ghost predicate Shared(models: seq<Model>, mapper: ModelMapper)
    reads mapper, mapper.models.Values
  {
    && (forall j :: 0 <= j < |models| ==> models[j].name in mapper.models && mapper.models[models[j].name] == models[j])
    && (forall name <- mapper.models :: mapper.models[name].name == name)
  }

  /** The loop body: it changes only the mapper, and there exactly what the step says. */
  method MergeModel(model: Model, limits: Limits, models: seq<Model>, mapper: ModelMapper) returns (failed: bool)
    requires Shared(models, mapper) && model in models
    modifies mapper, mapper.models.Values
    ensures failed <==> MergeStep(old(View(mapper)), model.name, limits).None?
    ensures !failed ==> View(mapper) == MergeStep(old(View(mapper)), model.name, limits).value
    ensures !failed ==> Shared(models, mapper)
    ensures forall name <- mapper.models ::
              mapper.models[name] in old(mapper.models.Values) || fresh(mapper.models[name])
  {
    hide SeriesEnd, GetXVariantName;
    assert old(View(mapper))[model.name] == model.View();
    if model.name in limits {
      if limits[model.name] > model.inrushLimit {
        if IsXVariant(model.name) {
          model.inrushLimit := limits[model.name];
        } else {
          var variant := mapper.GetXModel(model.name);
          if variant.Some? {
            if limits[model.name] > variant.value.inrushLimit {
              variant.value.inrushLimit := limits[model.name];
              mapper.UpdateModel(variant.value);
            }
          } else {
            match GetXVariantName(model.name) {
              case Err(_) => return true;
              case Ok(name) =>
                var added := new Model(Row(name, UuidOf(name), limits[model.name], model.attributes));
                mapper.AddModel(added);
            }
          }
        }
      }
    }
    return false;
  }

  lemma DefaultsAreMerged(defaults: seq<Row>, limits: Limits, rows: Rows)
    requires DistinctNames(defaults)
    requires forall j :: 0 <= j < |defaults| ==> defaults[j].name in rows && rows[defaults[j].name] == defaults[j]
    requires forall name <- rows :: IsDefault(defaults, name)
    ensures Merged(defaults, limits, 0, rows)
  {
    forall name
      ensures name in rows <==> DefaultLimit(defaults, name).Some?
      ensures name in rows ==> rows[name].name == name && rows[name].inrushLimit == DefaultLimit(defaults, name).value
    {
      DefaultLimitNone(defaults, name);
      if name in rows {
        var j :| 0 <= j < |defaults| && defaults[j].name == name;
        DefaultLimitAt(defaults, j);
      }
    }
  }

  predicate Nameable(defaults: seq<Row>, limits: Limits) {
    forall j :: 0 <= j < |defaults| && ConfiguredHigher(defaults[j], limits) ==> Target(defaults[j]).Ok?
  }

  method CopyModels(defaults: seq<Row>) returns (models: seq<Model>)
    ensures |models| == |defaults|
    ensures forall j :: 0 <= j < |models| ==> fresh(models[j]) && models[j].View() == defaults[j]
  {
    models := [];
    for k := 0 to |defaults|
      invariant |models| == k
      invariant forall j :: 0 <= j < k ==> fresh(models[j]) && models[j].View() == defaults[j]
    {
      var model := new Model(defaults[k]);
      models := models + [model];
    }
  }

  method LoadModels(defaults: seq<Row>, ghost limits: Limits) returns (models: seq<Model>, mapper: ModelMapper)
    requires DistinctNames(defaults)
    ensures fresh(mapper) && forall name <- mapper.models :: fresh(mapper.models[name])
    ensures |models| == |defaults| && forall j :: 0 <= j < |models| ==> models[j].name == defaults[j].name
    ensures Shared(models, mapper) && Merged(defaults, limits, 0, View(mapper))
  {
    hide Merged;
    models := CopyModels(defaults);
    assert forall j :: 0 <= j < |models| ==> models[j].name == models[j].View().name == defaults[j].name;
    mapper := new ModelMapper(models);
    DefaultsAreMerged(defaults, limits, View(mapper));
  }

  /** The merged models; None when a model that must become a variant is not of a known series. */
  method MergeLocalMeterModels(defaults: seq<Row>, limits: Limits) returns (merged: Option<Rows>)
    requires DistinctNames(defaults)
    ensures merged.Some? <==> Nameable(defaults, limits)
    ensures merged.Some? ==> Merged(defaults, limits, |defaults|, merged.value)
  {
    hide Merged, MergeStep, Target, Shared;
    var models, mapper := LoadModels(defaults, limits);
    for k := 0 to |models|
      invariant fresh(mapper) && forall name <- mapper.models :: fresh(mapper.models[name])
      invariant Shared(models, mapper)
      invariant Merged(defaults, limits, k, View(mapper))
      invariant forall j :: 0 <= j < k && ConfiguredHigher(defaults[j], limits) ==> Target(defaults[j]).Ok?
    {
      MergeStepKeepsMerged(defaults, limits, k, View(mapper));
      var failed := MergeModel(models[k], limits, models, mapper);
      if failed {
        return None;
      }
    }
    return Some(map name | name in mapper.models :: mapper.models[name].View());
  }

  // ---------- what the merge promises ----------

  /**
   * Every default model stays, with its identifier and attributes and no lower limit; models that are not X variants
   * are unchanged.
   */
  lemma DefaultsSurvive(defaults: seq<Row>, limits: Limits, rows: Rows, i: nat)
    requires DistinctNames(defaults) && Merged(defaults, limits, |defaults|, rows) && i < |defaults|
    ensures
      var d := defaults[i];
      && d.name in rows
      && rows[d.name].id == d.id && rows[d.name].attributes == d.attributes
      && rows[d.name].inrushLimit >= d.inrushLimit
      && (!IsXVariant(d.name) ==> rows[d.name] == d)
  {
    var d := defaults[i];
    DefaultLimitAt(defaults, i);
    LimitsOnlyRise(defaults, limits, d.name, 0, |defaults|);
    if !IsXVariant(d.name) {
      OtherModelsKeepTheirLimit(defaults, limits, d.name, |defaults|);
    }
  }

  /** A model configured above its default ends with at least the configured limit, on itself or on its X variant. */
  lemma ConfiguredLimitsAreMet(defaults: seq<Row>, limits: Limits, rows: Rows, i: nat)
    requires DistinctNames(defaults) && Nameable(defaults, limits) && Merged(defaults, limits, |defaults|, rows)
    requires i < |defaults|
    requires defaults[i].name in limits && limits[defaults[i].name] > defaults[i].inrushLimit
    ensures
      var name := defaults[i].name;
      && ('X' in name ==> name in rows && rows[name].inrushLimit >= limits[name])
      && ('X' !in name ==>
            && GetXVariantName(name).Ok? && GetXVariantName(name).value in rows
            && rows[GetXVariantName(name).value].inrushLimit >= limits[name])
  {
    var target := Target(defaults[i]).value;
    assert RaisesTo(defaults[i], limits, target);
    LimitsOnlyRise(defaults, limits, target, i + 1, |defaults|);
  }

  /** No limit is invented: each one is the model's default or a configured limit that was meant for it. */
  lemma {:induction false} LimitsComeFromTheInputs(defaults: seq<Row>, limits: Limits, name: string, n: nat)
    requires n <= |defaults| && MergedLimit(defaults, limits, name, n).Some?
    ensures
      || MergedLimit(defaults, limits, name, n) == DefaultLimit(defaults, name)
      || exists j :: 0 <= j < n && RaisesTo(defaults[j], limits, name)
                     && MergedLimit(defaults, limits, name, n).value == limits[defaults[j].name]
  {
    if n > 0 {
      if RaisesTo(defaults[n - 1], limits, name)
         && MergedLimit(defaults, limits, name, n).value == limits[defaults[n - 1].name] {
      } else {
        LimitsComeFromTheInputs(defaults, limits, name, n - 1);
      }
    }
  }

  /** The merge fails exactly on a model that is no X model, is configured above its default and is of no SM series. */
  lemma NameableMeansSeries(defaults: seq<Row>, limits: Limits)
    ensures Nameable(defaults, limits) <==>
              forall i :: 0 <= i < |defaults| ==>
                var name := defaults[i].name;
                'X' !in name && name in limits && limits[name] > defaults[i].inrushLimit ==>
                  |name| >= 4 && name[..2] == "SM" && IsDigit(name[2]) && IsWordChar(name[3])
  {
    hide GetXVariantName;
    forall i | 0 <= i < |defaults|
      ensures ConfiguredHigher(defaults[i], limits) && Target(defaults[i]).Err? <==>
              var name := defaults[i].name;
              && 'X' !in name && name in limits && limits[name] > defaults[i].inrushLimit
              && !(|name| >= 4 && name[..2] == "SM" && IsDigit(name[2]) && IsWordChar(name[3]))
    {
      NameableModels(defaults[i].name);
    }
  }

  /** A model not configured above its default neither adds a model nor raises a limit. */
  lemma NothingRaisedNothingChanged(defaults: seq<Row>, limits: Limits, rows: Rows)
    requires DistinctNames(defaults) && Merged(defaults, limits, |defaults|, rows)
    requires forall i :: 0 <= i < |defaults| && defaults[i].name in limits ==>
                           limits[defaults[i].name] <= defaults[i].inrushLimit
    ensures forall name <- rows :: IsDefault(defaults, name)
    ensures forall i :: 0 <= i < |defaults| ==> rows[defaults[i].name] == defaults[i]
  {
    hide GetXVariantName;
    forall i | 0 <= i < |defaults| ensures rows[defaults[i].name] == defaults[i] {
      DefaultLimitAt(defaults, i);
      LimitsComeFromTheInputs(defaults, limits, defaults[i].name, |defaults|);
    }
  }

  predicate WordNames(defaults: seq<Row>) {
    forall i :: 0 <= i < |defaults| ==> IsWord(defaults[i].name)
  }

  /**
   * An added name is the X variant of exactly one default model, configured above its default, so two models never
   * collide on an added variant.
   */
  lemma AddedNamesNeverCollide(defaults: seq<Row>, limits: Limits, rows: Rows, name: string)
    returns (j: nat)
    requires DistinctNames(defaults) && WordNames(defaults)
    requires Merged(defaults, limits, |defaults|, rows)
    requires name in rows && !IsDefault(defaults, name)
    ensures j < |defaults| && GetXVariantName(defaults[j].name) == Ok(name) && 'X' !in defaults[j].name
    ensures defaults[j].name in limits && limits[defaults[j].name] > defaults[j].inrushLimit
    ensures forall i :: 0 <= i < |defaults| && RaisesTo(defaults[i], limits, name) ==> i == j
    ensures rows[name] == Row(name, UuidOf(name), limits[defaults[j].name], defaults[j].attributes)
  {
    assert AddedVariant(defaults, limits, name, |defaults|, rows[name]);
    j :| 0 <= j < |defaults| && RaisesTo(defaults[j], limits, name) && !IsXVariant(defaults[j].name)
         && rows[name].id == UuidOf(name) && rows[name].attributes == defaults[j].attributes;
    VariantDeterminesModel(defaults[j].name);
    forall i | 0 <= i < |defaults| && RaisesTo(defaults[i], limits, name) ensures i == j {
      if !IsXVariant(defaults[i].name) {
        VariantDeterminesModel(defaults[i].name);
      }
    }
    DefaultLimitNone(defaults, name);
    LimitsComeFromTheInputs(defaults, limits, name, |defaults|);
  }
}
