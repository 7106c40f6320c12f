/**
 Comparing local prices with those of several upstream channels. The builder works
 in passes over nested maps: collect every (model, field) worth showing, find the
 channels that differ somewhere, then delete what turned out to be uninteresting.
 The theorems say what that amounts to, without passes.
 */
module PricingDifferences {
  import opened Basics
  import ModelsDevSelection

  /** A decoded scalar. `Int` stands for the number types other than float64. */
  datatype Value = Nil | Num(r: real) | Int(n: int) | Str(s: string) | Bool(b: bool)

  const SAME := Str("same")

  /** field -> model -> value; a field that is absent or not a map reads as empty. */
  type Data = map<string, map<string, Value>>

  datatype Channel = Channel(name: string, data: Data)

  datatype Item = Item(current: Value, upstreams: map<string, Value>, confidence: map<string, bool>)

  type Differences = map<string, map<string, Item>>  // model -> field -> item

  const NUMERIC_FIELDS: seq<string> := [
    "model_ratio", "completion_ratio", "cache_ratio", "create_cache_ratio", "image_ratio", "audio_ratio",
    "audio_completion_ratio", "model_price"]

  const FIELDS: seq<string> := NUMERIC_FIELDS + ["billing_mode", "billing_expr"]

  // ------------------------------------------------------------------------ values

  predicate ValuesEqual(a: Value, b: Value) {
    if a.Num? && b.Num? then ModelsDevSelection.NearlyEqual(a.r, b.r) else a == b
  }

  function AsFloat(v: Value): Option<real> {
    match v
    case Num(r) => Some(r)
    case Int(n) => Some(n as real)
    case _ => None
  }

  function Normalized(field: string, v: Value): Value {
    if field in NUMERIC_FIELDS && AsFloat(v).Some? then Num(AsFloat(v).value) else v
  }

  function Lookup(data: Data, field: string, model: string): Option<Value> {
    if field in data && model in data[field] then Some(data[field][model]) else None
  }

  function Supplied(data: Data, field: string, model: string): Option<Value> {
    var v := Lookup(data, field, model);
    if v.None? then None else Some(Normalized(field, v.value))
  }

  function LocalValue(local: Data, field: string, model: string): Value {
    var v := Supplied(local, field, model);
    if v.None? then Nil else v.value
  }

  /** A value is supplied if and only if the field's map has the model; of numeric fields, as a number where
      it can be read as one. */
  lemma SuppliedExact(data: Data, field: string, model: string, v: Value)
    ensures Supplied(data, field, model) == None <==> !(field in data && model in data[field])
    ensures Supplied(data, field, model) == Some(v) <==>
            && field in data && model in data[field]
            && v == (if field in NUMERIC_FIELDS && AsFloat(data[field][model]).Some?
                     then Num(AsFloat(data[field][model]).value) else data[field][model])
    ensures LocalValue(data, field, model) == v <==>
            Supplied(data, field, model) == Some(v) || (v == Nil && Supplied(data, field, model) == None)
  {
  }

  /** How a channel is shown in an item: its value where it differs, "same" where it agrees or
      neither side has one, nil where only the local side has one. */
  function Label(local: Value, supplied: Option<Value>): Value {
    match supplied
    case None => if local.Nil? then SAME else Nil
    case Some(v) => if ValuesEqual(local, v) then SAME else v
  }

  predicate Differs(local: Value, supplied: Option<Value>) {
    supplied.Some? && !ValuesEqual(local, supplied.value)
  }

  predicate IsDifference(v: Value) {
    v != Nil && v != SAME
  }

  /** Prices are suspected to be placeholders when the model ratio is 37.5 and the completion ratio 1. */
  predicate Trusted(data: Data, model: string) {
    var m, c := Lookup(data, "model_ratio", model), Lookup(data, "completion_ratio", model);
    !(m.Some? && c.Some? && AsFloat(m.value).Some? && AsFloat(c.value).Some?
      && ModelsDevSelection.NearlyEqual(AsFloat(m.value).value, 37.5)
      && ModelsDevSelection.NearlyEqual(AsFloat(c.value).value, 1.0))
  }

  /** Numbers are equal up to a billionth, everything else exactly. */
  lemma EqualExact(a: Value, b: Value)
    ensures a.Num? && b.Num? ==> (ValuesEqual(a, b) <==> -0.000000001 < a.r - b.r < 0.000000001)
    ensures !(a.Num? && b.Num?) ==> (ValuesEqual(a, b) <==> a == b)
  {
  }

  /** Prices are untrusted exactly if both ratios are numbers, the model ratio 37.5 and the completion ratio
      1, up to a billionth. */
  lemma TrustedExact(data: Data, m: string)
    ensures !Trusted(data, m) <==>
            var ratio, completion := Lookup(data, "model_ratio", m), Lookup(data, "completion_ratio", m);
            && ratio.Some? && (ratio.value.Num? || ratio.value.Int?)
            && completion.Some? && (completion.value.Num? || completion.value.Int?)
            && -0.000000001 < Number(ratio.value) - 37.5 < 0.000000001
            && -0.000000001 < Number(completion.value) - 1.0 < 0.000000001
  {
  }

  function Number(v: Value): real {
    if v.Num? then v.r else if v.Int? then v.n as real else 0.0
  }

  /** The ten fields compared. In the eight that are numeric any number counts as a float64. */
  lemma FieldsExact(f: string, v: Value)
    ensures f in FIELDS <==>
            f in {"model_ratio", "completion_ratio", "cache_ratio", "create_cache_ratio", "image_ratio", "audio_ratio",
                  "audio_completion_ratio", "model_price", "billing_mode", "billing_expr"}
    ensures Normalized(f, v) == if f in FIELDS && f != "billing_mode" && f != "billing_expr" && (v.Num? || v.Int?)
                                then Num(Number(v)) else v
  {
  }

  // --------------------------------------------------------- the first three passes

  /** The item for a model and field, if there is one. */
  function At(d: Differences, model: string, field: string): Option<Item> {
    if model in d && field in d[model] then Some(d[model][field]) else None
  }

  function Labels(local: Value, channels: seq<Channel>, field: string, model: string): map<string, Value> {
    if channels == [] then map[]
    else
      var n := |channels| - 1;
      var mark := Label(local, Supplied(channels[n].data, field, model));
      Labels(local, channels[..n], field, model)[channels[n].name := mark]
  }

  function Confidences(channels: seq<Channel>, model: string): map<string, bool> {
    if channels == [] then map[]
    else
      var n := |channels| - 1;
      Confidences(channels[..n], model)[channels[n].name := Trusted(channels[n].data, model)]
  }

  predicate AnySupplied(channels: seq<Channel>, field: string, model: string) {
    channels != [] &&
    var n := |channels| - 1;
    AnySupplied(channels[..n], field, model) || Supplied(channels[n].data, field, model).Some?
  }

  predicate AnyDiffers(local: Value, channels: seq<Channel>, field: string, model: string) {
    channels != [] &&
    var n := |channels| - 1;
    AnyDiffers(local, channels[..n], field, model) || Differs(local, Supplied(channels[n].data, field, model))
  }

  function RawItem(local: Data, channels: seq<Channel>, field: string, model: string): Item {
    var v := LocalValue(local, field, model);
    Item(v, Labels(v, channels, field, model), Confidences(channels, model))
  }

  /** Worth showing at first: some channel differs or, without a local value, some channel has one. */
  predicate Included(local: Data, channels: seq<Channel>, field: string, model: string) {
    var v := LocalValue(local, field, model);
    if v.Nil? then AnySupplied(channels, field, model) else AnyDiffers(v, channels, field, model)
  }

  function Raw(local: Data, channels: seq<Channel>, model: string, field: string): Option<Item> {
    if field in FIELDS && Included(local, channels, field, model) then Some(RawItem(local, channels, field, model))
    else None
  }

  ghost predicate NoEmptyModel(d: Differences) {
    forall m :: m in d ==> d[m] != map[]
  }

  ghost predicate Collected(d: Differences, local: Data, channels: seq<Channel>) {
    forall m, f :: At(d, m, f) == Raw(local, channels, m, f)
  }

  predicate Prices(data: Data, m: string) {
    exists f :: f in FIELDS && Lookup(data, f, m).Some?
  }

  /** All models with a value for some field, locally or in some channel. */
  method AllModels(local: Data, channels: seq<Channel>) returns (models: set<string>)
    ensures forall m :: m in models <==>
                        Prices(local, m) || exists i :: 0 <= i < |channels| && Prices(channels[i].data, m)
  {
    models := ModelsOf(local);
    for i := 0 to |channels|
      invariant forall m :: m in models <==> Prices(local, m) || exists j :: 0 <= j < i && Prices(channels[j].data, m)
    {
      var more := ModelsOf(channels[i].data);
      models := models + more;
    }
  }

  method ModelsOf(data: Data) returns (models: set<string>)
    ensures forall m :: m in models <==> Prices(data, m)
  {
    models := {};
    for k := 0 to |FIELDS|
      invariant forall m :: m in models <==> exists i :: 0 <= i < k && Lookup(data, FIELDS[i], m).Some?
    {
      if FIELDS[k] in data {
        models := models + data[FIELDS[k]].Keys;
      }
    }
    forall m
      ensures m in models <==> Prices(data, m)
    {
      PricedField(data, m);
    }
  }

  lemma PricedField(data: Data, m: string)
    ensures Prices(data, m) <==> exists i :: 0 <= i < |FIELDS| && Lookup(data, FIELDS[i], m).Some?
  {
    if Prices(data, m) {
      var f :| f in FIELDS && Lookup(data, f, m).Some?;
      var i :| 0 <= i < |FIELDS| && FIELDS[i] == f;
      assert Lookup(data, FIELDS[i], m).Some?;
    }
    if i :| 0 <= i < |FIELDS| && Lookup(data, FIELDS[i], m).Some? {
      assert FIELDS[i] in FIELDS;
    }
  }

  function ConfidenceMap(channels: seq<Channel>, models: set<string>): map<string, map<string, bool>> {
    if channels == [] then map[]
    else
      var n := |channels| - 1;
      ConfidenceMap(channels[..n], models)[channels[n].name := map m | m in models :: Trusted(channels[n].data, m)]
  }

  lemma {:induction false} ConfidenceByName(channels: seq<Channel>, models: set<string>, m: string)
    requires m in models
    ensures ConfidenceMap(channels, models).Keys == Confidences(channels, m).Keys
    ensures forall name :: name in Confidences(channels, m) ==>
              m in ConfidenceMap(channels, models)[name]
              && ConfidenceMap(channels, models)[name][m] == Confidences(channels, m)[name]
  {
    if channels != [] {
      ConfidenceByName(channels[..|channels| - 1], models, m);
    }
  }

  /** The confidence pass: by channel name, whether the channel's prices for a model are trusted. */
  method ConfidencePass(channels: seq<Channel>, models: set<string>)
    returns (confidence: map<string, map<string, bool>>)
    ensures confidence == ConfidenceMap(channels, models)
  {
    confidence := map[];
    for i := 0 to |channels|
      invariant confidence == ConfidenceMap(channels[..i], models)
    {
      var entry := ChannelConfidence(channels[i].data, models);
      assert channels[..i + 1][..i] == channels[..i];
      confidence := confidence[channels[i].name := entry];
    }
    assert channels[..|channels|] == channels;
  }

  method ChannelConfidence(data: Data, models: set<string>) returns (entry: map<string, bool>)
    ensures entry == map m | m in models :: Trusted(data, m)
  {
    var modelRatios := if "model_ratio" in data then data["model_ratio"] else map[];
    var completionRatios := if "completion_ratio" in data then data["completion_ratio"] else map[];
    entry := map m | m in models :: true;
    if |modelRatios| > 0 && |completionRatios| > 0 {
      var todo := models;
      while todo != {}
        invariant todo <= models
        invariant entry == map m | m in models :: m in todo || Trusted(data, m)
        decreases todo
      {
        var m :| m in todo;
        if m in modelRatios && m in completionRatios {
          var ratio, completion := AsFloat(modelRatios[m]), AsFloat(completionRatios[m]);
          if ratio.Some? && completion.Some?
             && ModelsDevSelection.NearlyEqual(ratio.value, 37.5)
             && ModelsDevSelection.NearlyEqual(completion.value, 1.0) {
            entry := entry[m := false];
          }
        }
        todo := todo - {m};
      }
    }
  }

  /** One channel's label, as the source computes it, and whether it supplies a differing value. */
  method LabelChannel(current: Value, data: Data, field: string, model: string)
    returns (value: Value, supplied: bool, different: bool)
    ensures value == Label(current, Supplied(data, field, model))
    ensures supplied <==> Supplied(data, field, model).Some?
    ensures !current.Nil? ==> (different <==> Differs(current, Supplied(data, field, model)))
  {
    value, supplied, different := Nil, false, false;
    var given := Lookup(data, field, model);
    if given.Some? {
      value := Normalized(field, given.value);
      supplied := true;
      if current != Nil && !ValuesEqual(current, value) {
        different := true;
      } else if ValuesEqual(current, value) {
        value := SAME;
      }
    }
    if value == Nil && current == Nil {
      value := SAME;
    }
    if current == Nil && value != Nil && value != SAME {
      different := true;
    }
  }

  /** The loop over channels that labels each of them. */
  method LabelAll(current: Value, channels: seq<Channel>, field: string, model: string)
    returns (upstreams: map<string, Value>, hasUpstreamValue: bool, hasDifference: bool)
    ensures upstreams == Labels(current, channels, field, model)
    ensures hasUpstreamValue == AnySupplied(channels, field, model)
    ensures !current.Nil? ==> hasDifference == AnyDiffers(current, channels, field, model)
  {
    upstreams, hasUpstreamValue, hasDifference := map[], false, false;
    for i := 0 to |channels|
      invariant upstreams == Labels(current, channels[..i], field, model)
      invariant hasUpstreamValue == AnySupplied(channels[..i], field, model)
      invariant !current.Nil? ==> hasDifference == AnyDiffers(current, channels[..i], field, model)
    {
      assert channels[..i + 1][..i] == channels[..i];
      var value, supplied, different := LabelChannel(current, channels[i].data, field, model);
      hasUpstreamValue := hasUpstreamValue || supplied;
      hasDifference := hasDifference || different;
      upstreams := upstreams[channels[i].name := value];
    }
    assert channels[..|channels|] == channels;
  }

  /** One (model, field). */
  method Inspect(local: Data, channels: seq<Channel>, models: set<string>, confidence: map<string, map<string, bool>>,
                 field: string, model: string)
    returns (shown: bool, item: Item)
    requires model in models && confidence == ConfidenceMap(channels, models)
    ensures shown == Included(local, channels, field, model)
    ensures item == RawItem(local, channels, field, model)
  {
    var current := Nil;
    var found := Lookup(local, field, model);
    if found.Some? {
      current := Normalized(field, found.value);
    }
    var upstreams, hasUpstreamValue, hasDifference := LabelAll(current, channels, field, model);
    shown := if current != Nil then hasDifference else hasUpstreamValue;
    ConfidenceByName(channels, models, model);
    NamesAgree(current, channels, field, model);
    var trust := map name | name in upstreams :: confidence[name][model];
    assert trust == Confidences(channels, model);
    item := Item(current, upstreams, trust);
  }

  lemma {:induction false} NamesAgree(local: Value, channels: seq<Channel>, field: string, model: string)
    ensures Labels(local, channels, field, model).Keys == Confidences(channels, model).Keys
  {
    if channels != [] {
      NamesAgree(local, channels[..|channels| - 1], field, model);
    }
  }

  /** The collecting pass over all models and fields. */
  method Collect(local: Data, channels: seq<Channel>, models: set<string>, confidence: map<string, map<string, bool>>)
    returns (d: Differences)
    requires confidence == ConfidenceMap(channels, models)
    requires forall i, m :: 0 <= i < |channels| && Prices(channels[i].data, m) ==> m in models
    ensures Collected(d, local, channels) && NoEmptyModel(d)
  {
    d := map[];
    var todo := models;
    while todo != {}
      invariant todo <= models && d.Keys <= models - todo && NoEmptyModel(d)
      invariant forall m, f :: m in models - todo ==> At(d, m, f) == Raw(local, channels, m, f)
      decreases todo
    {
      var m :| m in todo;
      var inner := CollectModel(local, channels, models, confidence, m);
      if inner != map[] {
        d := d[m := inner];
      }
      todo := todo - {m};
    }
    forall m, f
      ensures At(d, m, f) == Raw(local, channels, m, f)
    {
      if m !in models && f in FIELDS {
        assert forall i :: 0 <= i < |channels| ==> !Prices(channels[i].data, m);
        NothingToShow(local, channels, m, f);
      }
    }
  }

  lemma {:induction false} NothingToShow(local: Data, channels: seq<Channel>, m: string, f: string)
    requires forall i :: 0 <= i < |channels| ==> Lookup(channels[i].data, f, m).None?
    ensures !AnySupplied(channels, f, m)
    ensures forall v :: !AnyDiffers(v, channels, f, m)
  {
    if channels != [] {
      NothingToShow(local, channels[..|channels| - 1], m, f);
    }
  }

  method CollectModel(local: Data, channels: seq<Channel>, models: set<string>,
                      confidence: map<string, map<string, bool>>, m: string)
    returns (inner: map<string, Item>)
    requires m in models && confidence == ConfidenceMap(channels, models)
    ensures forall f :: (if f in inner then Some(inner[f]) else None) == Raw(local, channels, m, f)
  {
    inner := map[];
    for k := 0 to |FIELDS|
      invariant forall f :: f in inner ==> f in FIELDS[..k]
      invariant forall f :: f in FIELDS[..k] ==>
                              (if f in inner then Some(inner[f]) else None) == Raw(local, channels, m, f)
    {
      var shown, item := Inspect(local, channels, models, confidence, FIELDS[k], m);
      assert FIELDS[k] in FIELDS;
      if shown {
        inner := inner[FIELDS[k] := item];
      }
      DistinctFields(k);
      assert FIELDS[..k + 1] == FIELDS[..k] + [FIELDS[k]];
    }
    assert FIELDS[..|FIELDS|] == FIELDS;
  }

  lemma DistinctFields(k: nat)
    requires k < |FIELDS|
    ensures FIELDS[k] !in FIELDS[..k]
  {
  }

  // ------------------------------------------------------------ the last two passes

  /** The channel shows a difference in this item. */
  predicate Shows(item: Option<Item>, name: string) {
    item.Some? && name in item.value.upstreams && IsDifference(item.value.upstreams[name])
  }

  ghost predicate ShowsSomewhere(d: Differences, name: string) {
    exists m, f :: Shows(At(d, m, f), name)
  }

  method DifferingChannels(d: Differences) returns (names: set<string>)
    ensures forall name :: name in names <==> ShowsSomewhere(d, name)
  {
    names := {};
    var models := d.Keys;
    while models != {}
      invariant models <= d.Keys
      invariant forall name :: name in names ==> ShowsSomewhere(d, name)
      invariant forall m, f, name :: m !in models && Shows(At(d, m, f), name) ==> name in names
      decreases models
    {
      var m :| m in models;
      var more := DifferingIn(d, m);
      names := names + more;
      models := models - {m};
    }
  }

  method DifferingIn(d: Differences, m: string) returns (names: set<string>)
    requires m in d
    ensures forall name :: name in names ==> ShowsSomewhere(d, name)
    ensures forall f, name :: Shows(At(d, m, f), name) ==> name in names
  {
    names := {};
    var fields := d[m].Keys;
    while fields != {}
      invariant fields <= d[m].Keys
      invariant forall name :: name in names ==> ShowsSomewhere(d, name)
      invariant forall f, name :: f !in fields && Shows(At(d, m, f), name) ==> name in names
      decreases fields
    {
      var f :| f in fields;
      var more := set name | name in d[m][f].upstreams && IsDifference(d[m][f].upstreams[name]);
      assert forall name :: name in more <==> Shows(At(d, m, f), name);
      names := names + more;
      fields := fields - {f};
    }
  }

  function Restricted(item: Item, names: set<string>): Item {
    Item(item.current,
         map name | name in item.upstreams && name in names :: item.upstreams[name],
         map name | name in item.confidence && (name in names || name !in item.upstreams) :: item.confidence[name])
  }

  predicate Interesting(item: Item) {
    exists name :: name in item.upstreams && item.upstreams[name] != SAME
  }

  function Pruned(item: Option<Item>, names: set<string>): Option<Item> {
    if item.Some? && Interesting(Restricted(item.value, names)) then Some(Restricted(item.value, names)) else None
  }

  /** The deleting pass. */
  method Prune(d: Differences, names: set<string>) returns (r: Differences)
    ensures forall m, f :: At(r, m, f) == Pruned(At(d, m, f), names)
    ensures NoEmptyModel(r)
  {
    r := d;
    var models := d.Keys;
    while models != {}
      invariant models <= r.Keys <= d.Keys
      invariant forall m :: m in models ==> r[m] == d[m]
      invariant forall m, f :: m !in models ==> At(r, m, f) == Pruned(At(d, m, f), names)
      invariant forall m :: m in r && m !in models ==> r[m] != map[]
      decreases models
    {
      var m :| m in models;
      var inner := PruneModel(d[m], names);
      models := models - {m};
      r := if inner == map[] then r - {m} else r[m := inner];
    }
  }

  method PruneModel(items: map<string, Item>, names: set<string>) returns (inner: map<string, Item>)
    ensures forall f :: (if f in inner then Some(inner[f]) else None) ==
                        Pruned(if f in items then Some(items[f]) else None, names)
  {
    inner := items;
    var fields := items.Keys;
    while fields != {}
      invariant fields <= inner.Keys <= items.Keys
      invariant forall f :: f in fields ==> inner[f] == items[f]
      invariant forall f :: f !in fields ==> (if f in inner then Some(inner[f]) else None) ==
                                              Pruned(if f in items then Some(items[f]) else None, names)
      decreases fields
    {
      var f :| f in fields;
      var item := PruneItem(items[f], names);
      fields := fields - {f};
      if |item.upstreams| == 0 || forall name :: name in item.upstreams ==> item.upstreams[name] == SAME {
        inner := inner - {f};
      } else {
        inner := inner[f := item];
      }
    }
  }

  method PruneItem(item: Item, names: set<string>) returns (r: Item)
    ensures r == Restricted(item, names)
  {
    r := item;
    var todo := item.upstreams.Keys;
    while todo != {}
      invariant todo <= item.upstreams.Keys && r.current == item.current
      invariant r.upstreams == map name | name in item.upstreams && (name in names || name in todo)
                                   :: item.upstreams[name]
      invariant r.confidence == map name | name in item.confidence
                                           && (name in names || name in todo || name !in item.upstreams)
                                    :: item.confidence[name]
      decreases todo
    {
      var name :| name in todo;
      todo := todo - {name};
      if name !in names {
        r := r.(upstreams := r.upstreams - {name}, confidence := r.confidence - {name});
      }
    }
  }

  // -------------------------------------------------------------------- the whole

  /** Some wanted item shows this channel with a difference. */
  ghost predicate Differing(local: Data, channels: seq<Channel>, name: string) {
    exists m, f :: Shows(Raw(local, channels, m, f), name)
  }

  ghost function DifferingNames(local: Data, channels: seq<Channel>): set<string> {
    set i | 0 <= i < |channels| && Differing(local, channels, channels[i].name) :: channels[i].name
  }

  lemma DifferingNamed(local: Data, channels: seq<Channel>, name: string)
    ensures name in DifferingNames(local, channels) <==> Differing(local, channels, name)
  {
    if Differing(local, channels, name) {
      var m, f :| Shows(Raw(local, channels, m, f), name);
      var i := LabelFrom(LocalValue(local, f, m), channels, m, f, name);
    }
  }

  /** All passes in one: r holds the wanted items, restricted to the differing channels, that are
      not "same" throughout. */
  ghost predicate Result(r: Differences, local: Data, channels: seq<Channel>) {
    && (forall m, f :: At(r, m, f) == Pruned(Raw(local, channels, m, f), DifferingNames(local, channels)))
    && NoEmptyModel(r)
  }

  method BuildDifferences(local: Data, channels: seq<Channel>) returns (r: Differences)
    ensures Result(r, local, channels)
  {
    var models := AllModels(local, channels);
    var confidence := ConfidencePass(channels, models);
    var differences := Collect(local, channels, models, confidence);
    var differing := DifferingChannels(differences);
    r := Prune(differences, differing);
    SameNames(differences, local, channels, differing);
  }

  lemma SameNames(d: Differences, local: Data, channels: seq<Channel>, differing: set<string>)
    requires Collected(d, local, channels)
    requires forall name :: name in differing <==> ShowsSomewhere(d, name)
    ensures differing == DifferingNames(local, channels)
  {
    forall name
      ensures name in differing <==> name in DifferingNames(local, channels)
    {
      SameShows(d, local, channels, name);
      DifferingNamed(local, channels, name);
    }
  }

  lemma SameShows(d: Differences, local: Data, channels: seq<Channel>, name: string)
    requires Collected(d, local, channels)
    ensures ShowsSomewhere(d, name) <==> Differing(local, channels, name)
  {
    if ShowsSomewhere(d, name) {
      var m, f :| Shows(At(d, m, f), name);
      assert Shows(Raw(local, channels, m, f), name);
    }
    if Differing(local, channels, name) {
      var m, f :| Shows(Raw(local, channels, m, f), name);
      assert Shows(At(d, m, f), name);
    }
  }

  // ----------------------------------------------------- what it means, without passes

  ghost predicate Distinct(channels: seq<Channel>) {
    forall i, j :: 0 <= i < j < |channels| ==> channels[i].name != channels[j].name
  }

  /** Results are filed under channel names, so of channels with one name the last one counts. */
  ghost predicate Counts(channels: seq<Channel>, i: nat) {
    i < |channels| && forall j :: i < j < |channels| ==> channels[j].name != channels[i].name
  }

  /** The channel supplies a value that is not equal to the local one. */
  predicate DiffersAt(local: Data, ch: Channel, m: string, f: string) {
    f in FIELDS && Differs(LocalValue(local, f, m), Supplied(ch.data, f, m))
  }

  predicate SomeDiffers(local: Data, channels: seq<Channel>, m: string, f: string) {
    exists i :: 0 <= i < |channels| && DiffersAt(local, channels[i], m, f)
  }

  /** ... and the value is not null or the literal "same", which the passes take for marks. */
  predicate VisiblyAt(local: Data, ch: Channel, m: string, f: string) {
    DiffersAt(local, ch, m, f) && IsDifference(Supplied(ch.data, f, m).value)
  }

  ghost predicate Visibly(local: Data, ch: Channel) {
    exists m, f :: VisiblyAt(local, ch, m, f)
  }

  function LabelOf(local: Data, ch: Channel, m: string, f: string): Value {
    Label(LocalValue(local, f, m), Supplied(ch.data, f, m))
  }

  lemma {:induction false} AnyExists(v: Value, channels: seq<Channel>, m: string, f: string)
    ensures AnySupplied(channels, f, m) <==> exists i :: 0 <= i < |channels| && Supplied(channels[i].data, f, m).Some?
    ensures AnyDiffers(v, channels, f, m) <==>
            exists i :: 0 <= i < |channels| && Differs(v, Supplied(channels[i].data, f, m))
  {
    if channels != [] {
      var n := |channels| - 1;
      AnyExists(v, channels[..n], m, f);
      assert forall i :: 0 <= i < n ==> channels[..n][i] == channels[i];
    }
  }

  /** Every name in an item is that of a channel, whose label it carries. */
  lemma {:induction false} LabelFrom(v: Value, channels: seq<Channel>, m: string, f: string, name: string)
    returns (i: nat)
    requires name in Labels(v, channels, f, m)
    ensures Counts(channels, i) && channels[i].name == name
    ensures Labels(v, channels, f, m)[name] == Label(v, Supplied(channels[i].data, f, m))
    ensures name in Confidences(channels, m) && Confidences(channels, m)[name] == Trusted(channels[i].data, m)
  {
    var n := |channels| - 1;
    if channels[n].name == name {
      i := n;
    } else {
      i := LabelFrom(v, channels[..n], m, f, name);
    }
  }

  lemma {:induction false} LabelHas(v: Value, channels: seq<Channel>, m: string, f: string, i: nat)
    requires i < |channels|
    ensures channels[i].name in Labels(v, channels, f, m)
    decreases |channels|
  {
    if i < |channels| - 1 {
      LabelHas(v, channels[..|channels| - 1], m, f, i);
    }
  }

  /** The label and confidence of a channel that counts are its own. */
  lemma OwnLabel(v: Value, channels: seq<Channel>, m: string, f: string, i: nat)
    requires Counts(channels, i)
    ensures
      var name := channels[i].name;
      && name in Labels(v, channels, f, m)
      && Labels(v, channels, f, m)[name] == Label(v, Supplied(channels[i].data, f, m))
      && name in Confidences(channels, m) && Confidences(channels, m)[name] == Trusted(channels[i].data, m)
  {
    LabelHas(v, channels, m, f, i);
    var j := LabelFrom(v, channels, m, f, channels[i].name);
    assert j == i;
  }

  lemma DifferingIffVisibly(local: Data, channels: seq<Channel>, i: nat)
    requires Counts(channels, i)
    ensures Differing(local, channels, channels[i].name) <==> Visibly(local, channels[i])
  {
    var name := channels[i].name;
    if Differing(local, channels, name) {
      var m, f :| Shows(Raw(local, channels, m, f), name);
      OwnLabel(LocalValue(local, f, m), channels, m, f, i);
      assert VisiblyAt(local, channels[i], m, f);
    }
    if Visibly(local, channels[i]) {
      var m, f :| VisiblyAt(local, channels[i], m, f);
      OwnLabel(LocalValue(local, f, m), channels, m, f, i);
      AnyExists(LocalValue(local, f, m), channels, m, f);
      assert Shows(Raw(local, channels, m, f), name);
    }
  }

  lemma NamedIffVisibly(local: Data, channels: seq<Channel>, i: nat)
    requires Counts(channels, i)
    ensures channels[i].name in DifferingNames(local, channels) <==> Visibly(local, channels[i])
  {
    DifferingNamed(local, channels, channels[i].name);
    DifferingIffVisibly(local, channels, i);
  }

  /** For any input at all: what is kept is a difference. */
  lemma KeptDiffers(r: Differences, local: Data, channels: seq<Channel>, m: string, f: string)
    requires Result(r, local, channels) && At(r, m, f).Some?
    ensures SomeDiffers(local, channels, m, f)
  {
    var v := LocalValue(local, f, m);
    var raw := RawItem(local, channels, f, m);
    assert At(r, m, f) == Pruned(Some(raw), DifferingNames(local, channels));
    if v.Nil? {
      var name :| name in raw.upstreams && raw.upstreams[name] != SAME;
      LabelDiffers(local, channels, m, f, name);
    } else {
      AnyExists(v, channels, m, f);
      var i :| 0 <= i < |channels| && Differs(v, Supplied(channels[i].data, f, m));
      assert DiffersAt(local, channels[i], m, f);
    }
  }

  lemma LabelDiffers(local: Data, channels: seq<Channel>, m: string, f: string, name: string)
    requires f in FIELDS && LocalValue(local, f, m).Nil? && name in Labels(Nil, channels, f, m)
    requires Labels(Nil, channels, f, m)[name] != SAME
    ensures SomeDiffers(local, channels, m, f)
  {
    var i := LabelFrom(Nil, channels, m, f, name);
    assert DiffersAt(local, channels[i], m, f);
  }

  /** The channel has a value that is not equal to the local one (nor the text "same"), or has none where
      the local side has one. */
  predicate Apart(local: Data, ch: Channel, m: string, f: string) {
    var v := LocalValue(local, f, m);
    match Supplied(ch.data, f, m)
    case None => v != Nil
    case Some(w) => !ValuesEqual(v, w) && w != SAME
  }

  lemma ApartLabel(local: Data, ch: Channel, m: string, f: string)
    ensures Apart(local, ch, m, f) <==> LabelOf(local, ch, m, f) != SAME
  {
  }

  /** Someone remains to be shown: a channel that counts, differs visibly somewhere and stands apart here. */
  ghost predicate Witnessed(local: Data, channels: seq<Channel>, m: string, f: string) {
    exists i :: 0 <= i < |channels| && Witness(local, channels, i, m, f)
  }

  ghost predicate Witness(local: Data, channels: seq<Channel>, i: nat, m: string, f: string) {
    Counts(channels, i) && Visibly(local, channels[i]) && Apart(local, channels[i], m, f)
  }

  /** For any input at all: exactly the differences that have such a witness are kept. */
  lemma KeptIff(r: Differences, local: Data, channels: seq<Channel>, m: string, f: string)
    requires Result(r, local, channels)
    ensures At(r, m, f).Some? <==> SomeDiffers(local, channels, m, f) && Witnessed(local, channels, m, f)
  {
    var v := LocalValue(local, f, m);
    var raw := RawItem(local, channels, f, m);
    assert At(r, m, f) == Pruned(Raw(local, channels, m, f), DifferingNames(local, channels));
    if At(r, m, f).Some? {
      KeptDiffers(r, local, channels, m, f);
      var item := Restricted(raw, DifferingNames(local, channels));
      var name :| name in item.upstreams && item.upstreams[name] != SAME;
      var i := LabelFrom(v, channels, m, f, name);
      NamedIffVisibly(local, channels, i);
      ApartLabel(local, channels[i], m, f);
      assert Witness(local, channels, i, m, f);
    }
    if SomeDiffers(local, channels, m, f) && Witnessed(local, channels, m, f) {
      AnyExists(v, channels, m, f);
      var i :| 0 <= i < |channels| && Witness(local, channels, i, m, f);
      OwnLabel(v, channels, m, f, i);
      ApartLabel(local, channels[i], m, f);
      NamedIffVisibly(local, channels, i);
      assert channels[i].name in Restricted(raw, DifferingNames(local, channels)).upstreams;
    }
  }

  /** No channel supplies a value that a pass could mistake for a mark. */
  ghost predicate Clean(channels: seq<Channel>) {
    forall i, f, m :: 0 <= i < |channels| && f in FIELDS && Supplied(channels[i].data, f, m).Some? ==>
      IsDifference(Supplied(channels[i].data, f, m).value)
  }

  /** The direct specification, for distinct names and clean values: a (model, field) is kept if and
      only if some channel supplies a value not equal to the local one. */
  lemma CleanKeptIff(r: Differences, local: Data, channels: seq<Channel>, m: string, f: string)
    requires Result(r, local, channels) && Distinct(channels) && Clean(channels)
    ensures At(r, m, f).Some? <==> SomeDiffers(local, channels, m, f)
  {
    KeptIff(r, local, channels, m, f);
    if SomeDiffers(local, channels, m, f) {
      var i :| 0 <= i < |channels| && DiffersAt(local, channels[i], m, f);
      assert VisiblyAt(local, channels[i], m, f);
      assert Witness(local, channels, i, m, f);
    }
  }

  predicate Marked(mark: Value, local: Value, supplied: Option<Value>) {
    && (supplied.Some? && !ValuesEqual(local, supplied.value) ==> mark == supplied.value)
    && (supplied.Some? && ValuesEqual(local, supplied.value) ==> mark == Str("same"))
    && (supplied.None? && local == Nil ==> mark == Str("same"))
    && (supplied.None? && local != Nil ==> mark == Nil)
  }

  /** Each kept item shows the local value and, of the channels that count, exactly those that differ
      somewhere. A channel is marked with its value where that is not equal to the local one, with "same"
      where it is or neither side has one, and with nil where only the local side has one. */
  lemma KeptItem(r: Differences, local: Data, channels: seq<Channel>, m: string, f: string, i: nat)
    requires Result(r, local, channels)
    requires At(r, m, f).Some? && Counts(channels, i)
    ensures
      var item := At(r, m, f).value;
      var name := channels[i].name;
      && item.current == LocalValue(local, f, m)
      && (name in item.upstreams <==> Visibly(local, channels[i]))
      && (name in item.upstreams <==> name in item.confidence)
      && (name in item.upstreams ==>
            && Marked(item.upstreams[name], LocalValue(local, f, m), Supplied(channels[i].data, f, m))
            && item.confidence[name] == Trusted(channels[i].data, m))
  {
    assert At(r, m, f) == Pruned(Raw(local, channels, m, f), DifferingNames(local, channels));
    OwnLabel(LocalValue(local, f, m), channels, m, f, i);
    NamedIffVisibly(local, channels, i);
  }

  /** And it shows nothing else. */
  lemma KeptNames(r: Differences, local: Data, channels: seq<Channel>, m: string, f: string, name: string)
    returns (i: nat)
    requires Result(r, local, channels)
    requires At(r, m, f).Some? && name in At(r, m, f).value.upstreams
    ensures Counts(channels, i) && channels[i].name == name
  {
    assert At(r, m, f) == Pruned(Raw(local, channels, m, f), DifferingNames(local, channels));
    i := LabelFrom(LocalValue(local, f, m), channels, m, f, name);
  }

  // ----------------------------------------------- why values and names must be clean

  /** With one channel: a difference is lost if and only if its value is the literal "same", or null
      from a channel that shows no other difference. */
  lemma OneChannelExact(r: Differences, local: Data, ch: Channel, m: string, f: string)
    requires Result(r, local, [ch]) && DiffersAt(local, ch, m, f)
    ensures At(r, m, f).None? <==>
            var v := Supplied(ch.data, f, m).value;
            v == SAME || (v == Nil && !Visibly(local, ch))
  {
    var channels := [ch];
    assert channels[0] == ch;
    KeptIff(r, local, channels, m, f);
    assert SomeDiffers(local, channels, m, f);
    if Supplied(ch.data, f, m).value != SAME {
      assert Apart(local, channels[0], m, f);
      assert Counts(channels, 0);
      if Supplied(ch.data, f, m).value != Nil {
        assert VisiblyAt(local, ch, m, f);
      }
      assert Visibly(local, ch) ==> Witness(local, channels, 0, m, f);
    }
  }

  /** With two channels of one name, the second hides the first: its difference is lost. */
  lemma DuplicateNameHides(r: Differences, local: Data, a: Channel, b: Channel, m: string, f: string)
    requires a.name == b.name && Result(r, local, [a, b])
    requires DiffersAt(local, a, m, f) && !Apart(local, b, m, f)
    ensures At(r, m, f).None?
  {
    var channels := [a, b];
    KeptIff(r, local, channels, m, f);
    assert channels[0].name == channels[1].name;
  }
}
