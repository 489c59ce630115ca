/**
 Comparing the local price ratios with those several upstream channels report
 (controller/ratio_sync.go, buildDifferences). Floats are modelled as reals.
 */
module RatioDiff {
  import opened Options

  const EPSILON := 0.000000001
  const RATIO_TYPES: seq<string> := ["model_ratio", "completion_ratio", "cache_ratio", "model_price"]

  /** A decoded JSON value; Other stands for booleans, arrays and objects. */
  datatype Json = Null | Num(n: real) | Str(s: string) | Other(text: string)

  const SAME := Str("same")

  /** What a channel reported: for each ratio type it sent as an object, a value per model. */
  datatype Channel = Channel(name: string, data: map<string, map<string, Json>>)

  datatype Input = Input(local: map<string, map<string, real>>, channels: seq<Channel>)

  datatype Item = Item(current: Option<real>, upstreams: map<string, Json>, confidence: map<string, bool>)

  type Differences = map<string, map<string, Item>>

  function Lookup<T>(data: map<string, map<string, T>>, ratioType: string, model: string): Option<T> {
    if ratioType in data && model in data[ratioType] then Some(data[ratioType][model]) else None
  }

  predicate NearlyEqual(a: real, b: real) {
    if a > b then a - b < EPSILON else b - a < EPSILON
  }

  /** valuesEqual for a local value, which may be missing, and a reported one. */
  predicate ValuesEqual(local: Option<real>, v: Json) {
    match local
    case None => v == Null
    case Some(f) => v.Num? && NearlyEqual(f, v.n)
  }

  // ---------------------------------------------------------------- one model, one ratio type

  /** A channel's entry: "same", nil for a value it lacks, or the reported value. */
  function Entry(local: Option<real>, reported: Option<Json>): Json {
    match reported
    case None => if local.None? then SAME else Null
    case Some(v) => if ValuesEqual(local, v) then SAME else v
  }

  predicate Concrete(e: Json) {
    e != Null && e != SAME
  }

  /** A report that makes the item worth showing. */
  predicate Admits(local: Option<real>, reported: Option<Json>) {
    reported.Some? && (local.None? || !ValuesEqual(local, reported.value))
  }

  /** The default price pair marks a channel's prices for a model as not trustworthy. */
  predicate Confident(channel: Channel, model: string) {
    !(Lookup(channel.data, "model_ratio", model) == Some(Num(37.5))
      && Lookup(channel.data, "completion_ratio", model) == Some(Num(1.0)))
  }

  function Upstreams(channels: seq<Channel>, local: Option<real>, model: string, ratioType: string): map<string, Json> {
    if channels == [] then map[]
    else
      var c := channels[|channels| - 1];
      Upstreams(channels[..|channels| - 1], local, model, ratioType)[c.name := Entry(local, Lookup(c.data, ratioType, model))]
  }

  function Confidences(channels: seq<Channel>, model: string): map<string, bool> {
    if channels == [] then map[]
    else
      var c := channels[|channels| - 1];
      Confidences(channels[..|channels| - 1], model)[c.name := Confident(c, model)]
  }

  ghost predicate Admitted(inp: Input, model: string, ratioType: string) {
    exists i :: 0 <= i < |inp.channels|
      && Admits(Lookup(inp.local, ratioType, model), Lookup(inp.channels[i].data, ratioType, model))
  }

  ghost function FullItem(inp: Input, model: string, ratioType: string): Item {
    var local := Lookup(inp.local, ratioType, model);
    Item(local, Upstreams(inp.channels, local, model, ratioType), Confidences(inp.channels, model))
  }

  /** Phase one: every admitted item, with an entry for every channel. */
  ghost function Items(inp: Input, model: string): map<string, Item> {
    map t | t in RATIO_TYPES && Admitted(inp, model, t) :: FullItem(inp, model, t)
  }

  ghost function Collected(inp: Input, models: set<string>): Differences {
    map m | m in models && Items(inp, m) != map[] :: Items(inp, m)
  }

  /** The channels that show a concrete value somewhere. */
  ghost function ConcreteIn(item: Item): set<string> {
    set n | n in item.upstreams && Concrete(item.upstreams[n])
  }

  ghost function ConcreteInModel(items: map<string, Item>): set<string> {
    set t, n | t in items && n in ConcreteIn(items[t]) :: n
  }

  ghost function Active(d: Differences): set<string> {
    set m, n | m in d && n in ConcreteInModel(d[m]) :: n
  }

  /** Phase two: inactive channels go, then items that say nothing, then models without items. */
  ghost function PrunedItem(item: Item, active: set<string>): Item {
    var gone := item.upstreams.Keys - active;
    item.(upstreams := item.upstreams - gone, confidence := item.confidence - gone)
  }

  ghost predicate SaysSomething(item: Item) {
    exists n :: n in item.upstreams && item.upstreams[n] != SAME
  }

  ghost function PrunedItems(items: map<string, Item>, active: set<string>): map<string, Item> {
    map t | t in items && SaysSomething(PrunedItem(items[t], active)) :: PrunedItem(items[t], active)
  }

  ghost function Pruned(d: Differences, active: set<string>): Differences {
    map m | m in d && PrunedItems(d[m], active) != map[] :: PrunedItems(d[m], active)
  }

  ghost function AllModels(inp: Input): set<string> {
    (set t, m | t in RATIO_TYPES && t in inp.local && m in inp.local[t] :: m)
    + (set i, t, m | 0 <= i < |inp.channels| && t in RATIO_TYPES && t in inp.channels[i].data && m in inp.channels[i].data[t] :: m)
  }

  ghost function Result(inp: Input): Differences {
    var d := Collected(inp, AllModels(inp));
    Pruned(d, Active(d))
  }

  // ---------------------------------------------------------------- the two phases as the gateway runs them

  /** The models named under any ratio type, by the local tables or by one channel. */
  method ModelsIn<T>(data: map<string, map<string, T>>) returns (models: set<string>)
    ensures models == set t, m | t in RATIO_TYPES && t in data && m in data[t] :: m
  {
    models := {};
    for k := 0 to |RATIO_TYPES|
      invariant models == set t, m | t in RATIO_TYPES[..k] && t in data && m in data[t] :: m
    {
      var t := RATIO_TYPES[k];
      assert RATIO_TYPES[..k + 1] == RATIO_TYPES[..k] + [t];
      if t in data {
        models := models + data[t].Keys;
      }
    }
    assert RATIO_TYPES[..|RATIO_TYPES|] == RATIO_TYPES;
  }

  method CollectModels(inp: Input) returns (models: set<string>)
    ensures models == AllModels(inp)
  {
    models := ModelsIn(inp.local);
    ghost var localModels := models;
    for i := 0 to |inp.channels|
      invariant models == localModels
        + (set j, t, m | 0 <= j < i && t in RATIO_TYPES && t in inp.channels[j].data && m in inp.channels[j].data[t] :: m)
    {
      var more := ModelsIn(inp.channels[i].data);
      models := models + more;
    }
  }

  lemma NoChannels(local: Option<real>, model: string, ratioType: string)
    ensures Upstreams([], local, model, ratioType) == map[] && Confidences([], model) == map[]
  {
  }

  lemma OneMoreChannel(channels: seq<Channel>, i: nat, local: Option<real>, model: string, ratioType: string)
    requires i < |channels|
    ensures Upstreams(channels[..i + 1], local, model, ratioType)
         == Upstreams(channels[..i], local, model, ratioType)
              [channels[i].name := Entry(local, Lookup(channels[i].data, ratioType, model))]
    ensures Confidences(channels[..i + 1], model)
         == Confidences(channels[..i], model)[channels[i].name := Confident(channels[i], model)]
  {
    hide Entry, Lookup, Confident;
    assert channels[..i + 1][..i] == channels[..i];
  }

  /** The inner loop over channels, for one model and one ratio type. */
  method BuildItem(inp: Input, model: string, ratioType: string) returns (admitted: bool, item: Item)
    ensures admitted <==> Admitted(inp, model, ratioType)
    ensures item == FullItem(inp, model, ratioType)
  {
    hide Lookup, Confident, NearlyEqual, Upstreams, Confidences;
    NoChannels(Lookup(inp.local, ratioType, model), model, ratioType);
    var localValue := Lookup(inp.local, ratioType, model);
    var upstreamValues: map<string, Json>, confidenceValues: map<string, bool> := map[], map[];
    var hasUpstreamValue, hasDifference := false, false;
    for i := 0 to |inp.channels|
      invariant upstreamValues == Upstreams(inp.channels[..i], localValue, model, ratioType)
      invariant confidenceValues == Confidences(inp.channels[..i], model)
      invariant hasUpstreamValue <==> exists j :: 0 <= j < i && Lookup(inp.channels[j].data, ratioType, model).Some?
      invariant localValue.Some? ==>
        (hasDifference <==> exists j :: 0 <= j < i && Admits(localValue, Lookup(inp.channels[j].data, ratioType, model)))
    {
      OneMoreChannel(inp.channels, i, localValue, model, ratioType);
      var channel := inp.channels[i];
      var upstreamValue := Null;
      var reported := Lookup(channel.data, ratioType, model);
      if reported.Some? {
        upstreamValue := reported.value;
        hasUpstreamValue := true;
        if localValue.Some? && !ValuesEqual(localValue, reported.value) {
          hasDifference := true;
        } else if ValuesEqual(localValue, reported.value) {
          upstreamValue := SAME;
        }
      }
      if upstreamValue == Null && localValue.None? {
        upstreamValue := SAME;
      }
      if localValue.None? && upstreamValue != Null && upstreamValue != SAME {
        hasDifference := true;
      }
      assert upstreamValue == Entry(localValue, reported);
      upstreamValues := upstreamValues[channel.name := upstreamValue];
      confidenceValues := confidenceValues[channel.name := Confident(channel, model)];
    }
    assert inp.channels[..|inp.channels|] == inp.channels;
    admitted := if localValue.Some? then hasDifference else hasUpstreamValue;
    item := Item(localValue, upstreamValues, confidenceValues);
  }

  method BuildModel(inp: Input, model: string) returns (items: map<string, Item>)
    ensures items == Items(inp, model)
  {
    hide Admitted, FullItem;
    items := map[];
    for k := 0 to |RATIO_TYPES|
      invariant items == map t | t in RATIO_TYPES[..k] && Admitted(inp, model, t) :: FullItem(inp, model, t)
    {
      assert RATIO_TYPES[..k + 1] == RATIO_TYPES[..k] + [RATIO_TYPES[k]];
      var admitted, item := BuildItem(inp, model, RATIO_TYPES[k]);
      if admitted {
        items := items[RATIO_TYPES[k] := item];
      }
    }
    assert RATIO_TYPES[..|RATIO_TYPES|] == RATIO_TYPES;
  }

  method MarkActive(d: Differences) returns (active: set<string>)
    ensures active == Active(d)
  {
    active := {};
    var todo := d.Keys;
    while todo != {}
      invariant todo <= d.Keys && active == set m, n | m in d.Keys - todo && n in ConcreteInModel(d[m]) :: n
      decreases |todo|
    {
      var model :| model in todo;
      var more := MarkModel(d[model]);
      active := active + more;
      todo := todo - {model};
    }
    assert d.Keys - todo == d.Keys;
  }

  method MarkModel(items: map<string, Item>) returns (active: set<string>)
    ensures active == ConcreteInModel(items)
  {
    active := {};
    var todo := items.Keys;
    while todo != {}
      invariant todo <= items.Keys && active == set t, n | t in items.Keys - todo && n in ConcreteIn(items[t]) :: n
      decreases |todo|
    {
      var t :| t in todo;
      var names := items[t].upstreams.Keys;
      var more: set<string> := {};
      while names != {}
        invariant names <= items[t].upstreams.Keys
        invariant more == set n | n in items[t].upstreams.Keys - names && Concrete(items[t].upstreams[n])
        decreases |names|
      {
        var n :| n in names;
        if Concrete(items[t].upstreams[n]) {
          more := more + {n};
        }
        names := names - {n};
      }
      assert more == ConcreteIn(items[t]);
      active := active + more;
      todo := todo - {t};
    }
    assert items.Keys - todo == items.Keys;
  }

  lemma MinusOne<T>(m: map<string, T>, gone: set<string>, n: string)
    ensures m - gone - {n} == m - (gone + {n})
  {
  }

  method RemoveInactive(item: Item, active: set<string>) returns (pruned: Item)
    ensures pruned == PrunedItem(item, active)
  {
    var upstreams, confidence := item.upstreams, item.confidence;
    var names := item.upstreams.Keys;
    ghost var gone: set<string> := {};
    while names != {}
      invariant names <= item.upstreams.Keys && gone == item.upstreams.Keys - names - active
      invariant upstreams == item.upstreams - gone && confidence == item.confidence - gone
      decreases |names|
    {
      var n :| n in names;
      if n !in active {
        MinusOne(item.upstreams, gone, n);
        MinusOne(item.confidence, gone, n);
        upstreams := upstreams - {n};
        confidence := confidence - {n};
        gone := gone + {n};
      }
      names := names - {n};
    }
    pruned := item.(upstreams := upstreams, confidence := confidence);
  }

  method PruneItem(item: Item, active: set<string>) returns (keep: bool, pruned: Item)
    ensures pruned == PrunedItem(item, active) && (keep <==> SaysSomething(pruned))
  {
    hide PrunedItem;
    pruned := RemoveInactive(item, active);
    var allSame := AllSame(pruned.upstreams);
    keep := |pruned.upstreams| != 0 && !allSame;
  }

  method AllSame(upstreams: map<string, Json>) returns (allSame: bool)
    ensures allSame <==> forall n :: n in upstreams ==> upstreams[n] == SAME
  {
    var names := upstreams.Keys;
    while names != {}
      invariant names <= upstreams.Keys
      invariant forall n :: n in upstreams && n !in names ==> upstreams[n] == SAME
      decreases |names|
    {
      var n :| n in names;
      if upstreams[n] != SAME {
        return false;
      }
      names := names - {n};
    }
    return true;
  }

  method PruneModel(items: map<string, Item>, active: set<string>) returns (pruned: map<string, Item>)
    ensures pruned == PrunedItems(items, active)
  {
    hide PrunedItem, SaysSomething;
    pruned := items;
    var todo := items.Keys;
    while todo != {}
      invariant todo <= items.Keys
      invariant pruned == map t | t in items && (t in todo || SaysSomething(PrunedItem(items[t], active)))
                          :: if t in todo then items[t] else PrunedItem(items[t], active)
      decreases |todo|
    {
      var t :| t in todo;
      var keep, item := PruneItem(items[t], active);
      pruned := if keep then pruned[t := item] else pruned - {t};
      todo := todo - {t};
    }
  }

  method BuildDifferences(inp: Input) returns (differences: Differences)
    ensures differences == Result(inp)
  {
    hide AllModels, Items, ConcreteInModel, PrunedItems;
    var models := CollectModels(inp);
    differences := map[];
    var todo := models;
    while todo != {}
      invariant todo <= models && differences == Collected(inp, models - todo)
      decreases |todo|
    {
      var model :| model in todo;
      var items := BuildModel(inp, model);
      if items != map[] {
        differences := differences[model := items];
      }
      todo := todo - {model};
    }
    assert models - todo == models;
    var active := MarkActive(differences);
    differences := Prune(differences, active);
  }

  method Prune(d: Differences, active: set<string>) returns (differences: Differences)
    ensures differences == Pruned(d, active)
  {
    hide PrunedItems;
    differences := d;
    var todo := d.Keys;
    while todo != {}
      invariant todo <= d.Keys
      invariant differences == map m | m in d && (m in todo || PrunedItems(d[m], active) != map[])
                               :: if m in todo then d[m] else PrunedItems(d[m], active)
      decreases |todo|
    {
      var model :| model in todo;
      var items := PruneModel(d[model], active);
      differences := if items == map[] then differences - {model} else differences[model := items];
      todo := todo - {model};
    }
  }

  // ---------------------------------------------------------------- what the result says

  ghost predicate DistinctNames(inp: Input) {
    forall i, j :: 0 <= i < j < |inp.channels| ==> inp.channels[i].name != inp.channels[j].name
  }

  function Local(inp: Input, model: string, ratioType: string): Option<real> {
    Lookup(inp.local, ratioType, model)
  }

  function Reported(inp: Input, i: nat, model: string, ratioType: string): Option<Json>
    requires i < |inp.channels|
  {
    Lookup(inp.channels[i].data, ratioType, model)
  }

  function EntryOf(inp: Input, i: nat, model: string, ratioType: string): Json
    requires i < |inp.channels|
  {
    Entry(Local(inp, model, ratioType), Reported(inp, i, model, ratioType))
  }

  /** A channel is shown at all iff it has a concrete value in some admitted item. */
  ghost predicate Shown(inp: Input, i: nat)
    requires i < |inp.channels|
  {
    exists m, t :: t in RATIO_TYPES && Admitted(inp, m, t) && Concrete(EntryOf(inp, i, m, t))
  }

  ghost predicate HasItem(d: Differences, model: string, ratioType: string) {
    model in d && ratioType in d[model]
  }

  lemma {:induction false} UpstreamsAt(channels: seq<Channel>, local: Option<real>, model: string, ratioType: string, i: nat)
    requires i < |channels| && forall j, k :: 0 <= j < k < |channels| ==> channels[j].name != channels[k].name
    ensures var u := Upstreams(channels, local, model, ratioType);
            channels[i].name in u && u[channels[i].name] == Entry(local, Lookup(channels[i].data, ratioType, model))
    ensures var c := Confidences(channels, model);
            channels[i].name in c && c[channels[i].name] == Confident(channels[i], model)
  {
    hide Entry, Lookup, Confident;
    var n := |channels| - 1;
    if i < n { UpstreamsAt(channels[..n], local, model, ratioType, i); }
  }

  lemma {:induction false} UpstreamNames(channels: seq<Channel>, local: Option<real>, model: string, ratioType: string, name: string)
    ensures name in Upstreams(channels, local, model, ratioType) <==> exists i :: 0 <= i < |channels| && channels[i].name == name
  {
    hide Entry, Lookup;
    if channels != [] {
      var n := |channels| - 1;
      UpstreamNames(channels[..n], local, model, ratioType, name);
      assert forall i :: 0 <= i < n ==> channels[..n][i] == channels[i];
    }
  }

  lemma AdmittedIsModel(inp: Input, model: string, ratioType: string)
    requires ratioType in RATIO_TYPES && Admitted(inp, model, ratioType)
    ensures model in AllModels(inp)
  {
    var i :| 0 <= i < |inp.channels| && Admits(Lookup(inp.local, ratioType, model), Lookup(inp.channels[i].data, ratioType, model));
    assert ratioType in inp.channels[i].data && model in inp.channels[i].data[ratioType];
  }

  lemma CollectedAt(inp: Input, model: string, ratioType: string)
    ensures var d := Collected(inp, AllModels(inp));
            && (HasItem(d, model, ratioType) <==> ratioType in RATIO_TYPES && Admitted(inp, model, ratioType))
            && (HasItem(d, model, ratioType) ==> d[model][ratioType] == FullItem(inp, model, ratioType))
  {
    if ratioType in RATIO_TYPES && Admitted(inp, model, ratioType) {
      AdmittedIsModel(inp, model, ratioType);
      hide AllModels, Admitted, FullItem;
      assert ratioType in Items(inp, model);
    }
  }

  lemma ActiveAt(inp: Input, i: nat)
    requires i < |inp.channels| && DistinctNames(inp)
    ensures inp.channels[i].name in Active(Collected(inp, AllModels(inp))) <==> Shown(inp, i)
  {
    var d, name := Collected(inp, AllModels(inp)), inp.channels[i].name;
    if Shown(inp, i) {
      var m, t :| t in RATIO_TYPES && Admitted(inp, m, t) && Concrete(EntryOf(inp, i, m, t));
      CollectedAt(inp, m, t);
      UpstreamsAt(inp.channels, Local(inp, m, t), m, t, i);
      hide Collected, Concrete, Upstreams, Admitted, Lookup, Entry;
      assert name in ConcreteIn(d[m][t]) && name in ConcreteInModel(d[m]);
    }
    if name in Active(d) {
      hide Collected, Concrete, Upstreams, Admitted, Lookup, Entry;
      var m :| m in d && name in ConcreteInModel(d[m]);
      var t :| t in d[m] && name in ConcreteIn(d[m][t]);
      assert HasItem(d, m, t);
      CollectedAt(inp, m, t);
      UpstreamsAt(inp.channels, Local(inp, m, t), m, t, i);
      assert Concrete(EntryOf(inp, i, m, t));
    }
  }

  lemma PrunedAt(d: Differences, active: set<string>, model: string, ratioType: string)
    ensures HasItem(Pruned(d, active), model, ratioType)
       <==> HasItem(d, model, ratioType) && SaysSomething(PrunedItem(d[model][ratioType], active))
    ensures HasItem(Pruned(d, active), model, ratioType) ==>
              Pruned(d, active)[model][ratioType] == PrunedItem(d[model][ratioType], active)
  {
    hide SaysSomething, PrunedItem;
    if HasItem(d, model, ratioType) && SaysSomething(PrunedItem(d[model][ratioType], active)) {
      assert ratioType in PrunedItems(d[model], active);
    }
  }

  /** An item that holds every channel's entry and confidence, and a set that holds just the shown channels. */
  ghost predicate Faithful(inp: Input, model: string, ratioType: string, full: Item, active: set<string>) {
    forall i :: 0 <= i < |inp.channels| ==>
      var name := inp.channels[i].name;
      && name in full.upstreams && full.upstreams[name] == EntryOf(inp, i, model, ratioType)
      && name in full.confidence && full.confidence[name] == Confident(inp.channels[i], model)
      && (name in active <==> Shown(inp, i))
  }

  /** A pruned item: the entries and confidences of just the shown channels. */
  ghost predicate ShowsChannels(inp: Input, model: string, ratioType: string, item: Item) {
    forall i :: 0 <= i < |inp.channels| ==>
      var name := inp.channels[i].name;
      && (name in item.upstreams <==> Shown(inp, i)) && (name in item.confidence <==> Shown(inp, i))
      && (Shown(inp, i) ==> item.upstreams[name] == EntryOf(inp, i, model, ratioType)
                            && item.confidence[name] == Confident(inp.channels[i], model))
  }

  lemma FullIsFaithful(inp: Input, model: string, ratioType: string)
    requires DistinctNames(inp)
    ensures Faithful(inp, model, ratioType, FullItem(inp, model, ratioType), Active(Collected(inp, AllModels(inp))))
  {
    hide Shown, Confident, Lookup, Entry, Upstreams, Confidences, Active, Collected;
    forall i | 0 <= i < |inp.channels|
      ensures var name, full := inp.channels[i].name, FullItem(inp, model, ratioType);
              && name in full.upstreams && full.upstreams[name] == EntryOf(inp, i, model, ratioType)
              && name in full.confidence && full.confidence[name] == Confident(inp.channels[i], model)
              && (name in Active(Collected(inp, AllModels(inp))) <==> Shown(inp, i))
    {
      UpstreamsAt(inp.channels, Local(inp, model, ratioType), model, ratioType, i);
      ActiveAt(inp, i);
    }
  }

  lemma PrunedShows(inp: Input, model: string, ratioType: string, full: Item, active: set<string>)
    requires full == FullItem(inp, model, ratioType) && Faithful(inp, model, ratioType, full, active)
    ensures ShowsChannels(inp, model, ratioType, PrunedItem(full, active))
    ensures SaysSomething(PrunedItem(full, active))
       <==> exists i :: 0 <= i < |inp.channels| && Shown(inp, i) && EntryOf(inp, i, model, ratioType) != SAME
  {
    hide Shown, Entry, EntryOf, Upstreams, Confidences, Confident;
    var pruned := PrunedItem(full, active);
    if SaysSomething(pruned) {
      var name :| name in pruned.upstreams && pruned.upstreams[name] != SAME;
      UpstreamNames(inp.channels, Lookup(inp.local, ratioType, model), model, ratioType, name);
      var i :| 0 <= i < |inp.channels| && inp.channels[i].name == name;
      assert Shown(inp, i) && EntryOf(inp, i, model, ratioType) != SAME;
    }
    if i :| 0 <= i < |inp.channels| && Shown(inp, i) && EntryOf(inp, i, model, ratioType) != SAME {
      assert inp.channels[i].name in pruned.upstreams;
    }
  }

  /** Main result, for any reported JSON: an item is shown iff it was admitted and some shown channel has
      an entry other than "same"; it shows the local value and, for just the shown channels, their entry
      and whether their prices can be trusted. */
  lemma ResultAt(inp: Input, model: string, ratioType: string)
    requires DistinctNames(inp)
    ensures HasItem(Result(inp), model, ratioType)
       <==> ratioType in RATIO_TYPES && Admitted(inp, model, ratioType)
            && exists i :: 0 <= i < |inp.channels| && Shown(inp, i) && EntryOf(inp, i, model, ratioType) != SAME
    ensures HasItem(Result(inp), model, ratioType) ==>
              var item := Result(inp)[model][ratioType];
              item.current == Local(inp, model, ratioType) && ShowsChannels(inp, model, ratioType, item)
  {
    hide Collected, Active, Pruned, Admitted, Shown, EntryOf, AllModels, ShowsChannels, SaysSomething, Faithful, Upstreams, Confidences;
    var d := Collected(inp, AllModels(inp));
    var active := Active(d);
    CollectedAt(inp, model, ratioType);
    PrunedAt(d, active, model, ratioType);
    FullIsFaithful(inp, model, ratioType);
    PrunedShows(inp, model, ratioType, FullItem(inp, model, ratioType), active);
  }

  // ---------------------------------------------------------------- numeric reports

  ghost predicate Numeric(inp: Input) {
    forall i, m, t :: 0 <= i < |inp.channels| && Has(inp.channels[i].data, m, t) ==> inp.channels[i].data[t][m].Num?
  }

  function Abs(x: real): real {
    if x < 0.0 then -x else x
  }

  /** A table has a value for a model under a ratio type. */
  predicate Has<T>(data: map<string, map<string, T>>, model: string, ratioType: string) {
    ratioType in data && model in data[ratioType]
  }

  predicate IsRatioType(t: string) {
    t == "model_ratio" || t == "completion_ratio" || t == "cache_ratio" || t == "model_price"
  }

  lemma FourTypes(t: string)
    ensures t in RATIO_TYPES <==> IsRatioType(t)
  {
    assert RATIO_TYPES[0] == "model_ratio" && RATIO_TYPES[1] == "completion_ratio";
    assert RATIO_TYPES[2] == "cache_ratio" && RATIO_TYPES[3] == "model_price";
  }

  lemma LookupMeans<T>(data: map<string, map<string, T>>, model: string, ratioType: string)
    ensures Lookup(data, ratioType, model).Some? <==> Has(data, model, ratioType)
    ensures Has(data, model, ratioType) ==> Lookup(data, ratioType, model).value == data[ratioType][model]
  {
  }

  /** A channel's entry and what makes an item worth showing, for any JSON: a value that is not a number differs
      from any local one, and null is taken for no value where there is no local one. */
  lemma EntryMeans(local: Option<real>, reported: Option<Json>)
    ensures Entry(local, reported) == (
              if reported.None? then (if local.None? then Str("same") else Null)
              else if local.None? then (if reported.value == Null then Str("same") else reported.value)
              else if reported.value.Num? && Abs(local.value - reported.value.n) < 0.000000001 then Str("same")
              else reported.value)
    ensures Admits(local, reported) <==>
              && reported.Some?
              && (local.None? || !(reported.value.Num? && Abs(local.value - reported.value.n) < 0.000000001))
  {
  }

  /** The one-line definition: the channel reports a value and the local table has none, or one at least 1e-9 away. */
  ghost predicate Differs(inp: Input, i: nat, model: string, ratioType: string)
    requires i < |inp.channels|
  {
    var data := inp.channels[i].data;
    && Has(data, model, ratioType) && data[ratioType][model].Num?
    && (Has(inp.local, model, ratioType) ==>
          Abs(inp.local[ratioType][model] - data[ratioType][model].n) >= 0.000000001)
  }

  lemma DiffersIsConcrete(inp: Input, i: nat, model: string, ratioType: string)
    requires i < |inp.channels| && Numeric(inp)
    ensures Differs(inp, i, model, ratioType) <==> Concrete(EntryOf(inp, i, model, ratioType))
    ensures Differs(inp, i, model, ratioType) <==> Admits(Local(inp, model, ratioType), Reported(inp, i, model, ratioType))
  {
    hide Lookup, Entry, Admits;
    LookupMeans(inp.local, model, ratioType);
    LookupMeans(inp.channels[i].data, model, ratioType);
    EntryMeans(Local(inp, model, ratioType), Reported(inp, i, model, ratioType));
  }

  lemma AdmittedNumeric(inp: Input, model: string, ratioType: string)
    requires Numeric(inp)
    ensures Admitted(inp, model, ratioType) <==> exists i :: 0 <= i < |inp.channels| && Differs(inp, i, model, ratioType)
  {
    hide Differs, Admits, Lookup;
    forall i | 0 <= i < |inp.channels|
      ensures Differs(inp, i, model, ratioType) <==> Admits(Local(inp, model, ratioType), Lookup(inp.channels[i].data, ratioType, model))
    {
      DiffersIsConcrete(inp, i, model, ratioType);
    }
  }

  lemma DiffersIsShown(inp: Input, i: nat, model: string, ratioType: string)
    requires i < |inp.channels| && Numeric(inp) && ratioType in RATIO_TYPES && Differs(inp, i, model, ratioType)
    ensures Shown(inp, i) && EntryOf(inp, i, model, ratioType) != SAME
  {
    DiffersIsConcrete(inp, i, model, ratioType);
    AdmittedNumeric(inp, model, ratioType);
  }

  /** Main result for numeric reports: an item is shown iff some channel's value differs from the local one. */
  lemma SoundAndComplete(inp: Input, model: string, ratioType: string)
    requires DistinctNames(inp) && Numeric(inp)
    ensures HasItem(Result(inp), model, ratioType)
       <==> IsRatioType(ratioType) && exists i :: 0 <= i < |inp.channels| && Differs(inp, i, model, ratioType)
  {
    hide Result, Differs, Shown, Admitted, EntryOf, Numeric, IsRatioType;
    FourTypes(ratioType);
    ResultAt(inp, model, ratioType);
    AdmittedNumeric(inp, model, ratioType);
    if ratioType in RATIO_TYPES {
      if i :| 0 <= i < |inp.channels| && Differs(inp, i, model, ratioType) {
        DiffersIsShown(inp, i, model, ratioType);
      }
    }
  }

  /** What a shown item says of a channel: "same", nil or its raw value, and confidence false exactly on the
      37.5 / 1.0 pair. */
  ghost predicate Says(inp: Input, model: string, ratioType: string, i: nat, item: Item)
    requires i < |inp.channels|
  {
    var name, data := inp.channels[i].name, inp.channels[i].data;
    && name in item.upstreams && name in item.confidence
    && item.upstreams[name] == (
         if !Has(data, model, ratioType) then (if Has(inp.local, model, ratioType) then Null else Str("same"))
         else if Has(inp.local, model, ratioType) && data[ratioType][model].Num? &&
                 Abs(inp.local[ratioType][model] - data[ratioType][model].n) < 0.000000001 then Str("same")
         else data[ratioType][model])
    && (!item.confidence[name] <==>
          && Has(data, model, "model_ratio") && data["model_ratio"][model] == Num(37.5)
          && Has(data, model, "completion_ratio") && data["completion_ratio"][model] == Num(1.0))
  }

  /** Main result for numeric reports: a shown item has the local value, and exactly the channels that differ
      somewhere, each with what it says. */
  lemma EntriesExactly(inp: Input, model: string, ratioType: string, i: nat)
    requires DistinctNames(inp) && Numeric(inp) && i < |inp.channels|
    ensures HasItem(Result(inp), model, ratioType) ==>
            var item, name := Result(inp)[model][ratioType], inp.channels[i].name;
            && item.current == (if Has(inp.local, model, ratioType) then Some(inp.local[ratioType][model]) else None)
            && (name in item.upstreams <==> exists m, t :: IsRatioType(t) && Differs(inp, i, m, t))
            && (name in item.upstreams ==> Says(inp, model, ratioType, i, item))
  {
    hide Result, Lookup, Shown, Differs, Confident, Numeric, IsRatioType, Entry;
    ResultAt(inp, model, ratioType);
    ShownNumeric(inp, i);
    ConfidentMeans(inp, i, model);
    LookupMeans(inp.local, model, ratioType);
    LookupMeans(inp.channels[i].data, model, ratioType);
    EntryMeans(Local(inp, model, ratioType), Reported(inp, i, model, ratioType));
    ReportIsNumeric(inp, i, model, ratioType);
  }

  lemma ReportIsNumeric(inp: Input, i: nat, model: string, ratioType: string)
    requires i < |inp.channels| && Numeric(inp)
    ensures Has(inp.channels[i].data, model, ratioType) ==> inp.channels[i].data[ratioType][model].Num?
  {
    hide Lookup;
  }

  lemma ConfidentMeans(inp: Input, i: nat, model: string)
    requires i < |inp.channels|
    ensures var data := inp.channels[i].data;
            (!Confident(inp.channels[i], model) <==>
               && Has(data, model, "model_ratio") && data["model_ratio"][model] == Num(37.5)
               && Has(data, model, "completion_ratio") && data["completion_ratio"][model] == Num(1.0))
  {
    hide Lookup;
    LookupMeans(inp.channels[i].data, model, "model_ratio");
    LookupMeans(inp.channels[i].data, model, "completion_ratio");
  }

  lemma ShownNumeric(inp: Input, i: nat)
    requires i < |inp.channels| && Numeric(inp)
    ensures Shown(inp, i) <==> exists m, t :: IsRatioType(t) && Differs(inp, i, m, t)
  {
    hide Lookup, Entry, EntryOf, Differs, Admitted, Numeric, IsRatioType;
    if m, t :| IsRatioType(t) && Differs(inp, i, m, t) {
      FourTypes(t);
      DiffersIsShown(inp, i, m, t);
    }
    if Shown(inp, i) {
      var m, t :| t in RATIO_TYPES && Admitted(inp, m, t) && Concrete(EntryOf(inp, i, m, t));
      FourTypes(t);
      DiffersIsConcrete(inp, i, m, t);
    }
  }

  /** Main result for numeric reports: pruning removes channels but never an item or a model. */
  lemma PruningKeepsEveryItem(inp: Input, model: string, ratioType: string)
    requires DistinctNames(inp) && Numeric(inp)
    ensures HasItem(Result(inp), model, ratioType) <==> HasItem(Collected(inp, AllModels(inp)), model, ratioType)
  {
    hide Result, Differs, Admitted, Numeric, IsRatioType;
    FourTypes(ratioType);
    SoundAndComplete(inp, model, ratioType);
    CollectedAt(inp, model, ratioType);
    AdmittedNumeric(inp, model, ratioType);
  }

  /** With a null report pruning does delete: the item is admitted, yet nothing of it is shown. */
  lemma NullReportVanishes()
    ensures var inp := Input(map["model_price" := map["m" := 1.0]], [Channel("c", map["model_price" := map["m" := Null]])]);
            HasItem(Collected(inp, AllModels(inp)), "m", "model_price") && !HasItem(Result(inp), "m", "model_price")
  {
    var inp := Input(map["model_price" := map["m" := 1.0]], [Channel("c", map["model_price" := map["m" := Null]])]);
    assert RATIO_TYPES[3] == "model_price";
    assert Admits(Lookup(inp.local, "model_price", "m"), Lookup(inp.channels[0].data, "model_price", "m"));
    forall m, t ensures !Concrete(EntryOf(inp, 0, m, t)) {
    }
    hide Collected, AllModels, Result, EntryOf, Admitted;
    CollectedAt(inp, "m", "model_price");
    ResultAt(inp, "m", "model_price");
  }
}
