/**
 Picking one price per model from the models.dev catalogue, where several providers may offer the
 same model (controller/ratio_sync.go, convertModelsDevToRatioData). Floats are modelled as reals.
 */
module ModelsDev {
  import opened Options
  import opened TextLists
  import opened TextOrder
  import opened RatioDiff

  /** Units of model ratio per dollar and thousand tokens. */
  const USD := 500.0
  const INPUT_COST_RATIO_BASE := 1000.0

  /** Dollars per million tokens; a missing price is None. */
  datatype Cost = Cost(input: Option<real>, output: Option<real>, cacheRead: Option<real>)

  datatype Candidate = Candidate(provider: string, input: real, output: Option<real>, cacheRead: Option<real>)

  /** The catalogue: provider name, model name, cost. */
  type Catalogue = map<string, map<string, Cost>>

  datatype Ratios = Ratios(model: map<string, real>, completion: map<string, real>, cache: map<string, real>)

  datatype Result = Ok(ratios: Ratios) | EmptyResponse | NoValidEntries

  function Get<V>(m: map<string, V>, key: string): Option<V> {
    if key in m then Some(m[key]) else None
  }

  // ---------------------------------------------------------------- candidates

  function BuildCandidate(provider: string, cost: Cost): Option<Candidate> {
    if cost.input.None? || cost.input.value < 0.0 then None
    else if cost.output.Some? && cost.output.value < 0.0 then None
    else if cost.input.value == 0.0 && cost.output.Some? && cost.output.value > 0.0 then None
    else
      var cacheRead := if cost.cacheRead.Some? && cost.cacheRead.value >= 0.0 then cost.cacheRead else None;
      Some(Candidate(provider, cost.input.value, cost.output, cacheRead))
  }

  predicate IsRatio(ratio: real, input: real, output: real) {
    ratio * input == output
  }

  /** An offer is valid exactly when its prices are not negative and the output price is some multiple of
      the input price, so that a completion ratio can express it; a bad cache price is only dropped. */
  lemma ValidWhenExpressible(provider: string, cost: Cost)
    ensures BuildCandidate(provider, cost).Some? <==>
            && cost.input.Some? && cost.input.value >= 0.0
            && (cost.output.None? ||
                (cost.output.value >= 0.0 && exists ratio :: IsRatio(ratio, cost.input.value, cost.output.value)))
    ensures BuildCandidate(provider, cost).Some? ==>
              var c := BuildCandidate(provider, cost).value;
              && c.provider == provider && Some(c.input) == cost.input && c.output == cost.output
              && c.cacheRead == (if cost.cacheRead.Some? && cost.cacheRead.value >= 0.0 then cost.cacheRead else None)
  {
    if cost.input.Some? && cost.output.Some? {
      var input, output := cost.input.value, cost.output.value;
      if input > 0.0 {
        assert IsRatio(output / input, input, output);
      } else if output == 0.0 {
        assert IsRatio(0.0, input, output);
      }
    }
  }

  predicate ShouldReplace(current: Candidate, next: Candidate) {
    var currentNonZero, nextNonZero := current.input > 0.0, next.input > 0.0;
    if currentNonZero != nextNonZero then nextNonZero
    else if nextNonZero && !NearlyEqual(next.input, current.input) then next.input < current.input
    else Less(next.provider, current.provider)
  }

  /** One more offer for a model whose best so far is known. */
  function Step(best: Option<Candidate>, next: Option<Candidate>): Option<Candidate> {
    if next.None? then best
    else if best.None? || ShouldReplace(best.value, next.value) then next
    else best
  }

  /** The outcome of looking at the offers in turn. */
  function Selected(offers: seq<Option<Candidate>>): Option<Candidate> {
    if offers == [] then None
    else Step(Selected(offers[..|offers| - 1]), offers[|offers| - 1])
  }

  /** What a provider offers for a model. */
  function Offer(data: Catalogue, provider: string, model: string): Option<Candidate> {
    if provider in data && model in data[provider] then BuildCandidate(provider, data[provider][model]) else None
  }

  function Offers(data: Catalogue, providers: seq<string>, model: string): seq<Option<Candidate>> {
    seq(|providers|, i requires 0 <= i < |providers| => Offer(data, providers[i], model))
  }

  // ---------------------------------------------------------------- what the selection means

  /** Offers as providers in ascending order make them, with prices that are never negative. */
  ghost predicate InProviderOrder(offers: seq<Option<Candidate>>) {
    && (forall i :: 0 <= i < |offers| && offers[i].Some? ==> offers[i].value.input >= 0.0)
    && (forall i, j :: 0 <= i < j < |offers| && offers[i].Some? && offers[j].Some? ==>
          Less(offers[i].value.provider, offers[j].value.provider))
  }

  predicate NonZero(offer: Option<Candidate>) {
    offer.Some? && offer.value.input > 0.0
  }

  /** Offer i has a price strictly below every earlier priced offer and less than 1e-9 above
      every later one; it is free only if every offer is, and then it is the first. */
  ghost predicate Cheapest(offers: seq<Option<Candidate>>, i: nat)
    requires i < |offers| && offers[i].Some?
  {
    var price := offers[i].value.input;
    && (forall j :: 0 <= j < |offers| && NonZero(offers[j]) ==>
          && 0.0 < price < offers[j].value.input + 0.000000001
          && (j < i ==> price < offers[j].value.input))
    && (price == 0.0 ==> forall j :: 0 <= j < i ==> offers[j].None?)
  }

  lemma AscendingTie(current: Candidate, next: Candidate)
    requires Less(current.provider, next.provider)
    ensures !Less(next.provider, current.provider)
  {
    if Less(next.provider, current.provider) {
      Transitive(current.provider, next.provider, current.provider);
      Irreflexive(current.provider);
    }
  }

  /** Although near-equality is not transitive, scanning in provider order never drifts: ties keep
      the earlier provider, so each replacement lowers the price. */
  lemma {:induction false} SelectedIsCheapest(offers: seq<Option<Candidate>>)
    requires InProviderOrder(offers)
    ensures Selected(offers).None? <==> forall j :: 0 <= j < |offers| ==> offers[j].None?
    ensures Selected(offers).Some? ==>
              exists i :: 0 <= i < |offers| && offers[i] == Selected(offers) && Cheapest(offers, i)
  {
    hide Less;
    if |offers| > 0 {
      var n := |offers| - 1;
      var before := offers[..n];
      SelectedIsCheapest(before);
      assert forall j :: 0 <= j < n ==> offers[j] == before[j];
      var best, next := Selected(before), offers[n];
      if best.Some? {
        var i :| 0 <= i < n && before[i] == best && Cheapest(before, i);
        if next.Some? { AscendingTie(best.value, next.value); }
        if Selected(offers) == best {
          assert Cheapest(offers, i);
        } else {
          assert Cheapest(offers, n);
        }
      } else if next.Some? {
        assert Cheapest(offers, n);
      }
    }
  }

  lemma OffersInOrder(data: Catalogue, providers: seq<string>, model: string)
    requires Ascending(providers)
    ensures InProviderOrder(Offers(data, providers, model))
  {
  }

  // ---------------------------------------------------------------- why the sort is needed

  /** Offers 0..n, each half of 1e-9 dearer than the one before and from a smaller provider name. */
  function Ladder(n: nat, k: nat): (offers: seq<Option<Candidate>>)
    requires k <= n + 1
    ensures |offers| == k
  {
    if k == 0 then [] else Ladder(n, k - 1) + [Rung(n, k - 1)]
  }

  function Rung(n: nat, k: nat): Option<Candidate>
    requires k <= n
  {
    Some(Candidate(seq(n - k, _ => 'a'), 1.0 + k as real * 0.0000000005, None, None))
  }

  lemma {:induction false} ShorterIsLess(m: nat)
    ensures Less(seq(m, _ => 'a'), seq(m + 1, _ => 'a'))
  {
    if m > 0 {
      ShorterIsLess(m - 1);
      assert seq(m, _ => 'a')[1..] == seq(m - 1, _ => 'a');
      assert seq(m + 1, _ => 'a')[1..] == seq(m, _ => 'a');
    }
  }

  /** In descending order every tie moves on to the next, dearer offer: the selected price ends up
      as far above the cheapest one, 1.0, as one likes. */
  lemma {:induction false} DescendingOrderDrifts(n: nat, k: nat)
    requires k <= n
    ensures Ladder(n, k + 1)[0] == Rung(n, 0) && Rung(n, 0).value.input == 1.0
    ensures Selected(Ladder(n, k + 1)) == Rung(n, k)
    ensures Rung(n, k).value.input == 1.0 + k as real * 0.0000000005
  {
    var offers := Ladder(n, k + 1);
    assert offers[..k] == Ladder(n, k);
    if k > 0 {
      DescendingOrderDrifts(n, k - 1);
      ShorterIsLess(n - k);
      assert ShouldReplace(Rung(n, k - 1).value, Rung(n, k).value);
    } else {
      assert Selected(offers[..k]) == None;
    }
  }

  // ---------------------------------------------------------------- publishing

  /** math.Round: to the nearest integer, halves away from zero. */
  function Round(x: real): int {
    if x >= 0.0 then (x + 0.5).Floor else -(0.5 - x).Floor
  }

  function RoundRatioValue(x: real): real {
    Round(x * 1000000.0) as real / 1000000.0
  }

  function ModelRatio(c: Candidate): real {
    if c.input == 0.0 then 0.0 else RoundRatioValue(c.input * USD / INPUT_COST_RATIO_BASE)
  }

  /** A secondary price relative to the input price; free models have none. */
  function RelativeRatio(c: Candidate, price: Option<real>): Option<real> {
    if c.input == 0.0 || price.None? then None else Some(RoundRatioValue(price.value / c.input))
  }

  /** What the ratios say about a model, given its selected offer. */
  ghost predicate Published(ratios: Ratios, model: string, chosen: Option<Candidate>) {
    && Get(ratios.model, model) == (if chosen.None? then None else Some(ModelRatio(chosen.value)))
    && Get(ratios.completion, model) ==
         (if chosen.None? then None else RelativeRatio(chosen.value, chosen.value.output))
    && Get(ratios.cache, model) ==
         (if chosen.None? then None else RelativeRatio(chosen.value, chosen.value.cacheRead))
  }

  // ---------------------------------------------------------------- the loops

  lemma OffersSnoc(data: Catalogue, providers: seq<string>, i: nat, model: string)
    requires i < |providers|
    ensures Selected(Offers(data, providers[..i + 1], model)) ==
            Step(Selected(Offers(data, providers[..i], model)), Offer(data, providers[i], model))
  {
    var more := Offers(data, providers[..i + 1], model);
    assert more[..i] == Offers(data, providers[..i], model);
  }

  lemma NothingYet(data: Catalogue, providers: seq<string>)
    ensures forall m :: Selected(Offers(data, providers[..0], m)) == None
  {
  }

  /** One provider's models, in name order, against the best so far. */
  method SelectFrom(provider: string, models: map<string, Cost>, before: map<string, Candidate>)
    returns (selected: map<string, Candidate>)
    ensures forall m :: Get(selected, m) ==
              Step(Get(before, m), if m in models then BuildCandidate(provider, models[m]) else None)
  {
    hide Less, Sort, BuildCandidate, ShouldReplace;
    selected := before;
    var found := Keys(models);
    SortKeeps(found);
    var names := Sort(found);
    SortAscends(found);
    for j := 0 to |names|
      invariant forall m :: Get(selected, m) ==
                  if m in names[..j] && m in models then Step(Get(before, m), BuildCandidate(provider, models[m]))
                  else Get(before, m)
    {
      var name := names[j];
      assert name in SetOf(names);
      assert name !in names[..j] by { Irreflexive(name); }
      assert forall m :: m in names[..j + 1] <==> m in names[..j] || m == name;
      var candidate := BuildCandidate(provider, models[name]);
      if candidate.Some? {
        if name !in selected || ShouldReplace(selected[name], candidate.value) {
          selected := selected[name := candidate.value];
        }
      }
    }
    assert names[..|names|] == names;
    assert forall m :: m in models <==> m in SetOf(names);
  }

  /** The best offer for every model, over providers in name order. */
  method SelectAll(data: Catalogue) returns (selected: map<string, Candidate>, ghost providers: seq<string>)
    ensures Ascending(providers) && SetOf(providers) == data.Keys
    ensures forall m :: Get(selected, m) == Selected(Offers(data, providers, m))
  {
    hide Less, Sort, Selected;
    var found := Keys(data);
    SortKeeps(found);
    SortAscends(found);
    var sorted := Sort(found);
    selected := map[];
    NothingYet(data, sorted);
    for i := 0 to |sorted|
      invariant forall m :: Get(selected, m) == Selected(Offers(data, sorted[..i], m))
    {
      assert sorted[i] in SetOf(sorted);
      forall m ensures Selected(Offers(data, sorted[..i + 1], m)) ==
                       Step(Selected(Offers(data, sorted[..i], m)), Offer(data, sorted[i], m)) {
        OffersSnoc(data, sorted, i, m);
      }
      if |data[sorted[i]]| > 0 {
        selected := SelectFrom(sorted[i], data[sorted[i]], selected);
      }
    }
    assert sorted[..|sorted|] == sorted;
    providers := sorted;
  }

  /** The ratios of the selected offers, in whatever order the map yields them. */
  method Publish(selected: map<string, Candidate>) returns (ratios: Ratios)
    ensures forall m :: Published(ratios, m, Get(selected, m))
  {
    var model, completion, cache := map[], map[], map[];
    var left := selected.Keys;
    while left != {}
      invariant left <= selected.Keys
      invariant forall m :: Published(Ratios(model, completion, cache), m,
                                      if m in left then None else Get(selected, m))
      decreases left
    {
      var name :| name in left;
      left := left - {name};
      assert Published(Ratios(model, completion, cache), name, None);
      var candidate := selected[name];
      if candidate.input == 0.0 {
        model := model[name := 0.0];
      } else {
        model := model[name := RoundRatioValue(candidate.input * USD / INPUT_COST_RATIO_BASE)];
        if candidate.output.Some? {
          completion := completion[name := RoundRatioValue(candidate.output.value / candidate.input)];
        }
        if candidate.cacheRead.Some? {
          cache := cache[name := RoundRatioValue(candidate.cacheRead.value / candidate.input)];
        }
      }
    }
    ratios := Ratios(model, completion, cache);
  }

  // ---------------------------------------------------------------- the conversion

  ghost function ListOf(keys: set<string>): (names: seq<string>)
    ensures SetOf(names) == keys && Distinct(names)
  {
    if keys == {} then []
    else
      var name :| name in keys;
      var rest := ListOf(keys - {name});
      assert name !in SetOf(rest);
      HeadSet(name, rest);
      [name] + rest
  }

  /** The provider names, ascending. */
  ghost function InOrder(keys: set<string>): (names: seq<string>)
    ensures SetOf(names) == keys && Ascending(names)
  {
    SortKeeps(ListOf(keys));
    SortAscends(ListOf(keys));
    Sort(ListOf(keys))
  }

  /** The offer the catalogue's prices for a model come from. */
  ghost function Chosen(data: Catalogue, model: string): Option<Candidate> {
    Selected(Offers(data, InOrder(data.Keys), model))
  }

  /** convertModelsDevToRatioData on decoded data: the result is a function of the catalogue, however
      its maps are walked. */
  method Convert(data: Catalogue) returns (r: Result)
    ensures r.EmptyResponse? <==> data.Keys == {}
    ensures r.NoValidEntries? <==> data.Keys != {} && forall m :: Chosen(data, m).None?
    ensures r.Ok? ==> forall m :: Published(r.ratios, m, Chosen(data, m))
  {
    if |data| == 0 {
      return EmptyResponse;
    }
    var selected;
    ghost var providers;
    selected, providers := SelectAll(data);
    OneAscendingListing(providers, InOrder(data.Keys));
    assert forall m :: Get(selected, m) == Chosen(data, m);
    if |selected| == 0 {
      return NoValidEntries;
    }
    var m :| m in selected;
    assert Get(selected, m).Some?;
    var ratios := Publish(selected);
    return Ok(ratios);
  }

  /** Provider p's offer, against every other provider's: less than 1e-9 above the cheapest non-zero
      price, strictly below those of smaller provider names; free only if all are, and then p is first. */
  ghost predicate BestProvider(data: Catalogue, model: string, p: string)
    requires Offer(data, p, model).Some?
  {
    var price := Offer(data, p, model).value.input;
    forall q :: q in data && Offer(data, q, model).Some? ==>
      var other := Offer(data, q, model).value.input;
      if other > 0.0 then 0.0 < price < other + 0.000000001 && (Less(q, p) ==> price < other)
      else price == 0.0 ==> !Less(q, p)
  }

  lemma PlaceOf(providers: seq<string>, q: string) returns (j: nat)
    requires q in SetOf(providers)
    ensures j < |providers| && providers[j] == q
  {
    j :| 0 <= j < |providers| && providers[j] == q;
  }

  lemma LessMeansEarlier(providers: seq<string>, j: nat, i: nat)
    requires Ascending(providers)
    requires j < |providers| && i < |providers| && Less(providers[j], providers[i])
    ensures j < i
  {
    if i == j {
      Irreflexive(providers[i]);
    } else if i < j {
      Transitive(providers[i], providers[j], providers[i]);
      Irreflexive(providers[i]);
    }
  }

  lemma CheapestIsBest(data: Catalogue, providers: seq<string>, model: string, i: nat)
    requires Ascending(providers) && SetOf(providers) == data.Keys
    requires i < |providers| && Offer(data, providers[i], model).Some?
    requires Cheapest(Offers(data, providers, model), i)
    ensures BestProvider(data, model, providers[i])
  {
    hide Less, BuildCandidate;
    var offers, p := Offers(data, providers, model), providers[i];
    forall q | q in data && Offer(data, q, model).Some?
      ensures var price, other := Offer(data, p, model).value.input, Offer(data, q, model).value.input;
              if other > 0.0 then 0.0 < price < other + 0.000000001 && (Less(q, p) ==> price < other)
              else price == 0.0 ==> !Less(q, p)
    {
      var j := PlaceOf(providers, q);
      assert offers[j] == Offer(data, q, model);
      if Less(q, p) { LessMeansEarlier(providers, j, i); }
    }
  }

  lemma SomeOffer(data: Catalogue, providers: seq<string>, model: string)
    requires SetOf(providers) == data.Keys
    ensures var offers := Offers(data, providers, model);
            (forall j :: 0 <= j < |offers| ==> offers[j].None?) <==> forall p :: p in data ==> Offer(data, p, model).None?
  {
    hide Offer;
    var offers := Offers(data, providers, model);
    forall p | p in data ensures exists j :: 0 <= j < |offers| && offers[j] == Offer(data, p, model) {
      var j := PlaceOf(providers, p);
      assert offers[j] == Offer(data, p, model);
    }
    forall j | 0 <= j < |offers| ensures providers[j] in data { assert providers[j] in SetOf(providers); }
  }

  /** The published offer in the catalogue's own terms: there is one iff some provider makes a valid one,
      and it is a best provider's. */
  lemma ChosenIsCheapest(data: Catalogue, model: string)
    ensures Chosen(data, model).None? <==> forall p :: p in data ==> Offer(data, p, model).None?
    ensures Chosen(data, model).Some? ==>
              exists p :: p in data && Offer(data, p, model) == Chosen(data, model) && BestProvider(data, model, p)
  {
    hide Selected, Offer, Offers, Cheapest, BestProvider, InOrder, InProviderOrder;
    var providers := InOrder(data.Keys);
    var offers := Offers(data, providers, model);
    OffersInOrder(data, providers, model);
    SelectedIsCheapest(offers);
    SomeOffer(data, providers, model);
    if Chosen(data, model).Some? {
      var i :| 0 <= i < |offers| && offers[i] == Selected(offers) && Cheapest(offers, i);
      OfferAt(data, providers, model, i);
      CheapestIsBest(data, providers, model, i);
      assert providers[i] in SetOf(providers);
    }
  }

  lemma OfferAt(data: Catalogue, providers: seq<string>, model: string, i: nat)
    requires i < |Offers(data, providers, model)|
    ensures i < |providers| && Offers(data, providers, model)[i] == Offer(data, providers[i], model)
  {
  }

  /** Rounding loses at most half a millionth, yet a priced model is published as free exactly when it
      costs less than a millionth of a dollar per million tokens. */
  lemma RoundingCost(c: Candidate)
    requires c.input >= 0.0
    ensures -0.0000005 <= ModelRatio(c) - c.input / 2.0 <= 0.0000005
    ensures ModelRatio(c) == 0.0 <==> c.input < 0.000001
  {
    if c.input > 0.0 {
      var x := c.input * USD / INPUT_COST_RATIO_BASE * 1000000.0;
      assert x == c.input * 500000.0;
      assert Round(x) as real <= x + 0.5 < Round(x) as real + 1.0;
    }
  }

  /** At most half a millionth apart. */
  predicate Near(a: real, b: real) {
    -0.0000005 <= a - b <= 0.0000005
  }

  lemma RoundedIsNear(x: real)
    ensures Near(RoundRatioValue(x), x)
  {
    var y := x * 1000000.0;
    assert -0.5 <= Round(y) as real - y <= 0.5;
    assert RoundRatioValue(x) == Round(y) as real / 1000000.0;
  }

  /** Prices a completion ratio can express. */
  ghost predicate Expressible(cost: Cost) {
    && cost.input.Some? && cost.input.value >= 0.0
    && (cost.output.None? ||
        (cost.output.value >= 0.0 && exists ratio :: IsRatio(ratio, cost.input.value, cost.output.value)))
  }

  ghost predicate Sells(data: Catalogue, p: string, model: string) {
    p in data && model in data[p] && Expressible(data[p][model])
  }

  /** The published ratios are those of p's prices, and none that is priced is cheaper by 1e-9 or more. */
  ghost predicate PricedBy(data: Catalogue, ratios: Ratios, model: string, p: string)
    requires Sells(data, p, model) && model in ratios.model
  {
    var cost := data[p][model];
    var input := cost.input.value;
    && Near(ratios.model[model], input / 2.0) && (ratios.model[model] == 0.0 <==> input < 0.000001)
    && (forall q :: Sells(data, q, model) && data[q][model].input.value > 0.0 ==>
          0.0 < input < data[q][model].input.value + 0.000000001)
    && (model in ratios.completion <==> input > 0.0 && cost.output.Some?)
    && (model in ratios.completion ==> Near(ratios.completion[model], cost.output.value / input))
    && (model in ratios.cache <==> input > 0.0 && cost.cacheRead.Some? && cost.cacheRead.value >= 0.0)
    && (model in ratios.cache ==> Near(ratios.cache[model], cost.cacheRead.value / input))
  }

  lemma OfferMeans(data: Catalogue, p: string, model: string)
    ensures Offer(data, p, model).Some? <==> Sells(data, p, model)
    ensures Sells(data, p, model) ==>
              var c, cost := Offer(data, p, model).value, data[p][model];
              && Some(c.input) == cost.input && c.output == cost.output && c.input >= 0.0
              && c.cacheRead == (if cost.cacheRead.Some? && cost.cacheRead.value >= 0.0 then cost.cacheRead else None)
  {
    hide BuildCandidate, IsRatio;
    if p in data && model in data[p] { ValidWhenExpressible(p, data[p][model]); }
  }

  lemma RatiosOf(data: Catalogue, ratios: Ratios, model: string, p: string)
    requires Sells(data, p, model) && Published(ratios, model, Offer(data, p, model)) && BestProvider(data, model, p)
    ensures model in ratios.model && PricedBy(data, ratios, model, p)
  {
    OfferMeans(data, p, model);
    forall q ensures Offer(data, q, model).Some? <==> Sells(data, q, model) { OfferMeans(data, q, model); }
    forall q | Sells(data, q, model) ensures Some(Offer(data, q, model).value.input) == data[q][model].input {
      OfferMeans(data, q, model);
    }
    hide Offer, Less, RoundRatioValue, ModelRatio, Expressible;
    var c := Offer(data, p, model).value;
    RoundingCost(c);
    if c.input > 0.0 {
      if c.output.Some? { RoundedIsNear(c.output.value / c.input); }
      if c.cacheRead.Some? { RoundedIsNear(c.cacheRead.value / c.input); }
    }
  }

  /** Main result, from the catalogue to the published ratios: a model is published exactly if some provider quotes
      prices a ratio can express, with the ratios of one provider whose price is lowest, up to 1e-9 and rounding. */
  lemma PublishedRatios(data: Catalogue, ratios: Ratios, model: string)
    requires Published(ratios, model, Chosen(data, model))
    ensures model in ratios.model <==> exists p :: Sells(data, p, model)
    ensures model in ratios.model ==> exists p :: Sells(data, p, model) && PricedBy(data, ratios, model, p)
  {
    hide Chosen, Offer, BestProvider, Expressible, PricedBy, ModelRatio, RelativeRatio;
    ChosenIsCheapest(data, model);
    forall p ensures Offer(data, p, model).Some? <==> Sells(data, p, model) { OfferMeans(data, p, model); }
    if Chosen(data, model).Some? {
      var p :| p in data && Offer(data, p, model) == Chosen(data, model) && BestProvider(data, model, p);
      RatiosOf(data, ratios, model, p);
    }
  }
}
