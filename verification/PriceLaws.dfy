/** What a reading costs, in terms of the tariff's own numbers. */
module PriceLaws {
  import opened Wrappers
  import opened Tariffs
  import opened Accounts

  // ---------- time-of-use periods ----------

  predicate FirstToCover(tous: seq<TouPeriod>, u: Usage, i: nat) {
    i < |tous| && tous[i].covers(u.since, u.end) && forall j :: 0 <= j < i ==> !tous[j].covers(u.since, u.end)
  }

  // No modifier applies: periods are switched off, or none of them covers the reading.
  predicate NoPeriod(tariff: Tariff, u: Usage) {
    !tariff.touEnabled || forall i :: 0 <= i < |tariff.tous| ==> !tariff.tous[i].covers(u.since, u.end)
  }

  lemma {:induction false} FirstCoveringIsFirst(tous: seq<TouPeriod>, u: Usage)
    ensures forall i: nat | FirstToCover(tous, u, i) :: FirstCovering(tous, u.since, u.end) == Some(tous[i])
    ensures FirstCovering(tous, u.since, u.end).Some?
            <==> exists i :: 0 <= i < |tous| && tous[i].covers(u.since, u.end)
  {
    if tous != [] && !tous[0].covers(u.since, u.end) {
      FirstCoveringIsFirst(tous[1..], u);
      assert forall i :: 1 <= i < |tous| ==> tous[i] == tous[1..][i - 1];
      forall i: nat | FirstToCover(tous, u, i) ensures FirstCovering(tous, u.since, u.end) == Some(tous[i]) {
        assert FirstToCover(tous[1..], u, i - 1);
      }
    }
  }

  // Period i is the first to cover the reading, and sets this share of the price.
  predicate InPeriod(tariff: Tariff, u: Usage, i: nat, share: real) {
    tariff.touEnabled && FirstToCover(tariff.tous, u, i) && share == tariff.tous[i].percent / 100.0
  }

  lemma NoModifier(tariff: Tariff, rate: real, u: Usage)
    requires NoPeriod(tariff, u) || rate <= 0.0
    ensures Modifier(tariff, rate, u) == None
  {
    hide FirstCovering;
    FirstCoveringIsFirst(tariff.tous, u);
  }

  lemma ModifierOfPeriod(tariff: Tariff, rate: real, u: Usage, i: nat, share: real)
    requires InPeriod(tariff, u, i, share) && rate > 0.0
    ensures Modifier(tariff, rate, u) == Some(share)
  {
    hide FirstCovering;
    FirstCoveringIsFirst(tariff.tous, u);
  }

  lemma CostWithoutModifier(tariff: Tariff, cycleEnergy: real, u: Usage)
    requires cycleEnergy >= 0.0 && u.kwh >= 0.0
    requires NoPeriod(tariff, u) || BaseRate(tariff, cycleEnergy, u.kwh) <= 0.0
    ensures Cost(tariff, cycleEnergy, u) == BaseRate(tariff, cycleEnergy, u.kwh) * u.kwh
  {
    hide Modifier, NoPeriod, BaseRate;
    NoModifier(tariff, BaseRate(tariff, cycleEnergy, u.kwh), u);
  }

  lemma CostInPeriod(tariff: Tariff, cycleEnergy: real, u: Usage, i: nat, share: real)
    requires cycleEnergy >= 0.0 && u.kwh >= 0.0
    requires InPeriod(tariff, u, i, share) && BaseRate(tariff, cycleEnergy, u.kwh) > 0.0
    ensures Cost(tariff, cycleEnergy, u) == BaseRate(tariff, cycleEnergy, u.kwh) * share * u.kwh
  {
    hide Modifier, InPeriod, BaseRate;
    ModifierOfPeriod(tariff, BaseRate(tariff, cycleEnergy, u.kwh), u, i, share);
  }

  // ---------- flat prices ----------

  /** A flat price is paid for every kWh; a missing one is free. */
  lemma FlatPrice(tariff: Tariff, cycleEnergy: real, u: Usage)
    requires cycleEnergy >= 0.0 && u.kwh >= 0.0 && tariff.pricing.Flat?
    ensures tariff.pricing.price.None? ==> Cost(tariff, cycleEnergy, u) == 0.0
    ensures tariff.pricing.price.Some? && (NoPeriod(tariff, u) || tariff.pricing.price.value <= 0.0) ==>
              Cost(tariff, cycleEnergy, u) == tariff.pricing.price.value * u.kwh
  {
    hide Cost, NoPeriod;
    if tariff.pricing.price.None? || NoPeriod(tariff, u) || tariff.pricing.price.value <= 0.0 {
      CostWithoutModifier(tariff, cycleEnergy, u);
    }
  }

  /** In a time-of-use period a positive flat price is paid at the period's percentage. */
  lemma FlatPriceInPeriod(tariff: Tariff, price: real, cycleEnergy: real, u: Usage, i: nat, share: real)
    requires cycleEnergy >= 0.0 && u.kwh >= 0.0 && tariff.pricing == Flat(Some(price)) && price > 0.0
    requires InPeriod(tariff, u, i, share)
    ensures Cost(tariff, cycleEnergy, u) == price * share * u.kwh
  {
    hide Cost, InPeriod;
    CostInPeriod(tariff, cycleEnergy, u, i, share);
  }

  // ---------- block rates ----------

  lemma BlockBase(tariff: Tariff, blocks: seq<BlockRate>, cycleEnergy: real, kwh: real)
    requires cycleEnergy >= 0.0 && kwh >= 0.0 && tariff.pricing == BlockRated(blocks) && AllValid(blocks)
    ensures BaseRate(tariff, cycleEnergy, kwh) * kwh
            == CumulativeCost(blocks, cycleEnergy + kwh) - CumulativeCost(blocks, cycleEnergy)
  {
    hide CumulativeCost, AverageBlockRate;
    AverageRateTelescopes(blocks, cycleEnergy, kwh);
  }

  lemma ScaledProduct(rate: real, share: real, kwh: real, whole: real)
    requires rate * kwh == whole
    ensures rate * share * kwh == whole * share
  {}

  lemma NoRateNoCost(rate: real, kwh: real)
    requires rate <= 0.0 && kwh >= 0.0
    ensures rate * kwh <= 0.0
  {}

  /**
   * With block rates a reading costs the rise of the cumulative cost of the cycle's energy, and in a time-of-use
   * period that rise at the period's percentage.
   */
  lemma BlockPriceInPeriod(
    tariff: Tariff, blocks: seq<BlockRate>, cycleEnergy: real, u: Usage, i: nat, share: real, rise: real)
    requires cycleEnergy >= 0.0 && u.kwh >= 0.0 && tariff.pricing == BlockRated(blocks) && AllValid(blocks)
    requires rise == CumulativeCost(blocks, cycleEnergy + u.kwh) - CumulativeCost(blocks, cycleEnergy)
    ensures NoPeriod(tariff, u) ==> Cost(tariff, cycleEnergy, u) == rise
    ensures InPeriod(tariff, u, i, share) ==> Cost(tariff, cycleEnergy, u) == rise * share
  {
    hide Cost, InPeriod, NoPeriod, CumulativeCost, BaseRate, AllValid;
    BlockBase(tariff, blocks, cycleEnergy, u.kwh);
    var rate := BaseRate(tariff, cycleEnergy, u.kwh);
    if NoPeriod(tariff, u) || rate <= 0.0 {
      CostWithoutModifier(tariff, cycleEnergy, u);
    }
    if InPeriod(tariff, u, i, share) {
      if rate > 0.0 {
        CostInPeriod(tariff, cycleEnergy, u, i, share);
        ScaledProduct(rate, share, u.kwh, rise);
      } else {
        CumulativeCostMonotone(blocks, cycleEnergy, cycleEnergy + u.kwh);
        NoRateNoCost(rate, u.kwh);
        assert rise == 0.0;
      }
    }
  }

  // ---------- signs ----------

  predicate NonNegativePrices(tariff: Tariff) {
    && (match tariff.pricing
        case Flat(price) => price.Some? ==> price.value >= 0.0
        case BlockRated(blocks) => AllValid(blocks))
    && forall i :: 0 <= i < |tariff.tous| ==> tariff.tous[i].percent >= 0.0
  }

  lemma {:induction false} FirstPeriod(tous: seq<TouPeriod>, u: Usage) returns (i: nat)
    requires exists i :: 0 <= i < |tous| && tous[i].covers(u.since, u.end)
    ensures FirstToCover(tous, u, i)
  {
    i := 0;
    while !tous[i].covers(u.since, u.end)
      invariant i < |tous| && forall j :: 0 <= j < i ==> !tous[j].covers(u.since, u.end)
      decreases |tous| - i
    {
      i := i + 1;
    }
  }

  lemma ProductNotNegative(x: real, y: real)
    requires x >= 0.0 && y >= 0.0
    ensures x * y >= 0.0
  {}

  /** With non-negative prices and percentages no reading has a negative cost. */
  lemma CostIsNotNegative(tariff: Tariff, cycleEnergy: real, u: Usage)
    requires cycleEnergy >= 0.0 && u.kwh >= 0.0 && NonNegativePrices(tariff)
    ensures Cost(tariff, cycleEnergy, u) >= 0.0
  {
    hide Cost, BaseRate;
    var rate := BaseRate(tariff, cycleEnergy, u.kwh);
    BaseCostIsNotNegative(tariff, cycleEnergy, u.kwh, rate);
    if NoPeriod(tariff, u) || rate <= 0.0 {
      CostWithoutModifier(tariff, cycleEnergy, u);
    } else {
      var i := FirstPeriod(tariff.tous, u);
      var share := tariff.tous[i].percent / 100.0;
      CostInPeriod(tariff, cycleEnergy, u, i, share);
      ScaledProduct(rate, share, u.kwh, rate * u.kwh);
      ProductNotNegative(rate * u.kwh, share);
    }
  }

  lemma BaseCostIsNotNegative(tariff: Tariff, cycleEnergy: real, kwh: real, rate: real)
    requires cycleEnergy >= 0.0 && kwh >= 0.0 && NonNegativePrices(tariff)
    requires rate == BaseRate(tariff, cycleEnergy, kwh)
    ensures rate * kwh >= 0.0
  {
    hide CumulativeCost, AverageBlockRate;
    match tariff.pricing
    case Flat(price) => ProductNotNegative(rate, kwh);
    case BlockRated(blocks) =>
      BlockBase(tariff, blocks, cycleEnergy, kwh);
      CumulativeCostMonotone(blocks, cycleEnergy, cycleEnergy + kwh);
  }
}
