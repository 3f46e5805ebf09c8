/** Block-rate pricing and its validation: sparkmeter/tariff/tariffdomain.py. */
module Tariffs {
  import opened Wrappers
  import opened Intervals

  // TariffBlockrate.MAX_VALUE
  const MAX_VALUE: int := 65535

  // Energy in [lower, upper) kWh of a cycle costs `value` per kWh; upper 0 means no limit.
  datatype BlockRate = BlockRate(lower: int, upper: int, value: real) {
    predicate Unlimited() { upper == 0 }

    function ValidatedUpper(): int {
      if Unlimited() then MAX_VALUE else upper
    }

    predicate Valid() {
      0 <= lower && 0 <= upper && lower < ValidatedUpper() && 0.0 <= value
    }

    // TariffBlockrate.validate: the first thing wrong with the block, if any.
    function Fault(): (fault: Option<BlockFault>)
      ensures fault.None? <==> Valid()
    {
      if lower < 0 then Some(NegativeLower)
      else if upper < 0 then Some(NegativeUpper)
      else if lower == ValidatedUpper() then Some(EqualBounds(lower, ValidatedUpper()))
      else if lower > ValidatedUpper() then Some(ReversedBounds(lower, ValidatedUpper()))
      else if value < 0.0 then Some(NegativeValue)
      else None
    }

    function AsInterval(): Interval {
      Interval(lower, ValidatedUpper())
    }

    predicate OverlapsEnergy(lo: real, hi: real) {
      var top := if Unlimited() then hi else upper as real;
      if lo == hi then lower as real < lo <= top
      else top > lo && hi > lower as real
    }

    // The multiplier of this block's value in the average over [lo, hi].
    function Multiplier(lo: real, hi: real): real {
      if lo == hi then 1.0
      else
        var overlapLower := Max(lower as real, lo);
        var overlapUpper := if Unlimited() then hi else Min(upper as real, hi);
        overlapUpper - overlapLower
    }

    function Contribution(lo: real, hi: real): real {
      if OverlapsEnergy(lo, hi) then value * Multiplier(lo, hi) else 0.0
    }

    // What the first `energy` kWh of a cycle cost in this block.
    function Charge(energy: real): real {
      value * Used(energy)
    }

    // How much of the first `energy` kWh of a cycle falls in this block.
    function Used(energy: real): real {
      if energy <= lower as real then 0.0
      else if Unlimited() || energy <= upper as real then energy - lower as real
      else upper as real - lower as real
    }
  }

  function Max(a: real, b: real): real { if a >= b then a else b }
  function Min(a: real, b: real): real { if a <= b then a else b }

  function Contributions(blocks: seq<BlockRate>, lo: real, hi: real): real {
    if blocks == [] then 0.0
    else Contributions(blocks[..|blocks| - 1], lo, hi) + blocks[|blocks| - 1].Contribution(lo, hi)
  }

  // None is the ValueError for a negative or reversed interval.
  function AverageBlockRate(blocks: seq<BlockRate>, lo: real, hi: real): Option<real> {
    if (hi < 0.0 && lo < 0.0) || lo > hi then None
    else Some(Mean(Contributions(blocks, lo, hi), hi - lo))
  }

  function Mean(sum: real, usage: real): real {
    if sum != 0.0 && usage != 0.0 then sum / usage else sum
  }

  method GetAverageBlockRate(blocks: seq<BlockRate>, lo: real, hi: real) returns (r: Option<real>)
    ensures r == AverageBlockRate(blocks, lo, hi)
  {
    if hi < 0.0 && lo < 0.0 { return None; }
    if lo > hi { return None; }
    var rate := 0.0;
    for i := 0 to |blocks|
      invariant rate == Contributions(blocks[..i], lo, hi)
    {
      assert blocks[..i + 1][..i] == blocks[..i];
      if blocks[i].OverlapsEnergy(lo, hi) {
        rate := rate + blocks[i].value * blocks[i].Multiplier(lo, hi);
      }
    }
    assert blocks[..|blocks|] == blocks;
    var delta := hi - lo;
    if rate != 0.0 && delta != 0.0 {
      rate := rate / delta;
    }
    return Some(rate);
  }

  // The cost of the first `energy` kWh of a cycle, block by block.
  function CumulativeCost(blocks: seq<BlockRate>, energy: real): real {
    if blocks == [] then 0.0
    else CumulativeCost(blocks[..|blocks| - 1], energy) + blocks[|blocks| - 1].Charge(energy)
  }

  predicate AllValid(blocks: seq<BlockRate>) {
    forall b <- blocks :: b.Valid()
  }

  lemma BlockContribution(b: BlockRate, lo: real, hi: real)
    requires b.Valid() && lo < hi
    ensures b.Contribution(lo, hi) == b.Charge(hi) - b.Charge(lo)
  {
    assert b.Contribution(lo, hi) == b.value * (b.Used(hi) - b.Used(lo));
  }

  lemma {:induction false} ContributionsTelescope(blocks: seq<BlockRate>, lo: real, hi: real)
    requires AllValid(blocks) && lo < hi
    ensures Contributions(blocks, lo, hi) == CumulativeCost(blocks, hi) - CumulativeCost(blocks, lo)
  {
    if blocks != [] {
      ContributionsTelescope(blocks[..|blocks| - 1], lo, hi);
      BlockContribution(blocks[|blocks| - 1], lo, hi);
    }
  }

  lemma MeanTimesUsage(sum: real, usage: real)
    requires usage != 0.0
    ensures Mean(sum, usage) * usage == sum
  {}

  lemma AverageTimesUsage(blocks: seq<BlockRate>, lo: real, usage: real, rate: real)
    requires 0.0 <= lo && 0.0 < usage
    requires AverageBlockRate(blocks, lo, lo + usage) == Some(rate)
    ensures rate * usage == Contributions(blocks, lo, lo + usage)
  {
    hide Contributions;
    MeanTimesUsage(Contributions(blocks, lo, lo + usage), usage);
  }

  /** The average rate times the usage is the difference of the cumulative costs. */
  lemma AverageRateTelescopes(blocks: seq<BlockRate>, start: real, usage: real)
    requires AllValid(blocks) && 0.0 <= start && 0.0 <= usage
    ensures AverageBlockRate(blocks, start, start + usage).Some?
    ensures AverageBlockRate(blocks, start, start + usage).value * usage
            == CumulativeCost(blocks, start + usage) - CumulativeCost(blocks, start)
  {
    hide Contributions, CumulativeCost;
    if 0.0 < usage {
      ContributionsTelescope(blocks, start, start + usage);
      AverageTimesUsage(blocks, start, usage, AverageBlockRate(blocks, start, start + usage).value);
    } else {
      TimesZero(AverageBlockRate(blocks, start, start + usage).value, usage);
    }
  }

  lemma TimesZero(x: real, d: real)
    requires d == 0.0
    ensures x * d == 0.0
  {}

  lemma {:induction false} CumulativeCostAtZero(blocks: seq<BlockRate>)
    requires AllValid(blocks)
    ensures CumulativeCost(blocks, 0.0) == 0.0
  {
    if blocks != [] {
      CumulativeCostAtZero(blocks[..|blocks| - 1]);
      assert blocks[|blocks| - 1] in blocks;
    }
  }

  // More energy never costs less.
  lemma {:induction false} CumulativeCostMonotone(blocks: seq<BlockRate>, lo: real, hi: real)
    requires AllValid(blocks) && lo <= hi
    ensures CumulativeCost(blocks, lo) <= CumulativeCost(blocks, hi)
  {
    if blocks != [] {
      CumulativeCostMonotone(blocks[..|blocks| - 1], lo, hi);
      ChargeMonotone(blocks[|blocks| - 1], lo, hi);
    }
  }

  lemma ChargeMonotone(b: BlockRate, lo: real, hi: real)
    requires b.Valid() && lo <= hi
    ensures b.Charge(lo) <= b.Charge(hi)
  {
    assert b.Used(lo) <= b.Used(hi);
    MultiplyMonotone(b.value, b.Used(lo), b.Used(hi));
  }

  lemma MultiplyMonotone(c: real, x: real, y: real)
    requires 0.0 <= c && x <= y
    ensures c * x <= c * y
  {}

  datatype BlockFault =
    | NegativeLower
    | NegativeUpper
    | EqualBounds(lower: int, upper: int)
    | ReversedBounds(lower: int, upper: int)
    | NegativeValue

  // A gap is reported from one uncovered kWh to the end of another.
  datatype BlockRateError =
    | BadBlock(fault: BlockFault)
    | NoBlocks
    | OverlappingBlocks(overlap: Overlap)
    | GapInBlocks(start: int, end: int)

  // The fault of the first block that has one.
  ghost predicate IsFirstFault(blocks: seq<BlockRate>, fault: BlockFault) {
    exists i :: 0 <= i < |blocks| && blocks[i].Fault() == Some(fault) && AllValid(blocks[..i])
  }

  function BlockIntervals(blocks: seq<BlockRate>): seq<Interval> {
    seq(|blocks|, i requires 0 <= i < |blocks| => blocks[i].AsInterval())
  }

  /** Raises on the first problem found, in the source's order; None means the block rates are accepted. */
  method ValidateBlockRates(blocks: seq<BlockRate>) returns (error: Option<BlockRateError>)
    ensures error == None <==>
            && blocks != []
            && AllValid(blocks)
            && Disjoint(BlockIntervals(blocks))
            && Covers(BlockIntervals(blocks), 0, 65535)
    ensures error.Some? && error.value.BadBlock? <==> !AllValid(blocks)
    ensures error.Some? && error.value.BadBlock? ==> IsFirstFault(blocks, error.value.fault)
    ensures error == Some(NoBlocks) <==> blocks == []
    ensures error.Some? && error.value.OverlappingBlocks? <==> AllValid(blocks) && !Disjoint(BlockIntervals(blocks))
    ensures error.Some? && error.value.OverlappingBlocks? ==>
              IsFirstOverlap(BlockIntervals(blocks), error.value.overlap)
    ensures error.Some? && error.value.GapInBlocks? ==>
              && 0 <= error.value.start < MAX_VALUE && !Covered(BlockIntervals(blocks), error.value.start)
              && 0 < error.value.end <= MAX_VALUE && !Covered(BlockIntervals(blocks), error.value.end - 1)
  {
    var intervals: seq<Interval> := [];
    for i := 0 to |blocks|
      invariant AllValid(blocks[..i])
      invariant intervals == BlockIntervals(blocks[..i])
    {
      var fault := blocks[i].Fault();
      if fault.Some? {
        return Some(BadBlock(fault.value));
      }
      intervals := intervals + [blocks[i].AsInterval()];
    }
    assert blocks[..|blocks|] == blocks;
    if intervals == [] {
      return Some(NoBlocks);
    }
    var overlap := CheckIntervalsOverlap(intervals);
    if overlap.Some? {
      return Some(OverlappingBlocks(overlap.value));
    }
    var gaps := CheckIntervalsGap(intervals, 0, MAX_VALUE);
    if gaps != {} {
      // The gaps come from an unordered set: its first and last element may be any two.
      var first, last :| first in gaps && last in gaps;
      return Some(GapInBlocks(first, last + 1));
    }
    return None;
  }

  // The index of a block that contains the kWh number k.
  ghost predicate BlockOf(blocks: seq<BlockRate>, j: nat, k: int) {
    j < |blocks| && Contains(blocks[j].AsInterval(), k)
  }

  lemma {:induction false} UsedAcrossForeignBlock(blocks: seq<BlockRate>, k: int, lo: real, hi: real)
    requires AllValid(blocks)
    requires 0 <= k < MAX_VALUE && k as real <= lo <= hi <= (k + 1) as real
    requires Multiplicity(BlockIntervals(blocks), k) == 0
    ensures CumulativeCost(blocks, hi) == CumulativeCost(blocks, lo)
  {
    if blocks != [] {
      var n := |blocks| - 1;
      MultiplicityOfLast(blocks, k);
      UsedAcrossForeignBlock(blocks[..n], k, lo, hi);
      ChargeOutsideBlock(blocks[n], k, lo, hi);
    }
  }

  lemma ChargeOutsideBlock(b: BlockRate, k: int, lo: real, hi: real)
    requires b.Valid() && !Contains(b.AsInterval(), k)
    requires 0 <= k < MAX_VALUE && k as real <= lo <= hi <= (k + 1) as real
    ensures b.Charge(hi) == b.Charge(lo)
  {
    assert b.Used(hi) == b.Used(lo);
  }

  lemma ChargeInsideBlock(b: BlockRate, k: int, lo: real, usage: real, value: real)
    requires b.Valid() && b.value == value && Contains(b.AsInterval(), k)
    requires 0 <= k < MAX_VALUE && k as real <= lo <= lo + usage <= (k + 1) as real
    ensures b.Charge(lo + usage) - b.Charge(lo) == value * usage
  {
    assert b.Used(lo + usage) == b.Used(lo) + usage;
    Distribute(b.value, b.Used(lo), usage);
  }

  lemma {:induction false} MultiplicityAppend(a: seq<Interval>, b: Interval, k: int)
    ensures Multiplicity(a + [b], k) == Multiplicity(a, k) + if Contains(b, k) then 1 else 0
  {
    if a == [] {
      assert a + [b] == [b];
    } else {
      assert (a + [b])[1..] == a[1..] + [b];
      MultiplicityAppend(a[1..], b, k);
    }
  }

  lemma MultiplicityOfLast(blocks: seq<BlockRate>, k: int)
    requires blocks != []
    ensures Multiplicity(BlockIntervals(blocks), k)
            == Multiplicity(BlockIntervals(blocks[..|blocks| - 1]), k)
               + if Contains(blocks[|blocks| - 1].AsInterval(), k) then 1 else 0
  {
    var n := |blocks| - 1;
    assert BlockIntervals(blocks) == BlockIntervals(blocks[..n]) + [blocks[n].AsInterval()];
    MultiplicityAppend(BlockIntervals(blocks[..n]), blocks[n].AsInterval(), k);
  }

  // A unit of energy with a single block is charged at that block's value.
  lemma {:induction false} UnitCost(blocks: seq<BlockRate>, j: nat, k: int, lo: real, usage: real, value: real)
    requires AllValid(blocks) && BlockOf(blocks, j, k) && blocks[j].value == value
    requires 0 <= k < MAX_VALUE && k as real <= lo <= lo + usage <= (k + 1) as real
    requires Multiplicity(BlockIntervals(blocks), k) == 1
    ensures CumulativeCost(blocks, lo + usage) - CumulativeCost(blocks, lo) == value * usage
  {
    hide BlockRate.Charge;
    var n := |blocks| - 1;
    MultiplicityOfLast(blocks, k);
    if j == n {
      UsedAcrossForeignBlock(blocks[..n], k, lo, lo + usage);
      ChargeInsideBlock(blocks[n], k, lo, usage, value);
    } else {
      var init := BlockIntervals(blocks[..n]);
      assert init[j] == blocks[j].AsInterval() && Contains(init[j], k);
      MultiplicityPositive(init, k);
      assert blocks[..n][j] == blocks[j];
      UnitCost(blocks[..n], j, k, lo, usage, value);
      ChargeOutsideBlock(blocks[n], k, lo, lo + usage);
    }
  }

  lemma Distribute(c: real, x: real, y: real)
    ensures c * (x + y) == c * x + c * y
  {}

  // The block that holds the kWh number k.
  lemma TheBlockOf(blocks: seq<BlockRate>, k: int) returns (j: nat)
    requires Disjoint(BlockIntervals(blocks)) && Covers(BlockIntervals(blocks), 0, MAX_VALUE)
    requires 0 <= k < MAX_VALUE
    ensures BlockOf(blocks, j, k) && forall i: nat :: BlockOf(blocks, i, k) ==> i == j
    ensures Multiplicity(BlockIntervals(blocks), k) == 1
  {
    var intervals := BlockIntervals(blocks);
    DisjointCoverIsPartition(intervals, 0, MAX_VALUE);
    assert Covered(intervals, k);
    var a :| a in intervals && Contains(a, k);
    j :| 0 <= j < |intervals| && intervals[j] == a;
    forall i: nat | BlockOf(blocks, i, k) ensures i == j {
      if i < j { TwoContaining(intervals, i, j, k); }
      if j < i { TwoContaining(intervals, j, i, k); }
    }
  }

  /** For accepted block rates, each kWh below the maximum is billed at the value of the one block holding it. */
  lemma ValidatedRateIsTheBlocksOwn(blocks: seq<BlockRate>, k: int, lo: real, usage: real) returns (j: nat)
    requires AllValid(blocks) && Disjoint(BlockIntervals(blocks)) && Covers(BlockIntervals(blocks), 0, 65535)
    requires 0 <= k < MAX_VALUE && k as real <= lo < lo + usage <= (k + 1) as real
    ensures BlockOf(blocks, j, k) && forall i: nat :: BlockOf(blocks, i, k) ==> i == j
    ensures AverageBlockRate(blocks, lo, lo + usage) == Some(blocks[j].value)
  {
    j := TheBlockOf(blocks, k);
    OneBlockRate(blocks, j, k, lo, usage, AverageBlockRate(blocks, lo, lo + usage));
  }

  lemma OneBlockRate(blocks: seq<BlockRate>, j: nat, k: int, lo: real, usage: real, rate: Option<real>)
    requires AllValid(blocks) && BlockOf(blocks, j, k) && Multiplicity(BlockIntervals(blocks), k) == 1
    requires 0 <= k < MAX_VALUE && k as real <= lo < lo + usage <= (k + 1) as real
    requires rate == AverageBlockRate(blocks, lo, lo + usage)
    ensures rate == Some(blocks[j].value)
  {
    hide AverageBlockRate, CumulativeCost;
    AverageRateTelescopes(blocks, lo, usage);
    UnitCost(blocks, j, k, lo, usage, blocks[j].value);
    CancelFactor(rate.value, blocks[j].value, usage, CumulativeCost(blocks, lo + usage) - CumulativeCost(blocks, lo));
  }

  lemma CancelFactor(x: real, y: real, d: real, product: real)
    requires d != 0.0 && x * d == product && y * d == product
    ensures x == y
  {
    assert (x - y) * d == 0.0;
  }

  // ---------- the rate of a reading without energy ----------

  lemma PointContribution(b: BlockRate, k: int, lo: real)
    requires b.Valid() && 0 <= k < MAX_VALUE && k as real < lo <= (k + 1) as real
    ensures b.Contribution(lo, lo) == if Contains(b.AsInterval(), k) then b.value else 0.0
  {}

  lemma {:induction false} NoPointContributions(blocks: seq<BlockRate>, k: int, lo: real)
    requires AllValid(blocks) && 0 <= k < MAX_VALUE && k as real < lo <= (k + 1) as real
    requires Multiplicity(BlockIntervals(blocks), k) == 0
    ensures Contributions(blocks, lo, lo) == 0.0
  {
    hide BlockRate.Contribution;
    if blocks != [] {
      var n := |blocks| - 1;
      MultiplicityOfLast(blocks, k);
      NoPointContributions(blocks[..n], k, lo);
      PointContribution(blocks[n], k, lo);
    }
  }

  lemma {:induction false} PointContributions(blocks: seq<BlockRate>, j: nat, k: int, lo: real)
    requires AllValid(blocks) && BlockOf(blocks, j, k) && Multiplicity(BlockIntervals(blocks), k) == 1
    requires 0 <= k < MAX_VALUE && k as real < lo <= (k + 1) as real
    ensures Contributions(blocks, lo, lo) == blocks[j].value
  {
    hide BlockRate.Contribution;
    var n := |blocks| - 1;
    MultiplicityOfLast(blocks, k);
    PointContribution(blocks[n], k, lo);
    if j == n {
      NoPointContributions(blocks[..n], k, lo);
    } else {
      var init := BlockIntervals(blocks[..n]);
      assert init[j] == blocks[j].AsInterval() && Contains(init[j], k);
      MultiplicityPositive(init, k);
      assert blocks[..n][j] == blocks[j];
      PointContributions(blocks[..n], j, k, lo);
    }
  }

  /** A reading without energy has the rate of the block that holds the last kWh used, and no cost. */
  lemma RateWithoutUsage(blocks: seq<BlockRate>, k: int, lo: real) returns (j: nat)
    requires AllValid(blocks) && Disjoint(BlockIntervals(blocks)) && Covers(BlockIntervals(blocks), 0, 65535)
    requires 0 <= k < MAX_VALUE && k as real < lo <= (k + 1) as real
    ensures BlockOf(blocks, j, k) && AverageBlockRate(blocks, lo, lo) == Some(blocks[j].value)
  {
    j := TheBlockOf(blocks, k);
    PointContributions(blocks, j, k, lo);
  }
}
