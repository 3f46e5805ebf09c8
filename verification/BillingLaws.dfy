/** What billing keeps over every run of readings, for any terms that may change between readings. */
module BillingLaws {
  import opened Cycles
  import opened Tariffs
  import opened Accounts

  // ---------- conservation of money ----------

  function Net(a: Account): real {
    a.credit + a.plan - a.debt
  }

  // What the customer pays for good: energy, plan fees and forfeited plan balances.
  function Spent(e: Event): real {
    match e
    case EnergyBilled(_, _, cost, _) => cost
    case PlanBought(_, _, _, fee) => fee
    case PlanExpired(forfeited) => forfeited
    case _ => 0.0
  }

  function TotalSpent(log: seq<Event>): real {
    if log == [] then 0.0 else TotalSpent(log[..|log| - 1]) + Spent(log[|log| - 1])
  }

  lemma TotalSpentAppend(log: seq<Event>, e: Event)
    ensures TotalSpent(log + [e]) == TotalSpent(log) + Spent(e)
  {
    assert (log + [e])[..|log|] == log;
  }

  function Worth(b: Books): real {
    Net(b.acct) + TotalSpent(b.log)
  }

  lemma RenewConserves(terms: Terms, b: Books, date: Time, end: Time)
    requires b.acct.Valid()
    ensures Worth(Renew(terms, b, date, end)) == Worth(b)
  {
    hide NextCycleStart, IsNewCycle, TotalSpent;
    var b1 := StartCycle(terms, b, date);
    TotalSpentAppend(b.log, CycleStarted(date));
    var b2 := ExpirePlan(terms, b1, date);
    TotalSpentAppend(b1.log, PlanExpired(b1.acct.plan));
    var b3 := PurchasePlan(terms, b2, end);
    if b3 != b2 {
      TotalSpentAppend(b2.log, b3.log[|b2.log|]);
    }
  }

  // Charging, conversion and debt payback move exactly the cost out of the wallets.
  lemma ConsumeConserves(terms: Terms, b: Books, u: Usage)
    requires b.acct.Valid() && u.kwh >= 0.0
    ensures Worth(Consume(terms, b, u)) == Worth(b)
  {
    hide Cost, FinancingCharge, TotalSpent;
    var cost := Cost(terms.tariff, b.acct.cycleEnergy, u);
    var b1 := ChargeEnergy(b, u, cost);
    TotalSpentAppend(b.log, EnergyBilled(u.end, u.kwh, cost, Min(cost, b.acct.plan)));
    var b2 := ConvertNegativeBalance(terms, b1);
    TotalSpentAppend(b1.log, ConvertedToDebt(-b1.acct.credit));
    var charge := FinancingCharge(terms, cost);
    RepaymentConserves(b2, charge);
  }

  lemma RepaymentConserves(b: Books, charge: real)
    ensures Worth(PayOffDebt(b, charge)) == Worth(b)
  {
    hide Deduction, TotalSpent;
    var fromPlan := Deduction(charge, b.acct.plan, b.acct.debt);
    var b1 := RepayFromPlan(b, charge);
    TotalSpentAppend(b.log, DebtRepaid(PlanPurse, fromPlan));
    assert b.log + [] == b.log;
    var fromCredit := Deduction(charge - fromPlan, b1.acct.credit, b1.acct.debt);
    TotalSpentAppend(b1.log, DebtRepaid(CreditPurse, fromCredit));
    assert b1.log + [] == b1.log;
  }

  lemma CalculateConserves(terms: Terms, b: Books, u: Usage)
    requires b.acct.Valid() && u.kwh >= 0.0
    ensures Worth(Calculate(terms, b, u)) == Worth(b)
  {
    hide Worth, Renew, Consume;
    var b1 := Renew(terms, b, u.end - SECOND, u.end);
    RenewConserves(terms, b, u.end - SECOND, u.end);
    ConsumeConserves(terms, b1, u);
    RenewConserves(terms, Consume(terms, b1, u), u.end, u.end);
  }

  /** Over any run, credit + plan - debt falls by exactly the energy costs, plan fees and forfeited plan balances. */
  lemma {:induction false} RunConserves(a: Account, steps: seq<Step>)
    requires a.Valid() && Metered(steps)
    ensures Net(Run(Books(a, []), steps).acct) == Net(a) - TotalSpent(Run(Books(a, []), steps).log)
  {
    hide Calculate;
    if steps != [] {
      var last := steps[|steps| - 1];
      RunConserves(a, steps[..|steps| - 1]);
      CalculateConserves(last.terms, Run(Books(a, []), steps[..|steps| - 1]), last.usage);
    }
  }

  // ---------- what a run leaves in the log ----------

  // A running account of the log: readings billed so far, and energy and cost since the last cycle start.
  datatype Tally = Tally(billed: seq<Bill>, energy: real, cost: real, reset: bool)

  datatype Bill = Bill(end: Time, kwh: real, cost: real)

  function Count(t: Tally, e: Event): Tally {
    match e
    case CycleStarted(_) => t.(energy := 0.0, cost := 0.0, reset := true)
    case EnergyBilled(end, kwh, cost, _) =>
      t.(billed := t.billed + [Bill(end, kwh, cost)], energy := t.energy + kwh, cost := t.cost + cost)
    case _ => t
  }

  function Replay(t: Tally, log: seq<Event>): Tally {
    if log == [] then t else Count(Replay(t, log[..|log| - 1]), log[|log| - 1])
  }

  lemma ReplayAppend(t: Tally, log: seq<Event>, e: Event)
    ensures Replay(t, log + [e]) == Count(Replay(t, log), e)
  {
    assert (log + [e])[..|log|] == log;
  }

  lemma {:induction false} RenewReplay(t: Tally, terms: Terms, b: Books, date: Time, end: Time)
    requires b.acct.Valid()
    requires Replay(t, b.log).energy == b.acct.cycleEnergy
    ensures
      var r := Renew(terms, b, date, end);
      var before, after := Replay(t, b.log), Replay(t, r.log);
      && after.energy == r.acct.cycleEnergy
      && after.billed == before.billed
      && (after == before || (after.reset && after.energy == 0.0 && after.cost == 0.0))
  {
    hide NextCycleStart, IsNewCycle, Replay;
    var b1 := StartCycle(terms, b, date);
    ReplayAppend(t, b.log, CycleStarted(date));
    var b2 := ExpirePlan(terms, b1, date);
    ReplayAppend(t, b1.log, PlanExpired(b1.acct.plan));
    var b3 := PurchasePlan(terms, b2, end);
    if b3 != b2 {
      ReplayAppend(t, b2.log, b3.log[|b2.log|]);
    }
  }

  lemma ConsumeReplay(t: Tally, terms: Terms, b: Books, u: Usage)
    requires b.acct.Valid() && u.kwh >= 0.0
    ensures
      var r := Consume(terms, b, u);
      var cost := Cost(terms.tariff, b.acct.cycleEnergy, u);
      && r.acct.cycleEnergy == b.acct.cycleEnergy + u.kwh
      && Replay(t, r.log) == Count(Replay(t, b.log), EnergyBilled(u.end, u.kwh, cost, Min(cost, b.acct.plan)))
  {
    hide Cost, FinancingCharge, Replay, Deduction;
    var cost := Cost(terms.tariff, b.acct.cycleEnergy, u);
    var b1 := ChargeEnergy(b, u, cost);
    ReplayAppend(t, b.log, EnergyBilled(u.end, u.kwh, cost, Min(cost, b.acct.plan)));
    var b2 := ConvertNegativeBalance(terms, b1);
    ReplayAppend(t, b1.log, ConvertedToDebt(-b1.acct.credit));
    var charge := FinancingCharge(terms, cost);
    var fromPlan := Deduction(charge, b2.acct.plan, b2.acct.debt);
    var b3 := RepayFromPlan(b2, charge);
    ReplayAppend(t, b2.log, DebtRepaid(PlanPurse, fromPlan));
    assert b2.log + [] == b2.log;
    ReplayAppend(t, b3.log, DebtRepaid(CreditPurse, Deduction(charge - fromPlan, b3.acct.credit, b3.acct.debt)));
    assert b3.log + [] == b3.log;
  }

  function BillFor(terms: Terms, b: Books, u: Usage): Bill
    requires b.acct.Valid() && u.kwh >= 0.0
  {
    Bill(u.end, u.kwh, BilledCost(terms, b, u))
  }

  lemma CalculateReplay(t: Tally, terms: Terms, b: Books, u: Usage)
    requires b.acct.Valid() && u.kwh >= 0.0
    requires Replay(t, b.log).energy == b.acct.cycleEnergy
    ensures Replay(t, Calculate(terms, b, u).log).energy == Calculate(terms, b, u).acct.cycleEnergy
    ensures Replay(t, Calculate(terms, b, u).log).billed == Replay(t, b.log).billed + [BillFor(terms, b, u)]
  {
    hide Renew, Consume, Cost, Replay;
    var b1 := Renew(terms, b, u.end - SECOND, u.end);
    RenewReplay(t, terms, b, u.end - SECOND, u.end);
    ConsumeReplay(t, terms, b1, u);
    RenewReplay(t, terms, Consume(terms, b1, u), u.end, u.end);
  }

  // The bills of a run: one for each reading, at the price it has when its turn comes.
  function Bills(b: Books, steps: seq<Step>): seq<Bill>
    requires b.acct.Valid() && Metered(steps)
  {
    if steps == [] then []
    else
      var before, last := steps[..|steps| - 1], steps[|steps| - 1];
      Bills(b, before) + [BillFor(last.terms, Run(b, before), last.usage)]
  }

  lemma {:induction false} BillAt(b: Books, steps: seq<Step>, i: nat)
    requires b.acct.Valid() && Metered(steps) && i < |steps|
    ensures |Bills(b, steps)| == |steps|
    ensures Bills(b, steps)[i] == BillFor(steps[i].terms, Run(b, steps[..i]), steps[i].usage)
    decreases |steps|
  {
    hide BillFor, Run;
    var n := |steps| - 1;
    if n > 0 {
      BillAt(b, steps[..n], if i < n then i else 0);
      assert i < n ==> steps[..n][..i] == steps[..i];
    }
  }

  function Fresh(a: Account): Tally {
    Tally([], a.cycleEnergy, 0.0, false)
  }

  /**
   * Over any run each reading is billed exactly once, in order and at its own price, and the cycle
   * counter holds exactly the energy billed since the last cycle start.
   */
  lemma {:induction false} RunBillsEachReadingOnce(a: Account, steps: seq<Step>)
    requires a.Valid() && Metered(steps)
    ensures
      var b := Run(Books(a, []), steps);
      var tally := Replay(Fresh(a), b.log);
      && tally.billed == Bills(Books(a, []), steps)
      && tally.energy == b.acct.cycleEnergy
  {
    hide Calculate;
    if steps != [] {
      var n := |steps| - 1;
      RunBillsEachReadingOnce(a, steps[..n]);
      CalculateReplay(Fresh(a), steps[n].terms, Run(Books(a, []), steps[..n]), steps[n].usage);
    }
  }

  // ---------- what a run spends ----------

  function TotalCost(bills: seq<Bill>): real {
    if bills == [] then 0.0 else TotalCost(bills[..|bills| - 1]) + bills[|bills| - 1].cost
  }

  // The fees of the plans bought and the plan balances forfeited.
  function PlanSpent(log: seq<Event>): real {
    if log == [] then 0.0
    else PlanSpent(log[..|log| - 1]) + if log[|log| - 1].EnergyBilled? then 0.0 else Spent(log[|log| - 1])
  }

  lemma {:induction false} SpentOnBillsAndPlans(t: Tally, log: seq<Event>)
    ensures TotalSpent(log) == TotalCost(Replay(t, log).billed) - TotalCost(t.billed) + PlanSpent(log)
  {
    if log != [] {
      var before := log[..|log| - 1];
      SpentOnBillsAndPlans(t, before);
      var bills := Replay(t, log).billed;
      assert log[|log| - 1].EnergyBilled? ==> bills[..|bills| - 1] == Replay(t, before).billed;
    }
  }

  /** Over any run, credit + plan - debt falls by each reading's price, the plan fees and the forfeited balances. */
  lemma {:induction false} RunSpendsBillsAndPlans(a: Account, steps: seq<Step>)
    requires a.Valid() && Metered(steps)
    ensures
      var b := Run(Books(a, []), steps);
      Net(b.acct) == Net(a) - TotalCost(Bills(Books(a, []), steps)) - PlanSpent(b.log)
  {
    hide Run, Bills, Net;
    RunConserves(a, steps);
    RunBillsEachReadingOnce(a, steps);
    SpentOnBillsAndPlans(Fresh(a), Run(Books(a, []), steps).log);
  }

  // ---------- block-rate costs telescope ----------

  predicate BlockRatedOnly(tariff: Tariff, blocks: seq<BlockRate>) {
    tariff.pricing == BlockRated(blocks) && !tariff.touEnabled
  }

  predicate AllBlockRated(steps: seq<Step>, blocks: seq<BlockRate>) {
    forall i :: 0 <= i < |steps| ==> BlockRatedOnly(steps[i].terms.tariff, blocks)
  }

  // The energy at which the current cycle's billing began: zero once the cycle counter was reset.
  function Origin(a: Account, t: Tally): real {
    if t.reset then 0.0 else a.cycleEnergy
  }

  predicate Telescoped(a: Account, b: Books, blocks: seq<BlockRate>) {
    var t := Replay(Fresh(a), b.log);
    && t.energy == b.acct.cycleEnergy
    && t.cost == CumulativeCost(blocks, t.energy) - CumulativeCost(blocks, Origin(a, t))
  }

  lemma BlockRateCost(blocks: seq<BlockRate>, tariff: Tariff, energy: real, u: Usage)
    requires AllValid(blocks) && BlockRatedOnly(tariff, blocks) && energy >= 0.0 && u.kwh >= 0.0
    ensures Cost(tariff, energy, u) == CumulativeCost(blocks, energy + u.kwh) - CumulativeCost(blocks, energy)
  {
    hide AverageBlockRate, CumulativeCost;
    AverageRateTelescopes(blocks, energy, u.kwh);
  }

  lemma CalculateTelescopes(a: Account, b: Books, terms: Terms, u: Usage, blocks: seq<BlockRate>)
    requires b.acct.Valid() && u.kwh >= 0.0
    requires AllValid(blocks) && BlockRatedOnly(terms.tariff, blocks)
    requires Telescoped(a, b, blocks)
    ensures Telescoped(a, Calculate(terms, b, u), blocks)
  {
    hide Renew, Consume, Cost, CumulativeCost, Replay, AllValid;
    var t := Fresh(a);
    var b1 := Renew(terms, b, u.end - SECOND, u.end);
    RenewReplay(t, terms, b, u.end - SECOND, u.end);
    ConsumeReplay(t, terms, b1, u);
    BlockRateCost(blocks, terms.tariff, b1.acct.cycleEnergy, u);
    RenewReplay(t, terms, Consume(terms, b1, u), u.end, u.end);
  }

  /** The costs billed in a cycle add up to the cumulative cost of the cycle's energy. */
  lemma {:induction false} RunTelescopes(a: Account, steps: seq<Step>, blocks: seq<BlockRate>)
    requires a.Valid() && Metered(steps)
    requires AllValid(blocks) && AllBlockRated(steps, blocks)
    ensures Telescoped(a, Run(Books(a, []), steps), blocks)
    ensures
      var b := Run(Books(a, []), steps);
      var t := Replay(Fresh(a), b.log);
      t.reset ==> t.cost == CumulativeCost(blocks, b.acct.cycleEnergy)
  {
    hide Calculate;
    CumulativeCostAtZero(blocks);
    if steps != [] {
      var n := |steps| - 1;
      RunTelescopes(a, steps[..n], blocks);
      CalculateTelescopes(a, Run(Books(a, []), steps[..n]), steps[n].terms, steps[n].usage, blocks);
    }
  }

  /**
   * However the same consumption was split into readings, it costs the same: two runs of a block-rate
   * tariff that reach the same cycle energy since a cycle start have billed the same since it.
   */
  lemma {:induction false} SplittingReadingsChangesNoCost(
    a: Account, first: seq<Step>, second: seq<Step>, blocks: seq<BlockRate>)
    requires a.Valid() && Metered(first) && Metered(second)
    requires AllValid(blocks) && AllBlockRated(first, blocks) && AllBlockRated(second, blocks)
    ensures
      var b1, b2 := Run(Books(a, []), first), Run(Books(a, []), second);
      var t1, t2 := Replay(Fresh(a), b1.log), Replay(Fresh(a), b2.log);
      t1.reset == t2.reset && b1.acct.cycleEnergy == b2.acct.cycleEnergy ==> t1.cost == t2.cost
  {
    RunTelescopes(a, first, blocks);
    RunTelescopes(a, second, blocks);
  }
}
