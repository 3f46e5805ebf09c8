/** Order and safety over runs: plan periods, cycle resets and wallet signs. */
module PlanLaws {
  import opened Wrappers
  import opened Cycles
  import opened Tariffs
  import opened Accounts

  // ---------- events that consuming energy can add ----------

  predicate IsMoneyEvent(e: Event) {
    e.EnergyBilled? || e.ConvertedToDebt? || e.DebtRepaid?
  }

  // Consuming energy touches neither the plan period nor the cycle, and logs only money.
  lemma ConsumeShape(terms: Terms, b: Books, u: Usage) returns (added: seq<Event>)
    requires b.acct.Valid() && u.kwh >= 0.0
    ensures Consume(terms, b, u).log == b.log + added
    ensures forall i :: 0 <= i < |added| ==> IsMoneyEvent(added[i])
    ensures
      var a := Consume(terms, b, u).acct;
      && a.running == b.acct.running && a.payment == b.acct.payment
      && a.expiration == b.acct.expiration && a.cycleStart == b.acct.cycleStart
  {
    hide Cost, FinancingCharge, Deduction;
    var cost := Cost(terms.tariff, b.acct.cycleEnergy, u);
    var b1 := ChargeEnergy(b, u, cost);
    var b2 := ConvertNegativeBalance(terms, b1);
    var charge := FinancingCharge(terms, cost);
    var b3 := MaybePayOffDebt(terms, b2, cost);
    added := b3.log[|b.log|..];
  }

  // ---------- plan periods ----------

  // Paid plan periods never overlap, so their expirations strictly increase.
  ghost predicate PlansInOrder(log: seq<Event>) {
    && (forall i :: 0 <= i < |log| && log[i].PlanBought? ==> log[i].paidAt < log[i].until)
    && (forall i, j :: 0 <= i < j < |log| && log[i].PlanBought? && log[j].PlanBought? ==> log[i].until <= log[j].paidAt)
  }

  ghost predicate PlanState(b: Books, now: Time) {
    && PlansInOrder(b.log)
    && (forall i :: 0 <= i < |b.log| && b.log[i].PlanBought? ==>
                      b.acct.expiration.Some? && b.log[i].until <= b.acct.expiration.value)
    && (!b.acct.running && b.acct.expiration.Some? ==> b.acct.expiration.value <= now)
  }

  lemma RenewKeepsPlanState(terms: Terms, b: Books, date: Time, end: Time, now: Time)
    requires b.acct.Valid() && PlanState(b, now)
    requires now <= end && date <= end
    ensures PlanState(Renew(terms, b, date, end), end)
  {
    hide IsNewCycle, NextCycleStart;
    NextCycleStartIsLater(terms.calendar, terms.tariff.startDay, terms.tariff.planDaily, end);
    var b1 := StartCycle(terms, b, date);
    assert PlanState(b1, end);
    var b2 := ExpirePlan(terms, b1, date);
    assert PlanState(b2, end);
  }

  lemma {:induction false} CalculateKeepsPlanState(terms: Terms, b: Books, u: Usage, now: Time)
    requires b.acct.Valid() && u.kwh >= 0.0 && PlanState(b, now) && now <= u.end
    ensures PlanState(Calculate(terms, b, u), u.end)
  {
    hide Renew, Consume;
    RenewKeepsPlanState(terms, b, u.end - SECOND, u.end, now);
    var b1 := Renew(terms, b, u.end - SECOND, u.end);
    var added := ConsumeShape(terms, b1, u);
    assert PlanState(Consume(terms, b1, u), u.end);
    RenewKeepsPlanState(terms, Consume(terms, b1, u), u.end, u.end, u.end);
  }

  predicate InTimeOrder(now: Time, steps: seq<Step>) {
    && (forall i :: 0 <= i < |steps| ==> now <= steps[i].usage.end)
    && (forall i, j :: 0 <= i < j < |steps| ==> steps[i].usage.end <= steps[j].usage.end)
  }

  function LastEnd(now: Time, steps: seq<Step>): Time {
    if steps == [] then now else steps[|steps| - 1].usage.end
  }

  /** Over readings in time order every plan is paid for at or after the expiration of the one before it. */
  lemma {:induction false} RunKeepsPlansInOrder(b: Books, now: Time, steps: seq<Step>)
    requires b.acct.Valid() && PlanState(b, now)
    requires Metered(steps) && InTimeOrder(now, steps)
    ensures PlanState(Run(b, steps), LastEnd(now, steps))
    ensures PlansInOrder(Run(b, steps).log)
  {
    hide Calculate;
    if steps != [] {
      var n := |steps| - 1;
      RunKeepsPlansInOrder(b, now, steps[..n]);
      CalculateKeepsPlanState(steps[n].terms, Run(b, steps[..n]), steps[n].usage, LastEnd(now, steps[..n]));
    }
  }

  function PlansBought(log: seq<Event>): nat {
    if log == [] then 0
    else PlansBought(log[..|log| - 1]) + if log[|log| - 1].PlanBought? then 1 else 0
  }

  lemma PlansBoughtAppend(log: seq<Event>, e: Event)
    ensures PlansBought(log + [e]) == PlansBought(log) + if e.PlanBought? then 1 else 0
  {
    assert (log + [e])[..|log|] == log;
  }

  lemma {:induction false} MoneyEventsBuyNothing(log: seq<Event>, added: seq<Event>)
    requires forall i :: 0 <= i < |added| ==> IsMoneyEvent(added[i])
    ensures PlansBought(log + added) == PlansBought(log)
  {
    if added == [] {
      assert log + added == log;
    } else {
      var n := |added| - 1;
      assert log + added == (log + added[..n]) + [added[n]];
      PlansBoughtAppend(log + added[..n], added[n]);
      MoneyEventsBuyNothing(log, added[..n]);
    }
  }

  lemma RenewBuysAtMostOne(terms: Terms, b: Books, date: Time, end: Time)
    requires b.acct.Valid() && date <= end
    ensures
      var r := Renew(terms, b, date, end);
      || PlansBought(r.log) == PlansBought(b.log)
      || (&& PlansBought(r.log) == PlansBought(b.log) + 1
          && r.acct.running && r.acct.expiration.value > end)
    ensures
      b.acct.running && b.acct.expiration.value > date
      ==> var r := Renew(terms, b, date, end); PlansBought(r.log) == PlansBought(b.log)
  {
    hide IsNewCycle, NextCycleStart, PlansBought;
    NextCycleStartIsLater(terms.calendar, terms.tariff.startDay, terms.tariff.planDaily, end);
    var b1 := StartCycle(terms, b, date);
    PlansBoughtAppend(b.log, CycleStarted(date));
    var b2 := ExpirePlan(terms, b1, date);
    PlansBoughtAppend(b1.log, PlanExpired(b1.acct.plan));
    var b3 := PurchasePlan(terms, b2, end);
    if b3 != b2 {
      PlansBoughtAppend(b2.log, b3.log[|b2.log|]);
    }
  }

  /** Purchase is tried twice for each reading, yet one reading buys at most one plan. */
  lemma OneReadingBuysAtMostOnePlan(terms: Terms, b: Books, u: Usage)
    requires b.acct.Valid() && u.kwh >= 0.0
    ensures PlansBought(Calculate(terms, b, u).log) <= PlansBought(b.log) + 1
  {
    hide Renew, Consume, PlansBought;
    var b1 := Renew(terms, b, u.end - SECOND, u.end);
    RenewBuysAtMostOne(terms, b, u.end - SECOND, u.end);
    var added := ConsumeShape(terms, b1, u);
    MoneyEventsBuyNothing(b1.log, added);
    RenewBuysAtMostOne(terms, Consume(terms, b1, u), u.end, u.end);
  }

  // ---------- cycle resets ----------

  // Cycle starts strictly advance, with a true boundary of the billing cycle after each one and up to the next.
  ghost predicate CyclesAdvance(log: seq<Event>, cal: Calendar, day: StartDay) {
    forall i, j :: 0 <= i < j < |log| && log[i].CycleStarted? && log[j].CycleStarted? ==>
                     && log[i].at < log[j].at
                     && BoundaryBetween(cal, day, log[i].at, log[j].at)
  }

  ghost predicate BoundaryBetween(cal: Calendar, day: StartDay, after: Time, upTo: Time) {
    exists t :: IsBoundary(cal, day, t) && after < t <= upTo
  }

  ghost predicate CycleState(b: Books, cal: Calendar, day: StartDay) {
    && CyclesAdvance(b.log, cal, day)
    && (forall i :: 0 <= i < |b.log| && b.log[i].CycleStarted? ==>
                      b.acct.cycleStart.Some? && b.log[i].at <= b.acct.cycleStart.value)
  }

  ghost predicate SameCycle(terms: Terms, cal: Calendar, day: StartDay) {
    terms.tariff.startDay == day && terms.calendar == cal
  }

  // What was logged since `b`: every reset comes strictly after the cycle start stored in `b`, across a boundary.
  ghost predicate AdvancedFrom(b: Books, r: Books, cal: Calendar, day: StartDay) {
    && b.log <= r.log
    && (b.acct.cycleStart.Some? ==>
          && r.acct.cycleStart.Some? && b.acct.cycleStart.value <= r.acct.cycleStart.value
          && forall i :: |b.log| <= i < |r.log| && r.log[i].CycleStarted? ==>
                           && b.acct.cycleStart.value < r.log[i].at
                           && BoundaryBetween(cal, day, b.acct.cycleStart.value, r.log[i].at))
  }

  lemma LaterReset(cal: Calendar, day: StartDay, earlier: Time, after: Time, upTo: Time)
    requires earlier <= after && BoundaryBetween(cal, day, after, upTo)
    ensures earlier < upTo && BoundaryBetween(cal, day, earlier, upTo)
  {
    var t :| IsBoundary(cal, day, t) && after < t <= upTo;
    assert earlier < t;
  }

  lemma StartCycleAdvances(terms: Terms, b: Books, date: Time, cal: Calendar, day: StartDay)
    requires CycleState(b, cal, day) && SameCycle(terms, cal, day)
    ensures CycleState(StartCycle(terms, b, date), cal, day)
    ensures AdvancedFrom(b, StartCycle(terms, b, date), cal, day)
  {
    hide BoundaryBetween;
    if IsNewCycle(terms, b.acct, date) && b.acct.cycleStart.Some? {
      ResetCrossesBoundary(terms, b.acct, date, cal, day);
      forall i | 0 <= i < |b.log| && b.log[i].CycleStarted?
        ensures b.log[i].at < date && BoundaryBetween(cal, day, b.log[i].at, date)
      {
        LaterReset(cal, day, b.log[i].at, b.acct.cycleStart.value, date);
      }
    }
  }

  lemma ResetCrossesBoundary(terms: Terms, a: Account, date: Time, cal: Calendar, day: StartDay)
    requires SameCycle(terms, cal, day) && IsNewCycle(terms, a, date) && a.cycleStart.Some?
    ensures a.cycleStart.value < date && BoundaryBetween(cal, day, a.cycleStart.value, date)
  {
    LastCycleStartIsBoundary(cal, day, date);
  }

  lemma AdvancesCompose(a: Books, b: Books, c: Books, cal: Calendar, day: StartDay)
    requires AdvancedFrom(a, b, cal, day) && AdvancedFrom(b, c, cal, day)
    ensures AdvancedFrom(a, c, cal, day)
  {
    hide BoundaryBetween;
    if a.acct.cycleStart.Some? {
      forall i | |a.log| <= i < |c.log| && c.log[i].CycleStarted?
        ensures a.acct.cycleStart.value < c.log[i].at && BoundaryBetween(cal, day, a.acct.cycleStart.value, c.log[i].at)
      {
        if i >= |b.log| {
          LaterReset(cal, day, a.acct.cycleStart.value, b.acct.cycleStart.value, c.log[i].at);
        } else {
          assert c.log[i] == b.log[i];
        }
      }
    }
  }

  lemma RenewAdvancesCycles(terms: Terms, b: Books, date: Time, end: Time, cal: Calendar, day: StartDay)
    requires b.acct.Valid() && CycleState(b, cal, day) && SameCycle(terms, cal, day)
    ensures CycleState(Renew(terms, b, date, end), cal, day)
    ensures AdvancedFrom(b, Renew(terms, b, date, end), cal, day)
  {
    hide IsNewCycle, NextCycleStart, BoundaryBetween, StartCycle;
    StartCycleAdvances(terms, b, date, cal, day);
    var b1 := StartCycle(terms, b, date);
    StartCycleKeepsValid(terms, b, date);
    assert AdvancedFrom(b1, PurchasePlan(terms, ExpirePlan(terms, b1, date), end), cal, day);
    AdvancesCompose(b, b1, Renew(terms, b, date, end), cal, day);
  }

  lemma StartCycleKeepsValid(terms: Terms, b: Books, date: Time)
    requires b.acct.Valid()
    ensures StartCycle(terms, b, date).acct.Valid()
  {
    hide IsNewCycle;
  }

  lemma {:induction false} CalculateAdvancesCycles(terms: Terms, b: Books, u: Usage, cal: Calendar, day: StartDay)
    requires b.acct.Valid() && u.kwh >= 0.0
    requires CycleState(b, cal, day) && SameCycle(terms, cal, day)
    ensures CycleState(Calculate(terms, b, u), cal, day)
    ensures AdvancedFrom(b, Calculate(terms, b, u), cal, day)
  {
    hide Renew, Consume, BoundaryBetween;
    RenewAdvancesCycles(terms, b, u.end - SECOND, u.end, cal, day);
    var b1 := Renew(terms, b, u.end - SECOND, u.end);
    var added := ConsumeShape(terms, b1, u);
    var b2 := Consume(terms, b1, u);
    assert CycleState(b2, cal, day);
    assert AdvancedFrom(b1, b2, cal, day);
    AdvancesCompose(b, b1, b2, cal, day);
    RenewAdvancesCycles(terms, b2, u.end, u.end, cal, day);
    AdvancesCompose(b, b2, Calculate(terms, b, u), cal, day);
  }

  /**
   * Over any run from any books, each reset strictly advances the cycle start, the stored one included, and a true
   * boundary lies between a cycle start and the next.
   */
  lemma {:induction false} RunAdvancesCycles(b: Books, steps: seq<Step>, cal: Calendar, day: StartDay)
    requires b.acct.Valid() && Metered(steps) && CycleState(b, cal, day)
    requires forall i :: 0 <= i < |steps| ==> SameCycle(steps[i].terms, cal, day)
    ensures CyclesAdvance(Run(b, steps).log, cal, day)
    ensures CycleState(Run(b, steps), cal, day)
    ensures AdvancedFrom(b, Run(b, steps), cal, day)
  {
    hide Calculate;
    if steps != [] {
      var n := |steps| - 1;
      RunAdvancesCycles(b, steps[..n], cal, day);
      CalculateAdvancesCycles(steps[n].terms, Run(b, steps[..n]), steps[n].usage, cal, day);
      AdvancesCompose(b, Run(b, steps[..n]), Run(b, steps), cal, day);
    }
  }

  // ---------- wallet signs and debt payback ----------

  predicate Solvent(a: Account) {
    a.plan >= 0.0 && a.debt >= 0.0
  }

  lemma RenewKeepsSolvent(terms: Terms, b: Books, date: Time, end: Time)
    requires b.acct.Valid() && Solvent(b.acct) && terms.tariff.planPrice >= 0.0
    ensures Solvent(Renew(terms, b, date, end).acct)
  {
    hide IsNewCycle, NextCycleStart;
  }

  lemma ConsumeKeepsSolvent(terms: Terms, b: Books, u: Usage)
    requires b.acct.Valid() && u.kwh >= 0.0 && Solvent(b.acct)
    ensures Solvent(Consume(terms, b, u).acct)
  {
    hide Cost, FinancingCharge;
  }

  lemma ConsumeClearsNegativeCredit(terms: Terms, b: Books, u: Usage)
    requires b.acct.Valid() && u.kwh >= 0.0
    requires terms.mode == Auto && !terms.allowNegativeBalance
    ensures Consume(terms, b, u).acct.credit >= 0.0
  {
    hide Cost, FinancingCharge;
  }

  lemma PurchaseKeepsCredit(terms: Terms, b: Books, date: Time, end: Time)
    requires b.acct.Valid() && terms.mode == Auto && b.acct.credit >= 0.0
    ensures Renew(terms, b, date, end).acct.credit >= 0.0
  {
    hide IsNewCycle, NextCycleStart;
  }

  /** With non-negative plan prices, plan and debt balances never go below zero, whatever the energy costs. */
  lemma {:induction false} RunKeepsSolvent(b: Books, steps: seq<Step>)
    requires b.acct.Valid() && Metered(steps) && Solvent(b.acct)
    requires forall i :: 0 <= i < |steps| ==> steps[i].terms.tariff.planPrice >= 0.0
    ensures Solvent(Run(b, steps).acct)
  {
    hide Renew, Consume;
    if steps != [] {
      var n := |steps| - 1;
      var terms, u := steps[n].terms, steps[n].usage;
      RunKeepsSolvent(b, steps[..n]);
      var b0 := Run(b, steps[..n]);
      var b1 := Renew(terms, b0, u.end - SECOND, u.end);
      RenewKeepsSolvent(terms, b0, u.end - SECOND, u.end);
      ConsumeKeepsSolvent(terms, b1, u);
      RenewKeepsSolvent(terms, Consume(terms, b1, u), u.end, u.end);
    }
  }

  /** In Auto mode with negative balances disallowed, credit is not negative after a reading, whatever it was before. */
  lemma AutoModeEndsWithoutNegativeCredit(terms: Terms, b: Books, u: Usage)
    requires b.acct.Valid() && u.kwh >= 0.0
    requires terms.mode == Auto && !terms.allowNegativeBalance
    ensures Calculate(terms, b, u).acct.credit >= 0.0
  {
    hide Renew, Consume;
    var b1 := Renew(terms, b, u.end - SECOND, u.end);
    ConsumeClearsNegativeCredit(terms, b1, u);
    PurchaseKeepsCredit(terms, Consume(terms, b1, u), u.end, u.end);
  }

  function Repaid(log: seq<Event>): real {
    if log == [] then 0.0
    else Repaid(log[..|log| - 1]) + if log[|log| - 1].DebtRepaid? then log[|log| - 1].amount else 0.0
  }

  lemma RepaidAppend(log: seq<Event>, e: Event)
    ensures Repaid(log + [e]) == Repaid(log) + if e.DebtRepaid? then e.amount else 0.0
  {
    assert (log + [e])[..|log|] == log;
  }

  lemma RepaymentIsLogged(log: seq<Event>, purse: Purse, charge: real, wallet: real, debt: real)
    ensures
      var amount := Deduction(charge, wallet, debt);
      Repaid(log + Repayment(purse, amount)) == Repaid(log) + amount
  {
    var amount := Deduction(charge, wallet, debt);
    RepaidAppend(log, DebtRepaid(purse, amount));
    assert log + [] == log;
  }

  lemma PaybackIsLogged(terms: Terms, b: Books, cost: real)
    ensures
      var r := MaybePayOffDebt(terms, b, cost);
      Repaid(r.log) == Repaid(b.log) + b.acct.debt - r.acct.debt
  {
    hide FinancingCharge, Repaid, Repayment, Max, Min;
    var charge := FinancingCharge(terms, cost);
    var fromPlan := Deduction(charge, b.acct.plan, b.acct.debt);
    var b1 := RepayFromPlan(b, charge);
    RepaymentIsLogged(b.log, PlanPurse, charge, b.acct.plan, b.acct.debt);
    RepaymentIsLogged(b1.log, CreditPurse, charge - fromPlan, b1.acct.credit, b1.acct.debt);
  }

  /**
   * A payback is exactly the smallest of the financing charge, the debt and the money held, taken from the plan
   * before the credit; it lowers the debt by what it takes and logs that amount.
   */
  lemma PaybackIsTheSmallestLimit(terms: Terms, b: Books, cost: real)
    ensures
      var after := MaybePayOffDebt(terms, b, cost).acct;
      var held := Max(b.acct.plan, 0.0) + Max(b.acct.credit, 0.0);
      var paid := Max(0.0, Min(FinancingCharge(terms, cost), Min(b.acct.debt, held)));
      && b.acct.debt - after.debt == paid
      && b.acct.plan - after.plan + b.acct.credit - after.credit == paid
      && (after.credit < b.acct.credit ==> after.plan <= 0.0)
      && Repaid(MaybePayOffDebt(terms, b, cost).log) == Repaid(b.log) + paid
  {
    hide FinancingCharge, Repaid, Repayment;
    PaybackIsLogged(terms, b, cost);
  }

  // The plan pays for energy before the credit does, and never more than it holds.
  lemma PlanPaysFirst(b: Books, u: Usage, cost: real)
    ensures
      var a := ChargeEnergy(b, u, cost).acct;
      && a.plan == Max(0.0, b.acct.plan - cost)
      && a.credit == b.acct.credit - Max(0.0, cost - b.acct.plan)
      && (a.credit < b.acct.credit ==> a.plan == 0.0)
  {}

  // What an account with this much on it pays back, at most this share, when it is charged this cost.
  function PaybackUpTo(terms: Terms, a: Account, cost: real, share: real): real {
    var plan, credit := Max(0.0, a.plan - cost), a.credit - Max(0.0, cost - a.plan);
    var shortfall := if terms.mode == Auto && !terms.allowNegativeBalance then Max(0.0, -credit) else 0.0;
    Max(0.0, Min(share, Min(a.debt + shortfall, plan + Max(0.0, credit))))
  }

  function Payback(terms: Terms, a: Account, cost: real): real {
    PaybackUpTo(terms, a, cost, cost * terms.debtPaybackPercent / 100.0)
  }

  lemma ConsumePaysBack(terms: Terms, b: Books, u: Usage)
    requires b.acct.Valid() && u.kwh >= 0.0
    ensures
      var cost := Cost(terms.tariff, b.acct.cycleEnergy, u);
      Repaid(Consume(terms, b, u).log) == Repaid(b.log) + Payback(terms, b.acct, cost)
  {
    hide Cost, PaybackUpTo, Consume, Repaid;
    ConsumePaysBackUpTo(terms, b, u);
  }

  lemma ConsumePaysBackUpTo(terms: Terms, b: Books, u: Usage)
    requires b.acct.Valid() && u.kwh >= 0.0
    ensures
      var cost := Cost(terms.tariff, b.acct.cycleEnergy, u);
      Repaid(Consume(terms, b, u).log)
      == Repaid(b.log) + PaybackUpTo(terms, b.acct, cost, FinancingCharge(terms, cost))
  {
    hide Cost, Repaid, MaybePayOffDebt, FinancingCharge;
    var cost := Cost(terms.tariff, b.acct.cycleEnergy, u);
    PlanPaysFirst(b, u, cost);
    var b1 := ChargeEnergy(b, u, cost);
    RepaidAppend(b.log, EnergyBilled(u.end, u.kwh, cost, Min(cost, b.acct.plan)));
    RepaidAppend(b1.log, ConvertedToDebt(-b1.acct.credit));
    PaybackIsTheSmallestLimit(terms, ConvertNegativeBalance(terms, b1), cost);
  }

  lemma RenewPaysNothingBack(terms: Terms, b: Books, date: Time, end: Time)
    requires b.acct.Valid()
    ensures Repaid(Renew(terms, b, date, end).log) == Repaid(b.log)
  {
    hide IsNewCycle, NextCycleStart, Repaid;
    var b1 := StartCycle(terms, b, date);
    RepaidAppend(b.log, CycleStarted(date));
    var b2 := ExpirePlan(terms, b1, date);
    RepaidAppend(b1.log, PlanExpired(b1.acct.plan));
    var b3 := PurchasePlan(terms, b2, end);
    if b3 != b2 {
      RepaidAppend(b2.log, b3.log[|b2.log|]);
    }
  }

  /**
   * A reading pays back exactly the smallest of its cost's financing share, the debt (with a shortfall it has just
   * turned into debt) and what plan and credit still hold after paying for the energy.
   */
  lemma ReadingPaysBack(terms: Terms, b: Books, u: Usage)
    requires b.acct.Valid() && u.kwh >= 0.0
    ensures
      var priced := Renew(terms, b, u.end - SECOND, u.end).acct;
      Repaid(Calculate(terms, b, u).log) == Repaid(b.log) + Payback(terms, priced, BilledCost(terms, b, u))
  {
    hide Renew, Consume, Repaid, Payback, Cost;
    RenewPaysNothingBack(terms, b, u.end - SECOND, u.end);
    var b1 := Renew(terms, b, u.end - SECOND, u.end);
    ConsumePaysBack(terms, b1, u);
    RenewPaysNothingBack(terms, Consume(terms, b1, u), u.end, u.end);
  }

  // ---------- when a plan runs ----------

  // The plan purchase a log ends with, if any.
  function LastPlan(log: seq<Event>): Option<Event> {
    if log == [] then None
    else if log[|log| - 1].PlanBought? then Some(log[|log| - 1])
    else LastPlan(log[..|log| - 1])
  }

  lemma LastPlanAppend(log: seq<Event>, e: Event)
    ensures LastPlan(log + [e]) == if e.PlanBought? then Some(e) else LastPlan(log)
  {
    assert (log + [e])[..|log|] == log;
  }

  lemma {:induction false} MoneyKeepsLastPlan(log: seq<Event>, added: seq<Event>)
    requires forall i :: 0 <= i < |added| ==> IsMoneyEvent(added[i])
    ensures LastPlan(log + added) == LastPlan(log)
  {
    if added == [] {
      assert log + added == log;
    } else {
      var n := |added| - 1;
      assert log + added == (log + added[..n]) + [added[n]];
      LastPlanAppend(log + added[..n], added[n]);
      MoneyKeepsLastPlan(log, added[..n]);
    }
  }

  // The recorded payment and expiration dates are those of the plan bought last.
  predicate DatesMatchLog(b: Books) {
    var last := LastPlan(b.log);
    last.Some? && last.value.PlanBought? ==>
      b.acct.payment == Some(last.value.paidAt) && b.acct.expiration == Some(last.value.until)
  }

  lemma RenewKeepsDates(terms: Terms, b: Books, date: Time, end: Time)
    requires b.acct.Valid() && DatesMatchLog(b)
    ensures DatesMatchLog(Renew(terms, b, date, end))
  {
    hide IsNewCycle, NextCycleStart, LastPlan;
    var b1 := StartCycle(terms, b, date);
    LastPlanAppend(b.log, CycleStarted(date));
    var b2 := ExpirePlan(terms, b1, date);
    LastPlanAppend(b1.log, PlanExpired(b1.acct.plan));
    var b3 := PurchasePlan(terms, b2, end);
    if b3 != b2 {
      LastPlanAppend(b2.log, b3.log[|b2.log|]);
    }
  }

  /** Over any run the account's payment and expiration dates are those of the last plan bought. */
  lemma {:induction false} RunKeepsDates(b: Books, steps: seq<Step>)
    requires b.acct.Valid() && Metered(steps) && DatesMatchLog(b)
    ensures DatesMatchLog(Run(b, steps))
  {
    hide Renew, Consume, LastPlan;
    if steps != [] {
      var n := |steps| - 1;
      var terms, u := steps[n].terms, steps[n].usage;
      RunKeepsDates(b, steps[..n]);
      var b0 := Run(b, steps[..n]);
      RenewKeepsDates(terms, b0, u.end - SECOND, u.end);
      var b1 := Renew(terms, b0, u.end - SECOND, u.end);
      var added := ConsumeShape(terms, b1, u);
      MoneyKeepsLastPlan(b1.log, added);
      RenewKeepsDates(terms, Consume(terms, b1, u), u.end, u.end);
    }
  }

  /**
   * With plans enabled, a reading in On mode always leaves a plan running past it, one in Auto mode does so unless
   * the credit cannot pay for a plan, and one in Off mode buys none.
   */
  lemma PlanRunsWheneverAffordable(terms: Terms, b: Books, u: Usage)
    requires b.acct.Valid() && u.kwh >= 0.0 && terms.tariff.planEnabled
    ensures
      var a := Calculate(terms, b, u).acct;
      var current := a.running && a.expiration.value > u.end;
      && (terms.mode == On ==> current)
      && (terms.mode == Auto ==> current || a.credit < terms.tariff.planPrice + terms.tariff.planFixedFee)
      && (terms.mode == Off ==> PlansBought(Calculate(terms, b, u).log) == PlansBought(b.log))
  {
    hide Consume, IsNewCycle, NextCycleStart, PlansBought, Renew;
    var b1 := Renew(terms, b, u.end - SECOND, u.end);
    var b2 := Consume(terms, b1, u);
    NextCycleStartIsLater(terms.calendar, terms.tariff.startDay, terms.tariff.planDaily, u.end);
    RenewalBuysIfAffordable(terms, b2, u.end, u.end);
    if terms.mode == Off {
      RenewalBuysIfAffordable(terms, b, u.end - SECOND, u.end);
      var added := ConsumeShape(terms, b1, u);
      MoneyEventsBuyNothing(b1.log, added);
    }
  }

  lemma RenewalBuysIfAffordable(terms: Terms, b: Books, date: Time, end: Time)
    requires b.acct.Valid() && terms.tariff.planEnabled
    ensures
      var r := Renew(terms, b, date, end);
      var current := r.acct.running && r.acct.expiration.value > date;
      && (terms.mode == On && date <= end ==> current)
      && (terms.mode == Auto && date <= end ==>
            current || r.acct.credit < terms.tariff.planPrice + terms.tariff.planFixedFee)
      && (terms.mode == Off ==> PlansBought(r.log) == PlansBought(b.log))
  {
    hide IsNewCycle, NextCycleStart, PlansBought;
    NextCycleStartIsLater(terms.calendar, terms.tariff.startDay, terms.tariff.planDaily, end);
    var b1 := StartCycle(terms, b, date);
    PlansBoughtAppend(b.log, CycleStarted(date));
    var b2 := ExpirePlan(terms, b1, date);
    PlansBoughtAppend(b1.log, PlanExpired(b1.acct.plan));
  }

  /** Without plans no boundary is left behind: after a reading the cycle start is at or after the last boundary. */
  lemma NoBoundaryLeftBehind(terms: Terms, b: Books, u: Usage)
    requires b.acct.Valid() && u.kwh >= 0.0
    requires !terms.tariff.planEnabled && b.acct.expiration.None?
    ensures
      var a := Calculate(terms, b, u).acct;
      a.cycleStart.Some? && LastCycleStart(terms.calendar, terms.tariff.startDay, u.end) <= a.cycleStart.value
  {
    hide Consume, NextCycleStart;
    LastCycleStartIsBoundary(terms.calendar, terms.tariff.startDay, u.end);
    var b1 := Renew(terms, b, u.end - SECOND, u.end);
    var added := ConsumeShape(terms, b1, u);
  }
}
