/** The log is an audited ledger: it alone gives back the account, and every entry in it was due. */
module LedgerLaws {
  import opened Wrappers
  import opened Cycles
  import opened Tariffs
  import opened Accounts
  import opened PriceLaws
  import opened PlanLaws

  // ---------- the account a log stands for ----------

  function Applied(a: Account, e: Event): Account {
    match e
    case CycleStarted(at) => a.(cycleStart := Some(at), cycleEnergy := 0.0)
    case PlanExpired(_) => a.(running := false, plan := 0.0)
    case PlanBought(paidAt, until, price, fee) =>
      a.(
        running := true, payment := Some(paidAt), expiration := Some(until),
        credit := a.credit - price - fee, plan := a.plan + price)
    case EnergyBilled(_, kwh, cost, fromPlan) =>
      a.(plan := a.plan - fromPlan, credit := a.credit - (cost - fromPlan), cycleEnergy := a.cycleEnergy + kwh)
    case ConvertedToDebt(amount) => a.(credit := a.credit + amount, debt := a.debt + amount)
    case DebtRepaid(PlanPurse, amount) => a.(plan := a.plan - amount, debt := a.debt - amount)
    case DebtRepaid(CreditPurse, amount) => a.(credit := a.credit - amount, debt := a.debt - amount)
  }

  function AccountOf(a: Account, log: seq<Event>): Account {
    if log == [] then a else Applied(AccountOf(a, log[..|log| - 1]), log[|log| - 1])
  }

  lemma AccountOfAppend(a: Account, log: seq<Event>, e: Event)
    ensures AccountOf(a, log + [e]) == Applied(AccountOf(a, log), e)
  {
    assert (log + [e])[..|log|] == log;
  }

  // ---------- when an entry is due ----------

  // A reading is renewed for, then priced and settled, then renewed for again.
  datatype Phase = Renewing(date: Time) | Settling

  // The first cycle starts at once; a later one once no plan is unexpired and a boundary has passed.
  ghost predicate CycleDue(terms: Terms, a: Account, t: Time) {
    a.cycleStart.None?
    || (&& (a.expiration.Some? ==> a.expiration.value <= t)
        && BoundaryBetween(terms.calendar, terms.tariff.startDay, a.cycleStart.value, t))
  }

  predicate PlanOver(terms: Terms, a: Account, t: Time) {
    terms.tariff.planEnabled && a.running && a.expiration.Some? && a.expiration.value <= t
  }

  predicate PlanPayable(terms: Terms, a: Account) {
    && terms.tariff.planEnabled && !a.running
    && (terms.mode == On
        || (terms.mode == Auto && a.credit >= terms.tariff.planPrice + terms.tariff.planFixedFee))
  }

  // A daily plan lasts 24 hours, a monthly one to the least boundary after its payment.
  ghost predicate PlanLasts(terms: Terms, paidAt: Time, until: Time) {
    if terms.tariff.planDaily then until == paidAt + 86_400_000_000
    else
      && IsBoundary(terms.calendar, terms.tariff.startDay, until) && paidAt < until
      && !BoundaryWithin(terms.calendar, terms.tariff.startDay, paidAt + 1, until)
  }

  // What an entry says is true of the account just before it.
  ghost predicate Justified(terms: Terms, u: Usage, phase: Phase, prior: Account, e: Event) {
    match e
    case CycleStarted(at) => phase == Renewing(at) && CycleDue(terms, prior, at)
    case PlanExpired(forfeited) =>
      phase.Renewing? && PlanOver(terms, prior, phase.date) && forfeited == prior.plan
    case PlanBought(paidAt, until, price, fee) =>
      && phase.Renewing? && PlanPayable(terms, prior)
      && paidAt == u.end && PlanLasts(terms, paidAt, until)
      && price == terms.tariff.planPrice && fee == terms.tariff.planFixedFee
    case EnergyBilled(end, kwh, cost, fromPlan) =>
      && phase.Settling? && end == u.end && kwh == u.kwh && fromPlan == Min(cost, prior.plan)
      && prior.cycleEnergy >= 0.0 && u.kwh >= 0.0 && cost == Cost(terms.tariff, prior.cycleEnergy, u)
    case ConvertedToDebt(amount) =>
      && phase.Settling? && terms.mode == Auto && !terms.allowNegativeBalance
      && prior.credit < 0.0 && amount == -prior.credit
    case DebtRepaid(purse, amount) =>
      && phase.Settling? && 0.0 < amount <= prior.debt
      && amount <= (if purse == PlanPurse then prior.plan else prior.credit)
  }

  // Nothing is left to renew: no cycle to start, no plan to expire, and no plan that could be paid for.
  ghost predicate NothingDue(terms: Terms, a: Account, t: Time) {
    !CycleDue(terms, a, t) && !PlanOver(terms, a, t) && !PlanPayable(terms, a)
  }

  // Every entry added since `b` is justified, and the log still stands for the account.
  ghost predicate Audited(a: Account, terms: Terms, u: Usage, phase: Phase, b: Books, r: Books) {
    && b.log <= r.log && AccountOf(a, r.log) == r.acct
    && forall i :: |b.log| <= i < |r.log| ==> Justified(terms, u, phase, AccountOf(a, r.log[..i]), r.log[i])
  }

  lemma AuditOne(a: Account, terms: Terms, u: Usage, phase: Phase, b: Books, e: Event)
    requires AccountOf(a, b.log) == b.acct && Justified(terms, u, phase, b.acct, e)
    ensures Audited(a, terms, u, phase, b, Books(Applied(b.acct, e), b.log + [e]))
  {
    hide Justified, Applied;
    AccountOfAppend(a, b.log, e);
    assert (b.log + [e])[..|b.log|] == b.log;
  }

  lemma AuditBoth(a: Account, terms: Terms, u: Usage, phase: Phase, b: Books, mid: Books, r: Books)
    requires Audited(a, terms, u, phase, b, mid) && Audited(a, terms, u, phase, mid, r)
    ensures Audited(a, terms, u, phase, b, r)
  {
    hide Justified, AccountOf;
    forall i | |b.log| <= i < |r.log| ensures Justified(terms, u, phase, AccountOf(a, r.log[..i]), r.log[i]) {
      if i < |mid.log| {
        assert r.log[..i] == mid.log[..i] && r.log[i] == mid.log[i];
      }
    }
  }

  // ---------- renewals ----------

  lemma NewCycleIsDue(terms: Terms, a: Account, t: Time)
    ensures IsNewCycle(terms, a, t) <==> CycleDue(terms, a, t)
  {
    var cal, day := terms.calendar, terms.tariff.startDay;
    LastCycleStartIsGreatest(cal, day, t);
    var last := LastCycleStart(cal, day, t);
    if a.cycleStart.Some? && last > a.cycleStart.value {
      assert IsBoundary(cal, day, last) && a.cycleStart.value < last <= t;
    }
  }

  lemma PlanRunsToItsEnd(terms: Terms, date: Time)
    ensures
      PlanLasts(terms, date, NextCycleStart(terms.calendar, terms.tariff.startDay, terms.tariff.planDaily, date))
  {
    NextCycleStartIsLeast(terms.calendar, terms.tariff.startDay, terms.tariff.planDaily, date);
  }

  lemma JustReset(terms: Terms, a: Account, t: Time)
    requires a.cycleStart == Some(t)
    ensures !CycleDue(terms, a, t)
  {}

  lemma RenewIsAudited(a: Account, terms: Terms, u: Usage, date: Time, b: Books)
    requires b.acct.Valid() && AccountOf(a, b.log) == b.acct && date <= u.end
    ensures Audited(a, terms, u, Renewing(date), b, Renew(terms, b, date, u.end))
    ensures NothingDue(terms, Renew(terms, b, date, u.end).acct, date)
  {
    hide IsNewCycle, NextCycleStart, AccountOf, CycleDue, PlanLasts, Audited;
    NewCycleIsDue(terms, b.acct, date);
    PlanRunsToItsEnd(terms, u.end);
    NextCycleStartIsLater(terms.calendar, terms.tariff.startDay, terms.tariff.planDaily, u.end);
    var phase := Renewing(date);
    AuditNone(a, terms, u, phase, b);
    var b1 := StartCycle(terms, b, date);
    if b1 != b {
      AuditOne(a, terms, u, phase, b, CycleStarted(date));
      JustReset(terms, b1.acct, date);
    }
    AuditedStandsFor(a, terms, u, phase, b, b1);
    AuditNone(a, terms, u, phase, b1);
    var b2 := ExpirePlan(terms, b1, date);
    if b2 != b1 {
      AuditOne(a, terms, u, phase, b1, PlanExpired(b1.acct.plan));
    }
    AuditBoth(a, terms, u, phase, b, b1, b2);
    AuditedStandsFor(a, terms, u, phase, b, b2);
    AuditNone(a, terms, u, phase, b2);
    var b3 := PurchasePlan(terms, b2, u.end);
    if b3 != b2 {
      AuditOne(a, terms, u, phase, b2, b3.log[|b2.log|]);
    }
    AuditBoth(a, terms, u, phase, b, b2, b3);
    CycleStaysSettled(terms, b1.acct, b3.acct, date);
  }

  lemma AuditNone(a: Account, terms: Terms, u: Usage, phase: Phase, b: Books)
    requires AccountOf(a, b.log) == b.acct
    ensures Audited(a, terms, u, phase, b, b)
  {}

  lemma AuditedStandsFor(a: Account, terms: Terms, u: Usage, phase: Phase, b: Books, r: Books)
    requires Audited(a, terms, u, phase, b, r)
    ensures AccountOf(a, r.log) == r.acct
  {}

  // Buying a plan only puts the next cycle off.
  lemma CycleStaysSettled(terms: Terms, a: Account, later: Account, t: Time)
    requires !CycleDue(terms, a, t) && later.cycleStart == a.cycleStart
    requires later.expiration == a.expiration || (later.expiration.Some? && later.expiration.value > t)
    ensures !CycleDue(terms, later, t)
  {}

  // ---------- pricing and settling ----------

  // The cycle counter may as well be advanced with the charge: nothing after the charge looks at it.
  lemma ConsumeInLogOrder(terms: Terms, b: Books, u: Usage)
    requires b.acct.Valid() && u.kwh >= 0.0
    ensures
      var cost := Cost(terms.tariff, b.acct.cycleEnergy, u);
      Consume(terms, b, u)
      == MaybePayOffDebt(terms, ConvertNegativeBalance(terms, AddEnergy(ChargeEnergy(b, u, cost), u)), cost)
  {
    hide Cost, FinancingCharge, Deduction, Repayment;
  }

  lemma RepaymentIsAudited(a: Account, terms: Terms, u: Usage, b: Books, charge: real)
    requires AccountOf(a, b.log) == b.acct
    ensures Audited(a, terms, u, Settling, b, RepayFromPlan(b, charge))
    ensures Audited(a, terms, u, Settling, b, RepayFromCredit(b, charge))
  {
    hide AccountOf, Audited;
    AuditNone(a, terms, u, Settling, b);
    var amount := Deduction(charge, b.acct.plan, b.acct.debt);
    if amount > 0.0 {
      AuditOne(a, terms, u, Settling, b, DebtRepaid(PlanPurse, amount));
    } else {
      assert b.log + [] == b.log;
    }
    amount := Deduction(charge, b.acct.credit, b.acct.debt);
    if amount > 0.0 {
      AuditOne(a, terms, u, Settling, b, DebtRepaid(CreditPurse, amount));
    } else {
      assert b.log + [] == b.log;
    }
  }

  lemma SettleIsAudited(a: Account, terms: Terms, u: Usage, b: Books, cost: real)
    requires AccountOf(a, b.log) == b.acct
    ensures Audited(a, terms, u, Settling, b, MaybePayOffDebt(terms, ConvertNegativeBalance(terms, b), cost))
  {
    hide AccountOf, Audited, RepayFromPlan, RepayFromCredit, FinancingCharge, Deduction;
    AuditNone(a, terms, u, Settling, b);
    var b1 := ConvertNegativeBalance(terms, b);
    if b1 != b {
      AuditOne(a, terms, u, Settling, b, ConvertedToDebt(-b.acct.credit));
    }
    AuditedStandsFor(a, terms, u, Settling, b, b1);
    AuditNone(a, terms, u, Settling, b1);
    if b1.acct.debt > 0.0 {
      var charge := FinancingCharge(terms, cost);
      RepaymentIsAudited(a, terms, u, b1, charge);
      var b2 := RepayFromPlan(b1, charge);
      AuditedStandsFor(a, terms, u, Settling, b1, b2);
      RepaymentIsAudited(a, terms, u, b2, charge - Deduction(charge, b1.acct.plan, b1.acct.debt));
      AuditBoth(a, terms, u, Settling, b1, b2, PayOffDebt(b1, charge));
    }
    AuditBoth(a, terms, u, Settling, b, b1, MaybePayOffDebt(terms, b1, cost));
  }

  lemma ConsumeIsAudited(a: Account, terms: Terms, u: Usage, b: Books)
    requires b.acct.Valid() && u.kwh >= 0.0 && AccountOf(a, b.log) == b.acct
    ensures Audited(a, terms, u, Settling, b, Consume(terms, b, u))
    ensures |Consume(terms, b, u).log| > |b.log| && Consume(terms, b, u).log[|b.log|].EnergyBilled?
  {
    hide AccountOf, Audited, MaybePayOffDebt, ConvertNegativeBalance, Cost;
    ConsumeInLogOrder(terms, b, u);
    var cost := Cost(terms.tariff, b.acct.cycleEnergy, u);
    var e := EnergyBilled(u.end, u.kwh, cost, Min(cost, b.acct.plan));
    var b1 := AddEnergy(ChargeEnergy(b, u, cost), u);
    AuditOne(a, terms, u, Settling, b, e);
    AuditedStandsFor(a, terms, u, Settling, b, b1);
    SettleIsAudited(a, terms, u, b1, cost);
    AuditBoth(a, terms, u, Settling, b, b1, Consume(terms, b, u));
    AuditedKeepsLog(a, terms, u, Settling, b1, Consume(terms, b, u));
    assert b1.log[|b.log|] == e;
  }

  lemma AuditedKeepsLog(a: Account, terms: Terms, u: Usage, phase: Phase, b: Books, r: Books)
    requires Audited(a, terms, u, phase, b, r)
    ensures b.log <= r.log
  {}

  // ---------- a whole reading, and a whole run ----------

  // The entries a reading adds to `before`: renewals one second early, then the charge and what settles it, then
  // renewals at the reading's end. The charge comes when nothing is left to renew one second early.
  ghost predicate ReadingAudited(
    a: Account, terms: Terms, u: Usage, before: seq<Event>, after: seq<Event>, charged: nat, settled: nat)
  {
    && before <= after && |before| <= charged < settled <= |after|
    && after[charged].EnergyBilled?
    && NothingDue(terms, AccountOf(a, after[..charged]), u.end - 1_000_000)
    && (forall i :: |before| <= i < |after| ==>
          var phase := if i < charged then Renewing(u.end - 1_000_000)
                       else if i < settled then Settling
                       else Renewing(u.end);
          Justified(terms, u, phase, AccountOf(a, after[..i]), after[i]))
    && NothingDue(terms, AccountOf(a, after), u.end)
  }

  lemma Widen(a: Account, terms: Terms, u: Usage, phase: Phase, b: Books, r: Books, log: seq<Event>, i: nat)
    requires Audited(a, terms, u, phase, b, r) && r.log <= log && |b.log| <= i < |r.log|
    ensures Justified(terms, u, phase, AccountOf(a, log[..i]), log[i])
  {
    hide Justified, AccountOf;
    assert log[..i] == r.log[..i] && log[i] == r.log[i];
  }

  /** Every entry of a reading was due when it was made, none that was due is missing, and the log gives the account. */
  lemma ReadingIsAudited(a: Account, terms: Terms, b: Books, u: Usage) returns (charged: nat, settled: nat)
    requires b.acct.Valid() && u.kwh >= 0.0 && AccountOf(a, b.log) == b.acct
    ensures ReadingAudited(a, terms, u, b.log, Calculate(terms, b, u).log, charged, settled)
    ensures AccountOf(a, Calculate(terms, b, u).log) == Calculate(terms, b, u).acct
  {
    hide Renew, Consume, Audited, AccountOf, NothingDue, Justified;
    var early := u.end - SECOND;
    RenewIsAudited(a, terms, u, early, b);
    var b1 := Renew(terms, b, early, u.end);
    AuditedStandsFor(a, terms, u, Renewing(early), b, b1);
    ConsumeIsAudited(a, terms, u, b1);
    var b2 := Consume(terms, b1, u);
    AuditedStandsFor(a, terms, u, Settling, b1, b2);
    RenewIsAudited(a, terms, u, u.end, b2);
    var r := Renew(terms, b2, u.end, u.end);
    AuditedStandsFor(a, terms, u, Renewing(u.end), b2, r);
    AuditedKeepsLog(a, terms, u, Renewing(early), b, b1);
    AuditedKeepsLog(a, terms, u, Settling, b1, b2);
    AuditedKeepsLog(a, terms, u, Renewing(u.end), b2, r);
    charged, settled := |b1.log|, |b2.log|;
    assert r.log[..charged] == b1.log && r.log[charged] == b2.log[charged];
    forall i | |b.log| <= i < |r.log|
      ensures
        var phase := if i < charged then Renewing(early) else if i < settled then Settling else Renewing(u.end);
        Justified(terms, u, phase, AccountOf(a, r.log[..i]), r.log[i])
    {
      if i < charged {
        Widen(a, terms, u, Renewing(early), b, b1, r.log, i);
      } else if i < settled {
        Widen(a, terms, u, Settling, b1, b2, r.log, i);
      } else {
        Widen(a, terms, u, Renewing(u.end), b2, r, r.log, i);
      }
    }
  }

  /** Over any run the log alone gives back the account it started from in its present state. */
  lemma {:induction false} RunIsItsLog(a: Account, steps: seq<Step>)
    requires a.Valid() && Metered(steps)
    ensures AccountOf(a, Run(Books(a, []), steps).log) == Run(Books(a, []), steps).acct
  {
    hide Calculate, ReadingAudited;
    if steps != [] {
      var n := |steps| - 1;
      RunIsItsLog(a, steps[..n]);
      var charged, settled :=
        ReadingIsAudited(a, steps[n].terms, Run(Books(a, []), steps[..n]), steps[n].usage);
    }
  }

  /** Reading number n of any run is audited within the run's log. */
  lemma {:induction false} RunIsAudited(a: Account, steps: seq<Step>, n: nat) returns (charged: nat, settled: nat)
    requires a.Valid() && Metered(steps) && n < |steps|
    ensures
      var before, after := Run(Books(a, []), steps[..n]).log, Run(Books(a, []), steps[..n + 1]).log;
      && ReadingAudited(a, steps[n].terms, steps[n].usage, before, after, charged, settled)
      && after <= Run(Books(a, []), steps).log
    decreases |steps|
  {
    hide Calculate, ReadingAudited, AccountOf;
    var last := |steps| - 1;
    if n < last {
      charged, settled := RunIsAudited(a, steps[..last], n);
      assert steps[..last][..n] == steps[..n] && steps[..last][..n + 1] == steps[..n + 1];
      RunIsItsLog(a, steps[..last]);
      var c, s := ReadingIsAudited(a, steps[last].terms, Run(Books(a, []), steps[..last]), steps[last].usage);
      AuditedExtends(
        a, steps[last].terms, steps[last].usage,
        Run(Books(a, []), steps[..last]).log, Run(Books(a, []), steps).log, c, s);
    } else {
      assert steps[..n + 1] == steps && steps[..n + 1][..n] == steps[..n];
      RunIsItsLog(a, steps[..n]);
      charged, settled := ReadingIsAudited(a, steps[n].terms, Run(Books(a, []), steps[..n]), steps[n].usage);
    }
  }

  lemma AuditedExtends(
    a: Account, terms: Terms, u: Usage, before: seq<Event>, after: seq<Event>, charged: nat, settled: nat)
    requires ReadingAudited(a, terms, u, before, after, charged, settled)
    ensures before <= after
  {}

  // ---------- what the plan balance is ----------

  // What every entry of an audited log keeps to, whatever the terms.
  predicate PlanRule(prior: Account, e: Event) {
    match e
    case PlanBought(_, _, _, _) => !prior.running
    case PlanExpired(forfeited) => prior.running && forfeited == prior.plan
    case EnergyBilled(_, _, cost, fromPlan) => fromPlan == Min(cost, prior.plan)
    case DebtRepaid(PlanPurse, amount) => 0.0 < amount <= prior.plan
    case _ => true
  }

  ghost predicate FollowsPlanRule(a: Account, log: seq<Event>) {
    forall i :: 0 <= i < |log| ==> PlanRule(AccountOf(a, log[..i]), log[i])
  }

  lemma JustifiedFollowsPlanRule(terms: Terms, u: Usage, phase: Phase, prior: Account, e: Event)
    requires Justified(terms, u, phase, prior, e)
    ensures PlanRule(prior, e)
  {
    hide CycleDue, PlanLasts, Cost;
  }

  lemma ReadingFollowsPlanRule(
    a: Account, terms: Terms, u: Usage, before: seq<Event>, after: seq<Event>, charged: nat, settled: nat)
    requires FollowsPlanRule(a, before) && ReadingAudited(a, terms, u, before, after, charged, settled)
    ensures FollowsPlanRule(a, after)
  {
    hide Justified, AccountOf, PlanRule, NothingDue;
    forall i | 0 <= i < |after| ensures PlanRule(AccountOf(a, after[..i]), after[i]) {
      if i < |before| {
        assert after[..i] == before[..i] && after[i] == before[i];
      } else {
        var phase := if i < charged then Renewing(u.end - 1_000_000)
                     else if i < settled then Settling else Renewing(u.end);
        JustifiedFollowsPlanRule(terms, u, phase, AccountOf(a, after[..i]), after[i]);
      }
    }
  }

  lemma {:induction false} RunFollowsPlanRule(a: Account, steps: seq<Step>)
    requires a.Valid() && Metered(steps)
    ensures FollowsPlanRule(a, Run(Books(a, []), steps).log)
  {
    hide Calculate, ReadingAudited, AccountOf, FollowsPlanRule;
    if steps == [] {
      NothingBreaksPlanRule(a);
    } else {
      var n := |steps| - 1;
      RunFollowsPlanRule(a, steps[..n]);
      RunIsItsLog(a, steps[..n]);
      var b := Run(Books(a, []), steps[..n]);
      var charged, settled := ReadingIsAudited(a, steps[n].terms, b, steps[n].usage);
      ReadingFollowsPlanRule(
        a, steps[n].terms, steps[n].usage, b.log, Run(Books(a, []), steps).log, charged, settled);
    }
  }

  lemma NothingBreaksPlanRule(a: Account)
    ensures FollowsPlanRule(a, [])
  {}

  predicate NoneNegative(log: seq<Event>) {
    forall i :: 0 <= i < |log| && log[i].EnergyBilled? ==> log[i].cost >= 0.0
  }

  predicate IsPlanEntry(e: Event) {
    e.PlanBought? || e.PlanExpired?
  }

  // What charges and payback took from the plan.
  function TakenFromPlan(log: seq<Event>): real {
    if log == [] then 0.0
    else
      TakenFromPlan(log[..|log| - 1]) +
      match log[|log| - 1]
      case EnergyBilled(_, _, _, fromPlan) => fromPlan
      case DebtRepaid(PlanPurse, amount) => amount
      case _ => 0.0
  }

  lemma RulePrefix(a: Account, log: seq<Event>)
    requires log != [] && FollowsPlanRule(a, log) && NoneNegative(log)
    ensures FollowsPlanRule(a, log[..|log| - 1]) && NoneNegative(log[..|log| - 1])
    ensures PlanRule(AccountOf(a, log[..|log| - 1]), log[|log| - 1])
  {
    hide PlanRule, AccountOf;
    var before := log[..|log| - 1];
    assert forall i :: 0 <= i < |before| ==> before[..i] == log[..i] && before[i] == log[i];
  }

  lemma {:induction false} WithoutPlanNoBalance(a: Account, log: seq<Event>)
    requires FollowsPlanRule(a, log) && NoneNegative(log)
    requires !a.running ==> a.plan == 0.0
    ensures !AccountOf(a, log).running ==> AccountOf(a, log).plan == 0.0
  {
    hide FollowsPlanRule;
    if log != [] {
      RulePrefix(a, log);
      WithoutPlanNoBalance(a, log[..|log| - 1]);
    }
  }

  // Entry i is the last to buy a plan or let one expire.
  predicate LastPlanEntry(log: seq<Event>, i: nat) {
    i < |log| && IsPlanEntry(log[i]) && forall j :: i < j < |log| ==> !IsPlanEntry(log[j])
  }

  lemma {:induction false} BalanceSincePlan(a: Account, log: seq<Event>, i: nat)
    requires FollowsPlanRule(a, log) && NoneNegative(log) && LastPlanEntry(log, i)
    requires !a.running ==> a.plan == 0.0
    ensures AccountOf(a, log).plan == if log[i].PlanBought? then log[i].price - TakenFromPlan(log[i + 1..]) else 0.0
    ensures AccountOf(a, log).running == log[i].PlanBought?
    decreases |log|
  {
    hide FollowsPlanRule;
    var n := |log| - 1;
    RulePrefix(a, log);
    if i == n {
      WithoutPlanNoBalance(a, log[..n]);
      assert log[i + 1..] == [];
    } else {
      BalanceSincePlan(a, log[..n], i);
      assert log[i + 1..][..n - i - 1] == log[..n][i + 1..];
    }
  }

  lemma {:induction false} RunCostsNothingNegative(a: Account, steps: seq<Step>)
    requires a.Valid() && Metered(steps)
    requires forall i :: 0 <= i < |steps| ==> NonNegativePrices(steps[i].terms.tariff)
    ensures NoneNegative(Run(Books(a, []), steps).log)
  {
    hide Calculate, Justified, AccountOf, NothingDue, NonNegativePrices;
    if steps != [] {
      var n := |steps| - 1;
      var terms, u := steps[n].terms, steps[n].usage;
      RunCostsNothingNegative(a, steps[..n]);
      RunIsItsLog(a, steps[..n]);
      var before, after := Run(Books(a, []), steps[..n]).log, Run(Books(a, []), steps).log;
      var charged, settled := ReadingIsAudited(a, terms, Run(Books(a, []), steps[..n]), u);
      forall i | 0 <= i < |after| && after[i].EnergyBilled? ensures after[i].cost >= 0.0 {
        if i < |before| {
          assert after[i] == before[i];
        } else {
          var phase := if i < charged then Renewing(u.end - 1_000_000)
                       else if i < settled then Settling else Renewing(u.end);
          JustifiedCostIsNotNegative(terms, u, phase, AccountOf(a, after[..i]), after[i]);
        }
      }
    }
  }

  lemma JustifiedCostIsNotNegative(terms: Terms, u: Usage, phase: Phase, prior: Account, e: Event)
    requires Justified(terms, u, phase, prior, e) && e.EnergyBilled? && NonNegativePrices(terms.tariff)
    ensures e.cost >= 0.0
  {
    hide NonNegativePrices, Cost;
    CostIsNotNegative(terms.tariff, prior.cycleEnergy, u);
  }

  /**
   * Over any run with non-negative prices, from an account without a balance but on a running plan: the plan balance is
   * the price of the plan bought last minus what charges and payback took from it since, and zero once it has expired.
   */
  lemma {:induction false} PlanBalanceIsLastPlanLessUse(a: Account, steps: seq<Step>, i: nat)
    requires a.Valid() && Metered(steps) && (!a.running ==> a.plan == 0.0)
    requires forall n :: 0 <= n < |steps| ==> NonNegativePrices(steps[n].terms.tariff)
    requires LastPlanEntry(Run(Books(a, []), steps).log, i)
    ensures
      var r := Run(Books(a, []), steps);
      && r.acct.plan == (if r.log[i].PlanBought? then r.log[i].price - TakenFromPlan(r.log[i + 1..]) else 0.0)
      && r.acct.running == r.log[i].PlanBought?
  {
    hide Run, AccountOf, FollowsPlanRule, NoneNegative, TakenFromPlan, NonNegativePrices, LastPlanEntry;
    RunIsItsLog(a, steps);
    RunFollowsPlanRule(a, steps);
    RunCostsNothingNegative(a, steps);
    BalanceSincePlan(a, Run(Books(a, []), steps).log, i);
  }

  // ---------- expiry and price of one reading ----------

  lemma RenewForfeits(terms: Terms, b: Books, date: Time, end: Time) returns (i: nat)
    requires b.acct.Valid() && PlanOver(terms, b.acct, date)
    ensures
      var r := Renew(terms, b, date, end);
      && b.log <= r.log && |b.log| <= i < |r.log| && r.log[i] == PlanExpired(b.acct.plan)
      && r.acct.plan == (if i + 1 < |r.log| then terms.tariff.planPrice else 0.0)
      && (forall j :: i < j < |r.log| ==> r.log[j].PlanBought?)
  {
    hide IsNewCycle, NextCycleStart;
    i := |StartCycle(terms, b, date).log|;
  }

  /**
   * When a plan is over one second before a reading ends, the reading forfeits exactly the balance held before it, and
   * pays for its energy from the price of a plan bought at once, if any, and from nothing of the old balance.
   */
  lemma ExpiredPlanIsForfeited(terms: Terms, b: Books, u: Usage) returns (i: nat, k: nat)
    requires b.acct.Valid() && u.kwh >= 0.0
    requires terms.tariff.planEnabled && b.acct.running && b.acct.expiration.value <= u.end - 1_000_000
    ensures
      var log := Calculate(terms, b, u).log;
      && |b.log| <= i < k < |log| && log[i] == PlanExpired(b.acct.plan) && log[k].EnergyBilled?
      && (forall j :: i < j < k ==> log[j].PlanBought?)
      && log[k].fromPlan == Min(log[k].cost, if i + 1 < k then terms.tariff.planPrice else 0.0)
  {
    hide Renew, Consume, Cost;
    i := RenewForfeits(terms, b, u.end - SECOND, u.end);
    var b1 := Renew(terms, b, u.end - SECOND, u.end);
    k := |b1.log|;
    ChargeComesFirst(terms, b1, u);
    var b2 := Consume(terms, b1, u);
    RenewKeepsLog(terms, b2, u.end, u.end);
    var log := Calculate(terms, b, u).log;
    assert log[i] == b2.log[i] == b1.log[i] && log[k] == b2.log[k];
    assert forall j :: i < j < k ==> log[j] == b2.log[j] == b1.log[j];
  }

  lemma ChargeComesFirst(terms: Terms, b: Books, u: Usage)
    requires b.acct.Valid() && u.kwh >= 0.0
    ensures
      var r := Consume(terms, b, u);
      var cost := Cost(terms.tariff, b.acct.cycleEnergy, u);
      && b.log <= r.log && |r.log| > |b.log|
      && r.log[|b.log|] == EnergyBilled(u.end, u.kwh, cost, Min(cost, b.acct.plan))
  {
    hide Cost, FinancingCharge, Deduction;
  }

  lemma RenewKeepsLog(terms: Terms, b: Books, date: Time, end: Time)
    requires b.acct.Valid()
    ensures b.log <= Renew(terms, b, date, end).log
  {
    hide IsNewCycle, NextCycleStart;
  }

  lemma RenewWithoutExpiry(terms: Terms, b: Books, date: Time, end: Time)
    requires b.acct.Valid() && !PlanOver(terms, b.acct, date) && date <= end
    ensures
      var r := Renew(terms, b, date, end);
      && b.log <= r.log && (forall i :: |b.log| <= i < |r.log| ==> !r.log[i].PlanExpired?)
      && ((r.acct.running == b.acct.running && r.acct.expiration == b.acct.expiration)
          || (r.acct.running && r.acct.expiration.value > end))
  {
    hide IsNewCycle, NextCycleStart;
    NextCycleStartIsLater(terms.calendar, terms.tariff.startDay, terms.tariff.planDaily, end);
  }

  /** A plan that is not over at the end of a reading forfeits nothing. */
  lemma PlanNotOverForfeitsNothing(terms: Terms, b: Books, u: Usage)
    requires b.acct.Valid() && u.kwh >= 0.0
    requires !(terms.tariff.planEnabled && b.acct.running && b.acct.expiration.value <= u.end)
    ensures
      var log := Calculate(terms, b, u).log;
      b.log <= log && forall i :: |b.log| <= i < |log| ==> !log[i].PlanExpired?
  {
    hide Renew, Consume;
    RenewWithoutExpiry(terms, b, u.end - SECOND, u.end);
    var b1 := Renew(terms, b, u.end - SECOND, u.end);
    var added := ConsumeShape(terms, b1, u);
    var b2 := Consume(terms, b1, u);
    RenewWithoutExpiry(terms, b2, u.end, u.end);
    var log := Calculate(terms, b, u).log;
    forall i | |b.log| <= i < |log| ensures !log[i].PlanExpired? {
      if i < |b1.log| {
        assert log[i] == b2.log[i] == b1.log[i];
      } else if i < |b2.log| {
        assert log[i] == b2.log[i] == added[i - |b1.log|];
      }
    }
  }

  /** A reading is priced on the energy of its cycle: none, when a cycle starts with it, else what was used before. */
  lemma ReadingIsPricedInItsCycle(terms: Terms, b: Books, u: Usage)
    requires b.acct.Valid() && u.kwh >= 0.0
    ensures BilledCost(terms, b, u)
            == Cost(terms.tariff, if CycleDue(terms, b.acct, u.end - 1_000_000) then 0.0 else b.acct.cycleEnergy, u)
  {
    hide IsNewCycle, Cost, NextCycleStart, CycleDue;
    NewCycleIsDue(terms, b.acct, u.end - 1_000_000);
  }
}
