/**
 What one reading does to a meter's account, step by step: the specification of
 the methods of CalculateBilling in sparkmeter/billing.py. The account is
 paired with a log of what happened to it.
 */
module Accounts {
  import opened Wrappers
  import opened Cycles
  import opened Tariffs

  datatype Pricing = Flat(price: Option<real>) | BlockRated(blocks: seq<BlockRate>)

  // `covers` decides TariffTOU.superset_of for (last reading, this reading).
  datatype TouPeriod = TouPeriod(percent: real, covers: (Time, Time) -> bool)

  datatype Tariff = Tariff(
    pricing: Pricing,
    touEnabled: bool,
    tous: seq<TouPeriod>,
    planEnabled: bool,
    planPrice: real,
    planFixedFee: real,
    planDaily: bool,
    startDay: StartDay,
    dailyLimitEnabled: bool,
    dailyLimit: real,
    lowBalanceThreshold: Option<real>
  )

  // MeterConfig.state
  datatype Mode = Off | On | Auto

  // What billing reads but never writes: tariff, calendar, operating mode and system parameters.
  datatype Terms = Terms(
    tariff: Tariff,
    calendar: Calendar,
    mode: Mode,
    allowNegativeBalance: bool,
    debtPaybackPercent: real
  )

  // The billed part of a reading; `since` is the time of the reading before it.
  datatype Usage = Usage(end: Time, since: Time, kwh: real)

  datatype Account = Account(
    credit: real,
    plan: real,
    debt: real,
    running: bool,
    payment: Option<Time>,
    expiration: Option<Time>,
    cycleStart: Option<Time>,
    cycleEnergy: real
  ) {
    // A running plan has an expiration date, and energy counters never go below zero.
    predicate Valid() {
      (running ==> expiration.Some?) && cycleEnergy >= 0.0
    }
  }

  // The wallet a debt is paid back from.
  datatype Purse = PlanPurse | CreditPurse

  datatype Event =
    | CycleStarted(at: Time)
    | PlanExpired(forfeited: real)
    | PlanBought(paidAt: Time, until: Time, price: real, fee: real)
    | EnergyBilled(end: Time, kwh: real, cost: real, fromPlan: real)
    | ConvertedToDebt(amount: real)
    | DebtRepaid(purse: Purse, amount: real)

  datatype Books = Books(acct: Account, log: seq<Event>)

  // ---------- pricing ----------

  function BaseRate(tariff: Tariff, cycleEnergy: real, kwh: real): real
    requires cycleEnergy >= 0.0 && kwh >= 0.0
  {
    match tariff.pricing
    case Flat(None) => 0.0
    case Flat(Some(price)) => price
    case BlockRated(blocks) => AverageBlockRate(blocks, cycleEnergy, cycleEnergy + kwh).value
  }

  // The first time-of-use period that covers the reading, if any.
  function FirstCovering(tous: seq<TouPeriod>, since: Time, end: Time): Option<TouPeriod> {
    if tous == [] then None
    else if tous[0].covers(since, end) then Some(tous[0])
    else FirstCovering(tous[1..], since, end)
  }

  function Modifier(tariff: Tariff, rate: real, u: Usage): Option<real> {
    if tariff.touEnabled && rate > 0.0 then
      var period := FirstCovering(tariff.tous, u.since, u.end);
      if period.Some? then Some(period.value.percent / 100.0) else None
    else None
  }

  function Rate(tariff: Tariff, cycleEnergy: real, u: Usage): real
    requires cycleEnergy >= 0.0 && u.kwh >= 0.0
  {
    var base := BaseRate(tariff, cycleEnergy, u.kwh);
    var modifier := Modifier(tariff, base, u);
    if modifier.Some? then base * modifier.value else base
  }

  function Cost(tariff: Tariff, cycleEnergy: real, u: Usage): real
    requires cycleEnergy >= 0.0 && u.kwh >= 0.0
  {
    Rate(tariff, cycleEnergy, u) * u.kwh
  }

  // ---------- steps ----------

  predicate IsNewCycle(terms: Terms, a: Account, date: Time) {
    a.cycleStart.None? ||
    (!(a.expiration.Some? && date < a.expiration.value) &&
     LastCycleStart(terms.calendar, terms.tariff.startDay, date) > a.cycleStart.value)
  }

  function StartCycle(terms: Terms, b: Books, date: Time): Books {
    if IsNewCycle(terms, b.acct, date)
    then Books(b.acct.(cycleStart := Some(date), cycleEnergy := 0.0), b.log + [CycleStarted(date)])
    else b
  }

  predicate PlanIsOver(terms: Terms, a: Account, date: Time)
    requires a.Valid()
  {
    terms.tariff.planEnabled && a.running && date >= a.expiration.value
  }

  function ExpirePlan(terms: Terms, b: Books, date: Time): Books
    requires b.acct.Valid()
  {
    if PlanIsOver(terms, b.acct, date)
    then Books(b.acct.(running := false, plan := 0.0), b.log + [PlanExpired(b.acct.plan)])
    else b
  }

  predicate CanPurchase(terms: Terms, a: Account) {
    terms.tariff.planEnabled && !a.running &&
    (terms.mode == On ||
     (terms.mode == Auto && a.credit >= terms.tariff.planPrice + terms.tariff.planFixedFee))
  }

  function PurchasePlan(terms: Terms, b: Books, end: Time): Books {
    if CanPurchase(terms, b.acct) then
      var t := terms.tariff;
      var until := NextCycleStart(terms.calendar, t.startDay, t.planDaily, end);
      Books(
        b.acct.(
          running := true,
          payment := Some(end),
          expiration := Some(until),
          credit := b.acct.credit - t.planFixedFee - t.planPrice,
          plan := b.acct.plan + t.planPrice
        ),
        b.log + [PlanBought(end, until, t.planPrice, t.planFixedFee)])
    else b
  }

  function ChargeEnergy(b: Books, u: Usage, cost: real): Books {
    var fromPlan := Min(cost, b.acct.plan);
    Books(
      b.acct.(credit := b.acct.credit - (cost - fromPlan), plan := b.acct.plan - fromPlan),
      b.log + [EnergyBilled(u.end, u.kwh, cost, fromPlan)])
  }

  predicate MustConvert(terms: Terms, a: Account) {
    terms.mode == Auto && a.credit < 0.0 && !terms.allowNegativeBalance
  }

  function ConvertNegativeBalance(terms: Terms, b: Books): Books {
    if MustConvert(terms, b.acct)
    then Books(b.acct.(debt := b.acct.debt - b.acct.credit, credit := 0.0), b.log + [ConvertedToDebt(-b.acct.credit)])
    else b
  }

  // A wallet's share of the repayment: never more than the wallet or the debt holds.
  function Deduction(charge: real, wallet: real, debt: real): real {
    Max(0.0, Min(charge, Min(wallet, debt)))
  }

  function Repayment(purse: Purse, amount: real): seq<Event> {
    if amount > 0.0 then [DebtRepaid(purse, amount)] else []
  }

  function RepayFromPlan(b: Books, charge: real): Books {
    var amount := Deduction(charge, b.acct.plan, b.acct.debt);
    Books(b.acct.(plan := b.acct.plan - amount, debt := b.acct.debt - amount), b.log + Repayment(PlanPurse, amount))
  }

  function RepayFromCredit(b: Books, charge: real): Books {
    var amount := Deduction(charge, b.acct.credit, b.acct.debt);
    Books(
      b.acct.(credit := b.acct.credit - amount, debt := b.acct.debt - amount), b.log + Repayment(CreditPurse, amount))
  }

  function PayOffDebt(b: Books, charge: real): Books {
    RepayFromCredit(RepayFromPlan(b, charge), charge - Deduction(charge, b.acct.plan, b.acct.debt))
  }

  function FinancingCharge(terms: Terms, cost: real): real {
    cost * terms.debtPaybackPercent / 100.0
  }

  function MaybePayOffDebt(terms: Terms, b: Books, cost: real): Books {
    if b.acct.debt > 0.0 then PayOffDebt(b, FinancingCharge(terms, cost)) else b
  }

  function AddEnergy(b: Books, u: Usage): Books {
    b.(acct := b.acct.(cycleEnergy := b.acct.cycleEnergy + u.kwh))
  }

  // ---------- the pipeline of one reading ----------

  function Renew(terms: Terms, b: Books, date: Time, end: Time): (r: Books)
    requires b.acct.Valid()
    ensures r.acct.Valid()
  {
    PurchasePlan(terms, ExpirePlan(terms, StartCycle(terms, b, date), date), end)
  }

  function Consume(terms: Terms, b: Books, u: Usage): (r: Books)
    requires b.acct.Valid() && u.kwh >= 0.0
    ensures r.acct.Valid()
  {
    var cost := Cost(terms.tariff, b.acct.cycleEnergy, u);
    AddEnergy(MaybePayOffDebt(terms, ConvertNegativeBalance(terms, ChargeEnergy(b, u, cost)), cost), u)
  }

  function Calculate(terms: Terms, b: Books, u: Usage): (r: Books)
    requires b.acct.Valid() && u.kwh >= 0.0
    ensures r.acct.Valid()
  {
    Renew(terms, Consume(terms, Renew(terms, b, u.end - SECOND, u.end), u), u.end, u.end)
  }

  // The cost of a reading is priced after the renewal that precedes it.
  function BilledCost(terms: Terms, b: Books, u: Usage): real
    requires b.acct.Valid() && u.kwh >= 0.0
  {
    Cost(terms.tariff, Renew(terms, b, u.end - SECOND, u.end).acct.cycleEnergy, u)
  }

  // ---------- runs ----------

  // Terms may change from one reading to the next.
  datatype Step = Step(terms: Terms, usage: Usage)

  predicate Metered(steps: seq<Step>) {
    forall i :: 0 <= i < |steps| ==> steps[i].usage.kwh >= 0.0
  }

  function Run(b: Books, steps: seq<Step>): (r: Books)
    requires b.acct.Valid() && Metered(steps)
    ensures r.acct.Valid()
  {
    if steps == [] then b
    else
      var last := steps[|steps| - 1];
      Calculate(last.terms, Run(b, steps[..|steps| - 1]), last.usage)
  }
}
