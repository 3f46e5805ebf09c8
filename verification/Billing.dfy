/**
 * CalculateBilling (sparkmeter/billing.py): the object that bills one reading by
 * updating the meter's wallets and billing record in place.
 */
module Billing {
  import opened Wrappers
  import opened Cycles
  import opened Tariffs
  import opened Accounts
  import opened Meters

  class CalculateBilling {
    const terms: Terms
    const reading: Reading
    const meter: Meter
    const lastEnergyDatetime: Time
    ghost var log: seq<Event>

    constructor (reading: Reading, meter: Meter, lastEnergyDatetime: Time)
      ensures terms == meter.terms && this.reading == reading && this.meter == meter
      ensures this.lastEnergyDatetime == lastEnergyDatetime && log == []
    {
      terms := meter.terms;
      this.reading := reading;
      this.meter := meter;
      this.lastEnergyDatetime := lastEnergyDatetime;
      log := [];
    }

    ghost predicate Valid()
      reads reading, meter.creditWallet, meter.planWallet, meter.debtWallet, meter.billing
    {
      meter.Separate() && meter.AccountView().Valid() && reading.kilowattHours >= 0.0
    }

    function Used(): Usage
      reads reading
    {
      Usage(reading.heartbeatEnd, lastEnergyDatetime, reading.kilowattHours)
    }

    ghost function Current(): Books
      reads this, meter.creditWallet, meter.planWallet, meter.debtWallet, meter.billing
    {
      Books(meter.AccountView(), log)
    }

    method BaseTariffRate() returns (rate: real)
      requires Valid()
      ensures rate == BaseRate(terms.tariff, meter.AccountView().cycleEnergy, reading.kilowattHours)
    {
      match terms.tariff.pricing {
        case Flat(price) =>
          rate := if price.None? then 0.0 else price.value;
        case BlockRated(blocks) =>
          var start := meter.billing.totalCycleEnergy;
          var average := GetAverageBlockRate(blocks, start, start + reading.kilowattHours);
          rate := average.value;
      }
    }

    method TouModifier(rate: real) returns (modifier: Option<real>)
      ensures modifier == Modifier(terms.tariff, rate, Used())
    {
      var tous := terms.tariff.tous;
      if terms.tariff.touEnabled && rate > 0.0 {
        for i := 0 to |tous|
          invariant FirstCovering(tous[i..], lastEnergyDatetime, reading.heartbeatEnd)
                    == FirstCovering(tous, lastEnergyDatetime, reading.heartbeatEnd)
        {
          if tous[i].covers(lastEnergyDatetime, reading.heartbeatEnd) {
            return Some(tous[i].percent / 100.0);
          }
        }
      }
      return None;
    }

    method UpdateTariffCost()
      requires Valid()
      modifies reading`cost, reading`rate, reading`touModifier
      ensures reading.rate == Rate(terms.tariff, meter.AccountView().cycleEnergy, Used())
      ensures reading.cost == Cost(terms.tariff, meter.AccountView().cycleEnergy, Used())
      ensures
        var base := BaseRate(terms.tariff, meter.AccountView().cycleEnergy, reading.kilowattHours);
        var modifier := Modifier(terms.tariff, base, Used());
        reading.touModifier == if modifier.Some? then modifier.value else old(reading.touModifier)
    {
      hide BaseRate, Modifier;
      var rate := BaseTariffRate();
      var modifier := TouModifier(rate);
      if modifier.Some? {
        rate := rate * modifier.value;
        reading.touModifier := modifier.value;
      }
      reading.cost := rate * reading.kilowattHours;
      reading.rate := rate;
    }

    method PayOffCustomerDebt()
      requires Valid()
      modifies this`log, meter.planWallet, meter.creditWallet, meter.debtWallet
      ensures Valid()
      ensures Current() == PayOffDebt(old(Current()), FinancingCharge(terms, reading.cost))
    {
      var financingCharge := reading.cost * terms.debtPaybackPercent / 100.0;
      var wallets := [meter.planWallet, meter.creditWallet];
      ghost var start := Current();
      for i := 0 to |wallets|
        invariant i == 0 ==> Current() == start && financingCharge == FinancingCharge(terms, reading.cost)
        invariant i == 1 ==>
                    && Current() == RepayFromPlan(start, FinancingCharge(terms, reading.cost))
                    && financingCharge
                       == FinancingCharge(terms, reading.cost)
                          - Deduction(FinancingCharge(terms, reading.cost), start.acct.plan, start.acct.debt)
        invariant i == 2 ==> Current() == PayOffDebt(start, FinancingCharge(terms, reading.cost))
        invariant meter.billing.lastPlanPaymentDate == old(meter.billing.lastPlanPaymentDate)
      {
        var wallet := wallets[i];
        var deduction := Max(0.0, Min(financingCharge, Min(wallet.value, meter.debtWallet.value)));
        financingCharge := financingCharge - deduction;
        if deduction > 0.0 {
          wallet.value := wallet.value - deduction;
          meter.debtWallet.value := meter.debtWallet.value - deduction;
          log := log + [DebtRepaid(if i == 0 then PlanPurse else CreditPurse, deduction)];
        }
      }
    }

    method MaybeConvertNegativeBalanceToDebt() returns (converted: bool)
      requires Valid()
      modifies this`log, meter.creditWallet, meter.debtWallet
      ensures Valid()
      ensures converted == MustConvert(terms, old(meter.AccountView()))
      ensures Current() == ConvertNegativeBalance(terms, old(Current()))
    {
      if terms.mode != Auto { return false; }
      if meter.creditWallet.value >= 0.0 { return false; }
      if terms.allowNegativeBalance { return false; }
      log := log + [ConvertedToDebt(-meter.creditWallet.value)];
      meter.debtWallet.value := meter.debtWallet.value + -meter.creditWallet.value;
      meter.creditWallet.value := 0.0;
      return true;
    }

    method UpdateCustomerCredit()
      requires Valid()
      modifies this`log, meter.planWallet, meter.creditWallet, meter.debtWallet
      ensures Valid()
      ensures Current() == ConvertNegativeBalance(terms, ChargeEnergy(old(Current()), Used(), reading.cost))
    {
      var planCost := Min(reading.cost, meter.planWallet.value);
      meter.creditWallet.value := meter.creditWallet.value - (reading.cost - planCost);
      meter.planWallet.value := meter.planWallet.value - planCost;
      log := log + [EnergyBilled(reading.heartbeatEnd, reading.kilowattHours, reading.cost, planCost)];
      var _ := MaybeConvertNegativeBalanceToDebt();
    }

    method MaybeStartNewCycle(date: Time) returns (started: bool)
      requires Valid()
      modifies this`log, meter.billing
      ensures Valid()
      ensures meter.Daily() == old(meter.Daily())
      ensures started == IsNewCycle(terms, old(meter.AccountView()), date)
      ensures Current() == StartCycle(terms, old(Current()), date)
    {
      if !IsNewCycle(terms, meter.AccountView(), date) { return false; }
      meter.billing.lastCycleStart := Some(date);
      meter.billing.totalCycleEnergy := 0.0;
      log := log + [CycleStarted(date)];
      return true;
    }

    method MaybeExpirePlan(date: Time) returns (expired: bool)
      requires Valid()
      modifies this`log, meter.billing, meter.planWallet
      ensures Valid()
      ensures meter.Daily() == old(meter.Daily())
      ensures expired == PlanIsOver(terms, old(meter.AccountView()), date)
      ensures Current() == ExpirePlan(terms, old(Current()), date)
    {
      if !terms.tariff.planEnabled { return false; }
      if meter.billing.isRunningPlan && date >= meter.billing.lastPlanExpirationDate.value {
        log := log + [PlanExpired(meter.planWallet.value)];
        meter.billing.isRunningPlan := false;
        meter.planWallet.value := 0.0;
        return true;
      }
      return false;
    }

    method MaybePurchaseNewPlan() returns (purchased: bool)
      requires Valid()
      modifies this`log, meter.billing, meter.planWallet, meter.creditWallet
      ensures Valid()
      ensures meter.Daily() == old(meter.Daily())
      ensures purchased == CanPurchase(terms, old(meter.AccountView()))
      ensures Current() == PurchasePlan(terms, old(Current()), reading.heartbeatEnd)
    {
      var tariff := terms.tariff;
      if tariff.planEnabled && !meter.billing.isRunningPlan {
        var tariffCost := tariff.planPrice + tariff.planFixedFee;
        if terms.mode == On || (terms.mode == Auto && meter.creditWallet.value >= tariffCost) {
          var until := NextCycleStart(terms.calendar, tariff.startDay, tariff.planDaily, reading.heartbeatEnd);
          meter.billing.isRunningPlan := true;
          meter.billing.lastPlanPaymentDate := Some(reading.heartbeatEnd);
          meter.billing.lastPlanExpirationDate := Some(until);
          meter.creditWallet.value := meter.creditWallet.value - tariff.planFixedFee;
          meter.creditWallet.value := meter.creditWallet.value - tariff.planPrice;
          meter.planWallet.value := meter.planWallet.value + tariff.planPrice;
          log := log + [PlanBought(reading.heartbeatEnd, until, tariff.planPrice, tariff.planFixedFee)];
          return true;
        }
      }
      return false;
    }

    // A new cycle, the old plan's expiry and a new plan, as tried before and after the reading.
    method MaybeRenew(date: Time)
      requires Valid()
      modifies this`log, meter.billing, meter.planWallet, meter.creditWallet
      ensures Valid()
      ensures meter.Daily() == old(meter.Daily())
      ensures Current() == Renew(terms, old(Current()), date, reading.heartbeatEnd)
    {
      hide StartCycle, ExpirePlan, PurchasePlan, IsNewCycle, PlanIsOver, CanPurchase;
      var _ := MaybeStartNewCycle(date);
      var _ := MaybeExpirePlan(date);
      var _ := MaybePurchaseNewPlan();
    }

    method ChargeReading()
      requires Valid()
      modifies this`log, meter.billing, meter.planWallet, meter.creditWallet, meter.debtWallet
      modifies reading`cost, reading`rate, reading`touModifier
      ensures Valid()
      ensures meter.Daily() == old(meter.Daily())
      ensures Current() == Consume(terms, old(Current()), Used())
      ensures reading.cost == Cost(terms.tariff, old(meter.AccountView()).cycleEnergy, Used())
    {
      hide Rate, BaseRate, Modifier, Cost, ChargeEnergy, ConvertNegativeBalance, PayOffDebt, FinancingCharge;
      UpdateTariffCost();
      UpdateCustomerCredit();
      if meter.debtWallet.value > 0.0 {
        PayOffCustomerDebt();
      }
      meter.billing.totalCycleEnergy := meter.billing.totalCycleEnergy + reading.kilowattHours;
    }

    /** Bill the reading: the account moves by exactly the specified pipeline and is copied onto the reading. */
    method Calculate()
      requires Valid()
      modifies this`log, meter.billing, meter.planWallet, meter.creditWallet, meter.debtWallet
      modifies reading`cost, reading`rate, reading`touModifier
      modifies reading`acctCredit, reading`acctPlan, reading`acctDebt
      ensures Valid()
      ensures Current() == Accounts.Calculate(terms, old(Current()), Used())
      ensures reading.cost == BilledCost(terms, old(Current()), Used())
      ensures meter.Daily() == old(meter.Daily())
      ensures reading.acctCredit == meter.AccountView().credit
      ensures reading.acctDebt == meter.AccountView().debt
      ensures reading.acctPlan == meter.AccountView().plan
    {
      hide Renew, Consume;
      MaybeRenew(reading.heartbeatEnd - SECOND);
      ChargeReading();
      MaybeRenew(reading.heartbeatEnd);
      reading.acctCredit := meter.creditWallet.value;
      reading.acctDebt := meter.debtWallet.value;
      reading.acctPlan := meter.planWallet.value;
    }
  }
}
