/** The mutable records billing works on: sparkmeter/meter/meterdomain.py and sparkmeter/reading/readingdomain.py. */
module Meters {
  import opened Wrappers
  import opened Cycles
  import opened Accounts
  import opened Relay

  // MeterSystemInfo as a value.
  datatype SystemInfo = SystemInfo(lastEnergy: real, lastEnergyAt: Time, state: Option<int>, powerLimit: Option<real>)

  // What send_set_config_based_on_system_info passes on.
  function ReportedBy(info: SystemInfo): Reported {
    Reported(
      if info.state.None? then Unknown else Value(info.state.value),
      if info.powerLimit.None? then Unknown else Value(info.powerLimit.value))
  }

  // Everything stored for one meter.
  datatype MeterRow = MeterRow(
    customer: bool,
    terms: Terms,
    account: Account,
    daily: DailyCounter,
    info: SystemInfo
  )

  // Energy since the previous reading; nothing for a first reading or when the counter went backwards.
  function KilowattHours(lastEnergy: real, energy: real): (kwh: real)
    ensures kwh >= 0.0
  {
    if lastEnergy == 0.0 then 0.0
    else if lastEnergy > energy then 0.0
    else energy - lastEnergy
  }

  class Wallet {
    var value: real

    constructor (value: real)
      ensures this.value == value
    {
      this.value := value;
    }
  }

  class MeterBilling {
    var lastPlanPaymentDate: Option<Time>
    var lastPlanExpirationDate: Option<Time>
    var lastCycleStart: Option<Time>
    var totalCycleEnergy: real
    var isRunningPlan: bool
    var lastDailyEnergyLimitResetDatetime: Option<Time>
    var lastDailyEnergyLimitResetValue: Option<real>

    constructor (a: Account, daily: DailyCounter)
      ensures lastPlanPaymentDate == a.payment && lastPlanExpirationDate == a.expiration
      ensures lastCycleStart == a.cycleStart && totalCycleEnergy == a.cycleEnergy && isRunningPlan == a.running
      ensures lastDailyEnergyLimitResetDatetime == daily.resetAt
      ensures lastDailyEnergyLimitResetValue == daily.resetValue
    {
      lastPlanPaymentDate := a.payment;
      lastPlanExpirationDate := a.expiration;
      lastCycleStart := a.cycleStart;
      totalCycleEnergy := a.cycleEnergy;
      isRunningPlan := a.running;
      lastDailyEnergyLimitResetDatetime := daily.resetAt;
      lastDailyEnergyLimitResetValue := daily.resetValue;
    }
  }

  class MeterSystemInfo {
    var lastEnergy: real
    var lastEnergyDatetime: Time
    var currentState: Option<int>
    var currentUserPowerLimit: Option<real>

    constructor (info: SystemInfo)
      ensures View() == info
    {
      lastEnergy := info.lastEnergy;
      lastEnergyDatetime := info.lastEnergyAt;
      currentState := info.state;
      currentUserPowerLimit := info.powerLimit;
    }

    function View(): SystemInfo
      reads this
    {
      SystemInfo(lastEnergy, lastEnergyDatetime, currentState, currentUserPowerLimit)
    }

    method UpdateFromReading(reading: Reading)
      modifies this
      ensures View()
              == SystemInfo(reading.energy, reading.heartbeatEnd, Some(reading.state), Some(reading.userPowerLimit))
    {
      currentState := Some(reading.state);
      currentUserPowerLimit := Some(reading.userPowerLimit);
      lastEnergy := reading.energy;
      lastEnergyDatetime := reading.heartbeatEnd;
    }

    /** Record an acknowledged set-config; what is then reported is what the relay check settles on. */
    method UpdateFromSetConfig(p: Profile, sent: SetConfig)
      modifies this
      ensures ReportedBy(View()) == Acknowledged(p, sent)
      ensures lastEnergy == old(lastEnergy) && lastEnergyDatetime == old(lastEnergyDatetime)
    {
      currentState := Some(if sent.command == Enable then 1 else 0);
      currentUserPowerLimit := Some(Scaled(p, sent.loadLimit));
    }
  }

  class Reading {
    const heartbeatEnd: Time
    const energy: real
    const state: int
    const userPowerLimit: real
    var kilowattHours: real
    var cost: real
    var rate: real
    var touModifier: real
    var acctCredit: real
    var acctPlan: real
    var acctDebt: real

    constructor (heartbeatEnd: Time, energy: real, state: int, userPowerLimit: real)
      ensures this.heartbeatEnd == heartbeatEnd && this.energy == energy
      ensures this.state == state && this.userPowerLimit == userPowerLimit
      ensures kilowattHours == cost == rate == touModifier == acctCredit == acctPlan == acctDebt == 0.0
    {
      this.heartbeatEnd := heartbeatEnd;
      this.energy := energy;
      this.state := state;
      this.userPowerLimit := userPowerLimit;
      kilowattHours, cost, rate, touModifier := 0.0, 0.0, 0.0, 0.0;
      acctCredit, acctPlan, acctDebt := 0.0, 0.0, 0.0;
    }

    method UpdateKilowattHours(lastEnergy: real)
      modifies this`kilowattHours
      ensures kilowattHours == KilowattHours(lastEnergy, energy)
    {
      if lastEnergy == 0.0 {
        kilowattHours := 0.0;
      } else if lastEnergy > energy {
        kilowattHours := 0.0;
      } else {
        kilowattHours := energy - lastEnergy;
      }
    }
  }

  class Meter {
    const customer: bool
    const terms: Terms
    const creditWallet: Wallet
    const planWallet: Wallet
    const debtWallet: Wallet
    const billing: MeterBilling
    const systemInfo: MeterSystemInfo

    constructor (row: MeterRow)
      ensures Separate()
      ensures fresh(creditWallet) && fresh(planWallet) && fresh(debtWallet) && fresh(billing) && fresh(systemInfo)
      ensures Row() == row
    {
      customer := row.customer;
      terms := row.terms;
      creditWallet := new Wallet(row.account.credit);
      planWallet := new Wallet(row.account.plan);
      debtWallet := new Wallet(row.account.debt);
      billing := new MeterBilling(row.account, row.daily);
      systemInfo := new MeterSystemInfo(row.info);
    }

    // The three wallets are three rows.
    predicate Separate() {
      creditWallet != planWallet && planWallet != debtWallet && debtWallet != creditWallet
    }

    function AccountView(): Account
      reads creditWallet, planWallet, debtWallet, billing
    {
      Account(
        creditWallet.value, planWallet.value, debtWallet.value, billing.isRunningPlan,
        billing.lastPlanPaymentDate, billing.lastPlanExpirationDate,
        billing.lastCycleStart, billing.totalCycleEnergy)
    }

    function Daily(): DailyCounter
      reads billing
    {
      DailyCounter(billing.lastDailyEnergyLimitResetDatetime, billing.lastDailyEnergyLimitResetValue)
    }

    function Row(): MeterRow
      reads creditWallet, planWallet, debtWallet, billing, systemInfo
    {
      MeterRow(customer, terms, AccountView(), Daily(), systemInfo.View())
    }

    /** Record the reading, and reset the daily counter when its reset time has passed. */
    method UpdateFromReading(reading: Reading, resetDue: Time)
      modifies systemInfo, billing
      ensures systemInfo.View()
              == SystemInfo(reading.energy, reading.heartbeatEnd, Some(reading.state), Some(reading.userPowerLimit))
      ensures AccountView() == old(AccountView())
      ensures
        Daily() == if customer then UpdateDaily(terms.tariff, old(Daily()), reading.energy, resetDue) else old(Daily())
    {
      systemInfo.UpdateFromReading(reading);
      if customer {
        if terms.tariff.dailyLimitEnabled {
          if IsNewDay(Daily(), resetDue) {
            billing.lastDailyEnergyLimitResetDatetime := Some(resetDue);
            billing.lastDailyEnergyLimitResetValue := Some(systemInfo.lastEnergy);
          }
        } else {
          billing.lastDailyEnergyLimitResetDatetime := None;
          billing.lastDailyEnergyLimitResetValue := None;
        }
      }
    }
  }
}
