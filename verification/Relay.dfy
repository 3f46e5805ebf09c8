/** When a meter's relay is on, and when it is sent a set-config: sparkmeter/meter/meterdomain.py. */
module Relay {
  import opened Wrappers
  import opened Cycles
  import opened Tariffs
  import opened Accounts

  // MeterBilling.last_daily_energy_limit_reset_{datetime,value}
  datatype DailyCounter = DailyCounter(resetAt: Option<Time>, resetValue: Option<real>)

  // The relay's view of a customer meter; loadLimit is Tariff.get_current_load_limit().
  datatype Customer = Customer(tariff: Tariff, loadLimit: real, account: Account, daily: DailyCounter)

  // MeterModels and its scalars; continuousCurrent is phase_count * continuous_limit.
  datatype Model = Model(continuousCurrent: real, inrushLimit: real, powerScalar: real, currentScalar: real)

  // A totalizer meter has no customer part.
  datatype Profile = Profile(
    mode: Mode,
    customer: Option<Customer>,
    model: Model,
    usesProvider: bool,
    lastEnergy: real
  )

  // Deployment flags and the NOMINAL_VOLTAGE parameter.
  datatype Site = Site(heroku: bool, overrideMeterState: bool, nominalVoltage: real)

  // ---------- the relay rule ----------

  function DailyEnergy(daily: DailyCounter, lastEnergy: real): Option<real> {
    if daily.resetValue.Some? then Some(lastEnergy - daily.resetValue.value) else None
  }

  predicate OverDailyLimit(tariff: Tariff, daily: DailyCounter, lastEnergy: real) {
    var consumed := DailyEnergy(daily, lastEnergy);
    tariff.dailyLimitEnabled && consumed.Some? && consumed.value >= tariff.dailyLimit
  }

  // Meter.state_value: whether the relay should be on.
  predicate RelayOn(p: Profile) {
    match p.mode
    case On => true
    case Off => false
    case Auto =>
      match p.customer
      case None => true
      case Some(c) =>
        && !(c.tariff.planEnabled && !c.account.running)
        && !(c.account.plan <= 0.0 && c.account.credit <= 0.0)
        && !OverDailyLimit(c.tariff, c.daily, p.lastEnergy)
  }

  // ---------- set-config ----------

  // What is known of a meter's state: `unset` forces an update, None is unknown.
  datatype Known<T> = Unset | Unknown | Value(value: T)

  datatype Reported = Reported(state: Known<int>, loadLimit: Known<real>)

  datatype Command = Enable | Disable

  datatype SetConfig = SetConfig(
    command: Command, loadLimit: real, currentLimit: real, balance: real, lowBalance: bool)

  const MAX_RAW: real := 65535.0

  function Voltage(site: Site, nominal: Option<real>): real {
    if nominal.Some? && nominal.value != 0.0 then nominal.value else site.nominalVoltage
  }

  function PowerLimit(site: Site, p: Profile, nominal: Option<real>): real
    requires p.customer.Some?
  {
    Min(p.model.continuousCurrent * Voltage(site, nominal), p.customer.value.loadLimit)
  }

  predicate NeedsUpdate(site: Site, p: Profile, reported: Reported, nominal: Option<real>) {
    if !reported.state.Value? || !reported.loadLimit.Value? then true
    else if site.overrideMeterState then reported.state.value != 0
    else if p.customer.Some? then
      || reported.loadLimit.value != PowerLimit(site, p, nominal)
      || RelayOn(p) != (reported.state.value != 0)
    else false
  }

  function TotalBalance(a: Account): real {
    a.credit + a.plan
  }

  predicate HasLowBalance(c: Customer) {
    c.tariff.lowBalanceThreshold.Some? && TotalBalance(c.account) <= c.tariff.lowBalanceThreshold.value
  }

  // The divisions the source makes: none with a provider, and by the power scalar only for a customer meter.
  predicate ScalarsUsable(p: Profile) {
    !p.usesProvider ==> p.model.currentScalar != 0.0 && (p.customer.Some? ==> p.model.powerScalar != 0.0)
  }

  // A provider is sent watts; a meter without one is sent its own raw units.
  function RawLimit(p: Profile, watts: real): real
    requires ScalarsUsable(p) && p.customer.Some?
  {
    if p.usesProvider then watts else watts / p.model.powerScalar
  }

  function Scaled(p: Profile, raw: real): real {
    raw * p.model.powerScalar
  }

  // Meter._maybe_send_set_config: the packet sent, if any.
  function MaybeSendSetConfig(site: Site, p: Profile, reported: Reported, nominal: Option<real>): Option<SetConfig>
    requires ScalarsUsable(p)
  {
    if site.heroku || !NeedsUpdate(site, p, reported, nominal) then None
    else
      var inrush := if p.usesProvider then p.model.inrushLimit else p.model.inrushLimit / p.model.currentScalar;
      var currentLimit := Min(inrush, MAX_RAW);
      match p.customer
      case None => Some(SetConfig(Disable, MAX_RAW, currentLimit, 0.0, false))
      case Some(c) =>
        var watts := PowerLimit(site, p, nominal);
        Some(SetConfig(
          if RelayOn(p) && !site.overrideMeterState then Enable else Disable,
          RawLimit(p, watts),
          currentLimit,
          TotalBalance(c.account),
          HasLowBalance(c)))
  }

  // MeterSystemInfo.update_from_set_config, as the state and load limit it records.
  function Acknowledged(p: Profile, sent: SetConfig): Reported {
    Reported(
      Value(if sent.command == Enable then 1 else 0),
      Value(Scaled(p, sent.loadLimit)))
  }

  lemma RawLimitRoundTrip(p: Profile, watts: real)
    requires ScalarsUsable(p) && p.customer.Some?
    ensures Scaled(p, RawLimit(p, watts)) == watts
            <==> (p.usesProvider ==> p.model.powerScalar == 1.0 || watts == 0.0)
  {
    var d := p.model.powerScalar;
    if p.usesProvider && watts * d == watts && watts != 0.0 {
      assert watts * d / watts == d && watts / watts == 1.0;
    }
  }

  // The acknowledged limit is the one the check compares with.
  predicate LimitSurvives(site: Site, p: Profile, nominal: Option<real>) {
    p.usesProvider && p.customer.Some? && !site.overrideMeterState ==>
      p.model.powerScalar == 1.0 || PowerLimit(site, p, nominal) == 0.0
  }

  /**
   * Once a sent set-config is acknowledged, the check with unchanged inputs sends nothing more exactly when
   * the acknowledged limit survives rescaling. It always does for a meter without a provider; a provider meter
   * is sent unscaled watts, so there it needs a unit scalar or a zero limit.
   */
  lemma AcknowledgedSetConfigSettles(site: Site, p: Profile, reported: Reported, nominal: Option<real>)
    requires ScalarsUsable(p)
    requires MaybeSendSetConfig(site, p, reported, nominal).Some?
    ensures
      var ack := Acknowledged(p, MaybeSendSetConfig(site, p, reported, nominal).value);
      MaybeSendSetConfig(site, p, ack, nominal) == None <==> LimitSurvives(site, p, nominal)
  {
    hide RelayOn, HasLowBalance, TotalBalance, PowerLimit, RawLimit, Scaled;
    if p.customer.Some? {
      RawLimitRoundTrip(p, PowerLimit(site, p, nominal));
    }
  }

  // ---------- what a packet says, in terms of the meter ----------

  // A customer meter should be on: in On mode always; in Auto mode with any plan it needs running, money on one of its
  // wallets, and the daily limit not in force or not reached.
  predicate CustomerOn(mode: Mode, c: Customer, lastEnergy: real) {
    || mode == On
    || (&& mode == Auto
        && (!c.tariff.planEnabled || c.account.running)
        && (c.account.plan > 0.0 || c.account.credit > 0.0)
        && (!c.tariff.dailyLimitEnabled || c.daily.resetValue.None?
            || lastEnergy - c.daily.resetValue.value < c.tariff.dailyLimit))
  }

  // The smaller of what the model can carry at the voltage in force and what the tariff allows, in watts.
  predicate IsWattLimit(site: Site, p: Profile, nominal: Option<real>, watts: real)
    requires p.customer.Some?
  {
    var voltage := if nominal.Some? && nominal.value != 0.0 then nominal.value else site.nominalVoltage;
    var power, allowed := p.model.continuousCurrent * voltage, p.customer.value.loadLimit;
    (watts == power || watts == allowed) && watts <= power && watts <= allowed
  }

  /**
   * Without an override a customer meter is sent a packet exactly unless it is known to have the right limit and to be
   * on or off as it should; the packet enables exactly when the meter should be on, and carries the watt limit (raw
   * for a meter without a provider), the capped inrush limit and the balance.
   */
  lemma CustomerPacket(site: Site, p: Profile, reported: Reported, nominal: Option<real>, watts: real)
    requires ScalarsUsable(p) && p.customer.Some? && !site.heroku && !site.overrideMeterState
    requires IsWattLimit(site, p, nominal, watts)
    ensures
      var c, sent := p.customer.value, MaybeSendSetConfig(site, p, reported, nominal);
      var on := CustomerOn(p.mode, c, p.lastEnergy);
      var total := c.account.credit + c.account.plan;
      && (sent.None? <==>
            reported.loadLimit == Value(watts) && reported.state.Value? && (reported.state.value != 0) == on)
      && (sent.Some? ==>
            && (sent.value.command == Enable <==> on)
            && sent.value.loadLimit == (if p.usesProvider then watts else watts / p.model.powerScalar)
            && CappedInrush(p, sent.value.currentLimit)
            && sent.value.balance == total
            && (sent.value.lowBalance <==>
                c.tariff.lowBalanceThreshold.Some? && total <= c.tariff.lowBalanceThreshold.value))
  {
    assert PowerLimit(site, p, nominal) == watts;
  }

  predicate CappedInrush(p: Profile, limit: real)
    requires ScalarsUsable(p)
  {
    var inrush := if p.usesProvider then p.model.inrushLimit else p.model.inrushLimit / p.model.currentScalar;
    limit <= 65535.0 && limit <= inrush && (limit == inrush || limit == 65535.0)
  }

  /** Under an override a meter is told to be off unless it is known to be off, whatever its account says. */
  lemma OverriddenPacket(site: Site, p: Profile, reported: Reported, nominal: Option<real>)
    requires ScalarsUsable(p) && !site.heroku && site.overrideMeterState
    ensures
      var sent := MaybeSendSetConfig(site, p, reported, nominal);
      && (sent.None? <==> reported.loadLimit.Value? && reported.state == Value(0))
      && (sent.Some? ==> sent.value.command == Disable && CappedInrush(p, sent.value.currentLimit))
  {
    hide PowerLimit, RelayOn, HasLowBalance;
  }

  /** A totalizer is told to be off, without a limit of its own, only while its state or limit is unknown. */
  lemma TotalizerPacket(site: Site, p: Profile, reported: Reported, nominal: Option<real>)
    requires ScalarsUsable(p) && !site.heroku && !site.overrideMeterState && p.customer.None?
    ensures
      var sent := MaybeSendSetConfig(site, p, reported, nominal);
      && (sent.None? <==> reported.loadLimit.Value? && reported.state.Value?)
      && (sent.Some? ==>
            && sent.value == SetConfig(Disable, 65535.0, sent.value.currentLimit, 0.0, false)
            && CappedInrush(p, sent.value.currentLimit))
  {
    hide PowerLimit, RelayOn, HasLowBalance;
  }

  /** The cloud deployment sends nothing. */
  lemma CloudSendsNothing(site: Site, p: Profile, reported: Reported, nominal: Option<real>)
    requires ScalarsUsable(p) && site.heroku
    ensures MaybeSendSetConfig(site, p, reported, nominal).None?
  {}

  // ---------- a run of checks ----------

  // What a meter should report; None is of no interest to the check.
  datatype Target = Target(on: Option<bool>, limit: Option<real>)

  function TargetOf(site: Site, p: Profile, nominal: Option<real>): Target {
    if site.overrideMeterState then Target(Some(false), None)
    else if p.customer.Some? then Target(Some(RelayOn(p)), Some(PowerLimit(site, p, nominal)))
    else Target(None, None)
  }

  predicate InSync(reported: Reported, target: Target) {
    && reported.state.Value? && reported.loadLimit.Value?
    && (target.on.Some? ==> target.on.value == (reported.state.value != 0))
    && (target.limit.Some? ==> target.limit.value == reported.loadLimit.value)
  }

  // Away from the cloud deployment, nothing is sent exactly when the meter is known to be on target.
  lemma SilentExactlyWhenInSync(site: Site, p: Profile, reported: Reported, nominal: Option<real>)
    requires ScalarsUsable(p) && !site.heroku
    ensures MaybeSendSetConfig(site, p, reported, nominal).None? <==> InSync(reported, TargetOf(site, p, nominal))
  {}

  // "Enable" is sent only when the override is off and the relay rule says on; every other packet disables.
  lemma EnableOnlyWhenRelayOn(site: Site, p: Profile, reported: Reported, nominal: Option<real>)
    requires ScalarsUsable(p)
    requires MaybeSendSetConfig(site, p, reported, nominal).Some?
    ensures MaybeSendSetConfig(site, p, reported, nominal).value.command == Enable
            <==> p.customer.Some? && !site.overrideMeterState && RelayOn(p)
  {}

  // What is known of the meter after a check whose packet, if any, is acknowledged.
  function AfterCheck(site: Site, p: Profile, reported: Reported, nominal: Option<real>): Reported
    requires ScalarsUsable(p)
  {
    var sent := MaybeSendSetConfig(site, p, reported, nominal);
    if sent.Some? then Acknowledged(p, sent.value) else reported
  }

  // The meter's profile at each of a run of checks: wallets, plan, tariff and mode may change in between.
  predicate Checks(site: Site, ps: seq<Profile>, nominal: Option<real>) {
    && (forall i :: 0 <= i < |ps| ==> ScalarsUsable(ps[i]) && LimitSurvives(site, ps[i], nominal))
    && (forall i, j :: 0 <= i < j < |ps| ==> (ps[i].customer.Some? <==> ps[j].customer.Some?))
  }

  function AfterChecks(site: Site, ps: seq<Profile>, reported: Reported, nominal: Option<real>): Reported
    requires Checks(site, ps, nominal)
  {
    if ps == [] then reported
    else AfterCheck(site, ps[|ps| - 1], AfterChecks(site, ps[..|ps| - 1], reported, nominal), nominal)
  }

  // What each check of a run sends.
  function Sent(site: Site, ps: seq<Profile>, reported: Reported, nominal: Option<real>): (sent: seq<Option<SetConfig>>)
    requires Checks(site, ps, nominal)
    ensures |sent| == |ps|
  {
    if ps == [] then []
    else
      var before := ps[..|ps| - 1];
      Sent(site, before, reported, nominal)
      + [MaybeSendSetConfig(site, ps[|ps| - 1], AfterChecks(site, before, reported, nominal), nominal)]
  }

  // The first check finds the meter not known to be on target, or a later one finds a new target.
  predicate Due(site: Site, ps: seq<Profile>, reported: Reported, nominal: Option<real>, i: nat)
    requires i < |ps|
  {
    var target := TargetOf(site, ps[i], nominal);
    if i == 0 then !InSync(reported, target) else target != TargetOf(site, ps[i - 1], nominal)
  }

  lemma CheckReachesTarget(site: Site, p: Profile, reported: Reported, nominal: Option<real>)
    requires ScalarsUsable(p) && LimitSurvives(site, p, nominal) && !site.heroku
    ensures InSync(AfterCheck(site, p, reported, nominal), TargetOf(site, p, nominal))
  {
    hide MaybeSendSetConfig, TargetOf, InSync, LimitSurvives;
    SilentExactlyWhenInSync(site, p, reported, nominal);
    SilentExactlyWhenInSync(site, p, AfterCheck(site, p, reported, nominal), nominal);
    if MaybeSendSetConfig(site, p, reported, nominal).Some? {
      AcknowledgedSetConfigSettles(site, p, reported, nominal);
    }
  }

  // A report that meets one target meets another of the same kind only if the two are equal.
  lemma OneTargetAtATime(site: Site, p: Profile, q: Profile, reported: Reported, nominal: Option<real>)
    requires p.customer.Some? <==> q.customer.Some?
    requires InSync(reported, TargetOf(site, p, nominal))
    ensures InSync(reported, TargetOf(site, q, nominal)) <==> TargetOf(site, p, nominal) == TargetOf(site, q, nominal)
  {
    hide RelayOn, PowerLimit;
  }

  lemma ChecksEndOnTarget(site: Site, ps: seq<Profile>, reported: Reported, nominal: Option<real>)
    requires !site.heroku && ps != [] && Checks(site, ps, nominal)
    ensures InSync(AfterChecks(site, ps, reported, nominal), TargetOf(site, ps[|ps| - 1], nominal))
  {
    hide InSync, TargetOf, LimitSurvives, AfterCheck;
    CheckReachesTarget(site, ps[|ps| - 1], AfterChecks(site, ps[..|ps| - 1], reported, nominal), nominal);
  }

  /**
   * Checks do not chatter. However the meter's account, tariff and mode change, a run of acknowledged checks ends with
   * the meter on its last target. A check sends a packet exactly when the target differs from that of the check
   * before it (for the first one, when the meter was not known to be on target), and the packet enables exactly when
   * the target is on.
   */
  lemma {:induction false} ChecksFollowTheTarget(
    site: Site, ps: seq<Profile>, reported: Reported, nominal: Option<real>, i: nat)
    requires !site.heroku && Checks(site, ps, nominal) && i < |ps|
    ensures InSync(AfterChecks(site, ps, reported, nominal), TargetOf(site, ps[|ps| - 1], nominal))
    ensures
      var sent := Sent(site, ps, reported, nominal)[i];
      && (sent.Some? <==> Due(site, ps, reported, nominal, i))
      && (sent.Some? ==> (sent.value.command == Enable <==> TargetOf(site, ps[i], nominal).on == Some(true)))
    decreases |ps|
  {
    hide MaybeSendSetConfig, InSync, TargetOf, LimitSurvives, ScalarsUsable, AfterCheck;
    var n := |ps| - 1;
    ChecksEndOnTarget(site, ps, reported, nominal);
    if i < n {
      ChecksFollowTheTarget(site, ps[..n], reported, nominal, i);
      assert i > 0 ==> ps[..n][i - 1] == ps[i - 1];
    } else {
      var before := AfterChecks(site, ps[..n], reported, nominal);
      SilentExactlyWhenInSync(site, ps[n], before, nominal);
      EnableMeansTargetOn(site, ps[n], before, nominal);
      if n > 0 {
        ChecksEndOnTarget(site, ps[..n], reported, nominal);
        OneTargetAtATime(site, ps[n - 1], ps[n], before, nominal);
      }
    }
  }

  lemma EnableMeansTargetOn(site: Site, p: Profile, reported: Reported, nominal: Option<real>)
    requires ScalarsUsable(p)
    ensures
      var sent := MaybeSendSetConfig(site, p, reported, nominal);
      sent.Some? ==> (sent.value.command == Enable <==> TargetOf(site, p, nominal).on == Some(true))
  {
    hide MaybeSendSetConfig, RelayOn, PowerLimit;
    if MaybeSendSetConfig(site, p, reported, nominal).Some? {
      EnableOnlyWhenRelayOn(site, p, reported, nominal);
    }
  }

  // ---------- the daily energy limit ----------

  // A reading's cumulative energy, and the last time the daily counter should have been reset when it is processed.
  datatype DayStep = DayStep(energy: real, resetDue: Time)

  datatype Day = Day(daily: DailyCounter, lastEnergy: real)

  predicate IsNewDay(daily: DailyCounter, resetDue: Time) {
    daily.resetAt.None? || resetDue > daily.resetAt.value
  }

  // The daily-limit part of Meter.update_from_reading for a customer meter.
  function UpdateDaily(tariff: Tariff, daily: DailyCounter, energy: real, resetDue: Time): DailyCounter {
    if !tariff.dailyLimitEnabled then DailyCounter(None, None)
    else if IsNewDay(daily, resetDue) then DailyCounter(Some(resetDue), Some(energy))
    else daily
  }

  function DayRun(tariff: Tariff, d: Day, steps: seq<DayStep>): Day {
    if steps == [] then d
    else
      var last := steps[|steps| - 1];
      Day(UpdateDaily(tariff, DayRun(tariff, d, steps[..|steps| - 1]).daily, last.energy, last.resetDue), last.energy)
  }

  predicate NonDecreasing(energy: real, steps: seq<DayStep>) {
    && (forall i :: 0 <= i < |steps| ==> energy <= steps[i].energy)
    && (forall i, j :: 0 <= i < j < |steps| ==> steps[i].energy <= steps[j].energy)
  }

  // Whether the reading number i resets the counter.
  predicate ResetsAt(tariff: Tariff, d: Day, steps: seq<DayStep>, i: nat)
    requires i < |steps|
  {
    tariff.dailyLimitEnabled && IsNewDay(DayRun(tariff, d, steps[..i]).daily, steps[i].resetDue)
  }

  /**
   * With a limit enabled from the start and non-decreasing energy, the daily consumption is the energy
   * since the last reset reading, and so never negative.
   */
  lemma {:induction false} DailyEnergySinceReset(tariff: Tariff, d: Day, steps: seq<DayStep>, i: nat)
    requires tariff.dailyLimitEnabled && NonDecreasing(d.lastEnergy, steps)
    requires i < |steps| && ResetsAt(tariff, d, steps, i)
    requires forall j: nat | i < j < |steps| :: !ResetsAt(tariff, d, steps, j)
    ensures
      var r := DayRun(tariff, d, steps);
      && DailyEnergy(r.daily, r.lastEnergy) == Some(steps[|steps| - 1].energy - steps[i].energy)
      && DailyEnergy(r.daily, r.lastEnergy).value >= 0.0
      && r.daily.resetAt == Some(steps[i].resetDue)
  {
    var n := |steps| - 1;
    if i < n {
      assert !ResetsAt(tariff, d, steps, n);
      forall j: nat | i < j < n ensures !ResetsAt(tariff, d, steps[..n], j) {
        assert steps[..n][..j] == steps[..j];
        assert !ResetsAt(tariff, d, steps, j);
      }
      assert steps[..n][..i] == steps[..i];
      DailyEnergySinceReset(tariff, d, steps[..n], i);
    }
  }

  // The counter's reset is due to reading i: no earlier one was due as late, and no later one later.
  predicate ResetBy(d: Day, steps: seq<DayStep>, i: nat)
    requires i < |steps|
  {
    && (d.daily.resetAt.Some? ==> d.daily.resetAt.value < steps[i].resetDue)
    && (forall j :: 0 <= j < i ==> steps[j].resetDue < steps[i].resetDue)
    && (forall j :: i < j < |steps| ==> steps[j].resetDue <= steps[i].resetDue)
  }

  /**
   * With the limit enabled the daily counter is that of the first reading at which the latest reset was due, or the
   * old one when none was due since.
   */
  lemma {:induction false} DailyCounterIsOfLatestReset(tariff: Tariff, d: Day, steps: seq<DayStep>) returns (i: int)
    requires tariff.dailyLimitEnabled
    ensures -1 <= i < |steps|
    ensures i >= 0 ==>
              && ResetBy(d, steps, i)
              && DayRun(tariff, d, steps).daily == DailyCounter(Some(steps[i].resetDue), Some(steps[i].energy))
    ensures i < 0 ==>
              && DayRun(tariff, d, steps).daily == d.daily
              && (steps != [] ==>
                    && d.daily.resetAt.Some?
                    && forall j :: 0 <= j < |steps| ==> steps[j].resetDue <= d.daily.resetAt.value)
  {
    i := -1;
    if steps != [] {
      var n := |steps| - 1;
      var before := DayRun(tariff, d, steps[..n]).daily;
      i := DailyCounterIsOfLatestReset(tariff, d, steps[..n]);
      if IsNewDay(before, steps[n].resetDue) {
        i := n;
      }
    }
  }

  /** With the limit disabled nothing is counted, so the daily limit never turns the meter off. */
  lemma DisabledLimitCountsNothing(tariff: Tariff, d: Day, steps: seq<DayStep>)
    requires !tariff.dailyLimitEnabled && steps != []
    ensures DayRun(tariff, d, steps).daily == DailyCounter(None, None)
    ensures DayRun(tariff, d, steps).lastEnergy == steps[|steps| - 1].energy
  {}

  // Without a reset the counter is untouched.
  lemma {:induction false} NoResetKeepsCounter(tariff: Tariff, d: Day, steps: seq<DayStep>)
    requires tariff.dailyLimitEnabled && d.daily.resetAt.Some?
    requires forall i :: 0 <= i < |steps| ==> steps[i].resetDue <= d.daily.resetAt.value
    ensures DayRun(tariff, d, steps).daily == d.daily
    ensures DayRun(tariff, d, steps).lastEnergy == if steps == [] then d.lastEnergy else steps[|steps| - 1].energy
  {
    if steps != [] {
      NoResetKeepsCounter(tariff, d, steps[..|steps| - 1]);
    }
  }

  /**
   * Once the daily limit is reached in Auto mode the relay stays off at every later reading until the next
   * daily reset is due, whatever happens to the wallets and the plan.
   */
  lemma DailyLimitLatches(p: Profile, later: Profile, steps: seq<DayStep>)
    requires p.customer.Some? && later.customer.Some?
    requires p.mode == Auto && later.mode == Auto
    requires p.customer.value.tariff == later.customer.value.tariff
    requires OverDailyLimit(p.customer.value.tariff, p.customer.value.daily, p.lastEnergy)
    requires p.customer.value.daily.resetAt.Some?
    requires NonDecreasing(p.lastEnergy, steps)
    requires forall i :: 0 <= i < |steps| ==> steps[i].resetDue <= p.customer.value.daily.resetAt.value
    requires Day(later.customer.value.daily, later.lastEnergy)
             == DayRun(p.customer.value.tariff, Day(p.customer.value.daily, p.lastEnergy), steps)
    ensures !RelayOn(p) && !RelayOn(later)
    ensures forall site, reported, nominal ::
              ScalarsUsable(later) && MaybeSendSetConfig(site, later, reported, nominal).Some?
              ==> MaybeSendSetConfig(site, later, reported, nominal).value.command == Disable
  {
    NoResetKeepsCounter(p.customer.value.tariff, Day(p.customer.value.daily, p.lastEnergy), steps);
  }
}
