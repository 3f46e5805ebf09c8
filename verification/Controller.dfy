/**
 * From delivered events to billed readings: `add_reading` in sparkmeter/controller.py and the
 * per-reading loop `_write_readings_sync` in sparkmeter/metering/events.py.
 */
module Controller {
  import opened Wrappers
  import opened Cycles
  import opened Accounts
  import opened Relay
  import opened Meters
  import opened Billing

  // A reading event as delivered. The last two fields are the circumstances of this delivery, not of the reading:
  // whether locking the wallets times out, and the daily reset time at the moment it is processed.
  datatype Delivery = Delivery(
    meter: int,
    periodStart: Option<Time>,
    periodEnd: Option<Time>,
    energy: real,
    state: int,
    userPowerLimit: real,
    lockTimesOut: bool,
    resetDue: Time
  ) {
    // Python reads a missing and a zero timestamp alike.
    predicate Complete() {
      periodStart.Some? && periodEnd.Some? && periodStart.value != 0 && periodEnd.value != 0
    }

    function Key(): (int, Time)
      requires Complete()
    {
      (meter, periodEnd.value)
    }

    // The heartbeat window of one meter: what makes two deliveries repeats of each other.
    function Window(): (int, Option<Time>, Option<Time>) {
      (meter, periodStart, periodEnd)
    }
  }

  datatype StoredReading = StoredReading(
    start: Time, energy: real, kwh: real, cost: real, credit: real, plan: real, debt: real)

  // The tables, with the keys of the readings billed so far in order.
  datatype Tables = Tables(
    meters: map<int, MeterRow>,
    readings: map<(int, Time), StoredReading>,
    billed: seq<(int, Time)>
  ) {
    predicate Valid() {
      forall m <- meters :: meters[m].account.Valid()
    }
  }

  predicate StartTaken(readings: map<(int, Time), StoredReading>, meter: int, start: Time) {
    exists k <- readings :: k.0 == meter && readings[k].start == start
  }

  function NormalState(state: int): int {
    if -1 <= state <= 13 then state else -1
  }

  function Raw(d: Delivery): StoredReading
    requires d.Complete()
  {
    StoredReading(d.periodStart.value, d.energy, 0.0, 0.0, 0.0, 0.0, 0.0)
  }

  function UsageFor(row: MeterRow, d: Delivery): Usage
    requires d.Complete()
  {
    Usage(d.periodEnd.value, row.info.lastEnergyAt, KilowattHours(row.info.lastEnergy, d.energy))
  }

  function ProcessedRow(row: MeterRow, d: Delivery): MeterRow
    requires d.Complete() && row.account.Valid()
  {
    row.(
      account :=
        if row.customer then Calculate(row.terms, Books(row.account, []), UsageFor(row, d)).acct else row.account,
      daily := if row.customer then UpdateDaily(row.terms.tariff, row.daily, d.energy, d.resetDue) else row.daily,
      info := SystemInfo(d.energy, d.periodEnd.value, Some(NormalState(d.state)), Some(d.userPowerLimit)))
  }

  function ProcessedReading(row: MeterRow, d: Delivery): StoredReading
    requires d.Complete() && row.account.Valid()
  {
    var u := UsageFor(row, d);
    if row.customer then
      var b := Books(row.account, []);
      var a := Calculate(row.terms, b, u).acct;
      StoredReading(d.periodStart.value, d.energy, u.kwh, BilledCost(row.terms, b, u), a.credit, a.plan, a.debt)
    else
      Raw(d).(kwh := u.kwh)
  }

  datatype Outcome = Processed | Incomplete | Duplicate | UnknownMeter | ConflictingStart | LockTimeout

  function OutcomeOf(t: Tables, d: Delivery): Outcome {
    if !d.Complete() then Incomplete
    else if d.Key() in t.readings then Duplicate
    else if d.meter !in t.meters then UnknownMeter
    else if StartTaken(t.readings, d.meter, d.periodStart.value) then ConflictingStart
    else if t.meters[d.meter].customer && d.lockTimesOut then LockTimeout
    else Processed
  }

  // What one delivery does to the tables.
  function Deliver(t: Tables, d: Delivery): (r: Tables)
    requires t.Valid()
    ensures r.Valid()
  {
    match OutcomeOf(t, d)
    case LockTimeout => t.(readings := t.readings[d.Key() := Raw(d)])
    case Processed =>
      var row := t.meters[d.meter];
      Tables(
        t.meters[d.meter := ProcessedRow(row, d)],
        t.readings[d.Key() := ProcessedReading(row, d)],
        if row.customer then t.billed + [d.Key()] else t.billed)
    case _ => t
  }

  function DeliverAll(t: Tables, ds: seq<Delivery>): (r: Tables)
    requires t.Valid()
    ensures r.Valid()
  {
    if ds == [] then t else Deliver(DeliverAll(t, ds[..|ds| - 1]), ds[|ds| - 1])
  }

  class Database {
    var meters: map<int, MeterRow>
    var readings: map<(int, Time), StoredReading>
    ghost var billed: seq<(int, Time)>

    ghost function View(): Tables
      reads this
    {
      Tables(meters, readings, billed)
    }

    /** Store the raw reading unless it must be rejected. */
    method SaveRawReading(d: Delivery) returns (outcome: Outcome)
      requires d.Complete()
      modifies this`readings
      ensures outcome in {Duplicate, UnknownMeter, ConflictingStart} ==> readings == old(readings)
      ensures outcome == Processed ==> readings == old(readings)[d.Key() := Raw(d)]
      ensures outcome == match OutcomeOf(old(View()), d) case LockTimeout => Processed case o => o
    {
      if (d.meter, d.periodEnd.value) in readings {
        return Duplicate;
      }
      if d.meter !in meters {
        return UnknownMeter;
      }
      if StartTaken(readings, d.meter, d.periodStart.value) {
        return ConflictingStart;
      }
      readings := readings[d.Key() := Raw(d)];
      return Processed;
    }

    /** Bill a stored reading and update its meter. */
    method ProcessReading(d: Delivery) returns (timedOut: bool)
      requires d.Complete() && View().Valid() && d.meter in meters && d.Key() in readings && readings[d.Key()] == Raw(d)
      modifies this
      ensures timedOut == (old(meters)[d.meter].customer && d.lockTimesOut)
      ensures timedOut ==> View() == old(View())
      ensures !timedOut ==>
                var row := old(meters)[d.meter];
                View() == Tables(
                  old(meters)[d.meter := ProcessedRow(row, d)],
                  old(readings)[d.Key() := ProcessedReading(row, d)],
                  if row.customer then old(billed) + [d.Key()] else old(billed))
    {
      hide Calculate, BilledCost, UpdateDaily, KilowattHours;
      var row := meters[d.meter];
      var meter := new Meter(row);
      var reading := new Reading(d.periodEnd.value, d.energy, NormalState(d.state), d.userPowerLimit);
      if row.customer {
        if d.lockTimesOut {
          return true;
        }
        reading.UpdateKilowattHours(meter.systemInfo.lastEnergy);
        var billing := new CalculateBilling(reading, meter, meter.systemInfo.lastEnergyDatetime);
        billing.Calculate();
        billed := billed + [d.Key()];
      } else {
        reading.UpdateKilowattHours(meter.systemInfo.lastEnergy);
      }
      meter.UpdateFromReading(reading, d.resetDue);
      meters := meters[d.meter := meter.Row()];
      readings := readings[d.Key() := StoredReading(
        d.periodStart.value, reading.energy, reading.kilowattHours, reading.cost,
        reading.acctCredit, reading.acctPlan, reading.acctDebt)];
      return false;
    }

    method AddReading(d: Delivery) returns (outcome: Outcome)
      requires d.Complete() && View().Valid()
      modifies this
      ensures outcome == OutcomeOf(old(View()), d)
      ensures View() == Deliver(old(View()), d) && View().Valid()
    {
      hide ProcessedRow, ProcessedReading;
      outcome := SaveRawReading(d);
      if outcome == Processed {
        var timedOut := ProcessReading(d);
        if timedOut {
          outcome := LockTimeout;
        }
      }
    }

    /** Write a batch; a reading that cannot be written is skipped and the rest are still written. */
    method WriteReadings(batch: seq<Delivery>)
      requires View().Valid()
      modifies this
      ensures View() == DeliverAll(old(View()), batch) && View().Valid()
    {
      hide Deliver;
      for i := 0 to |batch|
        invariant View().Valid() && View() == DeliverAll(old(View()), batch[..i])
      {
        assert batch[..i + 1][..i] == batch[..i];
        if batch[i].Complete() {
          var _ := AddReading(batch[i]);
        } else {
          assert Deliver(View(), batch[i]) == View() by { IncompleteChangesNothing(View(), batch[i]); }
        }
      }
      assert batch[..|batch|] == batch;
    }
  }

  lemma IncompleteChangesNothing(t: Tables, d: Delivery)
    requires t.Valid() && !d.Complete()
    ensures Deliver(t, d) == t
  {}
}
