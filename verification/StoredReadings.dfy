/** What the reading table holds after any deliveries: each processed reading with its own bill and balances. */
module StoredReadings {
  import opened Wrappers
  import opened Cycles
  import opened Accounts
  import opened Relay
  import opened Meters
  import opened Controller
  import opened BillingLaws
  import opened DeliveryLaws

  // ---------- one delivery ----------

  /** What a processed delivery leaves in the two tables: the stored balances are those of the meter's account. */
  lemma ProcessedDelivery(t: Tables, d: Delivery)
    requires t.Valid() && OutcomeOf(t, d) == Processed
    ensures d.Complete() && d.meter in t.meters && d.meter in Deliver(t, d).meters
    ensures d.Key() in Deliver(t, d).readings
    ensures
      var r := Deliver(t, d);
      var before, row, stored := t.meters[d.meter], r.meters[d.meter], r.readings[d.Key()];
      && stored.start == d.periodStart.value && stored.energy == d.energy
      && stored.kwh == (if before.info.lastEnergy == 0.0 || d.energy < before.info.lastEnergy then 0.0
                        else d.energy - before.info.lastEnergy)
      && row.customer == before.customer && row.terms == before.terms
      && (row.customer ==>
            && stored.credit == row.account.credit && stored.plan == row.account.plan
            && stored.debt == row.account.debt)
      && (!row.customer ==>
            && stored.cost == stored.credit == stored.plan == stored.debt == 0.0
            && row.account == before.account && row.daily == before.daily)
      && row.info.lastEnergy == d.energy && row.info.lastEnergyAt == d.periodEnd.value
      && row.info.powerLimit == Some(d.userPowerLimit)
      && row.info.state == Some(if -1 <= d.state <= 13 then d.state else -1)
  {
    hide Calculate, BilledCost, StartTaken;
  }

  /** A reading once stored is never changed by later deliveries. */
  lemma {:induction false} StoredStays(t: Tables, ds: seq<Delivery>, key: (int, Time))
    requires t.Valid() && key in t.readings
    ensures key in DeliverAll(t, ds).readings && DeliverAll(t, ds).readings[key] == t.readings[key]
  {
    hide ProcessedRow, ProcessedReading, StartTaken;
    if ds != [] {
      StoredStays(t, ds[..|ds| - 1], key);
    }
  }

  /** A delivery is stored exactly when it is complete, its meter is known, and neither end of its window is taken. */
  lemma StoredExactlyWhenNew(t: Tables, d: Delivery)
    requires t.Valid()
    ensures
      var r := Deliver(t, d);
      (r.readings != t.readings) <==>
        && d.periodStart.Some? && d.periodEnd.Some? && d.periodStart.value != 0 && d.periodEnd.value != 0
        && d.meter in t.meters
        && (d.meter, d.periodEnd.value) !in t.readings
        && (forall k <- t.readings :: k.0 == d.meter ==> t.readings[k].start != d.periodStart.value)
    ensures Deliver(t, d).readings != t.readings && t.meters[d.meter].customer && d.lockTimesOut ==>
              && Deliver(t, d).meters == t.meters
              && Deliver(t, d).readings[d.Key()]
                 == StoredReading(d.periodStart.value, d.energy, 0.0, 0.0, 0.0, 0.0, 0.0)
  {
    hide ProcessedRow, ProcessedReading;
    if d.Complete() {
      var r := Deliver(t, d);
      assert OutcomeOf(t, d) in {Processed, LockTimeout} ==> d.Key() in r.readings && d.Key() !in t.readings;
    }
  }

  // No two readings of a meter start together.
  ghost predicate StartsDistinct(t: Tables) {
    forall j, k :: j in t.readings && k in t.readings && j != k && j.0 == k.0 ==>
                     t.readings[j].start != t.readings[k].start
  }

  lemma StoredStarts(t: Tables, d: Delivery)
    requires t.Valid()
    ensures forall k <- Deliver(t, d).readings ::
              if k in t.readings then Deliver(t, d).readings[k] == t.readings[k]
              else
                && d.Complete() && k == d.Key() && Deliver(t, d).readings[k].start == d.periodStart.value
                && !StartTaken(t.readings, d.meter, d.periodStart.value)
  {
    hide ProcessedRow, Calculate, BilledCost, StartTaken, UpdateDaily;
  }

  lemma DeliverKeepsStarts(t: Tables, d: Delivery)
    requires t.Valid() && StartsDistinct(t)
    ensures StartsDistinct(Deliver(t, d))
  {
    hide Deliver;
    StoredStarts(t, d);
  }

  /** The windows stored for a meter differ at both ends, over any deliveries. */
  lemma {:induction false} StartsStayDistinct(t: Tables, ds: seq<Delivery>)
    requires t.Valid() && StartsDistinct(t)
    ensures StartsDistinct(DeliverAll(t, ds))
  {
    hide Deliver, StartsDistinct;
    if ds != [] {
      StartsStayDistinct(t, ds[..|ds| - 1]);
      DeliverKeepsStarts(DeliverAll(t, ds[..|ds| - 1]), ds[|ds| - 1]);
    }
  }

  // ---------- the readings processed for one meter ----------

  function ProcessedOf(t: Tables, ds: seq<Delivery>, m: int): (processed: seq<Delivery>)
    requires t.Valid()
    ensures forall i :: 0 <= i < |processed| ==> processed[i].Complete() && processed[i].meter == m
  {
    if ds == [] then []
    else
      var before, d := DeliverAll(t, ds[..|ds| - 1]), ds[|ds| - 1];
      ProcessedOf(t, ds[..|ds| - 1], m) + if d.meter == m && OutcomeOf(before, d) == Processed then [d] else []
  }

  // The usage of a processed reading, given the one processed before it (or what was known of the meter at first).
  predicate UsageFollows(info: SystemInfo, processed: seq<Delivery>, i: nat, u: Usage)
    requires i < |processed|
  {
    var energy := if i == 0 then info.lastEnergy else processed[i - 1].energy;
    && processed[i].periodEnd == Some(u.end)
    && (if i == 0 then u.since == info.lastEnergyAt else processed[i - 1].periodEnd == Some(u.since))
    && u.kwh == if energy == 0.0 || processed[i].energy < energy then 0.0 else processed[i].energy - energy
  }

  // What a meter's row knows of its last processed reading.
  predicate InfoFollows(info: SystemInfo, processed: seq<Delivery>, now: SystemInfo) {
    if processed == [] then now == info
    else
      var last := processed[|processed| - 1];
      && now.lastEnergy == last.energy && last.periodEnd == Some(now.lastEnergyAt)
      && now.powerLimit == Some(last.userPowerLimit)
      && now.state == Some(if -1 <= last.state <= 13 then last.state else -1)
  }

  function DaySteps(processed: seq<Delivery>): seq<DayStep> {
    seq(|processed|, i requires 0 <= i < |processed| => DayStep(processed[i].energy, processed[i].resetDue))
  }

  lemma DayStepsAppend(processed: seq<Delivery>, d: Delivery)
    ensures DaySteps(processed + [d]) == DaySteps(processed) + [DayStep(d.energy, d.resetDue)]
  {}

  lemma DayRunAppend(tariff: Tariff, day: Day, steps: seq<DayStep>, s: DayStep)
    ensures DayRun(tariff, day, steps + [s])
            == Day(UpdateDaily(tariff, DayRun(tariff, day, steps).daily, s.energy, s.resetDue), s.energy)
  {
    assert (steps + [s])[..|steps|] == steps;
  }

  lemma ProcessedDaily(t: Tables, d: Delivery)
    requires t.Valid() && OutcomeOf(t, d) == Processed && t.meters[d.meter].customer
    ensures
      var row := t.meters[d.meter];
      Deliver(t, d).meters[d.meter].daily == UpdateDaily(row.terms.tariff, row.daily, d.energy, d.resetDue)
  {
    hide Calculate, StartTaken, ProcessedReading;
  }

  lemma OtherRowsStay(t: Tables, d: Delivery, m: int)
    requires t.Valid() && m in t.meters && !(d.meter == m && OutcomeOf(t, d) == Processed)
    ensures m in Deliver(t, d).meters && Deliver(t, d).meters[m] == t.meters[m]
  {
    hide ProcessedRow, ProcessedReading, StartTaken;
  }

  /**
   * A meter's row after any deliveries: its terms never change, it reports its last processed reading, and a
   * customer's daily counter is that of a day run over the processed readings.
   */
  lemma {:induction false} RowFollowsReadings(t: Tables, ds: seq<Delivery>, m: int)
    requires t.Valid() && m in t.meters
    ensures
      var first, processed := t.meters[m], ProcessedOf(t, ds, m);
      && m in DeliverAll(t, ds).meters
      && var row := DeliverAll(t, ds).meters[m];
      && row.terms == first.terms && row.customer == first.customer
      && InfoFollows(first.info, processed, row.info)
      && var day := Day(first.daily, first.info.lastEnergy);
         row.daily == if first.customer then DayRun(first.terms.tariff, day, DaySteps(processed)).daily else first.daily
  {
    hide Deliver, OutcomeOf, UpdateDaily, DayRun;
    if ds == [] {
      NoDays(t.meters[m].terms.tariff, Day(t.meters[m].daily, t.meters[m].info.lastEnergy));
    } else {
      var n := |ds| - 1;
      RowFollowsReadings(t, ds[..n], m);
      var before, d, processed := DeliverAll(t, ds[..n]), ds[n], ProcessedOf(t, ds[..n], m);
      if d.meter == m && OutcomeOf(before, d) == Processed {
        assert ProcessedOf(t, ds, m) == processed + [d];
        ProcessedDelivery(before, d);
        if before.meters[m].customer {
          ProcessedDaily(before, d);
          DayStepsAppend(processed, d);
          DayRunAppend(
            t.meters[m].terms.tariff, Day(t.meters[m].daily, t.meters[m].info.lastEnergy),
            DaySteps(processed), DayStep(d.energy, d.resetDue));
        }
      } else {
        assert ProcessedOf(t, ds, m) == processed + [] == processed;
        OtherRowsStay(before, d, m);
      }
    }
  }

  lemma NoDays(tariff: Tariff, day: Day)
    ensures DayRun(tariff, day, DaySteps([])) == day
  {}

  lemma UsageIsPlain(row: MeterRow, d: Delivery)
    requires d.Complete()
    ensures
      var u, energy := UsageFor(row, d), row.info.lastEnergy;
      && u.end == d.periodEnd.value && u.since == row.info.lastEnergyAt
      && u.kwh == if energy == 0.0 || d.energy < energy then 0.0 else d.energy - energy
  {}

  /** The billing steps of a meter are its processed readings: their ends, the energy between them, and its terms. */
  lemma {:induction false} StepsFollowReadings(t: Tables, ds: seq<Delivery>, m: int, i: nat)
    requires t.Valid() && m in t.meters && i < |ProcessedOf(t, ds, m)|
    ensures |StepsOf(t, ds, m)| == |ProcessedOf(t, ds, m)|
    ensures StepsOf(t, ds, m)[i].terms == t.meters[m].terms
    ensures UsageFollows(t.meters[m].info, ProcessedOf(t, ds, m), i, StepsOf(t, ds, m)[i].usage)
    decreases |ds|
  {
    hide Deliver, OutcomeOf, UsageFor, DeliverAll;
    StepsMatchReadings(t, ds, m);
    var n := |ds| - 1;
    var before, d, processed := DeliverAll(t, ds[..n]), ds[n], ProcessedOf(t, ds[..n], m);
    StepsMatchReadings(t, ds[..n], m);
    RowFollowsReadings(t, ds[..n], m);
    if i < |processed| {
      StepsFollowReadings(t, ds[..n], m, i);
    } else {
      UsageIsPlain(before.meters[m], d);
    }
  }

  lemma {:induction false} StepsMatchReadings(t: Tables, ds: seq<Delivery>, m: int)
    requires t.Valid()
    ensures |StepsOf(t, ds, m)| == |ProcessedOf(t, ds, m)|
  {
    hide Deliver, OutcomeOf, UsageFor, DeliverAll;
    if ds != [] {
      StepsMatchReadings(t, ds[..|ds| - 1], m);
    }
  }

  // ---------- each stored reading is its own bill ----------

  lemma BilledCostIgnoresLog(terms: Terms, b: Books, u: Usage)
    requires b.acct.Valid() && u.kwh >= 0.0
    ensures BilledCost(terms, b, u) == BilledCost(terms, Books(b.acct, []), u)
  {
    hide Renew, Cost;
    RenewIgnoresLog(terms, b.acct, b.log, u.end - SECOND, u.end);
  }

  lemma ProcessedBill(t: Tables, d: Delivery)
    requires t.Valid() && OutcomeOf(t, d) == Processed && t.meters[d.meter].customer
    ensures d.Key() in Deliver(t, d).readings
    ensures
      var row, stored := t.meters[d.meter], Deliver(t, d).readings[d.Key()];
      && stored.kwh == UsageFor(row, d).kwh
      && stored.cost == BilledCost(row.terms, Books(row.account, []), UsageFor(row, d))
  {
    hide Calculate, BilledCost, StartTaken, UpdateDaily;
  }

  lemma StoredStaysOnce(t: Tables, d: Delivery, key: (int, Time))
    requires t.Valid() && key in t.readings
    ensures key in Deliver(t, d).readings && Deliver(t, d).readings[key] == t.readings[key]
  {
    hide ProcessedRow, ProcessedReading, StartTaken;
  }

  // The stored reading number i of a run: its own bill, and the balances right after it.
  ghost predicate StoredAs(stored: StoredReading, a: Account, steps: seq<Step>, i: nat, d: Delivery)
    requires a.Valid() && Metered(steps) && i < |steps|
  {
    var bill := BillFor(steps[i].terms, Run(Books(a, []), steps[..i]), steps[i].usage);
    var now := Run(Books(a, []), steps[..i + 1]).acct;
    && d.periodStart == Some(stored.start) && stored.energy == d.energy
    && stored.kwh == bill.kwh && stored.cost == bill.cost
    && stored.credit == now.credit && stored.plan == now.plan && stored.debt == now.debt
  }

  lemma NewlyStored(t: Tables, ds: seq<Delivery>, m: int)
    requires t.Valid() && m in t.meters && t.meters[m].customer && ds != []
    requires ds[|ds| - 1].meter == m && OutcomeOf(DeliverAll(t, ds[..|ds| - 1]), ds[|ds| - 1]) == Processed
    ensures
      var d, r, steps := ds[|ds| - 1], DeliverAll(t, ds), StepsOf(t, ds, m);
      d.Complete() && d.Key() in r.readings && steps != []
      && StoredAs(r.readings[d.Key()], t.meters[m].account, steps, |steps| - 1, d)
  {
    hide Deliver, DeliverAll, OutcomeOf, StepsOf, Run, BilledCost, KilowattHours;
    var n := |ds| - 1;
    var before, d, a := DeliverAll(t, ds[..n]), ds[n], t.meters[m].account;
    DeliveriesAreARun(t, ds[..n], m);
    DeliveriesAreARun(t, ds, m);
    ProcessedDelivery(before, d);
    ProcessedBill(before, d);
    NextStep(t, ds, m);
    RowFollowsReadings(t, ds[..n], m);
    var steps, k := StepsOf(t, ds, m), |StepsOf(t, ds[..n], m)|;
    assert steps[..k] == StepsOf(t, ds[..n], m) && steps[..k + 1] == steps;
    BilledCostIgnoresLog(before.meters[m].terms, Run(Books(a, []), steps[..k]), UsageFor(before.meters[m], d));
  }

  lemma NextStep(t: Tables, ds: seq<Delivery>, m: int)
    requires t.Valid() && m in t.meters && ds != []
    requires ds[|ds| - 1].meter == m && OutcomeOf(DeliverAll(t, ds[..|ds| - 1]), ds[|ds| - 1]) == Processed
    ensures
      var before, d := DeliverAll(t, ds[..|ds| - 1]), ds[|ds| - 1];
      && DeliverAll(t, ds) == Deliver(before, d)
      && d.Complete() && m in before.meters
      && StepsOf(t, ds, m)
         == StepsOf(t, ds[..|ds| - 1], m) + [Step(before.meters[m].terms, UsageFor(before.meters[m], d))]
  {
    hide Deliver, UsageFor, StartTaken;
  }

  /**
   * A processed reading of a customer is stored, after any deliveries, with the energy and cost of its own bill in the
   * meter's billing run and with the balances the account had right after it.
   */
  lemma {:induction false} StoredIsItsBill(t: Tables, ds: seq<Delivery>, m: int, i: nat)
    requires t.Valid() && m in t.meters && t.meters[m].customer && i < |ProcessedOf(t, ds, m)|
    ensures |StepsOf(t, ds, m)| == |ProcessedOf(t, ds, m)|
    ensures
      var d := ProcessedOf(t, ds, m)[i];
      && d.Key() in DeliverAll(t, ds).readings
      && StoredAs(DeliverAll(t, ds).readings[d.Key()], t.meters[m].account, StepsOf(t, ds, m), i, d)
    decreases |ds|
  {
    hide Deliver, OutcomeOf, UsageFor, StoredAs;
    StepsMatchReadings(t, ds, m);
    var n := |ds| - 1;
    var before, d, processed := DeliverAll(t, ds[..n]), ds[n], ProcessedOf(t, ds[..n], m);
    StepsMatchReadings(t, ds[..n], m);
    if i < |processed| {
      StoredIsItsBill(t, ds[..n], m, i);
      StoredStaysOnce(before, d, processed[i].Key());
      var stored := before.readings[processed[i].Key()];
      StoredAsInLonger(stored, t.meters[m].account, StepsOf(t, ds[..n], m), StepsOf(t, ds, m), i, processed[i]);
    } else {
      NewlyStored(t, ds, m);
    }
  }

  lemma StoredAsInLonger(stored: StoredReading, a: Account, steps: seq<Step>, more: seq<Step>, i: nat, d: Delivery)
    requires a.Valid() && Metered(more) && steps <= more && i < |steps| && Metered(steps)
    requires StoredAs(stored, a, steps, i, d)
    ensures StoredAs(stored, a, more, i, d)
  {
    hide Run, BillFor;
    assert steps[..i] == more[..i] && steps[..i + 1] == more[..i + 1];
  }

  // ---------- sums over the reading table ----------

  function StoredCost(readings: map<(int, Time), StoredReading>, processed: seq<Delivery>): real
    requires forall i :: 0 <= i < |processed| ==> processed[i].Complete() && processed[i].Key() in readings
  {
    if processed == [] then 0.0
    else
      var n := |processed| - 1;
      StoredCost(readings, processed[..n]) + readings[processed[n].Key()].cost
  }

  function StoredKwh(readings: map<(int, Time), StoredReading>, processed: seq<Delivery>): real
    requires forall i :: 0 <= i < |processed| ==> processed[i].Complete() && processed[i].Key() in readings
  {
    if processed == [] then 0.0
    else
      var n := |processed| - 1;
      StoredKwh(readings, processed[..n]) + readings[processed[n].Key()].kwh
  }

  lemma {:induction false} SumsAgree(
    readings: map<(int, Time), StoredReading>, processed: seq<Delivery>, a: Account, steps: seq<Step>)
    requires a.Valid() && Metered(steps) && |steps| == |processed|
    requires forall i :: 0 <= i < |processed| ==> processed[i].Complete() && processed[i].Key() in readings
    requires forall i :: 0 <= i < |processed| ==> StoredAs(readings[processed[i].Key()], a, steps, i, processed[i])
    ensures StoredCost(readings, processed) == TotalCost(Bills(Books(a, []), steps))
    ensures StoredKwh(readings, processed) == TotalKwh(steps)
    decreases |processed|
  {
    hide Run, BilledCost;
    if processed != [] {
      var n := |processed| - 1;
      forall i | 0 <= i < n ensures StoredAs(readings[processed[i].Key()], a, steps[..n], i, processed[i]) {
        assert steps[..n][..i] == steps[..i] && steps[..n][..i + 1] == steps[..i + 1];
        assert StoredAs(readings[processed[i].Key()], a, steps, i, processed[i]);
      }
      SumsAgree(readings, processed[..n], a, steps[..n]);
      assert StoredAs(readings[processed[n].Key()], a, steps, n, processed[n]);
      var bills := Bills(Books(a, []), steps);
      assert bills[..|bills| - 1] == Bills(Books(a, []), steps[..n]);
    }
  }

  /** The costs and energies stored for a customer's processed readings add up to what its billing run billed. */
  lemma {:induction false} StoredCostsAreTheRunsBills(t: Tables, ds: seq<Delivery>, m: int)
    requires t.Valid() && m in t.meters && t.meters[m].customer
    ensures forall i :: 0 <= i < |ProcessedOf(t, ds, m)| ==>
              ProcessedOf(t, ds, m)[i].Key() in DeliverAll(t, ds).readings
    ensures
      var readings, processed, steps := DeliverAll(t, ds).readings, ProcessedOf(t, ds, m), StepsOf(t, ds, m);
      && StoredCost(readings, processed) == TotalCost(Bills(Books(t.meters[m].account, []), steps))
      && StoredKwh(readings, processed) == TotalKwh(steps)
  {
    hide DeliverAll, ProcessedOf, StepsOf, StoredCost, StoredKwh, TotalCost, TotalKwh, Bills, StoredAs;
    var r, processed := DeliverAll(t, ds), ProcessedOf(t, ds, m);
    forall i | 0 <= i < |processed|
      ensures |StepsOf(t, ds, m)| == |processed| && processed[i].Key() in r.readings
      ensures StoredAs(r.readings[processed[i].Key()], t.meters[m].account, StepsOf(t, ds, m), i, processed[i])
    {
      StoredIsItsBill(t, ds, m, i);
    }
    StepsMatchReadings(t, ds, m);
    SumsAgree(r.readings, processed, t.meters[m].account, StepsOf(t, ds, m));
  }
}
