/** What holds however readings are delivered, repeated and lost on the way to billing. */
module DeliveryLaws {
  import opened Wrappers
  import opened Cycles
  import opened Tariffs
  import opened Accounts
  import opened Meters
  import opened Controller
  import opened BillingLaws

  // ---------- billing at most once ----------

  predicate BilledOnce(t: Tables) {
    NoRepeats(t.billed) && forall k <- t.billed :: k in t.readings
  }

  /** However deliveries repeat, overlap or fail, no (meter, heartbeat end) is billed twice. */
  lemma {:induction false} BilledAtMostOnce(t: Tables, ds: seq<Delivery>)
    requires t.Valid() && BilledOnce(t)
    ensures BilledOnce(DeliverAll(t, ds))
  {
    hide ProcessedRow, ProcessedReading;
    if ds != [] {
      BilledAtMostOnce(t, ds[..|ds| - 1]);
    }
  }

  // ---------- repeats change nothing ----------

  // A delivery that can no longer have any effect.
  predicate Settled(t: Tables, d: Delivery) {
    OutcomeOf(t, d) in {Incomplete, Duplicate, UnknownMeter, ConflictingStart}
  }

  lemma DeliveredIsSettled(t: Tables, d: Delivery, again: Delivery)
    requires t.Valid() && again.Window() == d.Window()
    ensures Settled(Deliver(t, d), again)
  {
    hide ProcessedRow, ProcessedReading;
  }

  lemma SettledStaysSettled(t: Tables, d: Delivery, again: Delivery)
    requires t.Valid() && Settled(t, again)
    ensures Settled(Deliver(t, d), again)
  {
    hide ProcessedRow;
    var r := Deliver(t, d);
    assert forall k <- t.readings :: k in r.readings && r.readings[k].start == t.readings[k].start;
  }

  // What identifies a delivery: its whole heartbeat window, or its meter and heartbeat end alone.
  const BY_WINDOW: Delivery -> (int, Option<Time>, Option<Time>) := (d: Delivery) => d.Window()
  const BY_END: Delivery -> (int, Option<Time>) := (d: Delivery) => (d.meter, d.periodEnd)

  predicate Repeats<K(==)>(ds: seq<Delivery>, d: Delivery, id: Delivery -> K) {
    exists i :: 0 <= i < |ds| && id(ds[i]) == id(d)
  }

  // The deliveries whose like was not delivered before.
  function FirstOccurrences<K(==)>(ds: seq<Delivery>, id: Delivery -> K): seq<Delivery> {
    if ds == [] then []
    else
      var before, last := ds[..|ds| - 1], ds[|ds| - 1];
      FirstOccurrences(before, id) + if Repeats(before, last, id) then [] else [last]
  }

  lemma SettledChangesNothing(t: Tables, d: Delivery)
    requires t.Valid() && Settled(t, d)
    ensures Deliver(t, d) == t
  {}

  predicate RepeatsAreSettled<K(==)>(t: Tables, ds: seq<Delivery>, id: Delivery -> K)
    requires t.Valid()
  {
    forall n :: 0 <= n < |ds| && Repeats(ds[..n], ds[n], id) ==> Settled(DeliverAll(t, ds[..n]), ds[n])
  }

  lemma {:induction false} FirstOccurrencesSuffice<K>(t: Tables, ds: seq<Delivery>, id: Delivery -> K)
    requires t.Valid() && RepeatsAreSettled(t, ds, id)
    ensures DeliverAll(t, ds) == DeliverAll(t, FirstOccurrences(ds, id))
  {
    hide Deliver, Settled, Repeats;
    if ds != [] {
      var n := |ds| - 1;
      var before, last := ds[..n], ds[n];
      assert forall k :: 0 <= k < n ==> before[..k] == ds[..k] && before[k] == ds[k];
      FirstOccurrencesSuffice(t, before, id);
      if Repeats(before, last, id) {
        SettledChangesNothing(DeliverAll(t, before), last);
        assert FirstOccurrences(ds, id) == FirstOccurrences(before, id);
      } else {
        assert FirstOccurrences(ds, id)[..|FirstOccurrences(before, id)|] == FirstOccurrences(before, id);
      }
    }
  }

  lemma {:induction false} RepeatedWindowIsSettled(t: Tables, ds: seq<Delivery>, again: Delivery)
    requires t.Valid() && Repeats(ds, again, BY_WINDOW)
    ensures Settled(DeliverAll(t, ds), again)
  {
    hide Deliver;
    var n := |ds| - 1;
    var i :| 0 <= i < |ds| && BY_WINDOW(ds[i]) == BY_WINDOW(again);
    if i < n {
      assert BY_WINDOW(ds[..n][i]) == BY_WINDOW(again);
      RepeatedWindowIsSettled(t, ds[..n], again);
      SettledStaysSettled(DeliverAll(t, ds[..n]), ds[n], again);
    } else {
      DeliveredIsSettled(DeliverAll(t, ds[..n]), ds[n], again);
    }
  }

  /**
   * The meters, counters and stored readings after any deliveries, failed ones included, are those after the
   * first occurrence of each heartbeat window alone.
   */
  lemma RepeatsChangeNothing(t: Tables, ds: seq<Delivery>)
    requires t.Valid()
    ensures DeliverAll(t, ds) == DeliverAll(t, FirstOccurrences(ds, BY_WINDOW))
  {
    hide Settled, Repeats, DeliverAll, FirstOccurrences;
    forall n | 0 <= n < |ds| && Repeats(ds[..n], ds[n], BY_WINDOW) ensures Settled(DeliverAll(t, ds[..n]), ds[n]) {
      RepeatedWindowIsSettled(t, ds[..n], ds[n]);
    }
    FirstOccurrencesSuffice(t, ds, BY_WINDOW);
  }

  // Every delivery is stored or a duplicate; lock timeouts may still happen.
  ghost predicate NoneRejected(t: Tables, ds: seq<Delivery>)
    requires t.Valid()
  {
    forall n :: 0 <= n < |ds| ==> OutcomeOf(DeliverAll(t, ds[..n]), ds[n]) in {Processed, Duplicate, LockTimeout}
  }

  lemma DeliverKeepsReadings(t: Tables, d: Delivery, key: (int, Time))
    requires t.Valid() && key in t.readings
    ensures key in Deliver(t, d).readings
  {
    hide ProcessedRow, ProcessedReading, StartTaken;
  }

  lemma AcceptedIsStored(t: Tables, d: Delivery)
    requires t.Valid() && OutcomeOf(t, d) in {Processed, Duplicate, LockTimeout}
    ensures d.Complete() && d.Key() in Deliver(t, d).readings
  {
    hide ProcessedRow, ProcessedReading, StartTaken;
  }

  lemma NoneRejectedBefore(t: Tables, ds: seq<Delivery>, n: nat)
    requires t.Valid() && NoneRejected(t, ds) && n <= |ds|
    ensures NoneRejected(t, ds[..n])
  {
    hide DeliverAll, OutcomeOf;
    assert forall k :: 0 <= k < n ==> ds[..n][..k] == ds[..k] && ds[..n][k] == ds[k];
  }

  lemma {:induction false} AcceptedStaysStored(t: Tables, ds: seq<Delivery>, i: nat)
    requires t.Valid() && NoneRejected(t, ds) && i < |ds|
    ensures ds[i].Complete() && ds[i].Key() in DeliverAll(t, ds).readings
  {
    hide Deliver, OutcomeOf, NoneRejected;
    var n := |ds| - 1;
    if i < n {
      NoneRejectedBefore(t, ds, n);
      AcceptedStaysStored(t, ds[..n], i);
      DeliverKeepsReadings(DeliverAll(t, ds[..n]), ds[n], ds[i].Key());
    } else {
      assert OutcomeOf(DeliverAll(t, ds[..n]), ds[n]) in {Processed, Duplicate, LockTimeout} by {
        LastNotRejected(t, ds);
      }
      AcceptedIsStored(DeliverAll(t, ds[..n]), ds[n]);
    }
  }

  lemma LastNotRejected(t: Tables, ds: seq<Delivery>)
    requires t.Valid() && NoneRejected(t, ds) && ds != []
    ensures OutcomeOf(DeliverAll(t, ds[..|ds| - 1]), ds[|ds| - 1]) in {Processed, Duplicate, LockTimeout}
  {
    hide DeliverAll, OutcomeOf;
  }

  /** When none is rejected, the first occurrence of each meter and heartbeat end alone decides everything. */
  lemma SameEndChangesNothing(t: Tables, ds: seq<Delivery>)
    requires t.Valid() && NoneRejected(t, ds)
    ensures DeliverAll(t, ds) == DeliverAll(t, FirstOccurrences(ds, BY_END))
  {
    hide DeliverAll, FirstOccurrences, StartTaken;
    forall n | 0 <= n < |ds| && Repeats(ds[..n], ds[n], BY_END) ensures Settled(DeliverAll(t, ds[..n]), ds[n]) {
      var i :| 0 <= i < |ds[..n]| && BY_END(ds[..n][i]) == BY_END(ds[n]);
      NoneRejectedBefore(t, ds, n);
      AcceptedStaysStored(t, ds[..n], i);
    }
    FirstOccurrencesSuffice(t, ds, BY_END);
  }

  /**
   * Once stored, a customer's reading is billed or never will be: it counts as billed after any further
   * deliveries exactly when its own processing did not time out on the wallet lock.
   */
  lemma {:induction false} StoredReadingIsFinal(t: Tables, d: Delivery, later: seq<Delivery>)
    requires t.Valid() && BilledOnce(t) && OutcomeOf(t, d) in {Processed, LockTimeout}
    requires t.meters[d.meter].customer
    ensures
      var r := DeliverAll(Deliver(t, d), later);
      && d.Key() in r.readings
      && (d.Key() in r.billed <==> !d.lockTimesOut)
  {
    hide ProcessedRow, ProcessedReading;
    if later == [] {
      assert d.Key() !in t.billed;
    } else {
      StoredReadingIsFinal(t, d, later[..|later| - 1]);
    }
  }

  // ---------- from deliveries to billing runs ----------

  // Billing decisions depend on the account, never on the log.
  lemma RenewIgnoresLog(terms: Terms, a: Account, log: seq<Event>, date: Time, end: Time)
    requires a.Valid()
    ensures Renew(terms, Books(a, log), date, end).acct == Renew(terms, Books(a, []), date, end).acct
  {
    hide IsNewCycle, NextCycleStart;
  }

  lemma ConsumeIgnoresLog(terms: Terms, a: Account, log: seq<Event>, u: Usage)
    requires a.Valid() && u.kwh >= 0.0
    ensures Consume(terms, Books(a, log), u).acct == Consume(terms, Books(a, []), u).acct
  {
    hide Cost, FinancingCharge, Deduction;
  }

  lemma {:induction false} CalculateIgnoresLog(terms: Terms, a: Account, log: seq<Event>, u: Usage)
    requires a.Valid() && u.kwh >= 0.0
    ensures Calculate(terms, Books(a, log), u).acct == Calculate(terms, Books(a, []), u).acct
  {
    hide Renew, Consume;
    var date := u.end - SECOND;
    RenewIgnoresLog(terms, a, log, date, u.end);
    var b1, b1' := Renew(terms, Books(a, log), date, u.end), Renew(terms, Books(a, []), date, u.end);
    ConsumeIgnoresLog(terms, b1.acct, b1.log, u);
    ConsumeIgnoresLog(terms, b1.acct, b1'.log, u);
    var b2, b2' := Consume(terms, b1, u), Consume(terms, b1', u);
    RenewIgnoresLog(terms, b2.acct, b2.log, u.end, u.end);
    RenewIgnoresLog(terms, b2.acct, b2'.log, u.end, u.end);
  }

  // The billing steps that some deliveries cause for one customer meter.
  function StepsOf(t: Tables, ds: seq<Delivery>, m: int): (steps: seq<Step>)
    requires t.Valid()
    ensures Metered(steps)
  {
    if ds == [] then []
    else
      var before, d := DeliverAll(t, ds[..|ds| - 1]), ds[|ds| - 1];
      StepsOf(t, ds[..|ds| - 1], m) +
      if d.meter == m && OutcomeOf(before, d) == Processed
      then [Step(before.meters[m].terms, UsageFor(before.meters[m], d))]
      else []
  }

  /** A customer meter's account after any deliveries is a billing run over the readings that were processed. */
  lemma {:induction false} DeliveriesAreARun(t: Tables, ds: seq<Delivery>, m: int)
    requires t.Valid() && m in t.meters && t.meters[m].customer
    ensures
      var r := DeliverAll(t, ds);
      && m in r.meters && r.meters[m].customer
      && r.meters[m].account == Run(Books(t.meters[m].account, []), StepsOf(t, ds, m)).acct
  {
    hide Calculate, ProcessedReading, StartTaken;
    if ds != [] {
      var n := |ds| - 1;
      DeliveriesAreARun(t, ds[..n], m);
      var before, d := DeliverAll(t, ds[..n]), ds[n];
      assert StepsOf(t, ds[..n], m) + [] == StepsOf(t, ds[..n], m);
      if d.meter == m && OutcomeOf(before, d) == Processed {
        var steps := StepsOf(t, ds[..n], m);
        var all := StepsOf(t, ds, m);
        assert all[..|steps|] == steps;
        var b := Run(Books(t.meters[m].account, []), steps);
        CalculateIgnoresLog(before.meters[m].terms, b.acct, b.log, UsageFor(before.meters[m], d));
      }
    }
  }

  /**
   * Conservation from end to end: whatever is delivered, a customer's credit + plan - debt falls by exactly
   * what the processed readings spent.
   */
  lemma {:induction false} DeliveriesConserve(t: Tables, ds: seq<Delivery>, m: int)
    requires t.Valid() && m in t.meters && t.meters[m].customer
    ensures
      var r := DeliverAll(t, ds);
      var log := Run(Books(t.meters[m].account, []), StepsOf(t, ds, m)).log;
      m in r.meters && Net(r.meters[m].account) == Net(t.meters[m].account) - TotalSpent(log)
  {
    hide DeliverAll, StepsOf, Net, TotalSpent;
    assert t.meters[m].account.Valid();
    DeliveriesAreARun(t, ds, m);
    RunConserves(t.meters[m].account, StepsOf(t, ds, m));
  }

  // ---------- the energy billed and the meter's counter ----------

  // A meter's cumulative energy at first and after each reading processed since.
  function Counters(t: Tables, ds: seq<Delivery>, m: int): (counters: seq<real>)
    requires t.Valid() && m in t.meters
    ensures counters != []
  {
    if ds == [] then [t.meters[m].info.lastEnergy]
    else
      var before, d := DeliverAll(t, ds[..|ds| - 1]), ds[|ds| - 1];
      Counters(t, ds[..|ds| - 1], m) + if d.meter == m && OutcomeOf(before, d) == Processed then [d.energy] else []
  }

  function TotalKwh(steps: seq<Step>): real {
    if steps == [] then 0.0 else TotalKwh(steps[..|steps| - 1]) + steps[|steps| - 1].usage.kwh
  }

  // How far the counter went back, all together; nothing is said against a counter of zero.
  function Setbacks(counters: seq<real>): real
    requires counters != []
  {
    var n := |counters| - 1;
    if n == 0 then 0.0
    else Setbacks(counters[..n]) + if counters[n - 1] == 0.0 then 0.0 else Max(0.0, counters[n - 1] - counters[n])
  }

  // What the counter showed after each time it stood at zero.
  function FromZero(counters: seq<real>): real
    requires counters != []
  {
    var n := |counters| - 1;
    if n == 0 then 0.0 else FromZero(counters[..n]) + if counters[n - 1] == 0.0 then counters[n] else 0.0
  }

  function Last(counters: seq<real>): real
    requires counters != []
  {
    counters[|counters| - 1]
  }

  lemma CountersAppend(counters: seq<real>, energy: real)
    requires counters != []
    ensures
      var more := counters + [energy];
      KilowattHours(Last(counters), energy)
      == energy - Last(counters) + Setbacks(more) - Setbacks(counters) - (FromZero(more) - FromZero(counters))
  {
    assert (counters + [energy])[..|counters|] == counters;
  }

  lemma DeliveredCounter(t: Tables, d: Delivery, m: int)
    requires t.Valid() && m in t.meters
    ensures
      var r := Deliver(t, d);
      && m in r.meters
      && r.meters[m].info.lastEnergy
         == if d.meter == m && OutcomeOf(t, d) == Processed then d.energy else t.meters[m].info.lastEnergy
  {
    hide StartTaken, ProcessedReading, Calculate;
  }

  lemma TotalKwhAppend(steps: seq<Step>, s: Step)
    ensures TotalKwh(steps + [s]) == TotalKwh(steps) + s.usage.kwh
  {
    assert (steps + [s])[..|steps|] == steps;
  }

  /**
   * The energy billed to a meter is the rise of its counter, plus how far the counter went back in between, minus
   * what it showed after standing at zero.
   */
  lemma {:induction false} BilledEnergyIsCounterRise(t: Tables, ds: seq<Delivery>, m: int)
    requires t.Valid() && m in t.meters
    ensures
      var r := DeliverAll(t, ds);
      var counters := Counters(t, ds, m);
      && m in r.meters && Last(counters) == r.meters[m].info.lastEnergy
      && TotalKwh(StepsOf(t, ds, m))
         == Last(counters) - t.meters[m].info.lastEnergy + Setbacks(counters) - FromZero(counters)
  {
    hide Deliver, OutcomeOf, KilowattHours;
    if ds != [] {
      var n := |ds| - 1;
      BilledEnergyIsCounterRise(t, ds[..n], m);
      var before, d := DeliverAll(t, ds[..n]), ds[n];
      DeliveredCounter(before, d, m);
      CountersAppend(Counters(t, ds[..n], m), d.energy);
      var steps := StepsOf(t, ds[..n], m);
      if d.meter == m && OutcomeOf(before, d) == Processed {
        ProcessedIsComplete(before, d);
        var s := Step(before.meters[m].terms, UsageFor(before.meters[m], d));
        TotalKwhAppend(steps, s);
        assert StepsOf(t, ds, m) == steps + [s];
      } else {
        assert StepsOf(t, ds, m) == steps + [] == steps;
        assert Counters(t, ds, m) == Counters(t, ds[..n], m) + [] == Counters(t, ds[..n], m);
      }
    }
  }

  lemma ProcessedIsComplete(t: Tables, d: Delivery)
    requires OutcomeOf(t, d) == Processed
    ensures d.Complete()
  {
    hide StartTaken;
  }

  // The counter never went back.
  predicate NeverBack(counters: seq<real>) {
    forall i :: 0 < i < |counters| ==> counters[i - 1] <= counters[i]
  }

  predicate NeverZeroBefore(counters: seq<real>) {
    forall i :: 0 <= i < |counters| - 1 ==> counters[i] != 0.0
  }

  lemma {:induction false} NoSetbacksIffNeverBack(counters: seq<real>)
    requires counters != [] && NeverZeroBefore(counters)
    ensures FromZero(counters) == 0.0 && Setbacks(counters) >= 0.0
    ensures Setbacks(counters) == 0.0 <==> NeverBack(counters)
  {
    var n := |counters| - 1;
    if n > 0 {
      NoSetbacksIffNeverBack(counters[..n]);
      assert NeverBack(counters) <==> NeverBack(counters[..n]) && counters[n - 1] <= counters[n];
    }
  }

  /**
   * Once a meter has shown a counter other than zero, it is never billed less than its counter rose, and it is billed
   * exactly that if and only if its readings were processed with the counter never going back.
   */
  lemma BilledOnceIffCounterNeverBack(t: Tables, ds: seq<Delivery>, m: int)
    requires t.Valid() && m in t.meters && NeverZeroBefore(Counters(t, ds, m))
    ensures
      var rise := Last(Counters(t, ds, m)) - t.meters[m].info.lastEnergy;
      && TotalKwh(StepsOf(t, ds, m)) >= rise
      && (TotalKwh(StepsOf(t, ds, m)) == rise <==> NeverBack(Counters(t, ds, m)))
  {
    hide StepsOf, Counters, TotalKwh, Setbacks, FromZero, NeverBack, NeverZeroBefore;
    BilledEnergyIsCounterRise(t, ds, m);
    NoSetbacksIffNeverBack(Counters(t, ds, m));
  }

  // A delivery of one of a meter's consecutive heartbeat windows.
  function InWindow(m: int, window: nat, energy: real): Delivery
    requires window > 0
  {
    Delivery(m, Some(window * DAY), Some((window + 1) * DAY), energy, 1, 0.0, false, 0)
  }

  predicate Fills(window: nat, end: Time, start: Time) {
    end == (window + 1) * DAY && start == window * DAY
  }

  ghost predicate OnlyWindows(t: Tables, m: int, windows: set<nat>) {
    forall key <- t.readings :: key.0 == m ==> exists k <- windows :: Fills(k, key.1, t.readings[key].start)
  }

  lemma NewWindowIsProcessed(t: Tables, m: int, windows: set<nat>, window: nat, energy: real)
    requires t.Valid() && m in t.meters && OnlyWindows(t, m, windows) && window > 0 && window !in windows
    ensures
      var d := InWindow(m, window, energy);
      var r := Deliver(t, d);
      && OutcomeOf(t, d) == Processed
      && m in r.meters && r.meters[m].info.lastEnergy == energy
      && OnlyWindows(r, m, windows + {window})
  {
    hide Calculate, KilowattHours, BilledCost;
    var d := InWindow(m, window, energy);
    var r := Deliver(t, d);
    forall key <- r.readings | key.0 == m
      ensures exists k <- windows + {window} :: Fills(k, key.1, r.readings[key].start)
    {
      if key == d.Key() {
        assert Fills(window, key.1, r.readings[key].start);
      } else {
        var k :| k in windows && Fills(k, key.1, t.readings[key].start);
        assert k in windows + {window};
      }
    }
  }

  lemma CountersAfter(t: Tables, ds: seq<Delivery>, d: Delivery, m: int)
    requires t.Valid() && m in t.meters
    ensures DeliverAll(t, ds + [d]) == Deliver(DeliverAll(t, ds), d)
    ensures Counters(t, ds + [d], m)
            == Counters(t, ds, m)
               + if d.meter == m && OutcomeOf(DeliverAll(t, ds), d) == Processed then [d.energy] else []
  {
    hide Deliver, OutcomeOf;
    assert (ds + [d])[..|ds|] == ds;
  }

  /**
   * Readings are billed in the order they are delivered. When the first of three readings comes after the second, all
   * three are processed and 20 kWh are billed while the counter rises by 15.
   */
  lemma LateReadingIsBilledAgain(t: Tables, m: int)
    requires t.Valid() && m in t.meters && t.readings == map[] && t.meters[m].info.lastEnergy == 10.0
    ensures
      var ds := [InWindow(m, 2, 20.0), InWindow(m, 1, 15.0), InWindow(m, 3, 25.0)];
      && Counters(t, ds, m) == [10.0, 20.0, 15.0, 25.0]
      && TotalKwh(StepsOf(t, ds, m)) == 20.0
  {
    hide Deliver, OutcomeOf, DeliverAll, Counters, StepsOf, TotalKwh, OnlyWindows;
    var a, b, c := InWindow(m, 2, 20.0), InWindow(m, 1, 15.0), InWindow(m, 3, 25.0);
    FirstCounter(t, m);
    assert [] + [a] == [a] && [a] + [b] == [a, b] && [a, b] + [c] == [a, b, c];
    assert {} + {2} == {2} && {2} + {1} == {1, 2};
    NewWindowIsProcessed(t, m, {}, 2, 20.0);
    CountersAfter(t, [], a, m);
    NewWindowIsProcessed(DeliverAll(t, [a]), m, {2}, 1, 15.0);
    CountersAfter(t, [a], b, m);
    NewWindowIsProcessed(DeliverAll(t, [a, b]), m, {1, 2}, 3, 25.0);
    CountersAfter(t, [a, b], c, m);
    BilledEnergyIsCounterRise(t, [a, b, c], m);
    ThreeCounters();
  }

  lemma FirstCounter(t: Tables, m: int)
    requires t.Valid() && m in t.meters
    ensures DeliverAll(t, []) == t && Counters(t, [], m) == [t.meters[m].info.lastEnergy]
    ensures t.readings == map[] ==> OnlyWindows(t, m, {})
  {}

  lemma ThreeCounters()
    ensures Setbacks([10.0, 20.0, 15.0, 25.0]) == 5.0 && FromZero([10.0, 20.0, 15.0, 25.0]) == 0.0
  {
    var c := [10.0, 20.0, 15.0, 25.0];
    assert c[..3] == [10.0, 20.0, 15.0] && c[..3][..2] == [10.0, 20.0] && c[..3][..2][..1] == [10.0];
    assert Setbacks([10.0, 20.0]) == 0.0 && Setbacks([10.0, 20.0, 15.0]) == 5.0;
    assert FromZero([10.0, 20.0]) == 0.0 && FromZero([10.0, 20.0, 15.0]) == 0.0;
  }
}
