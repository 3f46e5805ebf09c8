# Verified model of the thundercloud metering core

This project models the parts of thundercloud that turn meter readings into money and relay commands, and the
parsers and mergers around them, and proves what they keep over every input and every run.

- **Billing.** `Accounts` specifies what one reading does to a meter's account as a pipeline over a pair of account
  and event log. `Billing` is the object that performs it in place on wallets and billing records (`Meters`), each
  method proved equal to its step. `BillingLaws` and `PlanLaws` prove conservation, telescoping block-rate costs,
  plan order, cycle resets and wallet signs over all runs, with terms that may change between readings. `PriceLaws`
  gives each price in the tariff's own numbers; `LedgerLaws` audits the log: it alone gives back the account, every
  entry was due when it was made, and nothing due is missing.
  `Tariffs`, `Cycles` and `Intervals` give the block rates, the cycle boundaries and the validation behind them.
- **Delivery.** `Controller` stores and processes delivered readings, lock timeouts included; `DeliveryLaws` proves
  that repeats change nothing, that nothing is billed twice, and that a meter's account is a billing run, and
  `StoredReadings` that every reading in the table is its own bill in that run.
- **Relay.** `Relay` decides when a meter is on and when it is sent a set-config, and proves that acknowledged
  commands settle and that the daily limit latches.
- **Events.** `ReadingBuffer` is the asynchronous reading buffer as a step relation over the segments between
  suspension points, `Watchdog` the heartbeat watchdog against its whole history, `EventStream` the stream parser.
- **Drivers.** `ProviderSchema` and `ProviderFields` resolve a driver's OpenAPI document into its ordered init
  fields, `ProviderConfig` and `ProviderConfigLaws` validate stored values, `CliBody` and `CliLaws` flatten schemas
  to options and rebuild bodies.
- **Models.** `ModelMerge` merges local current limits into shared model objects.

Amounts and energies are `real` where the source has floats. Times are integers in microseconds, the resolution of
the source's datetimes. Python's `None` is `Option`, a raised exception is `Result` or `None` where only one kind is
raised. Log lines that report a change of money, plan or cycle appear as `Event`s of the account's log.

Where the code and its own words differ, the model follows the code:

- `MeterSystemInfo.update_from_set_config` says its power limit is the raw, unscaled value sent. For a meter with a
  provider the value sent is already in watts, so it is scaled a second time; `AcknowledgedSetConfigSettles` says
  exactly when the check then never settles. In this repository nothing but tests calls that method.
- The watchdog documents its threshold as a number of consecutive dropouts. A threshold below one also warns without
  a dropout; `WarningMeansDropoutIffPositiveThreshold` gives the exact condition.
- The stream parser strips every leading space of a data line and yields a last event that no blank line ends, where
  section 9.2.6 of the WHATWG HTML standard strips one space and discards the event. `RoundTrip` shows what the first
  costs.
- `validate_blockrates` reports a block-rate gap by the first and last element of an unordered set, so the range it
  names may cover blocks, and only its two ends are promised (`ValidateBlockRates`).
- A reading whose wallet lock times out stays stored, so a later delivery of it is rejected as a duplicate and it is
  never billed (`StoredReadingIsFinal`).
- Option destinations join names with a double underscore, which does not tell every list of names apart;
  `FlattenThenAssembleIsIdentity` gives the exact condition and `TrailingUnderscoreBreaks` a schema that fails.

Two limits of the code that its callers keep or meet:

- The reading consumer flushes at 50 readings. The one event stream that feeds it awaits each call
  (sparkmeter/metering/lifespan.py:350-356), so every batch has at most 50 (`SequentialBatchesAreBounded`). Calls that
  overlapped could make a batch of 51 and never a larger one; `BatchSizes` says exactly when and
  `OverlappingCallsExceedTheBatchSize` shows a run.
- Readings are billed in the order they are delivered, each against the counter of the one before. A reading that comes
  late is billed a second time; `BilledEnergyIsCounterRise` says by how much, `BilledOnceIffCounterNeverBack` when not.

## Model

| member | source | states |
|---|---|---|
| `Billing.CalculateBilling.BaseTariffRate` | sparkmeter/billing.py:61-69 | the rate before modifiers: a missing flat price is free, a block rate is the average over the energy this reading adds to the cycle |
| `Billing.CalculateBilling.TouModifier` | sparkmeter/billing.py:74-84 | the modifier of the first time-of-use period that covers the reading, only when such periods are enabled and the rate is positive |
| `Billing.CalculateBilling.UpdateTariffCost` | sparkmeter/billing.py:56-89 | the rate and cost written to the reading, and its modifier left alone when none applies |
| `Billing.CalculateBilling.PayOffCustomerDebt` | sparkmeter/billing.py:136-149 | the wallet loop moves the account by the clamped repayment from the plan, then from the credit with what is left of the charge |
| `Billing.CalculateBilling.MaybeConvertNegativeBalanceToDebt` | sparkmeter/meter/meterdomain.py:1415-1444 | exactly in Auto mode with a negative credit and negative balances disallowed, the shortfall becomes debt and the credit zero; otherwise nothing changes |
| `Billing.CalculateBilling.UpdateCustomerCredit` | sparkmeter/billing.py:151-169 | plan then credit pay the reading's cost, then a disallowed negative credit becomes debt |
| `Billing.CalculateBilling.MaybeStartNewCycle` | sparkmeter/billing.py:171-196 | a new cycle is recorded and the energy counter reset exactly when one is due; reports whether it was |
| `Billing.CalculateBilling.MaybeExpirePlan` | sparkmeter/billing.py:198-212 | an enabled, running plan past its expiration stops and its balance is forfeited; reports whether it was |
| `Billing.CalculateBilling.MaybePurchaseNewPlan` | sparkmeter/billing.py:214-250 | a plan is bought exactly under the purchase conditions, with its dates, fee and price; reports whether it was |
| `Billing.CalculateBilling.MaybeRenew` | sparkmeter/billing.py:300-306 | the renewal steps tried before and again after the reading |
| `Billing.CalculateBilling.ChargeReading` | sparkmeter/billing.py:308-319 | pricing, charging, debt payback (only with a positive debt) and the energy counter, in the source's order |
| `Billing.CalculateBilling.Calculate` | sparkmeter/billing.py:299-332 | the account object ends in exactly the state of the ten-step pipeline, the cost is the one priced after the first renewal, and the final balances are copied to the reading |
| `BillingLaws.RenewConserves` | sparkmeter/billing.py:171-250 | a renewal changes credit + plan - debt only by the plan fee paid and the plan balance forfeited; the plan price just moves |
| `BillingLaws.ConsumeConserves` | sparkmeter/billing.py:136-169 | charging, conversion to debt and payback take exactly the reading's cost out of the three wallets together |
| `BillingLaws.RepaymentConserves` | sparkmeter/billing.py:136-149 | debt payback creates and destroys no money |
| `BillingLaws.RunConserves` | sparkmeter/billing.py:136-332 | over any run of readings, even with terms changing in between, credit + plan - debt falls by exactly the costs, the fees of the plans bought and the balances forfeited |
| `BillingLaws.RunBillsEachReadingOnce` | sparkmeter/billing.py:299-325 | every reading is billed exactly once, in order, at the price it has after the renewal that precedes it, and the cycle counter equals the energy billed since the last cycle start |
| `BillingLaws.RunSpendsBillsAndPlans` | sparkmeter/billing.py:86-332 | over any run credit + plan - debt falls by the prices of exactly the run's readings, the fees of the plans bought and the balances forfeited |
| `BillingLaws.BlockRateCost` | sparkmeter/billing.py:105-134 | a block-rate reading costs the rise of the cumulative cost of the cycle's energy |
| `BillingLaws.RunTelescopes` | sparkmeter/billing.py:86-134 | over any run of a block-rate tariff the costs since the last cycle start add up to the cumulative cost of the cycle's energy |
| `BillingLaws.SplittingReadingsChangesNoCost` | sparkmeter/billing.py:105-134 | two runs that reach the same cycle energy billed the same for it, however the consumption was split into readings |
| `PlanLaws.RunKeepsPlansInOrder` | sparkmeter/billing.py:198-250 | over readings in time order each plan is paid for at or after the expiration of the one before it, so paid periods never overlap and expirations strictly increase |
| `PlanLaws.OneReadingBuysAtMostOnePlan` | sparkmeter/billing.py:299-325 | one reading buys at most one plan although purchase is tried twice |
| `PlanLaws.PlanRunsWheneverAffordable` | sparkmeter/billing.py:214-250 | with plans enabled, On mode always ends with a plan running past the reading, Auto mode unless the credit is short of its cost, and Off mode buys none |
| `PlanLaws.RunKeepsDates` | sparkmeter/billing.py:233-238 | the recorded payment and expiration dates are always those of the plan bought last |
| `PlanLaws.RunAdvancesCycles` | sparkmeter/meter/meterdomain.py:1099-1118 | over any run from any stored account each reset strictly advances the cycle start, the stored one included, and between a cycle start and the next a true cycle boundary lies after the first and at or before the second |
| `PlanLaws.NoBoundaryLeftBehind` | sparkmeter/billing.py:299-325 | without plans, after a reading the recorded cycle start is at or after the last boundary |
| `PlanLaws.RunKeepsSolvent` | sparkmeter/billing.py:136-250 | with non-negative plan prices, plan and debt balances stay non-negative over any run, whatever energy costs |
| `PlanLaws.AutoModeEndsWithoutNegativeCredit` | sparkmeter/meter/meterdomain.py:1415-1444 | in Auto mode with negative balances disallowed, credit is not negative after a reading, whatever it was before |
| `PlanLaws.PaybackIsTheSmallestLimit` | sparkmeter/billing.py:136-149 | a payback is exactly the smallest of the financing charge, the debt and the money held, at least zero; credit pays only once the plan is empty, and what is taken is what is logged |
| `PlanLaws.ReadingPaysBack` | sparkmeter/billing.py:299-319 | over the whole pipeline a reading pays back exactly the smallest of its cost's financing share, the debt with a shortfall just converted, and what plan and credit hold after paying for the energy |
| `PriceLaws.FirstCoveringIsFirst` | sparkmeter/billing.py:74-84 | the period found covers the reading and none before it in the list does; none is found exactly when none covers it |
| `PriceLaws.FlatPrice` | sparkmeter/billing.py:91-103 | without a covering period a flat price is paid for every kWh, and a missing price is free |
| `PriceLaws.FlatPriceInPeriod` | sparkmeter/billing.py:74-89 | in a time-of-use period a positive flat price is paid at the percentage of the first period that covers the reading |
| `PriceLaws.BlockPriceInPeriod` | sparkmeter/billing.py:74-134 | with block rates a reading costs the rise of the cumulative cost of the cycle's energy, and in a time-of-use period that rise at its percentage |
| `PriceLaws.CostIsNotNegative` | sparkmeter/billing.py:56-89 | non-negative prices and percentages never give a negative cost |
| `LedgerLaws.ReadingIsAudited` | sparkmeter/billing.py:171-332 | every entry a reading logs was due on the account just before it and says what it says of that account: renewals one second early, the charge, what settles it, renewals at the end; nothing due is left out, and the log gives back the account |
| `LedgerLaws.RunIsItsLog` | sparkmeter/billing.py:136-332 | over any run wallets, plan, dates, cycle start and cycle energy are exactly what the log's entries make of the account at the start |
| `LedgerLaws.RunIsAudited` | sparkmeter/billing.py:299-332 | each reading of a run is audited that way within the run's log |
| `LedgerLaws.PlanBalanceIsLastPlanLessUse` | sparkmeter/billing.py:136-250 | over any run with non-negative prices the plan balance is the price of the plan bought last minus what charges and payback took from it since, and zero once it has expired |
| `LedgerLaws.ExpiredPlanIsForfeited` | sparkmeter/billing.py:198-212 | a plan over one second before the reading ends forfeits exactly the balance held before, and the charge draws only on a plan bought at once |
| `LedgerLaws.PlanNotOverForfeitsNothing` | sparkmeter/billing.py:198-212 | a plan not over at the end of a reading forfeits nothing |
| `LedgerLaws.ReadingIsPricedInItsCycle` | sparkmeter/billing.py:299-308 | a reading is priced on the energy its cycle had before it: none when a cycle starts with it |
| `Tariffs.GetAverageBlockRate` | sparkmeter/tariff/tariffdomain.py:387-428 | the loop over the block rates computes the specified average, and None where the source raises |
| `Tariffs.AverageRateTelescopes` | sparkmeter/tariff/tariffdomain.py:387-428 | the average rate times the usage is the difference of the cumulative costs, for any valid block rates |
| `Tariffs.CumulativeCostMonotone` | sparkmeter/tariff/tariffdomain.py:626-641 | using more energy never costs less |
| `Tariffs.ValidateBlockRates` | sparkmeter/tariff/tariffdomain.py:258-298 | accepted exactly when there are block rates, each is valid, none overlap and none of the range is left out; otherwise the first error in the source's order: the first faulty block's own fault, the first overlapping pair, or two ends of uncovered energy |
| `Tariffs.ValidatedRateIsTheBlocksOwn` | sparkmeter/tariff/tariffdomain.py:387-428 | for accepted block rates every kWh below the maximum is billed at the value of the one block that holds it |
| `Tariffs.RateWithoutUsage` | sparkmeter/tariff/tariffdomain.py:387-428 | a reading without energy has the rate of the block that holds the last kWh used |
| `Cycles.LastCycleStartIsGreatest` | sparkmeter/tariff/tariffdomain.py:228-241 | for every start day the last cycle start is the greatest boundary at or before the date; it raises exactly when the date's month, or the stretch from the month before it to the date, has no boundary |
| `Cycles.NextCycleStartIsLeast` | sparkmeter/tariff/tariffdomain.py:243-256 | for every start day a monthly plan runs to the least boundary after the date, and every plan runs past the date; it raises exactly when the date's month, or the stretch from the date to the end of the next month, has no boundary |
| `Cycles.LastCycleStartNeverFails` | sparkmeter/tariff/tariffdomain.py:220-241 | no date raises exactly when every month has the start day, which holds for days up to 28 |
| `Intervals.CheckIntervalsOverlap` | sparkmeter/misc/intervalutils.py:27-37 | None exactly when no two intervals overlap; otherwise the first overlapping pair in combination order, smaller tuple first |
| `Intervals.CheckIntervalsGap` | sparkmeter/misc/intervalutils.py:40-55 | exactly the integers of the range that no interval contains |
| `Intervals.NoOverlapNoGapIsPartition` | sparkmeter/misc/intervalutils.py:15-54 | for proper intervals inside the range, no overlap and no gap hold together exactly when every integer lies in exactly one interval |
| `Intervals.PartitionLengths` | sparkmeter/misc/intervalutils.py:15-54 | the lengths then add up to the length of the range |
| `Meters.KilowattHours` | sparkmeter/reading/readingdomain.py:294-312 | the energy to bill is never negative |
| `Meters.Reading.UpdateKilowattHours` | sparkmeter/reading/readingdomain.py:289-321 | nothing is billed for a first reading or a counter that went backwards, otherwise the difference |
| `Meters.MeterSystemInfo.UpdateFromReading` | sparkmeter/meter/meterdomain.py:381-389 | the latest energy, time, state and power limit are those of the reading |
| `Meters.MeterSystemInfo.UpdateFromSetConfig` | sparkmeter/meter/meterdomain.py:391-409 | the acknowledged state and rescaled power limit are recorded; the energy fields are untouched |
| `Meters.Meter.UpdateFromReading` | sparkmeter/meter/meterdomain.py:1484-1515 | system info takes the reading's values, a customer's daily counter is reset, kept or cleared as due, and the account is untouched |
| `Relay.AcknowledgedSetConfigSettles` | sparkmeter/meter/meterdomain.py:1251-1313 | after an acknowledged set-config the unchanged check sends nothing more, exactly unless a customer meter with a provider and without override has a scalar other than one and a non-zero limit |
| `Relay.CustomerPacket` | sparkmeter/meter/meterdomain.py:961-1313 | without an override a customer meter is sent a packet exactly unless its limit is the smaller watt limit and it is on or off as mode, plan, wallets and daily limit say; the packet enables exactly when it should be on and carries that limit, the capped inrush limit and the balance |
| `Relay.OverriddenPacket` | sparkmeter/meter/meterdomain.py:1120-1313 | under an override a packet is sent unless the meter is known to be off, and disables |
| `Relay.TotalizerPacket` | sparkmeter/meter/meterdomain.py:1120-1313 | a totalizer is sent a packet only while its state or limit is unknown, and that one disables without a limit |
| `Relay.ChecksFollowTheTarget` | sparkmeter/meter/meterdomain.py:1120-1313 | over any run of acknowledged checks a packet is sent exactly when the target (relay rule and power limit, or off under override) differs from that of the check before, it enables exactly when the target is on, and the meter ends on its last target |
| `Relay.DailyEnergySinceReset` | sparkmeter/meter/meterdomain.py:1446-1515 | with non-decreasing energy the daily consumption is the energy since the last reset reading, and never negative |
| `Relay.DailyCounterIsOfLatestReset` | sparkmeter/meter/meterdomain.py:1446-1515 | with the limit enabled the counter is that of the first reading at which the latest reset was due |
| `Relay.DisabledLimitCountsNothing` | sparkmeter/meter/meterdomain.py:1484-1515 | with the limit disabled the counter is cleared |
| `Relay.DailyLimitLatches` | sparkmeter/meter/meterdomain.py:961-990 | once the daily limit is reached in Auto mode the relay stays off, and no enable is sent, until the next daily reset is due, whatever the wallets do |
| `Controller.Database.SaveRawReading` | sparkmeter/controller.py:53-106 | a duplicate heartbeat end, an unknown meter or a taken heartbeat start stores nothing; otherwise the raw reading is stored |
| `Controller.Database.ProcessReading` | sparkmeter/controller.py:109-176 | the billed account, daily counter and reading are written back, or nothing at all when the wallet lock times out |
| `Controller.Database.AddReading` | sparkmeter/controller.py:36-50 | one delivery takes the tables to the specified next tables with the specified outcome |
| `Controller.Database.WriteReadings` | sparkmeter/metering/events.py:228-298 | a batch is delivered in order; incomplete or failing readings are skipped and the rest still written |
| `DeliveryLaws.BilledAtMostOnce` | sparkmeter/controller.py:36-106 | no meter and heartbeat end is billed twice, however deliveries repeat, overlap or fail |
| `DeliveryLaws.RepeatsChangeNothing` | sparkmeter/controller.py:36-106 | meters, counters and readings after any deliveries, failed ones included, are those after the first occurrence of each heartbeat window alone |
| `DeliveryLaws.SameEndChangesNothing` | sparkmeter/controller.py:36-106 | when no delivery is rejected, the first occurrence of each meter and heartbeat end alone decides meters, counters and readings |
| `DeliveryLaws.StoredReadingIsFinal` | sparkmeter/controller.py:109-164 | a stored customer reading counts as billed after any further deliveries exactly when its own processing did not time out |
| `DeliveryLaws.DeliveriesAreARun` | sparkmeter/controller.py:109-154 | a customer's account after any deliveries is the billing run over the readings that were processed |
| `DeliveryLaws.DeliveriesConserve` | sparkmeter/controller.py:36-176 | end to end, a customer's credit + plan - debt falls by exactly what the processed readings spent |
| `DeliveryLaws.BilledEnergyIsCounterRise` | sparkmeter/reading/readingdomain.py:289-321 | whatever is delivered, the energy billed to a meter is the rise of its counter plus how far the counter went back in between, minus what it showed after standing at zero |
| `DeliveryLaws.BilledOnceIffCounterNeverBack` | sparkmeter/reading/readingdomain.py:289-321 | from a non-zero counter a meter is never billed less than its counter rose, and exactly that if and only if its readings were processed with the counter never going back |
| `DeliveryLaws.LateReadingIsBilledAgain` | sparkmeter/controller.py:53-176 | three deliveries, one of them late, that are all processed and bill 20 kWh for a rise of 15 |
| `StoredReadings.StoredExactlyWhenNew` | sparkmeter/controller.py:53-106 | a delivery is stored exactly when it is complete, its meter is known and neither end of its window is taken |
| `StoredReadings.StartsStayDistinct` | sparkmeter/controller.py:53-106 | no two readings stored for a meter start together |
| `StoredReadings.ProcessedDelivery` | sparkmeter/controller.py:109-176 | a processed reading carries the balances its meter's account then has, and the meter reports the reading |
| `StoredReadings.StoredStays` | sparkmeter/controller.py:36-106 | a stored reading is never changed by later deliveries |
| `StoredReadings.RowFollowsReadings` | sparkmeter/controller.py:109-176 | over any deliveries a meter's terms stay, it reports its last processed reading, and its daily counter is that of a day run over them |
| `StoredReadings.StepsFollowReadings` | sparkmeter/reading/readingdomain.py:289-321 | each billing step is a processed reading with the energy and the time since the one before it |
| `StoredReadings.StoredIsItsBill` | sparkmeter/controller.py:109-176 | after any deliveries each processed reading is stored with the energy and cost of its own bill and the balances right after it |
| `StoredReadings.StoredCostsAreTheRunsBills` | sparkmeter/controller.py:109-176 | the costs and energies stored for a customer add up to what its billing run billed |
| `ReadingBuffer.NextKeepsInv` | sparkmeter/metering/events.py:150-210 | every atomic segment keeps the reading order, drops no batch, and leaves the timer handle on a sleeping timer only |
| `ReadingBuffer.NothingLostInAnyInterleaving` | sparkmeter/metering/events.py:150-210 | in every interleaving the batches handed over followed by the pending list are exactly the readings received, no batch is cancelled, and the handle never names a timer that took a batch |
| `ReadingBuffer.NextKeepsBufferInv` | sparkmeter/metering/events.py:150-210 | each segment keeps what is buffered within a batch and in reach of a sleeping timer or a waiting call, and makes an oversized batch exactly when a reading arrives while a whole batch waits |
| `ReadingBuffer.FlushingCallStarts` | sparkmeter/metering/events.py:157-208 | a boundary, or a reading that fills the batch, leaves nothing pending or waits for the sleeping timer it has just cancelled |
| `ReadingBuffer.FlushHandsOverAllReceived` | sparkmeter/metering/events.py:157-208 | in every interleaving, once such a call has ended or only waits for its write, every reading received up to it has been handed over |
| `ReadingBuffer.NothingLeavesEarly` | sparkmeter/metering/events.py:187-208 | without a boundary, a timer or a full batch nothing is handed over |
| `ReadingBuffer.BatchSizes` | sparkmeter/metering/events.py:194-208 | in every interleaving a batch has 1 to 51 readings, and all have at most 50 if and only if no call receives a reading while a whole batch waits for the call before it |
| `ReadingBuffer.IdleBufferHasLiveTimer` | sparkmeter/metering/events.py:177-208 | in every interleaving a live timer exists whenever readings are buffered and no call is suspended |
| `ReadingBuffer.SequentialBatchesAreBounded` | sparkmeter/metering/events.py:188-208 | with one consumer call at a time every batch has 1 to 50 readings, and at most one timer is asleep, the one the handle names |
| `ReadingBuffer.PendingCanAlwaysBeHandedOver` | sparkmeter/metering/events.py:155-186 | buffered readings never get stuck: after any run at most two internal steps hand over everything received |
| `ReadingBuffer.OverlappingCallsExceedTheBatchSize` | sparkmeter/metering/events.py:188-208 | a concrete run from the start in which a second, overlapping call makes a batch of 51 readings |
| `ReadingBuffer.ReadingConsumer.Take` | sparkmeter/metering/events.py:157-165 | the locked part of the flush: the batch is the whole pending list, which is cleared with the handle |
| `ReadingBuffer.ReadingConsumer.FlushPending` | sparkmeter/metering/events.py:157-166 | a flush in a call ends the call when nothing is pending and else waits for the write |
| `ReadingBuffer.ReadingConsumer.CancelFlushTask` | sparkmeter/metering/events.py:168-178 | a live timer is cancelled, forgotten and awaited; without one nothing happens |
| `ReadingBuffer.ReadingConsumer.Consume` | sparkmeter/metering/events.py:187-208 | a consumer call up to its end or first suspension is the specified step |
| `ReadingBuffer.ReadingConsumer.Resume` | sparkmeter/metering/events.py:206-208 | after the awaited timer ends the call flushes what is pending |
| `ReadingBuffer.ReadingConsumer.Wake` | sparkmeter/metering/events.py:180-185 | a timer that wakes takes the pending readings and waits for their write |
| `Watchdog.WatchdogHandler.CheckRoster` | sparkmeter/metering/events.py:341-350 | a restart is requested exactly at an empty roster whose predecessor was not empty |
| `Watchdog.WatchdogHandler.CheckDropouts` | sparkmeter/metering/events.py:352-369 | a warning is given exactly when it is due by the history |
| `Watchdog.WatchdogHandler.Observe` | sparkmeter/metering/events.py:326-369 | both answers for one heartbeat, with the state again determined by the whole history |
| `Watchdog.WarningMeansDropoutIffPositiveThreshold` | sparkmeter/metering/events.py:307-319 | warning at a dropout run of exactly the threshold is what the code does for every history if and only if the threshold is at least one |
| `Watchdog.DropoutRunIsMaximal` | sparkmeter/metering/events.py:352-361 | the run length counts the eligible all-dropped heartbeats back to the first that is not |
| `Watchdog.WarningMeansThatManyDropouts` | sparkmeter/metering/events.py:352-369 | with a positive threshold a warning means that the last heartbeats, that many and no more, were all eligible and all dropped |
| `Watchdog.OneRestartPerReturn` | sparkmeter/metering/events.py:341-350 | over any stream the roster came back exactly as often as a restart was requested, plus once if it is still there |
| `Watchdog.RestartsAreSeparated` | sparkmeter/metering/events.py:341-350 | between two successive restart requests the roster was empty up to some heartbeat and present from there on |
| `CliBody.CollectLeafOptions` | sparkmeter/metering/cli.py:130-141 | the recursive collection yields the options of all leaves in document order |
| `CliBody.AssembleBody` | sparkmeter/metering/cli.py:175-185 | the loop over the options builds the specified body |
| `CliLaws.OptionsCoverLeafPaths` | sparkmeter/metering/cli.py:130-141 | the options of a schema are exactly its leaf paths |
| `CliLaws.LeafPathsEndAtOptions` | sparkmeter/metering/cli.py:130-141 | a leaf path goes through objects that list properties and ends at a property that is no such object |
| `CliLaws.OptionsInDocumentOrder` | sparkmeter/metering/cli.py:130-141 | the options come in document order, and no two are the same |
| `CliLaws.OptionRequiredByItsObject` | sparkmeter/metering/cli.py:130-141 | an option is required exactly when the object that holds its property requires it |
| `CliLaws.LeafPathsArePrefixFree` | sparkmeter/metering/cli.py:130-141 | no leaf path is a proper prefix of another |
| `CliLaws.AssembleSetsGivenLeaves` | sparkmeter/metering/cli.py:175-185 | assembling leaf options never fails, gives a body that follows the schema, and holds at each leaf what its option gave |
| `CliLaws.FlattenThenAssembleIsIdentity` | sparkmeter/metering/cli.py:130-185 | every body that follows the schema is rebuilt from its option map if and only if no two leaves share an option destination |
| `CliLaws.JoinIsInjective` | sparkmeter/metering/cli.py:148-149 | joining with double underscores tells lists of names apart when no name contains one or ends in an underscore |
| `CliLaws.CleanSchemasRoundTrip` | sparkmeter/metering/cli.py:148-185 | a schema with such names round-trips every body that follows it |
| `CliLaws.TrailingUnderscoreBreaks` | sparkmeter/metering/cli.py:148-185 | a concrete schema with a name ending in an underscore, and a body of it that does not come back |
| `ProviderSchema.ResolveSchema` | sparkmeter/config/provider_settings.py:96-109 | the loop terminates on every document, cyclic references included, and its result has no $ref |
| `ProviderSchema.ResolveIsTheEndOfTheChain` | sparkmeter/config/provider_settings.py:96-109 | stopping at the first repeated reference loses nothing: the result is the $ref-free object the chain ends in, or empty when it has no such end |
| `ProviderSchema.PointerReachesItsKeys` | sparkmeter/config/provider_settings.py:81-93 | the pointer written for any list of keys, tildes and slashes included, resolves to the value those keys reach |
| `ProviderFields.ScalarSchemaHasNoRef` | sparkmeter/config/provider_settings.py:324-344 | the schema chosen for a field, alternatives included, is free of $ref |
| `ProviderFields.AlternativePicked` | sparkmeter/config/provider_settings.py:324-344 | an untyped schema with alternatives is the first of the type string, else the first that is a schema, else empty |
| `ProviderFields.TypedSchemaIsItself` | sparkmeter/config/provider_settings.py:324-344 | a schema with a type, or without alternatives, is used as it is |
| `ProviderFields.DeclaredType` | sparkmeter/config/provider_settings.py:112-124 | the type is the one given or the first of a list that is not null, without outer space or upper case |
| `ProviderFields.InitRequestIsTheBodyOrTheNamed` | sparkmeter/config/provider_settings.py:310-321 | the init fields come from the request body of POST /v1/init, or from the schema named InitRequest when it lists none |
| `ProviderFields.MergeObjectSchema` | sparkmeter/config/provider_settings.py:127-148 | the recursive merge computes the specified object schema within the depth bound |
| `ProviderFields.ObjectSchemaHasNoRef` | sparkmeter/config/provider_settings.py:127-148 | every merged schema is free of $ref |
| `ProviderFields.MergeUnitesProperties` | sparkmeter/config/provider_settings.py:127-148 | a merged schema has exactly the properties and required names of the schema and of its merged parts |
| `ProviderFields.LastPartWins` | sparkmeter/config/provider_settings.py:127-148 | a merged property has the value of the last part that has it, and the schema's own when no part does |
| `ProviderFields.FirstPartFillsIn` | sparkmeter/config/provider_settings.py:127-148 | any other key is the schema's own, or that of the first part that has it |
| `ProviderFields.UnmergedSchemas` | sparkmeter/config/provider_settings.py:127-148 | eight levels down parts are no longer merged, and a schema without parts is only resolved |
| `ProviderFields.AddMissingKeepsOrder` | sparkmeter/config/provider_settings.py:267-288 | what a list of names adds keeps the order in which it first comes up |
| `ProviderFields.RequiredFieldNames` | sparkmeter/config/provider_settings.py:282-288 | a blank name is an error; otherwise each listed name once, in the driver's order |
| `ProviderFields.RequiredFields` | sparkmeter/config/provider_settings.py:347-365 | one required, typed field per advertised name, in order |
| `ProviderFields.AddOptionalFields` | sparkmeter/config/provider_settings.py:381-387 | the other InitRequest properties follow in schema order, typed and optional |
| `ProviderFields.AddVendorFields` | sparkmeter/config/provider_settings.py:388-394 | for each name not yet listed the first vendor field of that name follows, made optional |
| `ProviderFields.ExtractDriverRequirementFields` | sparkmeter/config/provider_settings.py:267-395 | from the names a driver lists to the whole list: an error for a blank name, else pairwise distinct names in the three groups' order, only the first group required, the first two typed from the schema, the third the first vendor field of each name |
| `ProviderConfig.ValidateProviderConfigPayload` | sparkmeter/config/provider_settings.py:786-818 | the loops compute the specified result or the first error in the source's order |
| `ProviderConfig.CheckRequired` | sparkmeter/config/provider_settings.py:796-800 | the required names in order, and whether one of them has no value |
| `ProviderConfig.CoerceValues` | sparkmeter/config/provider_settings.py:808-814 | the coerced and checked values in spec order, or the first failure |
| `ProviderConfigLaws.CoercedHasType` | sparkmeter/config/provider_settings.py:726-762 | a coerced value has the wire type its field declares |
| `ProviderConfigLaws.CoercionIsIdempotent` | sparkmeter/config/provider_settings.py:700-762 | a coerced value is not blank and coerces to itself |
| `ProviderConfigLaws.BooleanWords` | sparkmeter/config/provider_settings.py:726-762 | true, 1, yes, on and false, 0, no, off in any case are the booleans; other text is refused |
| `ProviderConfigLaws.IntegersKeepTheirNumber` | sparkmeter/config/provider_settings.py:726-762 | an integer keeps its number, a float its integer part toward zero, text what it parses to |
| `ProviderConfigLaws.NumbersKeepTheirValue` | sparkmeter/config/provider_settings.py:726-762 | a number keeps its value, text what it parses to |
| `ProviderConfigLaws.OtherValuesKeepTheirText` | sparkmeter/config/provider_settings.py:726-762 | arrays and objects pass as they are, everything else is sent as text without outer space |
| `ProviderConfigLaws.AesKeysAreHexOrBytes` | sparkmeter/config/provider_settings.py:705-724 | an AES key is 32 hexadecimal digits or 16 integers below 256 |
| `ProviderConfigLaws.WellTypedIsKept` | sparkmeter/config/provider_settings.py:726-762 | a value of its declared type, without outer space, is sent as it is |
| `ProviderConfigLaws.SpecsAreDistinct` | sparkmeter/config/provider_settings.py:649-680 | stored field specs have pairwise distinct names |
| `ProviderConfigLaws.StoredSpecsInOrder` | sparkmeter/config/provider_settings.py:649-680 | specs come in the order in which their names first come up, unnamed entries are dropped |
| `ProviderConfigLaws.LastEntryOfANameCounts` | sparkmeter/config/provider_settings.py:649-680 | of several entries with one name the last counts |
| `ProviderConfigLaws.EntrySpecs` | sparkmeter/config/provider_settings.py:649-680 | a bare name is a required string field |
| `ProviderConfigLaws.UntypedFieldIsText` | sparkmeter/config/provider_settings.py:726-730 | a field without a declared type is text |
| `ProviderConfigLaws.ConstraintsCheckedExactly` | sparkmeter/config/provider_settings.py:765-783 | the check passes exactly when text matches a usable declared pattern and an amount lies within the declared bounds |
| `ProviderConfigLaws.ValidationIsSound` | sparkmeter/config/provider_settings.py:786-818 | a validated result has every required field, no unlisted one, and each value has its declared type and meets its pattern, minimum and maximum |
| `ProviderConfigLaws.AcceptedExactlyWhenComplete` | sparkmeter/config/provider_settings.py:786-818 | a payload is accepted exactly when its parts have their shapes, every field not optional has a value, and every value coerces and meets its constraints |
| `ProviderConfigLaws.WellTypedPayloadIsUnchanged` | sparkmeter/config/provider_settings.py:786-818 | an accepted payload whose values are well typed is sent unchanged, blank and unlisted values aside |
| `ProviderConfigLaws.ResultFollowsSpecOrder` | sparkmeter/config/provider_settings.py:786-818 | the result lists exactly the fields not marked optional and the values of those supplied, both in the order of the specs |
| `ProviderConfigLaws.ValidationIsIdempotent` | sparkmeter/config/provider_settings.py:786-818 | validating the validated values again under the same specs returns the same result |
| `ModelMerge.VariantDeterminesModel` | sparkmeter/meter/meterutils.py:16-38 | a variant's name is an X name, and dropping the X gives back the one model it came from |
| `ModelMerge.VariantPutsXAfterSeries` | sparkmeter/meter/meterutils.py:16-38 | the X goes between the series, SM and its digits, and the designator |
| `ModelMerge.NameableModels` | sparkmeter/meter/meterutils.py:16-38 | a variant is named exactly for non-X names that begin with SM, a digit and a word character |
| `ModelMerge.ModelMapper.GetXModel` | sparkmeter/meter/meterutils.py:111-120 | the mapped X variant, or none when the name is of no known series or the variant is not mapped |
| `ModelMerge.ModelMapper.GetModel` | sparkmeter/meter/meterutils.py:100-109 | the mapped model itself, or none for an unrecognized name |
| `ModelMerge.MergeModel` | sparkmeter/meter/meterutils.py:133-159 | one pass of the loop over shared model objects changes the mapped models exactly as specified, and fails only when the variant cannot be named |
| `ModelMerge.MergeLocalMeterModels` | sparkmeter/meter/meterutils.py:123-160 | succeeds exactly when every raised model can be named, and then holds exactly the merged limit for every name |
| `ModelMerge.NameableMeansSeries` | sparkmeter/meter/meterutils.py:123-160 | the merge fails exactly on a non-X model configured above its default whose name is of no SM series |
| `ModelMerge.NothingRaisedNothingChanged` | sparkmeter/meter/meterutils.py:134-136 | when no model is configured above its default the merged models are the defaults |
| `ModelMerge.DefaultsSurvive` | sparkmeter/meter/meterutils.py:123-160 | every default model stays with no lower limit, and models that are not X variants are unchanged |
| `ModelMerge.ConfiguredLimitsAreMet` | sparkmeter/meter/meterutils.py:134-159 | a model configured above its default ends with at least that limit on itself or on its X variant |
| `ModelMerge.LimitsComeFromTheInputs` | sparkmeter/meter/meterutils.py:134-159 | every limit is the model's default or a configured limit meant for it |
| `ModelMerge.AddedNamesNeverCollide` | sparkmeter/meter/meterutils.py:150-156 | an added name is the X variant of exactly one default model and carries exactly that model's configured limit and attributes |
| `EventStream.IterSseDataPayloads` | sparkmeter/metering/http_sse.py:18-40 | the loop over the lines yields the specified payloads, the last one also without a closing blank line |
| `EventStream.StretchIsOneEvent` | sparkmeter/metering/http_sse.py:18-40 | lines without a blank one are one event, the last one too, and none without a data line |
| `EventStream.BlankLineSeparates` | sparkmeter/metering/http_sse.py:18-40 | what comes before and after a blank line is parsed on its own |
| `EventStream.DataLineCarries` | sparkmeter/metering/http_sse.py:30-38 | a data line carries what follows its colon and any number of spaces |
| `EventStream.IgnoredLinesChangeNothing` | sparkmeter/metering/http_sse.py:30-38 | streams that differ only in comment, event, id, retry and other ignored lines carry the same payloads |
| `EventStream.InsertingAnIgnoredLine` | sparkmeter/metering/http_sse.py:30-38 | inserting one such line anywhere changes nothing |
| `EventStream.RoundTrip` | sparkmeter/metering/http_sse.py:18-40 | payloads encoded as data lines parse back to the same list if and only if no piece starts with a space |

## Left out

- Floating-point rounding, not-a-number and infinities: amounts are exact reals.
- Database sessions, merges, locks and queries: tables are maps keyed by their identifying columns and each committed
  step is atomic; a lock that times out is an input of the delivery.
- Failures of a delivery other than the rejections and the lock timeout, such as an exception inside pricing: such a
  reading is stored and not billed, like one that times out.
- The set-config that a processed reading may trigger: the reading loop passes `update_meter_state=False`.
- Low-balance events: they depend on the event table and never touch the account.
- Calendar arithmetic: months are any sequence of at least 28 days, and time-of-use coverage is a function of the two
  times that never raises.
- Billing with a start day above 28: `Cycles` says for every start day when a cycle boundary is found and when the
  source raises; the billing steps take the days that never raise. A calculation that raises is a failed delivery.
- The wall clock: the daily reset time and the current load limit are inputs.
- Wallets of a totalizer meter: its row has an account like any other, which nothing reads or writes.
- Firmware, bootloader and timestamps recorded with a set-config, and meters without a model or a load limit, for
  which the source raises.
- Cancellation of the consumer call itself at shutdown, and the order in which concurrent writes finish.
- Event-type dispatch and the parsing of payloads into event models.
- Splitting the response into lines; the parser starts from lines.
- `$ref` and `allOf` in the command-line schemas: the tree is already resolved there, and finite. Nested bodies are
  values that the loop reassigns, so sharing of the dictionaries being built is not modelled.
- Option types, flags and choices of the command line, and path parameters.
- Locating the vendor-option schema of the `/v1/commands` extension: its fields are an input of the discovery.
- Labels, descriptions and text normalization of discovered fields; a field carries its resolved schema instead.
- Number parsing, `str()` of non-strings and regular-expression search: functions of the `Runtime` value. White space is
  ASCII white space and letter case is ASCII.
- Fetching documents, persisting configuration files and forms.
- The order of the merged meter models, repeated default names, and word characters outside ASCII.
- Transactions, snapshots, replication, user interface, and SMS: not part of this model.
- Accounts.Calculate: its contract only keeps the account valid; what it does is stated by the lemmas about it.
