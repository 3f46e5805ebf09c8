/**
 * The reading consumer of sparkmeter/metering/events.py: a pending list and a flush timer shared by consumer calls
 * and timer tasks, which interleave wherever one of them suspends at an `await`. The lock sections contain no
 * suspension point, so each segment below runs as one atomic step.
 */
module ReadingBuffer {
  import opened Wrappers

  const READING_BATCH_SIZE: nat := 50

  // A timer task sleeps, may be cancelled in its sleep, or wakes, takes a batch and waits for the write.
  datatype Timer<R> = Sleeping | Cancelled | Writing(batch: seq<R>) | Finished

  // A consumer call that has suspended: waiting for a cancelled timer to end, or for its write.
  datatype Call = AwaitingTimer(timer: nat) | AwaitingWrite

  datatype Event<R> = Reading(reading: R) | FlushMarker | OtherEvent

  datatype State<R> = State(
    pending: seq<R>,
    flushTask: Option<nat>,
    timers: seq<Timer<R>>,
    calls: map<nat, Call>,
    handed: seq<seq<R>>,   // batches given to the writer, in hand-off order
    dropped: seq<seq<R>>,  // batches whose write was cancelled
    received: seq<R>
  )

  function Init<R>(): State<R> {
    State([], None, [], map[], [], [], [])
  }

  // ---------- atomic segments ----------

  // The locked part of flush_pending, up to the await of the write.
  function TakeBatch<R>(s: State<R>): State<R> {
    if |s.pending| == 0 then s.(flushTask := None)
    else s.(flushTask := None, pending := [], handed := s.handed + [s.pending])
  }

  // flush_pending inside a consumer call: the call ends, or waits for the write.
  function FlushInCall<R>(s: State<R>, call: nat): State<R> {
    TakeBatch(s).(calls := if |s.pending| == 0 then s.calls - {call} else s.calls[call := AwaitingWrite])
  }

  // cancel_flush_task, then flush_pending; a live timer is cancelled and awaited first.
  function CancelThenFlush<R>(s: State<R>, call: nat): State<R>
    requires s.flushTask.Some? ==> s.flushTask.value < |s.timers|
  {
    if s.flushTask.None? || s.timers[s.flushTask.value].Finished? then FlushInCall(s, call)
    else
      var t := s.flushTask.value;
      s.(
        flushTask := None,
        timers := s.timers[t := Cancelled],
        calls := s.calls[call := AwaitingTimer(t)],
        // Cancelling a timer that waits for its write abandons the batch it holds.
        dropped := if s.timers[t].Writing? then s.dropped + [s.timers[t].batch] else s.dropped)
  }

  function Append<R>(s: State<R>, r: R): State<R>
    requires s.flushTask.Some? ==> s.flushTask.value < |s.timers|
  {
    var s1 := s.(pending := s.pending + [r], received := s.received + [r]);
    if |s1.pending| < READING_BATCH_SIZE && (s.flushTask.None? || s.timers[s.flushTask.value].Finished?)
    then s1.(flushTask := Some(|s.timers|), timers := s.timers + [Sleeping])
    else s1
  }

  datatype Action<R> =
    | Consume(call: nat, event: Event<R>)  // a consumer call starts
    | Resume(call: nat)                    // a call's awaited timer has ended
    | Wake(timer: nat)                     // a timer's sleep is over
    | EndCancelled(timer: nat)             // a cancelled timer ends
    | EndWrite(timer: nat)                 // a timer's write completes
    | EndCallWrite(call: nat)              // a call's write completes

  predicate WellFormed<R>(s: State<R>) {
    s.flushTask.Some? ==> s.flushTask.value < |s.timers|
  }

  predicate Enabled<R>(s: State<R>, a: Action<R>) {
    match a
    case Consume(c, _) => c !in s.calls
    case Resume(c) =>
      c in s.calls && s.calls[c].AwaitingTimer? && s.calls[c].timer < |s.timers| && s.timers[s.calls[c].timer].Finished?
    case Wake(t) => t < |s.timers| && s.timers[t].Sleeping?
    case EndCancelled(t) => t < |s.timers| && s.timers[t].Cancelled?
    case EndWrite(t) => t < |s.timers| && s.timers[t].Writing?
    case EndCallWrite(c) => c in s.calls && s.calls[c].AwaitingWrite?
  }

  function Next<R>(s: State<R>, a: Action<R>): (r: State<R>)
    requires WellFormed(s) && Enabled(s, a)
    ensures WellFormed(r)
  {
    match a
    case Consume(c, FlushMarker) => CancelThenFlush(s, c)
    case Consume(c, OtherEvent) => s
    case Consume(c, Reading(r)) =>
      var s1 := Append(s, r);
      if |s1.pending| >= READING_BATCH_SIZE then CancelThenFlush(s1, c) else s1
    case Resume(c) => FlushInCall(s, c)
    case Wake(t) => TakeBatch(s).(timers := s.timers[t := if |s.pending| == 0 then Finished else Writing(s.pending)])
    case EndCancelled(t) => s.(timers := s.timers[t := Finished])
    case EndWrite(t) => s.(timers := s.timers[t := Finished])
    case EndCallWrite(c) => s.(calls := s.calls - {c})
  }

  // ---------- safety in every interleaving ----------

  function Concat<R>(batches: seq<seq<R>>): seq<R> {
    if batches == [] then [] else Concat(batches[..|batches| - 1]) + batches[|batches| - 1]
  }

  ghost predicate Inv<R>(s: State<R>) {
    && WellFormed(s)
    // nothing lost, duplicated or reordered
    && Concat(s.handed) + s.pending == s.received
    && s.dropped == []
    // the handle only ever names a timer still asleep
    && (s.flushTask.Some? ==> s.timers[s.flushTask.value].Sleeping?)
    // a call only waits for a timer it has cancelled
    && (forall c <- s.calls :: s.calls[c].AwaitingTimer? ==>
          s.calls[c].timer < |s.timers| && s.timers[s.calls[c].timer] in {Cancelled, Finished})
    && (forall i :: 0 <= i < |s.handed| ==> |s.handed[i]| > 0)
  }

  lemma TakeBatchConserves<R>(s: State<R>)
    ensures
      var r := TakeBatch(s);
      Concat(r.handed) + r.pending == Concat(s.handed) + s.pending
  {
    if |s.pending| > 0 {
      assert (s.handed + [s.pending])[..|s.handed|] == s.handed;
    }
  }

  lemma FlushInCallKeepsInv<R>(s: State<R>, call: nat)
    requires Inv(s)
    ensures Inv(FlushInCall(s, call))
  {
    hide Concat;
    TakeBatchConserves(s);
  }

  lemma CancelThenFlushKeepsInv<R>(s: State<R>, call: nat)
    requires Inv(s)
    ensures Inv(CancelThenFlush(s, call))
  {
    hide Concat, FlushInCall;
    FlushInCallKeepsInv(s, call);
  }

  lemma AppendKeepsInv<R>(s: State<R>, r: R)
    requires Inv(s)
    ensures Inv(Append(s, r))
  {
    hide Concat;
    assert Concat(s.handed) + (s.pending + [r]) == Concat(s.handed) + s.pending + [r];
  }

  lemma {:induction false} NextKeepsInv<R>(s: State<R>, a: Action<R>)
    requires Inv(s) && Enabled(s, a)
    ensures Inv(Next(s, a))
  {
    hide Concat, CancelThenFlush, Append, FlushInCall;
    match a
    case Consume(c, Reading(r)) =>
      AppendKeepsInv(s, r);
      CancelThenFlushKeepsInv(Append(s, r), c);
    case Consume(c, FlushMarker) =>
      CancelThenFlushKeepsInv(s, c);
    case Resume(c) =>
      FlushInCallKeepsInv(s, c);
    case Wake(_) =>
      TakeBatchConserves(s);
    case _ =>
  }

  // ---------- runs ----------

  predicate ValidRun<R>(s: State<R>, run: seq<Action<R>>)
    requires WellFormed(s)
    decreases |run|
  {
    |run| == 0 || (Enabled(s, run[0]) && ValidRun(Next(s, run[0]), run[1..]))
  }

  function Execute<R>(s: State<R>, run: seq<Action<R>>): (r: State<R>)
    requires WellFormed(s) && ValidRun(s, run)
    ensures WellFormed(r)
    decreases |run|
  {
    if |run| == 0 then s else Execute(Next(s, run[0]), run[1..])
  }

  // The readings among the events consumed, in the order the calls started.
  function Received<R>(run: seq<Action<R>>): seq<R> {
    if |run| == 0 then [] else ReceivedBy(run[0]) + Received(run[1..])
  }

  function ReceivedBy<R>(a: Action<R>): seq<R> {
    match a
    case Consume(_, Reading(r)) => [r]
    case _ => []
  }

  lemma NextReceives<R>(s: State<R>, a: Action<R>)
    requires WellFormed(s) && Enabled(s, a)
    ensures Next(s, a).received == s.received + ReceivedBy(a)
  {}

  lemma {:induction false} RunKeepsInv<R>(s: State<R>, run: seq<Action<R>>)
    requires WellFormed(s) && Inv(s) && ValidRun(s, run)
    ensures Inv(Execute(s, run))
    ensures Execute(s, run).received == s.received + Received(run)
    decreases |run|
  {
    hide Inv, Concat, Next;
    if |run| > 0 {
      NextKeepsInv(s, run[0]);
      NextReceives(s, run[0]);
      RunKeepsInv(Next(s, run[0]), run[1..]);
    }
  }

  /**
   * In every interleaving of consumer calls, timer wake-ups and cancellations, the batches handed to the writer
   * followed by the pending list are exactly the readings consumed, no batch is ever cancelled, and the timer
   * handle never names a timer that has taken a batch.
   */
  lemma NothingLostInAnyInterleaving<R>(run: seq<Action<R>>)
    requires ValidRun(Init<R>(), run)
    ensures
      var s := Execute(Init<R>(), run);
      && Concat(s.handed) + s.pending == Received(run)
      && s.dropped == []
      && (s.flushTask.Some? ==> s.timers[s.flushTask.value] == Sleeping)
  {
    RunKeepsInv(Init<R>(), run);
  }

  // ---------- batch sizes and live timers in every interleaving ----------

  predicate AtMost<R>(batches: seq<seq<R>>, size: nat) {
    forall i :: 0 <= i < |batches| ==> |batches[i]| <= size
  }

  lemma AtMostAppend<R>(batches: seq<seq<R>>, batch: seq<R>, size: nat)
    ensures AtMost(batches + [batch], size) <==> AtMost(batches, size) && |batch| <= size
  {
    var all := batches + [batch];
    assert all[|batches|] == batch && forall i :: 0 <= i < |batches| ==> all[i] == batches[i];
  }

  // Some suspended call will flush once the timer it cancelled has ended.
  predicate FlushAwaited(calls: map<nat, Call>) {
    exists c <- calls :: calls[c].AwaitingTimer?
  }

  ghost predicate BufferInv<R>(s: State<R>) {
    && Inv(s)
    && |s.pending| <= READING_BATCH_SIZE
    && (|s.pending| == READING_BATCH_SIZE ==> s.flushTask.None?)
    // whatever is buffered has a sleeping timer, or a call that will flush it
    && (|s.pending| > 0 ==> s.flushTask.Some? || FlushAwaited(s.calls))
    && AtMost(s.handed, READING_BATCH_SIZE + 1)
  }

  // A reading is received while a whole batch waits for an earlier call to flush it.
  predicate Overfills<R>(s: State<R>, a: Action<R>) {
    a.Consume? && a.event.Reading? && |s.pending| == READING_BATCH_SIZE
  }


  lemma FlushInCallKeepsBufferInv<R>(s: State<R>, call: nat)
    requires Inv(s) && |s.pending| <= READING_BATCH_SIZE + 1
    requires AtMost(s.handed, READING_BATCH_SIZE + 1)
    ensures BufferInv(FlushInCall(s, call))
    ensures AtMost(FlushInCall(s, call).handed, READING_BATCH_SIZE)
            <==> AtMost(s.handed, READING_BATCH_SIZE) && |s.pending| <= READING_BATCH_SIZE
  {
    hide Concat, AtMost;
    FlushInCallKeepsInv(s, call);
    AtMostAppend(s.handed, s.pending, READING_BATCH_SIZE);
    AtMostAppend(s.handed, s.pending, READING_BATCH_SIZE + 1);
  }

  lemma CancelThenFlushKeepsBufferInv<R>(s: State<R>, call: nat)
    requires Inv(s) && |s.pending| <= READING_BATCH_SIZE + 1
    requires |s.pending| > READING_BATCH_SIZE ==> s.flushTask.None?
    requires AtMost(s.handed, READING_BATCH_SIZE + 1)
    ensures BufferInv(CancelThenFlush(s, call))
    ensures AtMost(CancelThenFlush(s, call).handed, READING_BATCH_SIZE)
            <==> AtMost(s.handed, READING_BATCH_SIZE) && |s.pending| <= READING_BATCH_SIZE
  {
    hide Concat, FlushInCall, AtMost;
    FlushInCallKeepsBufferInv(s, call);
    CancelThenFlushKeepsInv(s, call);
    if s.flushTask.Some? {
      var r := CancelThenFlush(s, call);
      assert r.calls[call].AwaitingTimer?;
    }
  }

  lemma EndWriteKeepsFlushAwaited(calls: map<nat, Call>, call: nat)
    requires call in calls && calls[call].AwaitingWrite? && FlushAwaited(calls)
    ensures FlushAwaited(calls - {call})
  {
    var c :| c in calls && calls[c].AwaitingTimer?;
    assert c in calls - {call};
  }

  lemma {:induction false} NextKeepsBufferInv<R>(s: State<R>, a: Action<R>)
    requires BufferInv(s) && Enabled(s, a)
    ensures BufferInv(Next(s, a))
    ensures AtMost(Next(s, a).handed, READING_BATCH_SIZE) <==> AtMost(s.handed, READING_BATCH_SIZE) && !Overfills(s, a)
  {
    hide Concat, CancelThenFlush, FlushInCall, FlushAwaited, AtMost;
    NextKeepsInv(s, a);
    match a
    case Consume(c, Reading(r)) =>
      AppendKeepsInv(s, r);
      if |s.pending| + 1 >= READING_BATCH_SIZE {
        CancelThenFlushKeepsBufferInv(Append(s, r), c);
      }
    case Consume(c, FlushMarker) =>
      CancelThenFlushKeepsBufferInv(s, c);
    case Resume(c) =>
      FlushInCallKeepsBufferInv(s, c);
    case Wake(t) =>
      AtMostAppend(s.handed, s.pending, READING_BATCH_SIZE);
      AtMostAppend(s.handed, s.pending, READING_BATCH_SIZE + 1);
    case EndCallWrite(c) =>
      if FlushAwaited(s.calls) {
        EndWriteKeepsFlushAwaited(s.calls, c);
      }
    case _ =>
  }

  // No call of the run receives a reading while a whole batch waits to be flushed.
  predicate NeverOverfilled<R>(s: State<R>, run: seq<Action<R>>)
    requires WellFormed(s) && ValidRun(s, run)
    decreases |run|
  {
    |run| == 0 || (!Overfills(s, run[0]) && NeverOverfilled(Next(s, run[0]), run[1..]))
  }

  lemma {:induction false} RunKeepsBufferInv<R>(s: State<R>, run: seq<Action<R>>)
    requires WellFormed(s) && BufferInv(s) && ValidRun(s, run)
    ensures BufferInv(Execute(s, run))
    ensures AtMost(Execute(s, run).handed, READING_BATCH_SIZE)
            <==> AtMost(s.handed, READING_BATCH_SIZE) && NeverOverfilled(s, run)
    decreases |run|
  {
    hide BufferInv, Next, AtMost, Overfills;
    if |run| > 0 {
      NextKeepsBufferInv(s, run[0]);
      RunKeepsBufferInv(Next(s, run[0]), run[1..]);
    }
  }

  /**
   * In every interleaving a batch has 1 to 51 readings, and all batches keep to the batch size exactly when no call
   * receives a reading while a whole batch is still waiting for the call before it.
   */
  lemma BatchSizes<R>(run: seq<Action<R>>)
    requires ValidRun(Init<R>(), run)
    ensures
      var s := Execute(Init<R>(), run);
      && (forall i :: 0 <= i < |s.handed| ==> 1 <= |s.handed[i]| <= 51)
      && (AtMost(s.handed, 50) <==> NeverOverfilled(Init<R>(), run))
  {
    RunKeepsBufferInv(Init<R>(), run);
  }

  /** Whenever no call is suspended and readings are buffered, a timer is asleep that will flush them. */
  lemma IdleBufferHasLiveTimer<R>(run: seq<Action<R>>)
    requires ValidRun(Init<R>(), run)
    ensures
      var s := Execute(Init<R>(), run);
      s.calls == map[] && |s.pending| > 0 ==> s.flushTask.Some? && s.timers[s.flushTask.value] == Sleeping
  {
    RunKeepsBufferInv(Init<R>(), run);
  }

  predicate NoneConsumed<R>(run: seq<Action<R>>) {
    forall i :: 0 <= i < |run| ==> !run[i].Consume?
  }

  /**
   * Buffered readings never get stuck: after any run, at most two internal steps (a timer ending, a call resuming
   * or a timer waking) hand over everything received.
   */
  lemma {:induction false} PendingCanAlwaysBeHandedOver<R>(past: seq<Action<R>>) returns (run: seq<Action<R>>)
    requires ValidRun(Init<R>(), past)
    ensures
      var s := Execute(Init<R>(), past);
      && |run| <= 2 && NoneConsumed(run) && ValidRun(s, run)
      && |Execute(s, run).pending| == 0
      && Concat(Execute(s, run).handed) == Received(past)
  {
    hide Execute, ValidRun;
    RunKeepsInv(Init<R>(), past);
    RunKeepsBufferInv(Init<R>(), past);
    run := HandOver(Execute(Init<R>(), past));
  }

  lemma {:induction false} HandOver<R>(s: State<R>) returns (run: seq<Action<R>>)
    requires WellFormed(s) && BufferInv(s)
    ensures |run| <= 2 && NoneConsumed(run) && ValidRun(s, run)
    ensures |Execute(s, run).pending| == 0
    ensures Concat(Execute(s, run).handed) == s.received
  {
    hide Concat;
    if |s.pending| == 0 {
      run := [];
      assert Concat(s.handed) + s.pending == Concat(s.handed);
    } else if s.flushTask.Some? {
      run := [Wake(s.flushTask.value)];
      ExecuteOne(s, run[0]);
      HandsOverAll(s, Next(s, run[0]));
    } else {
      var c :| c in s.calls && s.calls[c].AwaitingTimer?;
      var t := s.calls[c].timer;
      if s.timers[t].Finished? {
        run := [Resume(c)];
        ExecuteOne(s, run[0]);
        HandsOverAll(s, Next(s, run[0]));
      } else {
        run := [EndCancelled(t), Resume(c)];
        var s1 := Next(s, run[0]);
        assert run[1..] == [run[1]];
        ExecuteOne(s1, run[1]);
        HandsOverAll(s, Next(s1, run[1]));
      }
    }
  }

  lemma ExecuteOne<R>(s: State<R>, a: Action<R>)
    requires WellFormed(s) && Enabled(s, a)
    ensures ValidRun(s, [a]) && Execute(s, [a]) == Next(s, a)
  {
    assert [a][1..] == [];
    assert Execute(Next(s, a), []) == Next(s, a);
  }

  lemma HandsOverAll<R>(s: State<R>, r: State<R>)
    requires Inv(s) && r.handed == s.handed + [s.pending]
    ensures Concat(r.handed) == s.received
  {
    assert r.handed[..|s.handed|] == s.handed;
  }

  // ---------- what makes a batch leave the buffer ----------

  // A call that flushes: a heartbeat boundary, or a reading that fills the batch.
  predicate Flushes<R>(s: State<R>, event: Event<R>) {
    event.FlushMarker? || (event.Reading? && |s.pending| + 1 >= 50)
  }

  // How many of the readings received have been handed over.
  function HandedCount<R>(s: State<R>): int {
    |s.received| - |s.pending|
  }

  predicate AwaitsTimer<R>(s: State<R>, call: nat) {
    call in s.calls && s.calls[call].AwaitingTimer?
  }

  /** A flushing call leaves nothing pending, or waits for the sleeping timer it has just cancelled. */
  lemma FlushingCallStarts<R>(s: State<R>, call: nat, event: Event<R>)
    requires Inv(s) && Enabled(s, Action.Consume(call, event)) && Flushes(s, event)
    ensures
      var r := Next(s, Action.Consume(call, event));
      if s.flushTask.None? then r.pending == [] && HandedCount(r) == |r.received|
      else
        && AwaitsTimer(r, call) && r.calls[call].timer == s.flushTask.value
        && r.timers[s.flushTask.value] == Cancelled && r.flushTask.None?
  {
    hide Concat;
  }

  lemma NextHandsOverMore<R>(s: State<R>, a: Action<R>)
    requires Inv(s) && Enabled(s, a)
    ensures HandedCount(Next(s, a)) >= HandedCount(s) && |Next(s, a).received| >= |s.received|
  {
    hide Concat;
  }

  // A call that waits for its timer goes on waiting until it flushes everything.
  lemma NextKeepsFlush<R>(s: State<R>, a: Action<R>, call: nat, n: nat)
    requires Inv(s) && Enabled(s, a) && n <= |s.received|
    requires HandedCount(s) >= n || AwaitsTimer(s, call)
    ensures HandedCount(Next(s, a)) >= n || AwaitsTimer(Next(s, a), call)
  {
    hide Concat;
    NextHandsOverMore(s, a);
  }

  lemma {:induction false} RunKeepsFlush<R>(s: State<R>, run: seq<Action<R>>, call: nat, n: nat)
    requires WellFormed(s) && Inv(s) && ValidRun(s, run) && n <= |s.received|
    requires HandedCount(s) >= n || AwaitsTimer(s, call)
    ensures HandedCount(Execute(s, run)) >= n || AwaitsTimer(Execute(s, run), call)
    decreases |run|
  {
    hide Inv, Next, HandedCount, AwaitsTimer;
    if |run| > 0 {
      NextKeepsInv(s, run[0]);
      NextKeepsFlush(s, run[0], call, n);
      NextHandsOverMore(s, run[0]);
      RunKeepsFlush(Next(s, run[0]), run[1..], call, n);
    }
  }

  lemma {:induction false} ExecuteInTwo<R>(s: State<R>, first: seq<Action<R>>, second: seq<Action<R>>)
    requires WellFormed(s) && ValidRun(s, first + second)
    ensures ValidRun(s, first) && ValidRun(Execute(s, first), second)
    ensures Execute(s, first + second) == Execute(Execute(s, first), second)
    decreases |first|
  {
    hide Next, Enabled;
    if |first| == 0 {
      assert first + second == second;
    } else {
      assert (first + second)[1..] == first[1..] + second;
      ExecuteInTwo(Next(s, first[0]), first[1..], second);
    }
  }

  lemma {:induction false} ReceivedInTwo<R>(first: seq<Action<R>>, second: seq<Action<R>>)
    ensures Received(first + second) == Received(first) + Received(second)
  {
    if |first| == 0 {
      assert first + second == second;
    } else {
      assert (first + second)[1..] == first[1..] + second;
      ReceivedInTwo(first[1..], second);
    }
  }

  /**
   * A heartbeat boundary, or a reading that fills the batch, flushes: in every interleaving, once such a call has ended
   * or only waits for its write, every reading received up to it has been handed over.
   */
  lemma {:induction false} FlushHandsOverAllReceived<R>(
    before: seq<Action<R>>, call: nat, event: Event<R>, after: seq<Action<R>>)
    requires ValidRun(Init<R>(), before + [Action.Consume(call, event)] + after)
    requires ValidRun(Init<R>(), before) && Flushes(Execute(Init<R>(), before), event)
    ensures
      var past := before + [Action.Consume(call, event)];
      var s := Execute(Init<R>(), past + after);
      AwaitsTimer(s, call) || Received(past) <= Concat(s.handed)
  {
    hide Next, Execute, ValidRun, Received, Enabled, HandedCount, AwaitsTimer, Flushes;
    var a := Action.Consume(call, event);
    var past := before + [a];
    ExecuteInTwo(Init<R>(), past, after);
    ExecuteInTwo(Init<R>(), before, [a]);
    ReceivedInTwo(past, after);
    RunKeepsInv(Init<R>(), before);
    RunKeepsInv(Init<R>(), past);
    RunKeepsInv(Init<R>(), past + after);
    var s0, s1, s := Execute(Init<R>(), before), Execute(Init<R>(), past), Execute(Init<R>(), past + after);
    ExecuteJustOne(s0, a);
    FlushingCallCounts(s0, call, event);
    RunKeepsFlush(s1, after, call, |s1.received|);
    if !AwaitsTimer(s, call) {
      CountedIsHanded(s, |s1.received|);
    }
  }

  lemma ExecuteJustOne<R>(s: State<R>, a: Action<R>)
    requires WellFormed(s) && ValidRun(s, [a])
    ensures Enabled(s, a) && Execute(s, [a]) == Next(s, a)
  {
    hide Next, Enabled;
    assert [a][1..] == [];
    assert ValidRun(s, [a]);
    ExecuteOne(s, a);
  }

  lemma FlushingCallCounts<R>(s: State<R>, call: nat, event: Event<R>)
    requires Inv(s) && Enabled(s, Action.Consume(call, event)) && Flushes(s, event)
    ensures
      var r := Next(s, Action.Consume(call, event));
      HandedCount(r) >= |r.received| || AwaitsTimer(r, call)
  {
    hide Next, Inv;
    FlushingCallStarts(s, call, event);
  }

  lemma CountedIsHanded<R>(s: State<R>, n: nat)
    requires Inv(s) && HandedCount(s) >= n && n <= |s.received|
    ensures s.received[..n] <= Concat(s.handed)
  {
    hide Concat;
    var c := Concat(s.handed);
    assert s.received == c + s.pending;
    assert s.received[..n] == c[..n];
  }

  predicate Unflushed<R>(run: seq<Action<R>>) {
    forall i :: 0 <= i < |run| ==> !run[i].Wake? && (run[i].Consume? ==> !run[i].event.FlushMarker?)
  }

  /** Nothing leaves the buffer early: without a boundary, a timer or a full batch, every reading is still pending. */
  lemma {:induction false} NothingLeavesEarly<R>(run: seq<Action<R>>)
    requires ValidRun(Init<R>(), run) && Unflushed(run) && |Received(run)| < 50
    ensures Execute(Init<R>(), run).handed == [] && Execute(Init<R>(), run).pending == Received(run)
  {
    StaysQuiet(Init<R>(), run);
  }

  // No call is suspended and no timer has done anything but sleep.
  ghost predicate Quiet<R>(s: State<R>) {
    && WellFormed(s) && s.handed == [] && s.calls == map[] && s.pending == s.received
    && forall t :: 0 <= t < |s.timers| ==> s.timers[t].Sleeping?
  }

  lemma {:induction false} StaysQuiet<R>(s: State<R>, run: seq<Action<R>>)
    requires Quiet(s) && ValidRun(s, run) && Unflushed(run) && |s.received| + |Received(run)| < 50
    ensures Quiet(Execute(s, run)) && Execute(s, run).received == s.received + Received(run)
    decreases |run|
  {
    hide CancelThenFlush;
    if |run| > 0 {
      NextReceives(s, run[0]);
      StaysQuiet(Next(s, run[0]), run[1..]);
    }
  }

  // ---------- one consumer call at a time, and overlapping calls ----------

  // Consumer calls do not overlap: a new one starts only when none is suspended.
  predicate Sequential<R>(s: State<R>, run: seq<Action<R>>)
    requires WellFormed(s) && ValidRun(s, run)
    decreases |run|
  {
    |run| == 0 || ((run[0].Consume? ==> s.calls == map[]) && Sequential(Next(s, run[0]), run[1..]))
  }

  lemma {:induction false} SequentialNeverOverfills<R>(s: State<R>, run: seq<Action<R>>)
    requires WellFormed(s) && BufferInv(s) && ValidRun(s, run) && Sequential(s, run)
    ensures NeverOverfilled(s, run)
    decreases |run|
  {
    hide Next, Inv;
    if |run| > 0 {
      NextKeepsBufferInv(s, run[0]);
      SequentialNeverOverfills(Next(s, run[0]), run[1..]);
    }
  }

  // One call at a time: the handle names the only sleeping timer, and no timer sleeps while a call is suspended.
  ghost predicate OneTimer<R>(s: State<R>) {
    && BufferInv(s)
    && (forall t :: 0 <= t < |s.timers| && s.timers[t].Sleeping? ==> s.flushTask == Some(t))
    && (s.calls != map[] ==> s.flushTask.None?)
  }

  lemma {:induction false} NextKeepsOneTimer<R>(s: State<R>, a: Action<R>)
    requires OneTimer(s) && Enabled(s, a) && (a.Consume? ==> s.calls == map[])
    ensures OneTimer(Next(s, a))
  {
    hide Concat, AtMost, FlushAwaited;
    assert BufferInv(Next(s, a)) by { NextKeepsBufferInv(s, a); }
  }

  lemma {:induction false} SequentialKeepsOneTimer<R>(s: State<R>, run: seq<Action<R>>)
    requires WellFormed(s) && OneTimer(s) && ValidRun(s, run) && Sequential(s, run)
    ensures OneTimer(Execute(s, run))
    decreases |run|
  {
    hide OneTimer, Next;
    if |run| > 0 {
      NextKeepsOneTimer(s, run[0]);
      SequentialKeepsOneTimer(Next(s, run[0]), run[1..]);
    }
  }

  /**
   * With one sequential consumer, as the event stream's dispatcher is, every batch has 1 to 50 readings, and at most
   * one timer is asleep, the one the handle names.
   */
  lemma {:induction false} SequentialBatchesAreBounded<R>(run: seq<Action<R>>)
    requires ValidRun(Init<R>(), run) && Sequential(Init<R>(), run)
    ensures
      var s := Execute(Init<R>(), run);
      && (forall i :: 0 <= i < |s.handed| ==> 1 <= |s.handed[i]| <= 50)
      && (forall t :: 0 <= t < |s.timers| && s.timers[t].Sleeping? ==> s.flushTask == Some(t))
  {
    SequentialNeverOverfills(Init<R>(), run);
    SequentialKeepsOneTimer(Init<R>(), run);
    BatchSizes(run);
  }

  // One call after the other, one for each reading.
  function Readings<R>(call: nat, rs: seq<R>): seq<Action<R>> {
    seq(|rs|, i requires 0 <= i < |rs| => Consume(call, Reading(rs[i])))
  }

  lemma {:induction false} ExecuteAppend<R>(s: State<R>, run: seq<Action<R>>, a: Action<R>)
    requires WellFormed(s) && ValidRun(s, run) && Enabled(Execute(s, run), a)
    ensures ValidRun(s, run + [a]) && Execute(s, run + [a]) == Next(Execute(s, run), a)
    decreases |run|
  {
    hide Next, Enabled;
    if |run| == 0 {
      assert run + [a] == [a];
      ExecuteOne(s, a);
    } else {
      assert (run + [a])[1..] == run[1..] + [a];
      ExecuteAppend(Next(s, run[0]), run[1..], a);
    }
  }

  // Below the batch size, readings pile up behind one sleeping timer.
  lemma {:induction false} ReadingsPileUp<R>(rs: seq<R>)
    requires |rs| < READING_BATCH_SIZE
    ensures ValidRun(Init<R>(), Readings(0, rs))
    ensures Execute(Init<R>(), Readings(0, rs))
            == if rs == [] then Init() else State(rs, Some(0), [Sleeping], map[], [], [], rs)
    decreases |rs|
  {
    if rs != [] {
      var n := |rs| - 1;
      ReadingsPileUp(rs[..n]);
      var a := Consume(0, Reading(rs[n]));
      ExecuteAppend(Init<R>(), Readings(0, rs[..n]), a);
      assert Readings(0, rs) == Readings(0, rs[..n]) + [a];
      assert rs[..n] + [rs[n]] == rs;
    }
  }

  /**
   * The bound needs calls that do not overlap: from the start, a second call that overlaps the one cancelling the
   * timer makes a batch of 51 readings. Nothing is lost even then.
   */
  lemma {:induction false} OverlappingCallsExceedTheBatchSize<R>(rs: seq<R>) returns (run: seq<Action<R>>)
    requires |rs| == 51
    ensures run == Readings(0, rs[..50]) + Readings(1, rs[50..])
    ensures ValidRun(Init<R>(), run) && !NeverOverfilled(Init<R>(), run)
    ensures Execute(Init<R>(), run).handed == [rs]
  {
    hide Execute, ValidRun, NeverOverfilled;
    var n := READING_BATCH_SIZE;
    var a, b := Consume(0, Reading(rs[n - 1])), Consume(1, Reading(rs[n]));
    var run0 := Readings(0, rs[..n - 1]);
    ReadingsPileUp(rs[..n - 1]);
    ExecuteAppend(Init<R>(), run0, a);
    ExecuteAppend(Init<R>(), run0 + [a], b);
    assert rs[..n - 1] + [rs[n - 1]] + [rs[n]] == rs;
    run := run0 + [a] + [b];
    assert Readings(0, rs[..n]) + Readings(1, rs[n..]) == run;
    assert !AtMost(Execute(Init<R>(), run).handed, READING_BATCH_SIZE) by {
      assert |Execute(Init<R>(), run).handed[0]| == n + 1;
    }
    BatchSizes(run);
  }

  // ---------- the closures' shared variables ----------

  /** The variables the closures share. Each method is one segment between suspension points. */
  class ReadingConsumer<R> {
    var pending: seq<R>
    var flushTask: Option<nat>
    var timers: seq<Timer<R>>
    var calls: map<nat, Call>
    ghost var handed: seq<seq<R>>
    ghost var dropped: seq<seq<R>>
    ghost var received: seq<R>

    constructor ()
      ensures View() == Init<R>()
    {
      pending, flushTask, timers, calls := [], None, [], map[];
      handed, dropped, received := [], [], [];
    }

    ghost function View(): State<R>
      reads this
    {
      State(pending, flushTask, timers, calls, handed, dropped, received)
    }

    // The locked part of flush_pending: the batch to write, if any.
    method Take() returns (batch: seq<R>)
      modifies this`pending, this`flushTask, this`handed
      ensures View() == TakeBatch(old(View()))
      ensures batch == old(pending)
    {
      batch := pending;
      if |pending| == 0 {
        flushTask := None;
        return;
      }
      pending := [];
      flushTask := None;
      handed := handed + [batch];
    }

    method FlushPending(call: nat)
      modifies this`pending, this`flushTask, this`handed, this`calls
      ensures View() == FlushInCall(old(View()), call)
    {
      var batch := Take();
      if |batch| == 0 {
        calls := calls - {call};
      } else {
        calls := calls[call := AwaitingWrite];
      }
    }

    // cancel_flush_task: whether the call now waits for the cancelled timer.
    method CancelFlushTask(call: nat) returns (suspended: bool)
      requires WellFormed(View())
      modifies this`flushTask, this`timers, this`calls, this`dropped
      ensures suspended <==> old(flushTask.Some? && !timers[flushTask.value].Finished?)
      ensures suspended ==> View() == CancelThenFlush(old(View()), call)
      ensures !suspended ==> View() == old(View())
    {
      if flushTask.None? || timers[flushTask.value].Finished? {
        return false;
      }
      var t := flushTask.value;
      flushTask := None;
      if timers[t].Writing? {
        dropped := dropped + [timers[t].batch];
      }
      timers := timers[t := Cancelled];
      calls := calls[call := AwaitingTimer(t)];
      return true;
    }

    /** A consumer call, up to its end or its first suspension. */
    method Consume(call: nat, event: Event<R>)
      requires WellFormed(View()) && Enabled(View(), Action.Consume(call, event))
      modifies this
      ensures View() == Next(old(View()), Action.Consume(call, event))
    {
      match event
      case FlushMarker =>
        var suspended := CancelFlushTask(call);
        if !suspended {
          FlushPending(call);
        }
      case OtherEvent =>
      case Reading(r) =>
        pending := pending + [r];
        received := received + [r];
        var shouldFlush := |pending| >= READING_BATCH_SIZE;
        var shouldStartTimer := !shouldFlush && (flushTask.None? || timers[flushTask.value].Finished?);
        if shouldStartTimer {
          flushTask := Some(|timers|);
          timers := timers + [Sleeping];
        }
        if shouldFlush {
          var suspended := CancelFlushTask(call);
          if !suspended {
            FlushPending(call);
          }
        }
    }

    /** A call continues after the timer it cancelled has ended. */
    method Resume(call: nat)
      requires WellFormed(View()) && Enabled(View(), Action.Resume(call))
      modifies this
      ensures View() == Next(old(View()), Action.Resume(call))
    {
      FlushPending(call);
    }

    /** A timer wakes and flushes. */
    method Wake(timer: nat)
      requires WellFormed(View()) && Enabled(View(), Action.Wake(timer))
      modifies this
      ensures View() == Next(old(View()), Action.Wake(timer))
    {
      var batch := Take();
      timers := timers[timer := if |batch| == 0 then Finished else Writing(batch)];
    }
  }
}
