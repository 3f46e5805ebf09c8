/** The heartbeat watchdog of sparkmeter/metering/events.py against its whole-history specification. */
module Watchdog {

  datatype Heartbeat = Heartbeat(registered: int, attempted: int, responded: int)

  // Heartbeats on which the dropout check is meaningful.
  predicate Eligible(h: Heartbeat, minNodes: int) {
    h.registered >= minNodes
  }

  predicate AllDropped(h: Heartbeat) {
    h.attempted > 0 && h.responded == 0
  }

  // The length of the run of eligible all-dropped heartbeats that ends the history.
  function DropoutRun(history: seq<Heartbeat>, minNodes: int): nat {
    if history == [] then 0
    else
      var last := history[|history| - 1];
      if Eligible(last, minNodes) && AllDropped(last) then DropoutRun(history[..|history| - 1], minNodes) + 1 else 0
  }

  // The roster dropped to zero at the last heartbeat: the one before it had registered meters.
  predicate RosterDropped(history: seq<Heartbeat>) {
    var n := |history|;
    n >= 2 && history[n - 1].registered <= 0 && history[n - 2].registered > 0
  }

  // The last heartbeat completes a dropout run of exactly the threshold.
  predicate DropoutReached(history: seq<Heartbeat>, minNodes: int, threshold: int) {
    DropoutRun(history, minNodes) == threshold
  }

  // When the code warns. A threshold below one is always reached, so there it warns at an eligible heartbeat
  // unless the one before it was eligible too and this one was dropped.
  predicate WarningDue(history: seq<Heartbeat>, minNodes: int, threshold: int)
    requires history != []
  {
    var n := |history|;
    var last := history[n - 1];
    if threshold >= 1 then DropoutReached(history, minNodes, threshold)
    else Eligible(last, minNodes) && !(AllDropped(last) && n >= 2 && Eligible(history[n - 2], minNodes))
  }

  /** The documented meaning of the threshold is what the code does exactly when the threshold is at least one. */
  lemma WarningMeansDropoutIffPositiveThreshold(minNodes: int, threshold: int)
    ensures (forall history | history != [] ::
               WarningDue(history, minNodes, threshold) <==> DropoutReached(history, minNodes, threshold))
            <==> threshold >= 1
  {
    if threshold < 1 {
      var quiet := if threshold == 0 then Heartbeat(minNodes - 1, 0, 0) else Heartbeat(minNodes, 0, 0);
      assert DropoutRun([quiet], minNodes) == 0;
      assert WarningDue([quiet], minNodes, threshold) != DropoutReached([quiet], minNodes, threshold);
    }
  }

  // ---------- the state as a function of the history ----------

  predicate SawMeters(history: seq<Heartbeat>) {
    history != [] && (history[|history| - 1].registered > 0 || SawMeters(history[..|history| - 1]))
  }

  // A restart stays requested while the roster is still empty.
  predicate RestartPending(history: seq<Heartbeat>) {
    SawMeters(history) && history[|history| - 1].registered <= 0
  }

  lemma OneMore(before: seq<Heartbeat>, h: Heartbeat, minNodes: int)
    ensures SawMeters(before + [h]) <==> h.registered > 0 || SawMeters(before)
    ensures DropoutRun(before + [h], minNodes)
            == if Eligible(h, minNodes) && AllDropped(h) then DropoutRun(before, minNodes) + 1 else 0
    ensures SawMeters(before) ==> before != []
  {
    assert (before + [h])[..|before|] == before;
  }

  class WatchdogHandler {
    const minNodes: int
    const maxConsecutiveDropouts: int
    var consecutiveDropouts: int
    var warned: bool
    var sawRegisteredMeters: bool
    var restartRequested: bool
    ghost var history: seq<Heartbeat>

    ghost predicate Valid()
      reads this
    {
      RosterState(history) && DropoutState(history)
    }

    ghost predicate RosterState(past: seq<Heartbeat>)
      reads this
    {
      && (sawRegisteredMeters <==> SawMeters(past))
      && (restartRequested <==> RestartPending(past))
    }

    ghost predicate DropoutState(past: seq<Heartbeat>)
      reads this
    {
      && consecutiveDropouts == DropoutRun(past, minNodes)
      && (warned <==>
          if maxConsecutiveDropouts >= 1 then DropoutRun(past, minNodes) >= maxConsecutiveDropouts
          else past != [] && Eligible(past[|past| - 1], minNodes))
    }

    constructor (minNodes: int, maxConsecutiveDropouts: int)
      ensures Valid() && history == []
      ensures this.minNodes == minNodes && this.maxConsecutiveDropouts == maxConsecutiveDropouts
    {
      this.minNodes := minNodes;
      this.maxConsecutiveDropouts := maxConsecutiveDropouts;
      consecutiveDropouts := 0;
      warned := false;
      sawRegisteredMeters := false;
      restartRequested := false;
      history := [];
    }

    method CheckRoster(h: Heartbeat) returns (requestRestart: bool)
      requires RosterState(history)
      modifies this`sawRegisteredMeters, this`restartRequested
      ensures RosterState(history + [h])
      ensures requestRestart <==> RosterDropped(history + [h])
    {
      OneMore(history, h, minNodes);
      requestRestart := false;
      if h.registered > 0 {
        sawRegisteredMeters := true;
        restartRequested := false;
      } else if sawRegisteredMeters && !restartRequested {
        requestRestart := true;
        restartRequested := true;
      }
    }

    method CheckDropouts(h: Heartbeat) returns (warn: bool)
      requires DropoutState(history)
      modifies this`consecutiveDropouts, this`warned
      ensures DropoutState(history + [h])
      ensures warn <==> WarningDue(history + [h], minNodes, maxConsecutiveDropouts)
    {
      OneMore(history, h, minNodes);
      hide DropoutRun;
      warn := false;
      if h.registered < minNodes {
        consecutiveDropouts := 0;
        warned := false;
        return;
      }
      var allDropped := h.attempted > 0 && h.responded == 0;
      if allDropped {
        consecutiveDropouts := consecutiveDropouts + 1;
      } else {
        consecutiveDropouts := 0;
        warned := false;
      }
      if consecutiveDropouts >= maxConsecutiveDropouts && !warned {
        warn := true;
        warned := true;
      }
    }

    /**
     * A restart is requested exactly at an empty roster whose predecessor was not empty. With a threshold of at
     * least one, a warning is given exactly when the current dropout run reaches it.
     */
    method Observe(h: Heartbeat) returns (requestRestart: bool, warn: bool)
      requires Valid()
      modifies this
      ensures Valid() && history == old(history) + [h]
      ensures requestRestart <==> RosterDropped(history)
      ensures warn <==> WarningDue(history, minNodes, maxConsecutiveDropouts)
    {
      hide DropoutRun, SawMeters, RestartPending, RosterDropped, WarningDue;
      requestRestart := CheckRoster(h);
      warn := CheckDropouts(h);
      history := history + [h];
    }
  }

  /** The run length counts back over heartbeats that are all eligible and all dropped, and stops at one that is not. */
  lemma {:induction false} DropoutRunIsMaximal(history: seq<Heartbeat>, minNodes: int)
    ensures DropoutRun(history, minNodes) <= |history|
    ensures forall i :: |history| - DropoutRun(history, minNodes) <= i < |history| ==>
                          history[i].registered >= minNodes && history[i].attempted > 0 && history[i].responded == 0
    ensures
      var start := |history| - DropoutRun(history, minNodes);
      start > 0 ==>
        !(history[start - 1].registered >= minNodes && history[start - 1].attempted > 0
          && history[start - 1].responded == 0)
  {
    if history != [] {
      DropoutRunIsMaximal(history[..|history| - 1], minNodes);
    }
  }

  // Every heartbeat from number i on was seen by enough meters and answered by none of those asked.
  predicate DroppedSince(history: seq<Heartbeat>, i: int, minNodes: int) {
    forall j :: 0 <= i <= j < |history| ==>
                  history[j].registered >= minNodes && history[j].attempted > 0 && history[j].responded == 0
  }

  /** With a threshold of at least one, a warning means that the dropouts have just become that many in a row. */
  lemma WarningMeansThatManyDropouts(history: seq<Heartbeat>, minNodes: int, threshold: int)
    requires history != [] && threshold >= 1
    ensures WarningDue(history, minNodes, threshold) <==>
            && threshold <= |history| && DroppedSince(history, |history| - threshold, minNodes)
            && (threshold < |history| ==> !DroppedSince(history, |history| - threshold - 1, minNodes))
  {
    DropoutRunIsMaximal(history, minNodes);
  }

  // ---------- restart requests over a whole stream ----------

  // The roster came back at the last heartbeat: it has meters, and had none or was never seen before.
  predicate RosterCameBack(history: seq<Heartbeat>) {
    var n := |history|;
    n >= 1 && history[n - 1].registered > 0 && (n >= 2 ==> history[n - 2].registered <= 0)
  }

  // How many prefixes of a stream have a property: how often it was true at the last heartbeat seen.
  function Times(stream: seq<Heartbeat>, event: seq<Heartbeat> -> bool): nat {
    if stream == [] then 0 else Times(stream[..|stream| - 1], event) + if event(stream) then 1 else 0
  }

  predicate RosterPresent(stream: seq<Heartbeat>) {
    stream != [] && stream[|stream| - 1].registered > 0
  }

  /** Every return of the roster is followed by exactly one restart request, but for a roster that is still there. */
  lemma {:induction false} OneRestartPerReturn(stream: seq<Heartbeat>)
    ensures Times(stream, RosterCameBack) == Times(stream, RosterDropped) + if RosterPresent(stream) then 1 else 0
  {
    if stream != [] {
      OneRestartPerReturn(stream[..|stream| - 1]);
    }
  }

  predicate DropsAt(stream: seq<Heartbeat>, i: nat)
    requires i < |stream|
  {
    RosterDropped(stream[..i + 1])
  }

  /** Between two successive restart requests the roster was empty up to some heartbeat and present from there on. */
  lemma {:induction false} RestartsAreSeparated(stream: seq<Heartbeat>, i: nat, j: nat) returns (k: nat)
    requires i < j < |stream| && DropsAt(stream, i) && DropsAt(stream, j)
    requires forall l: nat | i < l < j :: !DropsAt(stream, l)
    ensures i < k < j
    ensures forall l :: i <= l < k ==> stream[l].registered <= 0
    ensures forall l :: k <= l < j ==> stream[l].registered > 0
  {
    k := j - 1;
    while stream[k - 1].registered > 0
      invariant i < k < j
      invariant forall l :: k <= l < j ==> stream[l].registered > 0
      decreases k
    {
      k := k - 1;
    }
    EmptyUntil(stream, i, k);
  }

  lemma {:induction false} EmptyUntil(stream: seq<Heartbeat>, i: nat, k: nat)
    requires i < k < |stream| && stream[k - 1].registered <= 0
    requires forall l: nat | i < l < k :: !DropsAt(stream, l)
    ensures forall l :: i <= l < k ==> stream[l].registered <= 0
    decreases k
  {
    if i < k - 1 {
      assert !DropsAt(stream, k - 1);
      EmptyUntil(stream, i, k - 1);
    }
  }
}
