/**
 The liveness monitor: it trips when a heartbeat counter is seen not to advance for a timeout.
 Clock readings are in nanoseconds; each poll and each reset is one atomic step.
 */
module Watchdog {
  import opened Wrappers

  datatype WatchdogError = AlreadyRunning | NotRunning

  datatype WatchdogValue = WatchdogValue(running: bool, tripped: bool, lastSeenCounter: nat, lastChangeTime: int)

  function Started(counter: nat, now: int): WatchdogValue {
    WatchdogValue(true, false, counter, now)
  }

  /** One poll. */
  function Polled(w: WatchdogValue, timeout: int, current: nat, now: int): WatchdogValue {
    if current != w.lastSeenCounter then w.(lastSeenCounter := current, lastChangeTime := now)
    else if now - w.lastChangeTime >= timeout then w.(tripped := true)
    else w
  }

  class Watchdog {
    const timeout: int
    var running: bool
    var tripped: bool
    var lastSeenCounter: nat
    var lastChangeTime: int

    ghost function Value(): WatchdogValue
      reads this
    {
      WatchdogValue(running, tripped, lastSeenCounter, lastChangeTime)
    }

    constructor (timeout: int)
      ensures this.timeout == timeout && Value() == WatchdogValue(false, false, 0, 0)
    {
      this.timeout := timeout;
      running, tripped, lastSeenCounter, lastChangeTime := false, false, 0, 0;
    }

    method Start(heartbeat: nat, now: int) returns (r: Result<(), WatchdogError>)
      modifies this
      ensures Value() == if old(running) then old(Value()) else Started(heartbeat, now)
      ensures r == if old(running) then Err(AlreadyRunning) else Ok(())
    {
      if running {
        return Err(AlreadyRunning);
      }
      running := true;
      lastSeenCounter := heartbeat;
      lastChangeTime := now;
      tripped := false;
      return Ok(());
    }

    method Stop() returns (r: Result<(), WatchdogError>)
      modifies this
      ensures Value() == old(Value()).(running := false)
      ensures r == if old(running) then Ok(()) else Err(NotRunning)
    {
      if !running {
        return Err(NotRunning);
      }
      running := false;
      return Ok(());
    }

    method Reset(heartbeat: nat, now: int)
      modifies this
      ensures Value() == Started(heartbeat, now).(running := old(running))
    {
      tripped := false;
      lastSeenCounter := heartbeat;
      lastChangeTime := now;
    }

    /** The body of the polling loop, after its sleep. */
    method Poll(heartbeat: nat, now: int)
      modifies this
      ensures Value() == Polled(old(Value()), timeout, heartbeat, now)
    {
      var current := heartbeat;
      var previous := lastSeenCounter;
      if current != previous {
        lastSeenCounter := current;
        lastChangeTime := now;
      } else {
        var lastChange := lastChangeTime;
        if now - lastChange >= timeout {
          tripped := true;
        }
      }
    }
  }

  // Histories --------------------------------------------------------------------------------

  /** A counter value read at a time: the baseline of start or reset, or one poll. */
  datatype Reading = Reading(counter: nat, time: int)

  /** The watchdog after a baseline reading and the polls that follow it. */
  function After(rs: seq<Reading>, timeout: int): WatchdogValue
    requires |rs| > 0
  {
    var last := rs[|rs| - 1];
    if |rs| == 1 then Started(last.counter, last.time)
    else Polled(After(rs[..|rs| - 1], timeout), timeout, last.counter, last.time)
  }

  predicate Chronological(rs: seq<Reading>) {
    forall i, j :: 0 <= i <= j < |rs| ==> rs[i].time <= rs[j].time
  }

  /** The counter did not advance between readings i and j. */
  predicate Constant(rs: seq<Reading>, i: nat, j: nat) {
    i <= j < |rs| && forall k :: i <= k <= j ==> rs[k].counter == rs[j].counter
  }

  predicate ConstantFrom(rs: seq<Reading>, i: nat) {
    |rs| > 0 && Constant(rs, i, |rs| - 1)
  }

  /** Two readings at least the timeout apart, between which the counter did not advance. */
  predicate StalledAt(rs: seq<Reading>, timeout: int, i: nat, j: nat) {
    i < j && Constant(rs, i, j) && rs[j].time - rs[i].time >= timeout
  }

  predicate StallEnds(rs: seq<Reading>, timeout: int, i: nat) {
    |rs| > 0 && StalledAt(rs, timeout, i, |rs| - 1)
  }

  /** Where the counter value last read was first read without interruption. */
  function LastChange(rs: seq<Reading>): (i: nat)
    requires |rs| > 0
    ensures i < |rs|
  {
    if |rs| > 1 && rs[|rs| - 2].counter == rs[|rs| - 1].counter then LastChange(rs[..|rs| - 1]) else |rs| - 1
  }

  lemma {:induction false} LastChangeIsFirst(rs: seq<Reading>)
    requires |rs| > 0
    ensures ConstantFrom(rs, LastChange(rs))
    ensures forall i: nat :: ConstantFrom(rs, i) ==> LastChange(rs) <= i
  {
    if |rs| > 1 && rs[|rs| - 2].counter == rs[|rs| - 1].counter {
      var init := rs[..|rs| - 1];
      LastChangeIsFirst(init);
      forall i: nat | ConstantFrom(rs, i) ensures LastChange(rs) <= i {
        if i < |rs| - 1 {
          assert forall k :: i <= k < |init| ==> init[k].counter == rs[k].counter;
          assert ConstantFrom(init, i);
        }
      }
    } else {
      forall i: nat | ConstantFrom(rs, i) ensures LastChange(rs) <= i {
        if i < |rs| - 1 {
          NoChangeAtEnd(rs, i);
        }
      }
    }
  }

  lemma NoChangeAtEnd(rs: seq<Reading>, i: nat)
    requires ConstantFrom(rs, i) && i < |rs| - 1
    ensures rs[|rs| - 2].counter == rs[|rs| - 1].counter
  {}

  lemma {:induction false} Baseline(rs: seq<Reading>, timeout: int)
    requires |rs| > 0
    ensures After(rs, timeout).lastSeenCounter == rs[|rs| - 1].counter
    ensures After(rs, timeout).lastChangeTime == rs[LastChange(rs)].time
    ensures After(rs, timeout).running
  {
    if |rs| <= 1 {
    } else {
      Baseline(rs[..|rs| - 1], timeout);
    }
  }

  /**
   Exactly when the watchdog is tripped: at some poll so far the counter had not advanced since
   a reading at least the timeout earlier. Hence a trip is never spurious and never forgotten.
   */
  lemma {:induction false} TrippedIffStalled(rs: seq<Reading>, timeout: int)
    requires |rs| > 0 && Chronological(rs)
    ensures After(rs, timeout).tripped <==> exists i: nat, j: nat :: StalledAt(rs, timeout, i, j)
  {
    if |rs| <= 1 {
    } else {
      var init, n := rs[..|rs| - 1], |rs| - 1;
      TrippedIffStalled(init, timeout);
      StalledExtends(rs, timeout);
      if After(init, timeout).tripped {
        var i: nat, j: nat :| StalledAt(init, timeout, i, j);
        assert StalledAt(rs, timeout, i, j);
      } else {
        TripsNow(rs, timeout);
        assert forall i: nat, j: nat :: StalledAt(rs, timeout, i, j) ==> StallEnds(rs, timeout, i);
      }
    }
  }

  /** The latest poll trips the watchdog exactly if it completes a stall. */
  lemma TripsNow(rs: seq<Reading>, timeout: int)
    requires |rs| > 1 && Chronological(rs) && !After(rs[..|rs| - 1], timeout).tripped
    ensures After(rs, timeout).tripped <==> exists i: nat :: StallEnds(rs, timeout, i)
  {
    var init, n := rs[..|rs| - 1], |rs| - 1;
    Baseline(init, timeout);
    LastChangeIsFirst(rs);
    if After(rs, timeout).tripped {
      assert rs[n].counter == init[n - 1].counter;
      assert LastChange(rs) == LastChange(init) < n;
      assert StallEnds(rs, timeout, LastChange(rs));
    }
    forall i: nat | StallEnds(rs, timeout, i) ensures After(rs, timeout).tripped {
      NoChangeAtEnd(rs, i);
      assert ConstantFrom(rs, i);
    }
  }

  lemma StalledExtends(rs: seq<Reading>, timeout: int)
    requires |rs| > 1
    ensures forall i: nat, j: nat :: j < |rs| - 1 ==> (StalledAt(rs[..|rs| - 1], timeout, i, j) <==> StalledAt(rs, timeout, i, j))
  {}

  /**
   Latency: if the counter stalls from time s on, readings are at most g apart, and the latest is
   at most g old, then the watchdog is tripped from s + timeout + 2 g on.
   */
  lemma TripsInTime(rs: seq<Reading>, timeout: int, s: int, g: int, now: int)
    requires |rs| > 0 && Chronological(rs) && timeout > 0 && g >= 0
    requires rs[0].time <= s && now - rs[|rs| - 1].time <= g
    requires forall k :: 0 <= k < |rs| - 1 ==> rs[k + 1].time - rs[k].time <= g
    requires forall j, k :: 0 <= j < |rs| && 0 <= k < |rs| && rs[j].time >= s && rs[k].time >= s ==> rs[j].counter == rs[k].counter
    requires now >= s + timeout + 2 * g
    ensures After(rs, timeout).tripped
  {
    var n := |rs| - 1;
    var i := FirstFrom(rs, s);
    assert i > 0 ==> rs[i - 1 + 1].time - rs[i - 1].time <= g;
    assert rs[i].time <= s + g;
    assert StalledAt(rs, timeout, i, n);
    TrippedIffStalled(rs, timeout);
  }

  lemma {:induction false} FirstFrom(rs: seq<Reading>, s: int) returns (i: nat)
    requires |rs| > 0 && rs[|rs| - 1].time >= s
    ensures i < |rs| && rs[i].time >= s && (i == 0 || rs[i - 1].time < s)
  {
    i := |rs| - 1;
    if i == 0 || rs[i - 1].time < s {
    } else {
      i := FirstFrom(rs[..i], s);
    }
  }
}
