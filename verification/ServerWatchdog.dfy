/**
 The watchdog inside the running server: its trips are exactly the stalls of the control thread,
 although polls run outside the mutex and interleave with everything else.
 */
module ServerWatchdog {
  import opened Joint
  import opened Plant
  import opened Concurrency
  import opened Watchdog
  import Server

  /** The control cycles completed so far in a run, and the watchdog's readings of them. */
  datatype History = History(cycles: nat, readings: seq<Reading>)

  function Recorded(s: State, a: Action, h: History): History {
    match a
    case Executes(t) => if PhaseOf(s, t).Inside? && PhaseOf(s, t).pc.Count? then h.(cycles := h.cycles + 1) else h
    case Seen(WatchdogStarts(now)) => h.(readings := [Reading(h.cycles, now)])
    case Seen(WatchdogPolls(now)) => h.(readings := h.readings + [Reading(h.cycles, now)])
    case _ => h
  }

  function HistoryOf(s: State, actions: seq<Action>, c: Config, h: History): History
    decreases |actions|
  {
    if actions == [] || Step(s, actions[0], c).None? then h
    else HistoryOf(Step(s, actions[0], c).value, actions[1..], c, Recorded(s, actions[0], h))
  }

  /** The readings as the watchdog takes them from the 64-bit counter. */
  function AsRead(rs: seq<Reading>): (r: seq<Reading>)
    ensures |r| == |rs|
  {
    seq(|rs|, i requires 0 <= i < |rs| => Reading(rs[i].counter % Server.COUNTER_RANGE, rs[i].time))
  }

  predicate Ascending(rs: seq<Reading>, bound: nat) {
    && (forall i :: 0 <= i < |rs| ==> rs[i].counter <= bound)
    && forall i, j :: 0 <= i <= j < |rs| ==> rs[i].counter <= rs[j].counter
  }

  /** The shared counter and the watchdog are what the history says. */
  predicate Tracks(s: State, h: History, c: Config) {
    && s.shared.cycles == h.cycles % Server.COUNTER_RANGE
    && (h.readings == [] <==> !s.threads.watchdog.running)
    && (h.readings == [] ==> !s.threads.watchdog.tripped)
    && (h.readings != [] ==> s.threads.watchdog == After(AsRead(h.readings), c.timeout))
    && Ascending(h.readings, h.cycles)
  }

  lemma StepTracks(s: State, a: Action, h: History, c: Config)
    requires Tracks(s, h, c) && Step(s, a, c).Some?
    ensures Tracks(Step(s, a, c).value, Recorded(s, a, h), c)
  {
    match a
    case Seen(WatchdogStarts(now)) => assert AsRead([Reading(h.cycles, now)]) == [Reading(s.shared.cycles, now)];
    case Seen(WatchdogPolls(now)) => PollTracks(s, now, h, c);
    case Executes(t) =>
      OnlyCountCounts(PhaseOf(s, t).pc, s.shared, c);
      CountedModulo(h.cycles);
    case _ =>
  }

  lemma OnlyCountCounts(pc: Pc, sh: Shared, c: Config)
    ensures MicroStep(pc, sh, c).1.cycles == if pc.Count? then (sh.cycles + 1) % Server.COUNTER_RANGE else sh.cycles
  {}

  lemma CountedModulo(n: nat)
    ensures (n % Server.COUNTER_RANGE + 1) % Server.COUNTER_RANGE == (n + 1) % Server.COUNTER_RANGE
  {}

  lemma PollTracks(s: State, now: int, h: History, c: Config)
    requires Tracks(s, h, c) && s.threads.watchdog.running
    ensures Tracks(s.(threads := s.threads.(watchdog := Polled(s.threads.watchdog, c.timeout, s.shared.cycles, now))),
                   h.(readings := h.readings + [Reading(h.cycles, now)]), c)
  {
    var rs := h.readings + [Reading(h.cycles, now)];
    assert AsRead(rs)[..|h.readings|] == AsRead(h.readings);
  }

  lemma {:induction false} RunTracks(s: State, actions: seq<Action>, h: History, c: Config)
    requires Tracks(s, h, c) && Run(s, actions, c).Some?
    ensures Tracks(Run(s, actions, c).value, HistoryOf(s, actions, c, h), c)
    decreases |actions|
  {
    if actions == [] {
    } else {
      StepTracks(s, actions[0], h, c);
      RunTracks(Step(s, actions[0], c).value, actions[1..], Recorded(s, actions[0], h), c);
    }
  }

  predicate SameCount(m: nat, n: nat) {
    m % Server.COUNTER_RANGE == n % Server.COUNTER_RANGE
  }

  /** From reading i to reading j, at least the timeout later, every reading shows the same count. */
  predicate CountStands(rs: seq<Reading>, timeout: int, i: nat, j: nat) {
    i < j < |rs| && rs[j].time - rs[i].time >= timeout
    && forall k :: i <= k <= j ==> SameCount(rs[k].counter, rs[j].counter)
  }

  /**
   In every run in which the clock does not go back, the watchdog has tripped exactly if some of
   its readings, spanning the timeout, all showed the same 64-bit count of control cycles.
   */
  lemma TrippedIffCountStands(limits: seq<JointLimits>, actions: seq<Action>, c: Config)
    requires var start := Initial(Booted(limits));
             Run(start, actions, c).Some? && Chronological(HistoryOf(start, actions, c, History(0, [])).readings)
    ensures var start := Initial(Booted(limits));
            var rs := HistoryOf(start, actions, c, History(0, [])).readings;
            Run(start, actions, c).value.threads.watchdog.tripped
            <==> exists i: nat, j: nat :: CountStands(rs, c.timeout, i, j)
  {
    var start := Initial(Booted(limits));
    var rs := HistoryOf(start, actions, c, History(0, [])).readings;
    RunTracks(start, actions, History(0, []), c);
    if rs != [] {
      TrippedIffStalled(AsRead(rs), c.timeout);
      forall i: nat, j: nat ensures StalledAt(AsRead(rs), c.timeout, i, j) <==> CountStands(rs, c.timeout, i, j) {
        StandsAsRead(rs, c.timeout, i, j);
      }
    }
  }

  lemma StandsAsRead(rs: seq<Reading>, timeout: int, i: nat, j: nat)
    ensures StalledAt(AsRead(rs), timeout, i, j) <==> CountStands(rs, timeout, i, j)
  {
    if i < j < |rs| {
      var read := AsRead(rs);
      assert forall k :: i <= k <= j ==> (SameCount(rs[k].counter, rs[j].counter) <==> read[k].counter == read[j].counter);
    }
  }

  /** Readings i and j are at least the timeout apart, and no control cycle was completed in between. */
  predicate NoCycleBetween(rs: seq<Reading>, timeout: int, i: nat, j: nat) {
    i < j < |rs| && rs[i].counter == rs[j].counter && rs[j].time - rs[i].time >= timeout
  }

  /**
   As long as the 64-bit counter has not wrapped, that is: two readings at least the timeout
   apart, with no control cycle completed between them.
   */
  lemma TrippedIffControlStalled(limits: seq<JointLimits>, actions: seq<Action>, c: Config)
    requires var start := Initial(Booted(limits));
             var h := HistoryOf(start, actions, c, History(0, []));
             Run(start, actions, c).Some? && Chronological(h.readings) && h.cycles < Server.COUNTER_RANGE
    ensures var start := Initial(Booted(limits));
            var rs := HistoryOf(start, actions, c, History(0, [])).readings;
            Run(start, actions, c).value.threads.watchdog.tripped
            <==> exists i: nat, j: nat :: NoCycleBetween(rs, c.timeout, i, j)
  {
    var start := Initial(Booted(limits));
    var h := HistoryOf(start, actions, c, History(0, []));
    RunTracks(start, actions, History(0, []), c);
    TrippedIffCountStands(limits, actions, c);
    forall i: nat, j: nat
      ensures CountStands(h.readings, c.timeout, i, j) <==> NoCycleBetween(h.readings, c.timeout, i, j)
    {
      StandsUnwrapped(h, c.timeout, i, j);
    }
  }

  lemma StandsUnwrapped(h: History, timeout: int, i: nat, j: nat)
    requires Ascending(h.readings, h.cycles) && h.cycles < Server.COUNTER_RANGE
    ensures CountStands(h.readings, timeout, i, j) <==> NoCycleBetween(h.readings, timeout, i, j)
  {
    var rs := h.readings;
    if i < j < |rs| {
      assert forall k :: i <= k <= j ==> (SameCount(rs[k].counter, rs[j].counter) <==> rs[k].counter == rs[j].counter);
      assert SameCount(rs[i].counter, rs[j].counter) <==> rs[i].counter == rs[j].counter;
    }
  }

  // Latency --------------------------------------------------------------------------------------

  lemma {:induction false} HistoryConcat(s: State, first: seq<Action>, second: seq<Action>, c: Config, h: History)
    requires Run(s, first, c).Some?
    ensures HistoryOf(s, first + second, c, h) == HistoryOf(Run(s, first, c).value, second, c, HistoryOf(s, first, c, h))
    decreases |first|
  {
    if first == [] {
      assert first + second == second;
    } else {
      assert (first + second)[1..] == first[1..] + second && (first + second)[0] == first[0];
      HistoryConcat(Step(s, first[0], c).value, first[1..], second, c, Recorded(s, first[0], h));
    }
  }

  /** `h` is followed by `h'`: more readings, none of a count that was not reached in between. */
  predicate Follows(h: History, h': History) {
    && h.cycles <= h'.cycles && h.readings <= h'.readings
    && forall i :: |h.readings| <= i < |h'.readings| ==> h.cycles <= h'.readings[i].counter <= h'.cycles
  }

  lemma {:induction false} HistoryFollows(s: State, actions: seq<Action>, c: Config, h: History)
    requires s.threads.watchdog.running && Run(s, actions, c).Some?
    ensures Follows(h, HistoryOf(s, actions, c, h))
    decreases |actions|
  {
    if actions == [] {
    } else {
      var next, h' := Step(s, actions[0], c).value, Recorded(s, actions[0], h);
      RunningStays(s, actions[0], c);
      HistoryFollows(next, actions[1..], c, h');
      RecordedFollows(s, actions[0], h, c);
    }
  }

  lemma RunningStays(s: State, a: Action, c: Config)
    requires s.threads.watchdog.running && Step(s, a, c).Some?
    ensures Step(s, a, c).value.threads.watchdog.running
  {}

  lemma RecordedFollows(s: State, a: Action, h: History, c: Config)
    requires s.threads.watchdog.running && Step(s, a, c).Some?
    ensures Follows(h, Recorded(s, a, h)) && |Recorded(s, a, h).readings| <= |h.readings| + 1
  {}

  /** From `s` on, and until `now`, readings are taken at most `g` apart. */
  predicate PolledEvery(rs: seq<Reading>, g: int, now: int) {
    && rs != [] && now - rs[|rs| - 1].time <= g
    && forall k :: 0 <= k < |rs| - 1 ==> rs[k + 1].time - rs[k].time <= g
  }

  /** `h'` follows `h` after a time `s`, with no control cycle completed since. */
  predicate StalledSince(h: History, h': History, s: int) {
    && h.readings != [] && |h.readings| <= |h'.readings| && h'.cycles == h.cycles
    && (forall i :: 0 <= i < |h.readings| ==> h'.readings[i].time < s)
    && forall i :: |h.readings| <= i < |h'.readings| ==> h'.readings[i].time >= s
  }

  /**
   If the control thread completes no cycle from time s on and polls are at most g apart, the
   server's watchdog has tripped by s + timeout + 2 g.
   */
  lemma StallTrips(limits: seq<JointLimits>, before: seq<Action>, after: seq<Action>, s: int, g: int, now: int, c: Config)
    requires c.timeout > 0 && g >= 0 && now >= s + c.timeout + 2 * g
    requires var start := Initial(Booted(limits));
             var h, h' := HistoryOf(start, before, c, History(0, [])), HistoryOf(start, before + after, c, History(0, []));
             && Run(start, before, c).Some? && Run(start, before + after, c).Some?
             && Chronological(h'.readings) && PolledEvery(h'.readings, g, now) && StalledSince(h, h', s)
    ensures Run(Initial(Booted(limits)), before + after, c).value.threads.watchdog.tripped
  {
    var start := Initial(Booted(limits));
    var h, h' := HistoryOf(start, before, c, History(0, [])), HistoryOf(start, before + after, c, History(0, []));
    var mid := Run(start, before, c).value;
    RunTracks(start, before, History(0, []), c);
    RunTracks(start, before + after, History(0, []), c);
    RunConcat(start, before, after, c);
    HistoryConcat(start, before, after, c, History(0, []));
    HistoryFollows(mid, after, c, h);
    StalledReadings(h, h', c.timeout, s, g, now);
  }

  lemma StalledReadings(h: History, h': History, timeout: int, s: int, g: int, now: int)
    requires timeout > 0 && g >= 0 && now >= s + timeout + 2 * g
    requires Chronological(h'.readings) && PolledEvery(h'.readings, g, now) && StalledSince(h, h', s) && Follows(h, h')
    ensures After(AsRead(h'.readings), timeout).tripped
  {
    var rs := AsRead(h'.readings);
    forall j, k | 0 <= j < |rs| && 0 <= k < |rs| && rs[j].time >= s && rs[k].time >= s
      ensures rs[j].counter == rs[k].counter
    {
      assert h'.readings[j].counter == h.cycles && h'.readings[k].counter == h.cycles;
    }
    assert rs[0].time == h'.readings[0].time && rs[|rs| - 1].time == h'.readings[|rs| - 1].time;
    assert forall k :: 0 <= k < |rs| - 1 ==> rs[k + 1].time - rs[k].time <= g by {
      assert forall k :: 0 <= k < |rs| ==> rs[k].time == h'.readings[k].time;
    }
    TripsInTime(rs, timeout, s, g, now);
  }
}
