/** StatsAggregator's flush thread: one loop that serves manual flush signals, periodic flushes and
    shutdown, on top of PalWaitMultiple.

    With a manual flush semaphore the loop polls every 250 ms and counts the polls in a 32-bit
    variable.  `FlushesOnTime` proves the counting exact for the intervals for which it is, and
    `StopsAfterShutdown` that shutdown ends the loop. */
module FlushLoop {
  import opened PalWait

  const POLL_INTERVAL_MS := 250

  /** What happens around one turn: manual flush signals posted before it, what the wait sees, and
      whether there is anything to flush. */
  datatype Turn = Turn(posts: nat, slices: seq<Slice>, deltas: bool)

  datatype Action = ManualFlush | PeriodicFlush(written: bool) | PollTimeout

  /** `Waiting`: inside a wait that has not ended. */
  datatype Phase = Looping | Waiting | Ended

  datatype Loop = Loop(elapsedPollMs: nat, signals: nat, log: seq<Action>, phase: Phase)

  const START := Loop(0, 0, [], Looping)

  /** The configured interval in the source's 32-bit arithmetic. */
  function IntervalMs(seconds: int): nat {
    if seconds > 0 then seconds % DWORD * 1000 % DWORD else INFINITE
  }

  function WaitMs(intervalMs: nat, hasSemaphore: bool): nat {
    if !hasSemaphore then intervalMs
    else if intervalMs == INFINITE then POLL_INTERVAL_MS
    else if intervalMs < POLL_INTERVAL_MS then intervalMs else POLL_INTERVAL_MS
  }

  function TimedOut(intervalMs: nat, hasSemaphore: bool, s: Loop, deltas: bool): Loop {
    var waitMs := WaitMs(intervalMs, hasSemaphore);
    if !hasSemaphore || waitMs == intervalMs then s.(log := s.log + [PeriodicFlush(deltas)])
    else if intervalMs == INFINITE then s.(log := s.log + [PollTimeout])
    else
      var elapsed := (s.elapsedPollMs + waitMs) % DWORD;
      if elapsed < intervalMs then s.(elapsedPollMs := elapsed, log := s.log + [PollTimeout])
      else s.(elapsedPollMs := 0, log := s.log + [PeriodicFlush(deltas)])
  }

  function Turned(intervalMs: nat, hasSemaphore: bool, s: Loop, t: Turn): Loop {
    if !s.phase.Looping? then s
    else
      var signals := s.signals + t.posts;
      if hasSemaphore && signals > 0 then Loop(0, signals - 1, s.log + [Action.ManualFlush], Looping)
      else
        var waited := s.(signals := signals);
        match Decided(WaitMs(intervalMs, hasSemaphore), false, t.slices)
        case Timeout => TimedOut(intervalMs, hasSemaphore, waited, t.deltas)
        case Blocked => waited.(phase := Waiting)
        case _ => waited.(phase := Ended)
  }

  function From(intervalMs: nat, hasSemaphore: bool, s: Loop, turns: seq<Turn>): Loop {
    if turns == [] then s
    else Turned(intervalMs, hasSemaphore, From(intervalMs, hasSemaphore, s, turns[..|turns| - 1]), turns[|turns| - 1])
  }

  method FlushThreadProc(flushIntervalSeconds: int, hasSemaphore: bool, turns: seq<Turn>)
    returns (log: seq<Action>, phase: Phase)
    requires flushIntervalSeconds < 0x8000_0000
    ensures var end := From(IntervalMs(flushIntervalSeconds), hasSemaphore, START, turns);
            log == end.log && phase == end.phase
  {
    var intervalMs: nat := if flushIntervalSeconds > 0 then flushIntervalSeconds % DWORD * 1000 % DWORD else INFINITE;
    var elapsedPollMs: nat := 0;
    var signals: nat := 0;
    log := [];
    for i := 0 to |turns|
      invariant elapsedPollMs < DWORD
      invariant Loop(elapsedPollMs, signals, log, Looping) == From(intervalMs, hasSemaphore, START, turns[..i])
    {
      TakeTurn(intervalMs, hasSemaphore, turns, i);
      var turn := turns[i];
      signals := signals + turn.posts;
      var manualFlush := hasSemaphore && signals > 0;
      if manualFlush {
        signals := signals - 1;
        log := log + [Action.ManualFlush];
        elapsedPollMs := 0;
        continue;
      }
      var waitMs := intervalMs;
      if hasSemaphore {
        var pollMs := 250;
        waitMs := if intervalMs == INFINITE then pollMs else if intervalMs < pollMs then intervalMs else pollMs;
      }
      var result, _, _ := PalWaitMultiple(waitMs, false, turn.slices);
      if result == Shutdown || result == Blocked {
        phase := if result == Shutdown then Ended else Waiting;
        StoppedStays(intervalMs, hasSemaphore, turns, i + 1);
        return;
      }
      assert result == Timeout;
      if hasSemaphore && waitMs != intervalMs {
        if intervalMs == INFINITE {
          log := log + [PollTimeout];
          continue;
        }
        elapsedPollMs := (elapsedPollMs + waitMs) % DWORD;
        if elapsedPollMs < intervalMs {
          log := log + [PollTimeout];
          continue;
        }
        elapsedPollMs := 0;
      }
      log := log + [PeriodicFlush(turn.deltas)];
    }
    assert turns[..|turns|] == turns;
    phase := Looping;
  }

  lemma TakeTurn(intervalMs: nat, hasSemaphore: bool, turns: seq<Turn>, i: nat)
    requires i < |turns|
    ensures From(intervalMs, hasSemaphore, START, turns[..i + 1])
         == Turned(intervalMs, hasSemaphore, From(intervalMs, hasSemaphore, START, turns[..i]), turns[i])
  {
    assert turns[..i + 1][..i] == turns[..i];
  }

  lemma {:induction false} StoppedStays(intervalMs: nat, hasSemaphore: bool, turns: seq<Turn>, i: nat)
    requires i <= |turns| && !From(intervalMs, hasSemaphore, START, turns[..i]).phase.Looping?
    ensures From(intervalMs, hasSemaphore, START, turns) == From(intervalMs, hasSemaphore, START, turns[..i])
    decreases |turns|
  {
    if i == |turns| {
      assert turns[..i] == turns;
    } else {
      var front := turns[..|turns| - 1];
      assert front[..i] == turns[..i];
      StoppedStays(intervalMs, hasSemaphore, front, i);
    }
  }

  // ---- The configured interval ----

  /** Intervals are exact up to 4294967 seconds and wrap above; only "off" is infinite; and every
      multiple of 2^29 seconds becomes no interval at all. */
  lemma IntervalExactIff(seconds: int)
    requires seconds < 0x8000_0000
    ensures 0 < seconds ==> (IntervalMs(seconds) == 1000 * seconds <==> seconds <= 4294967)
    ensures IntervalMs(seconds) == INFINITE <==> seconds <= 0
    ensures IntervalMs(seconds) == 0 <==> 0 < seconds && seconds % 0x2000_0000 == 0
  {
    if 0 < seconds {
      var q := 1000 * seconds / DWORD;
      assert IntervalMs(seconds) == 1000 * seconds - DWORD * q;
      assert IntervalMs(seconds) == 8 * (125 * seconds - 0x2000_0000 * q);
      if IntervalMs(seconds) == 0 {
        // 125 * 115964117 == 1 + 27 * 2^29
        assert 125 * seconds == 0x2000_0000 * q;
        assert seconds == 0x2000_0000 * (115964117 * q - 27 * seconds);
      }
      if seconds % 0x2000_0000 == 0 {
        assert 1000 * seconds == DWORD * (125 * (seconds / 0x2000_0000));
      }
    }
  }

  // ---- Flushing on time ----

  /** The longest interval the poll counter can reach without wrapping. */
  const LAST_EXACT := 4294967250

  /** The poll timeouts since the last flush. */
  function Trailing(log: seq<Action>): nat {
    if log == [] || !log[|log| - 1].PollTimeout? then 0 else Trailing(log[..|log| - 1]) + 1
  }

  /** How many timeouts make an interval. */
  function Period(intervalMs: nat, hasSemaphore: bool): nat {
    if !hasSemaphore || intervalMs <= POLL_INTERVAL_MS then 1
    else (intervalMs + POLL_INTERVAL_MS - 1) / POLL_INTERVAL_MS
  }

  /** A periodic flush on exactly every period-th timeout since the last flush of either kind. */
  predicate OnTime(log: seq<Action>, period: nat) {
    log != [] ==>
      var before, last := log[..|log| - 1], log[|log| - 1];
      && OnTime(before, period)
      && (last.PeriodicFlush? ==> Trailing(before) + 1 == period)
      && (last.PollTimeout? ==> Trailing(before) + 1 < period)
  }

  lemma LogSnoc(log: seq<Action>, a: Action, period: nat)
    ensures Trailing(log + [a]) == if a.PollTimeout? then Trailing(log) + 1 else 0
    ensures OnTime(log + [a], period) <==>
            && OnTime(log, period)
            && (a.PeriodicFlush? ==> Trailing(log) + 1 == period)
            && (a.PollTimeout? ==> Trailing(log) + 1 < period)
  {
    assert (log + [a])[..|log|] == log;
  }

  /** The poll counter is the time polled since the last flush, and below the interval. */
  predicate Counts(intervalMs: nat, hasSemaphore: bool, s: Loop) {
    && OnTime(s.log, Period(intervalMs, hasSemaphore))
    && (if hasSemaphore && POLL_INTERVAL_MS < intervalMs
        then s.elapsedPollMs == POLL_INTERVAL_MS * Trailing(s.log) < intervalMs
        else Trailing(s.log) == 0)
  }

  /** What a poll timeout does, with the counter's new value in 32 bits given. */
  lemma Polled(intervalMs: nat, s: Loop, deltas: bool, elapsed: nat)
    requires POLL_INTERVAL_MS < intervalMs < INFINITE && elapsed < DWORD
    requires elapsed == s.elapsedPollMs + POLL_INTERVAL_MS || elapsed == s.elapsedPollMs + POLL_INTERVAL_MS - DWORD
    ensures TimedOut(intervalMs, true, s, deltas)
         == if elapsed < intervalMs then s.(elapsedPollMs := elapsed, log := s.log + [PollTimeout])
            else s.(elapsedPollMs := 0, log := s.log + [PeriodicFlush(deltas)])
  {
    assert (s.elapsedPollMs + POLL_INTERVAL_MS) % DWORD == elapsed;
  }

  lemma PollCounts(intervalMs: nat, s: Loop, deltas: bool)
    requires POLL_INTERVAL_MS < intervalMs <= LAST_EXACT && Counts(intervalMs, true, s)
    ensures Counts(intervalMs, true, TimedOut(intervalMs, true, s, deltas))
  {
    var polls, period := Trailing(s.log) + 1, Period(intervalMs, true);
    Polled(intervalMs, s, deltas, POLL_INTERVAL_MS * polls);
    if polls < period {
      LogSnoc(s.log, PollTimeout, period);
    } else {
      LogSnoc(s.log, PeriodicFlush(deltas), period);
    }
  }

  lemma TimedOutCounts(intervalMs: nat, hasSemaphore: bool, s: Loop, deltas: bool)
    requires intervalMs <= LAST_EXACT && Counts(intervalMs, hasSemaphore, s)
    ensures Counts(intervalMs, hasSemaphore, TimedOut(intervalMs, hasSemaphore, s, deltas))
  {
    if hasSemaphore && POLL_INTERVAL_MS < intervalMs {
      PollCounts(intervalMs, s, deltas);
    } else {
      LogSnoc(s.log, PeriodicFlush(deltas), 1);
    }
  }

  /** The four ways a turn can go. */
  lemma TurnedCases(intervalMs: nat, hasSemaphore: bool, s: Loop, t: Turn)
    ensures var after, waited := Turned(intervalMs, hasSemaphore, s, t), s.(signals := s.signals + t.posts);
            || (after.log == s.log && after.elapsedPollMs == s.elapsedPollMs)
            || (after.log == s.log + [Action.ManualFlush] && after.elapsedPollMs == 0)
            || after == TimedOut(intervalMs, hasSemaphore, waited, t.deltas)
  {
  }

  lemma TurnedCounts(intervalMs: nat, hasSemaphore: bool, s: Loop, t: Turn)
    requires intervalMs <= LAST_EXACT && Counts(intervalMs, hasSemaphore, s)
    ensures Counts(intervalMs, hasSemaphore, Turned(intervalMs, hasSemaphore, s, t))
  {
    var waited := s.(signals := s.signals + t.posts);
    TurnedCases(intervalMs, hasSemaphore, s, t);
    TimedOutCounts(intervalMs, hasSemaphore, waited, t.deltas);
    LogSnoc(s.log, Action.ManualFlush, Period(intervalMs, hasSemaphore));
  }

  /** In every run, with any manual signals and whatever the waits see. */
  lemma {:induction false} FlushesOnTime(intervalMs: nat, hasSemaphore: bool, turns: seq<Turn>)
    requires intervalMs <= LAST_EXACT
    ensures var s := From(intervalMs, hasSemaphore, START, turns);
            && OnTime(s.log, Period(intervalMs, hasSemaphore))
            && Counts(intervalMs, hasSemaphore, s)
  {
    if turns != [] {
      var front, last := turns[..|turns| - 1], turns[|turns| - 1];
      FlushesOnTime(intervalMs, hasSemaphore, front);
      TurnedCounts(intervalMs, hasSemaphore, From(intervalMs, hasSemaphore, START, front), last);
    }
  }

  /** Switched off, the loop only ever flushes when asked to. */
  lemma {:induction false} OffNeverFlushes(hasSemaphore: bool, turns: seq<Turn>)
    ensures forall i :: 0 <= i < |From(INFINITE, hasSemaphore, START, turns).log| ==>
              !From(INFINITE, hasSemaphore, START, turns).log[i].PeriodicFlush?
  {
    if turns != [] {
      OffNeverFlushes(hasSemaphore, turns[..|turns| - 1]);
    }
  }

  // ---- What is flushed ----

  /** A turn logs at most one thing, and a periodic flush writes exactly if there is something to flush. */
  lemma WritesIffDeltas(intervalMs: nat, hasSemaphore: bool, turns: seq<Turn>, t: Turn)
    ensures var before, after := From(intervalMs, hasSemaphore, START, turns).log,
                                 From(intervalMs, hasSemaphore, START, turns + [t]).log;
            && before <= after && |after| <= |before| + 1
            && (|before| < |after| && after[|before|].PeriodicFlush? ==> after[|before|].written == t.deltas)
  {
    assert (turns + [t])[..|turns|] == turns;
  }

  function ManualFlushes(log: seq<Action>): nat {
    if log == [] then 0 else ManualFlushes(log[..|log| - 1]) + if log[|log| - 1].ManualFlush? then 1 else 0
  }

  lemma ManualSnoc(log: seq<Action>, a: Action)
    ensures ManualFlushes(log + [a]) == ManualFlushes(log) + if a.ManualFlush? then 1 else 0
  {
    assert (log + [a])[..|log|] == log;
  }

  /** With a semaphore every manual signal is served by one flush of its own or still outstanding; without
      one there are no manual flushes. */
  lemma {:induction false} SignalsServed(intervalMs: nat, hasSemaphore: bool, turns: seq<Turn>)
    ensures var s := From(intervalMs, hasSemaphore, START, turns);
            && (!hasSemaphore ==> ManualFlushes(s.log) == 0)
            && (hasSemaphore && s.phase.Looping? ==> ManualFlushes(s.log) + s.signals == Posts(turns))
  {
    if turns != [] {
      var front, last := turns[..|turns| - 1], turns[|turns| - 1];
      var before := From(intervalMs, hasSemaphore, START, front).log;
      SignalsServed(intervalMs, hasSemaphore, front);
      ManualSnoc(before, Action.ManualFlush);
      ManualSnoc(before, PollTimeout);
      ManualSnoc(before, PeriodicFlush(last.deltas));
    }
  }

  /** A signal that has been posted and not served is served by the next turn, before anything is waited for;
      without one the turn flushes at most on time. */
  lemma ServedNext(intervalMs: nat, turns: seq<Turn>, t: Turn)
    requires From(intervalMs, true, START, turns).phase.Looping?
    ensures var before, after := From(intervalMs, true, START, turns), From(intervalMs, true, START, turns + [t]);
            if ManualFlushes(before.log) < Posts(turns) + t.posts
            then after.log == before.log + [Action.ManualFlush] && after.phase.Looping?
            else ManualFlushes(after.log) == ManualFlushes(before.log)
  {
    var before := From(intervalMs, true, START, turns).log;
    assert (turns + [t])[..|turns|] == turns;
    SignalsServed(intervalMs, true, turns);
    ManualSnoc(before, PollTimeout);
    ManualSnoc(before, PeriodicFlush(t.deltas));
  }

  // ---- Intervals the counter cannot reach ----

  /** A poll that sees nothing. */
  predicate Quiet(t: Turn) {
    t.posts == 0 && !t.deltas && Decided(POLL_INTERVAL_MS, false, t.slices) == Timeout
  }

  lemma SomeQuiet() returns (t: Turn)
    ensures Quiet(t)
  {
    var nothing := Slice(false, false, false);
    t := Turn(0, [nothing, nothing, nothing], false);
  }

  function Repeated(t: Turn, n: nat): (turns: seq<Turn>)
    ensures |turns| == n
  {
    if n == 0 then [] else Repeated(t, n - 1) + [t]
  }

  function Polls(n: nat): seq<Action> {
    if n == 0 then [] else Polls(n - 1) + [PollTimeout]
  }

  lemma QuietTurn(intervalMs: nat, s: Loop, t: Turn)
    requires Quiet(t) && s.phase.Looping? && s.signals == 0 && POLL_INTERVAL_MS < intervalMs < INFINITE
    ensures Turned(intervalMs, true, s, t) == TimedOut(intervalMs, true, s, false)
  {
  }

  lemma RepeatedSnoc(intervalMs: nat, t: Turn, n: nat)
    ensures From(intervalMs, true, START, Repeated(t, n + 1))
         == Turned(intervalMs, true, From(intervalMs, true, START, Repeated(t, n)), t)
  {
    assert Repeated(t, n + 1)[..n] == Repeated(t, n);
  }

  lemma {:induction false} QuietCounts(intervalMs: nat, t: Turn, n: nat)
    requires Quiet(t) && POLL_INTERVAL_MS < intervalMs < INFINITE && POLL_INTERVAL_MS * n < intervalMs
    ensures From(intervalMs, true, START, Repeated(t, n)) == Loop(POLL_INTERVAL_MS * n, 0, Polls(n), Looping)
  {
    if n > 0 {
      var before := Loop(POLL_INTERVAL_MS * (n - 1), 0, Polls(n - 1), Looping);
      QuietCounts(intervalMs, t, n - 1);
      RepeatedSnoc(intervalMs, t, n - 1);
      QuietTurn(intervalMs, before, t);
      Polled(intervalMs, before, false, POLL_INTERVAL_MS * n);
    }
  }

  lemma {:induction false} TrailingPolls(n: nat)
    ensures Trailing(Polls(n)) == n
  {
    if n > 0 {
      TrailingPolls(n - 1);
      LogSnoc(Polls(n - 1), PollTimeout, 0);
    }
  }

  /** When the last poll of an interval wraps the counter, the flush that is due does not happen. */
  lemma WrapsOver(intervalMs: nat, s: Loop, t: Turn, period: nat)
    requires Quiet(t) && s.phase.Looping? && s.signals == 0 && Trailing(s.log) + 1 == period
    requires POLL_INTERVAL_MS < intervalMs < INFINITE && s.elapsedPollMs < intervalMs
    requires DWORD <= s.elapsedPollMs + POLL_INTERVAL_MS
    ensures !OnTime(Turned(intervalMs, true, s, t).log, period)
  {
    QuietTurn(intervalMs, s, t);
    Polled(intervalMs, s, false, s.elapsedPollMs + POLL_INTERVAL_MS - DWORD);
    LogSnoc(s.log, PollTimeout, period);
  }

  lemma QuietRun(intervalMs: nat, t: Turn, n: nat) returns (turns: seq<Turn>)
    requires Quiet(t) && POLL_INTERVAL_MS < intervalMs < INFINITE && POLL_INTERVAL_MS * n < intervalMs
    ensures var s := From(intervalMs, true, START, turns);
            s.phase.Looping? && s.signals == 0 && Trailing(s.log) == n && s.elapsedPollMs == POLL_INTERVAL_MS * n
  {
    turns := Repeated(t, n);
    QuietCounts(intervalMs, t, n);
    TrailingPolls(n);
  }

  lemma WrapMissesFlush(intervalMs: nat, period: nat) returns (turns: seq<Turn>)
    requires POLL_INTERVAL_MS < intervalMs < INFINITE && 1 <= period
    requires POLL_INTERVAL_MS * (period - 1) < intervalMs && DWORD <= POLL_INTERVAL_MS * period
    ensures !OnTime(From(intervalMs, true, START, turns).log, period)
  {
    var t := SomeQuiet();
    var before := QuietRun(intervalMs, t, period - 1);
    turns := before + [t];
    assert turns[..|before|] == before;
    WrapsOver(intervalMs, From(intervalMs, true, START, before), t, period);
  }

  /** With a semaphore, flushing is on time in every run exactly up to `LAST_EXACT`. */
  lemma OnTimeIff(intervalMs: nat)
    requires intervalMs < INFINITE
    ensures intervalMs <= LAST_EXACT
       <==> (forall turns :: OnTime(From(intervalMs, true, START, turns).log, Period(intervalMs, true)))
  {
    if intervalMs <= LAST_EXACT {
      forall turns ensures OnTime(From(intervalMs, true, START, turns).log, Period(intervalMs, true)) {
        FlushesOnTime(intervalMs, true, turns);
      }
    } else {
      var turns := WrapMissesFlush(intervalMs, Period(intervalMs, true));
    }
  }

  /** A configured interval that does not wrap is always on time, every 4 polls a second; one that
      does can land on an interval that is not. */
  lemma ConfiguredOnTime(seconds: int)
    requires 0 < seconds < 0x8000_0000
    ensures seconds <= 4294967 ==>
              IntervalMs(seconds) <= LAST_EXACT && Period(IntervalMs(seconds), true) == 4 * seconds
    ensures LAST_EXACT < IntervalMs(420906795) < INFINITE
  {
    IntervalExactIff(seconds);
  }

  // ---- Shutdown ----

  function Posts(turns: seq<Turn>): nat {
    if turns == [] then 0 else Posts(turns[..|turns| - 1]) + turns[|turns| - 1].posts
  }

  predicate ShutdownSeen(turns: seq<Turn>) {
    forall i :: 0 <= i < |turns| ==> turns[i].slices != [] && turns[i].slices[0].shutdown
  }

  /** Once shutdown has been requested, every further turn serves one outstanding manual signal, and
      the first turn that finds none ends the loop. */
  lemma {:induction false} DrainsThenEnds(intervalMs: nat, hasSemaphore: bool, s: Loop, turns: seq<Turn>)
    requires s.phase.Looping? && intervalMs != 0 && ShutdownSeen(turns)
    ensures var after := From(intervalMs, hasSemaphore, s, turns);
            && !after.phase.Waiting?
            && (after.phase.Looping? ==> |turns| + after.signals == s.signals + Posts(turns))
            && (after.phase.Looping? && turns != [] ==> hasSemaphore)
  {
    if turns != [] {
      var front, last := turns[..|turns| - 1], turns[|turns| - 1];
      DrainsThenEnds(intervalMs, hasSemaphore, s, front);
      ShutdownWins(WaitMs(intervalMs, hasSemaphore), false, last.slices, 0);
    }
  }

  /** Shutdown ends the loop after at most one turn more than there are manual signals. */
  lemma StopsAfterShutdown(intervalMs: nat, hasSemaphore: bool, s: Loop, turns: seq<Turn>)
    requires s.phase.Looping? && intervalMs != 0 && ShutdownSeen(turns)
    requires (if hasSemaphore then s.signals + Posts(turns) else 0) < |turns|
    ensures From(intervalMs, hasSemaphore, s, turns).phase.Ended?
  {
    DrainsThenEnds(intervalMs, hasSemaphore, s, turns);
  }

  lemma {:induction false} NeverEndsAtZero(hasSemaphore: bool, turns: seq<Turn>)
    ensures From(0, hasSemaphore, START, turns).phase.Looping?
  {
    if turns != [] {
      NeverEndsAtZero(hasSemaphore, turns[..|turns| - 1]);
    }
  }

  /** The one configuration that cannot be stopped is the interval that has wrapped to nothing. */
  lemma StopsIff(seconds: int, hasSemaphore: bool)
    requires seconds < 0x8000_0000
    ensures (0 < seconds && seconds % 0x2000_0000 == 0)
       <==> (forall turns :: !From(IntervalMs(seconds), hasSemaphore, START, turns).phase.Ended?)
  {
    IntervalExactIff(seconds);
    if IntervalMs(seconds) == 0 {
      forall turns ensures !From(0, hasSemaphore, START, turns).phase.Ended? {
        NeverEndsAtZero(hasSemaphore, turns);
      }
    } else {
      var turns := [Turn(0, [Slice(true, false, true)], false)];
      assert Posts(turns) == 0;
      StopsAfterShutdown(IntervalMs(seconds), hasSemaphore, START, turns);
    }
  }
}
