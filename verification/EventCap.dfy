/** The event cap of NdjsonWriter when several threads write at once.

    A thread reads the event counter without the lock, formats its line, and only then takes the
    lock, appends and counts.  Threads that pass the check together all write, so the cap is a soft
    one: `CapHolds` bounds the excess by the number of threads, `CapReached` shows that no better
    bound holds, and `OvershootNeedsRace` that only such races exceed it.  What the writer makes of such
    a run is in `FileOfRun`: whatever raced, the log is the lines appended, in that order. */
module EventCap {
  import opened Accumulators
  import W = NdjsonWriter

  datatype Holder = Nobody | Writing(tid: ThreadId)

  /** `log`: what was done under the lock so far.
      `passed`: threads past the check that have not got the lock yet.
      `lock`: the thread that has appended its line and not counted it yet. */
  datatype State = State(eventCount: nat, log: seq<W.Section>, passed: set<ThreadId>, lock: Holder)

  const START := State(0, [], {}, Nobody)

  datatype Step =
    | Check(t: ThreadId)
    | Drop(t: ThreadId) // the line did not fit its buffer
    | Append(t: ThreadId, line: W.Line)
    | Count(t: ThreadId)
    | WriteFree(t: ThreadId, line: W.Line)
    | Flush(t: ThreadId)

  predicate Enabled(threads: set<ThreadId>, s: State, step: Step) {
    step.t in threads &&
    match step
    case Check(t) => t !in s.passed && s.lock != Writing(t)
    case Drop(t) => t in s.passed
    case Append(t, line) => t in s.passed && s.lock.Nobody? && W.InSize(line)
    case Count(t) => s.lock == Writing(t)
    case WriteFree(t, line) => t !in s.passed && s.lock.Nobody? && W.InSize(line)
    case Flush(t) => t !in s.passed && s.lock.Nobody?
  }

  predicate LimitReached(maxEvents: int, s: State) {
    maxEvents > 0 && s.eventCount >= maxEvents
  }

  function Next(maxEvents: int, s: State, step: Step): State {
    match step
    case Check(t) => if LimitReached(maxEvents, s) then s else s.(passed := s.passed + {t})
    case Drop(t) => s.(passed := s.passed - {t})
    case Append(t, line) => s.(passed := s.passed - {t}, log := s.log + [W.Append(line, true)], lock := Writing(t))
    case Count(t) => s.(eventCount := s.eventCount + 1, lock := Nobody)
    case WriteFree(_, line) => s.(log := s.log + [W.Append(line, false)])
    case Flush(_) => s.(log := s.log + [W.Drain])
  }

  function From(maxEvents: int, s: State, steps: seq<Step>): State {
    if steps == [] then s else Next(maxEvents, From(maxEvents, s, steps[..|steps| - 1]), steps[|steps| - 1])
  }

  /** Every step is one that its thread can take. */
  predicate Valid(threads: set<ThreadId>, maxEvents: int, s: State, steps: seq<Step>) {
    steps != [] ==>
      && Valid(threads, maxEvents, s, steps[..|steps| - 1])
      && Enabled(threads, From(maxEvents, s, steps[..|steps| - 1]), steps[|steps| - 1])
  }

  // ---- The bound ----

  /** Threads between their check and their count. */
  function Racing(s: State): set<ThreadId> {
    s.passed + if s.lock.Writing? then {s.lock.tid} else {}
  }

  ghost predicate Bounded(threads: set<ThreadId>, maxEvents: int, s: State) {
    && Racing(s) <= threads
    && (s.lock.Writing? ==> s.lock.tid !in s.passed)
    && W.CountedLines(s.log) == s.eventCount + (if s.lock.Writing? then 1 else 0)
    && (maxEvents > 0 ==> s.eventCount + |Racing(s)| < maxEvents + |threads|)
  }

  lemma Smaller(a: set<ThreadId>, b: set<ThreadId>)
    requires a <= b
    ensures |a| <= |b|
  {
    assert b == a + (b - a);
  }

  lemma NextBounded(threads: set<ThreadId>, maxEvents: int, s: State, step: Step)
    requires Bounded(threads, maxEvents, s) && Enabled(threads, s, step)
    ensures Bounded(threads, maxEvents, Next(maxEvents, s, step))
  {
    var after := Next(maxEvents, s, step);
    match step
    case Check(t) => Smaller(Racing(after), threads);
    case Drop(t) => Smaller(Racing(after), Racing(s));
    case Append(t, line) =>
      assert Racing(after) == Racing(s);
    case Count(t) => assert Racing(after) == Racing(s) - {t};
    case WriteFree(_, line) =>
    case Flush(_) =>
  }

  lemma {:induction false} RunBounded(threads: set<ThreadId>, maxEvents: int, steps: seq<Step>)
    requires threads != {} && Valid(threads, maxEvents, START, steps)
    ensures Bounded(threads, maxEvents, From(maxEvents, START, steps))
  {
    if steps != [] {
      RunBounded(threads, maxEvents, steps[..|steps| - 1]);
      NextBounded(threads, maxEvents, From(maxEvents, START, steps[..|steps| - 1]), steps[|steps| - 1]);
    }
  }

  /** However the threads interleave, at most one event per further thread gets past the cap. */
  lemma CapHolds(threads: set<ThreadId>, maxEvents: int, steps: seq<Step>)
    requires threads != {} && maxEvents > 0 && Valid(threads, maxEvents, START, steps)
    ensures var s := From(maxEvents, START, steps);
            s.eventCount <= W.CountedLines(s.log) <= maxEvents + |threads| - 1
  {
    RunBounded(threads, maxEvents, steps);
    var s := From(maxEvents, START, steps);
    if s.lock.Writing? {
      Smaller({s.lock.tid}, Racing(s));
    }
  }

  /** A thread gets past the check if and only if there is no cap or fewer events have been counted. */
  lemma PassesIff(maxEvents: int, s: State, t: ThreadId)
    requires t !in s.passed
    ensures t in Next(maxEvents, s, Check(t)).passed <==> maxEvents <= 0 || s.eventCount < maxEvents
  {
  }

  /** How often the thread has asked, and how often it has used a pass, to append or to find its line too long. */
  function Checks(t: ThreadId, steps: seq<Step>): nat {
    if steps == [] then 0
    else Checks(t, steps[..|steps| - 1]) + if steps[|steps| - 1] == Check(t) then 1 else 0
  }

  function Uses(t: ThreadId, steps: seq<Step>): nat {
    if steps == [] then 0
    else
      var last := steps[|steps| - 1];
      Uses(t, steps[..|steps| - 1]) + if last.t == t && (last.Append? || last.Drop?) then 1 else 0
  }

  /** A check lets one event through, which is appended or dropped; the next needs a check of its own. */
  lemma {:induction false} OneEventPerCheck(threads: set<ThreadId>, maxEvents: int, steps: seq<Step>, t: ThreadId)
    requires Valid(threads, maxEvents, START, steps)
    ensures Uses(t, steps) + (if t in From(maxEvents, START, steps).passed then 1 else 0) <= Checks(t, steps)
  {
    if steps != [] {
      OneEventPerCheck(threads, maxEvents, steps[..|steps| - 1], t);
    }
  }

  // ---- Lines outside the cap ----

  function WithoutFree(steps: seq<Step>): seq<Step> {
    if steps == [] then []
    else
      var before, last := WithoutFree(steps[..|steps| - 1]), steps[|steps| - 1];
      if last.WriteFree? || last.Flush? then before else before + [last]
  }

  predicate SameButLog(s: State, z: State) {
    s.eventCount == z.eventCount && s.passed == z.passed && s.lock == z.lock
  }

  lemma NextIgnoresLog(maxEvents: int, s: State, z: State, step: Step)
    requires SameButLog(s, z)
    ensures SameButLog(Next(maxEvents, s, step), Next(maxEvents, z, step))
  {
  }

  /** Garbage collection, statistics and metadata lines and flushes change nothing about who may write. */
  lemma {:induction false} FreeLinesDoNotCount(maxEvents: int, steps: seq<Step>)
    ensures SameButLog(From(maxEvents, START, steps), From(maxEvents, START, WithoutFree(steps)))
  {
    if steps != [] {
      var before, last := steps[..|steps| - 1], steps[|steps| - 1];
      FreeLinesDoNotCount(maxEvents, before);
      if !last.WriteFree? && !last.Flush? {
        FromSnoc(maxEvents, START, WithoutFree(before), last);
        NextIgnoresLog(maxEvents, From(maxEvents, START, before), From(maxEvents, START, WithoutFree(before)), last);
      }
    }
  }

  // ---- Only races exceed the cap ----

  /** Some thread checked while another was between its own check and its count. */
  predicate Raced(maxEvents: int, steps: seq<Step>) {
    steps != [] &&
    var before := From(maxEvents, START, steps[..|steps| - 1]);
    Raced(maxEvents, steps[..|steps| - 1]) || (steps[|steps| - 1].Check? && Racing(before) != {})
  }

  lemma {:induction false} OvershootNeedsRace(threads: set<ThreadId>, maxEvents: int, steps: seq<Step>)
    requires threads != {} && maxEvents > 0 && Valid(threads, maxEvents, START, steps)
    requires !Raced(maxEvents, steps)
    ensures var s := From(maxEvents, START, steps); s.eventCount + |Racing(s)| <= maxEvents
  {
    if steps != [] {
      var before := steps[..|steps| - 1];
      OvershootNeedsRace(threads, maxEvents, before);
      RunBounded(threads, maxEvents, before);
    }
  }

  // ---- The bound is reached ----

  lemma FromSnoc(maxEvents: int, s: State, steps: seq<Step>, step: Step)
    ensures From(maxEvents, s, steps + [step]) == Next(maxEvents, From(maxEvents, s, steps), step)
  {
    assert (steps + [step])[..|steps|] == steps;
  }

  lemma Extend(threads: set<ThreadId>, maxEvents: int, steps: seq<Step>, step: Step) returns (longer: seq<Step>)
    requires Valid(threads, maxEvents, START, steps) && Enabled(threads, From(maxEvents, START, steps), step)
    ensures Valid(threads, maxEvents, START, longer)
    ensures From(maxEvents, START, longer) == Next(maxEvents, From(maxEvents, START, steps), step)
  {
    longer := steps + [step];
    FromSnoc(maxEvents, START, steps, step);
  }

  /** One thread writes `n` events on its own. */
  lemma {:induction false} Alone(threads: set<ThreadId>, maxEvents: int, t: ThreadId, line: W.Line, n: nat)
    returns (steps: seq<Step>)
    requires t in threads && n <= maxEvents && W.InSize(line)
    ensures Valid(threads, maxEvents, START, steps)
    ensures var s := From(maxEvents, START, steps); s.eventCount == n && s.passed == {} && s.lock.Nobody?
  {
    if n == 0 {
      steps := [];
    } else {
      steps := Alone(threads, maxEvents, t, line, n - 1);
      steps := Extend(threads, maxEvents, steps, Check(t));
      steps := Extend(threads, maxEvents, steps, Append(t, line));
      steps := Extend(threads, maxEvents, steps, Count(t));
    }
  }

  /** One event short of the cap, all threads pass the check. */
  lemma {:induction false} AllPass(threads: set<ThreadId>, maxEvents: int, t: ThreadId, line: W.Line,
                                    waiting: set<ThreadId>)
    returns (steps: seq<Step>)
    requires t in threads && waiting <= threads && 0 < maxEvents && W.InSize(line)
    ensures Valid(threads, maxEvents, START, steps)
    ensures var s := From(maxEvents, START, steps);
            s.eventCount == maxEvents - 1 && s.passed == waiting && s.lock.Nobody?
    decreases |waiting|
  {
    if waiting == {} {
      steps := Alone(threads, maxEvents, t, line, maxEvents - 1);
    } else {
      var last :| last in waiting;
      steps := AllPass(threads, maxEvents, t, line, waiting - {last});
      steps := Extend(threads, maxEvents, steps, Check(last));
    }
  }

  /** Then they all write. */
  lemma {:induction false} AllWrite(threads: set<ThreadId>, maxEvents: int, t: ThreadId, line: W.Line,
                                     waiting: set<ThreadId>)
    returns (steps: seq<Step>)
    requires t in threads && waiting <= threads && 0 < maxEvents && W.InSize(line)
    ensures Valid(threads, maxEvents, START, steps)
    ensures var s := From(maxEvents, START, steps);
            s.eventCount + |waiting| == maxEvents - 1 + |threads| && s.passed == waiting && s.lock.Nobody?
    decreases |threads - waiting|
  {
    if waiting == threads {
      steps := AllPass(threads, maxEvents, t, line, threads);
    } else {
      assert exists next :: next in threads && next !in waiting;
      var next :| next in threads && next !in waiting;
      steps := AllWrite(threads, maxEvents, t, line, waiting + {next});
      steps := Extend(threads, maxEvents, steps, Append(next, line));
      steps := Extend(threads, maxEvents, steps, Count(next));
    }
  }

  /** No smaller bound holds: for any threads and any cap, some interleaving reaches it. */
  lemma CapReached(threads: set<ThreadId>, maxEvents: int, line: W.Line) returns (steps: seq<Step>)
    requires threads != {} && maxEvents > 0 && W.InSize(line)
    ensures Valid(threads, maxEvents, START, steps)
    ensures From(maxEvents, START, steps).eventCount == maxEvents + |threads| - 1
  {
    var t :| t in threads;
    steps := AllWrite(threads, maxEvents, t, line, {});
  }

  // ---- What ends up in the file ----

  /** The lines appended, capped or not, in the order their threads got the lock. */
  function Written(steps: seq<Step>): seq<W.Line> {
    if steps == [] then []
    else
      var last := steps[|steps| - 1];
      Written(steps[..|steps| - 1]) + if last.Append? || last.WriteFree? then [last.line] else []
  }

  /** A counted line is in the log from its append on, and in the counter once its thread has counted it. */
  ghost predicate Logged(s: State, written: seq<W.Line>) {
    W.Fit(s.log) && W.AppendedLines(s.log) == written
  }

  lemma {:induction false} RunLogged(threads: set<ThreadId>, maxEvents: int, steps: seq<Step>)
    requires Valid(threads, maxEvents, START, steps)
    ensures Logged(From(maxEvents, START, steps), Written(steps))
  {
    if steps != [] {
      var before := steps[..|steps| - 1];
      RunLogged(threads, maxEvents, before);
    }
  }

  /** However checks overlap, the writer's log is the lines appended, in the order their threads got the lock, and its
      counter is that of the run once nobody is writing; with whole lines the file ends between two of them. */
  lemma FileOfRun(threads: set<ThreadId>, maxEvents: int, steps: seq<Step>)
    requires threads != {} && Valid(threads, maxEvents, START, steps)
    requires forall i :: 0 <= i < |Written(steps)| ==> W.Terminated(Written(steps)[i])
    ensures var s := From(maxEvents, START, steps);
            var writer := W.AfterAll(s.log);
            && writer.log.All() == Written(steps)
            && writer.eventCount == s.eventCount + (if s.lock.Writing? then 1 else 0)
            && writer.log.written <= Written(steps) && W.Terminated(W.Concat(writer.log.written))
            && W.Concat(writer.log.written) + W.Concat(writer.log.pending) == W.Concat(Written(steps))
  {
    var s := From(maxEvents, START, steps);
    RunLogged(threads, maxEvents, steps);
    RunBounded(threads, maxEvents, steps);
    W.LockedLog(s.log);
    W.CutBetweenLines(s.log);
  }
}
