/** The shadow stack refines the true stack.

    It does at every moment if the session monitors exceptions, and otherwise if and only if no unwind
    ends an included activation (`StackRefines`).  When the trace and the recorded calls are right too
    is shown in `Faithfulness`. */
module Refinement {
  import opened Accumulators
  import opened Trace
  import opened ShadowStack
  import opened CallForest
  import opened Runtime
  import opened Monitoring

  // ---- Agreement of a shadow with a history ----

  ghost predicate SameStack(stack: seq<CallEntry>, open: seq<Open>) {
    && |stack| == |open|
    && forall i :: 0 <= i < |open| ==> stack[i] == CallEntry(open[i].fn, open[i].enterNs, KidsTime(open[i].kids))
  }

  ghost predicate SameLogs(c: Config, s: Shadow, h: History) {
    && (Tracing(c) ==> BareTrace(s.trace) == Emit(c, h))
    && (c.statsOn ==> s.records == Recorded(h))
  }

  ghost predicate Exact(c: Config, s: Shadow, h: History) {
    SameStack(s.stack, h.open) && SameLogs(c, s, h)
  }

  lemma BeginExact(c: Config, s: Shadow, h: History, fn: FnId, tsNs: int)
    requires Exact(c, s, h) && c.Included(fn)
    ensures Exact(c, OnEnter(c, s, fn, tsNs), Begin(h, fn, tsNs))
  {
    BeginExtends(c, h, fn, tsNs);
    BareTraceSnoc(s.trace, EnterOf(c, fn, tsNs, |s.stack|));
  }

  /** Completing the innermost activation does to the shadow what its end does to the history. */
  lemma EndExact(c: Config, s: Shadow, h: History, nowNs: int, tsNs: int, tailcall: bool, wallNs: int, t: Shadow)
    requires Exact(c, s, h) && Timed(h.open, nowNs) && nowNs <= tsNs
    requires h.open != [] && c.Included(h.open[|h.open| - 1].fn)
    requires t.trace == s.trace && t.records == s.records && t.stack == s.stack[..|s.stack| - 1]
    ensures var entry := s.stack[|s.stack| - 1];
            Exact(c, Complete(c, t, entry, entry.fn, entry.fn, tsNs, tailcall, wallNs), End(h, tsNs, tailcall))
  {
    TimedEnd(c, h, nowNs, tsNs, tailcall);
    assert 0 < h.open[|h.open| - 1].enterNs;
    EndStack(c, s.stack, h, tsNs, tailcall);
    if Tracing(c) {
      EndTrace(c, s, h, tsNs, tailcall, wallNs);
    }
    if c.statsOn {
      EndRecords(c, s, h, tsNs, tailcall);
    }
  }

  lemma EndTrace(c: Config, s: Shadow, h: History, tsNs: int, tailcall: bool, wallNs: int)
    requires SameStack(s.stack, h.open) && BareTrace(s.trace) == Emit(c, h)
    requires h.open != [] && h.open[|h.open| - 1].fn in c.methods && 0 < h.open[|h.open| - 1].enterNs
    ensures var entry := s.stack[|s.stack| - 1];
            var e := LeaveEvent(c, c.methods[entry.fn], tsNs, |s.stack| - 1, Inclusive(entry, tsNs), tailcall, wallNs);
            BareTrace(s.trace + [e]) == Emit(c, End(h, tsNs, tailcall))
  {
    var entry := s.stack[|s.stack| - 1];
    var e := LeaveEvent(c, c.methods[entry.fn], tsNs, |s.stack| - 1, Inclusive(entry, tsNs), tailcall, wallNs);
    EndExtendsTrace(c, h, tsNs, tailcall);
    BareTraceSnoc(s.trace, e);
    assert Bare(e) == LeaveOf(c, Ended(h, tsNs, tailcall), |h.open| - 1);
  }

  lemma EndRecords(c: Config, s: Shadow, h: History, tsNs: int, tailcall: bool)
    requires SameStack(s.stack, h.open) && s.records == Recorded(h)
    requires h.open != []
    requires var top := h.open[|h.open| - 1]; 0 < top.enterNs && KidsTime(top.kids) <= tsNs - top.enterNs
    ensures var entry := s.stack[|s.stack| - 1];
            var r := Record(entry.fn, Inclusive(entry, tsNs), Self(entry, tsNs));
            s.records + [r] == Recorded(End(h, tsNs, tailcall))
  {
    EndExtendsRecorded(c, h, tsNs, tailcall);
  }

  // ---- The shape of the stack, as long as it is kept ----

  lemma EndStack(c: Config, stack: seq<CallEntry>, h: History, tsNs: int, tailcall: bool)
    requires SameStack(stack, h.open) && h.open != []
    requires 0 < h.open[|h.open| - 1].enterNs <= tsNs
    ensures SameStack(Credited(stack[..|stack| - 1], Inclusive(stack[|stack| - 1], tsNs)), End(h, tsNs, tailcall).open)
  {
    var n := Ended(h, tsNs, tailcall);
    var rest := stack[..|stack| - 1];
    assert Inclusive(stack[|stack| - 1], tsNs) == n.Inclusive();
    if rest != [] {
      var parent := h.open[|rest| - 1];
      ForestSnoc(c, parent.kids, n, 0);
      assert End(h, tsNs, tailcall).open == h.open[..|rest| - 1] + [parent.(kids := parent.kids + [n])];
    }
  }

  ghost predicate ShapeInv(c: Config, y: System) {
    var w, s := y.world, y.shadow;
    && WorldInv(c, w)
    && (s.deferred.Some? ==>
          && c.exceptionsOn
          && s.deferred.value.fn == s.deferred.value.entry.fn
          && c.Included(s.deferred.value.fn))
    && match w.phase
       case Running => s.deferred.None? && Shape(s.stack) == Outline(w.hist.open)
       case Unwinding(k) =>
         && (if c.exceptionsOn then s.catcher == w.frames[k].fn else NoneAbove(c, w.frames, k))
         && (s.deferred.Some? ==> s.deferred.value.fn == s.catcher)
         && Shape(s.stack) == Outline(w.hist.open)
       case Landed =>
         && (c.exceptionsOn ==> (s.deferred.Some? <==> c.Included(w.frames[|w.frames| - 1].fn)))
         && Shape(Restored(s).stack) == Outline(w.hist.open)
  }

  lemma ShapeOf(stack: seq<CallEntry>, inclusiveNs: int)
    ensures Shape(Credited(stack, inclusiveNs)) == Shape(stack)
    ensures stack != [] ==> Shape(stack[..|stack| - 1]) == Shape(stack)[..|stack| - 1]
    ensures stack != [] ==> Shape(stack)[|stack| - 1] == Frame(stack[|stack| - 1].fn, stack[|stack| - 1].enterTsNs)
  {
  }

  lemma SettledShape(c: Config, s: Shadow)
    ensures Shape(Settled(c, s).stack) == Shape(s.stack)
  {
    if s.deferred.Some? {
      ShapeOf(s.stack, Inclusive(s.deferred.value.entry, s.deferred.value.tsNs));
    }
  }

  /** The innermost entry of the shadow stack is the innermost frame when that frame is included. */
  lemma InnermostEntry(c: Config, w: World, stack: seq<CallEntry>)
    requires WorldInv(c, w) && w.frames != [] && Shape(stack) == Outline(w.hist.open)
    requires c.Included(w.frames[|w.frames| - 1].fn)
    ensures stack != [] && w.hist.open != []
    ensures stack[|stack| - 1].fn == w.frames[|w.frames| - 1].fn == w.hist.open[|w.hist.open| - 1].fn
    ensures Shape(stack[..|stack| - 1]) == Outline(w.hist.open[..|w.hist.open| - 1])
  {
    InnermostOpen(c, w);
    ShapeOf(stack, 0);
    var open := w.hist.open;
    assert |stack| == |Shape(stack)| == |Outline(open)| == |open|;
    assert Outline(open[..|open| - 1]) == Outline(open)[..|open| - 1];
  }

  lemma EndingShape(c: Config, w: World, stack: seq<CallEntry>, tsNs: int, tailcall: bool)
    requires WorldInv(c, w) && w.frames != [] && Shape(stack) == Outline(w.hist.open)
    ensures c.Included(w.frames[|w.frames| - 1].fn) ==>
              stack != [] && Shape(stack[..|stack| - 1]) == Outline(Ending(c, w, tsNs, tailcall).hist.open)
    ensures !c.Included(w.frames[|w.frames| - 1].fn) ==>
              Shape(stack) == Outline(Ending(c, w, tsNs, tailcall).hist.open)
  {
    if c.Included(w.frames[|w.frames| - 1].fn) {
      InnermostEntry(c, w, stack);
    }
  }

  lemma TakeShape(c: Config, y: System, step: Step)
    requires ShapeInv(c, y) && Enabled(y.world, step)
    requires step.Throw? ==> c.exceptionsOn || NoneAbove(c, y.world.frames, step.k)
    ensures ShapeInv(c, Take(c, y, step))
  {
    NextKeeps(c, y.world, step);
    match step
    case Call(fn, ts) =>
    case Return(ts, tailcall) => ReturnShape(c, y, ts, tailcall);
    case Throw(_) =>
    case Unwind(ts) =>
      if c.exceptionsOn {
        UnwindShape(c, y, ts);
      }
    case Resume =>
  }

  lemma ReturnShape(c: Config, y: System, ts: int, tailcall: bool)
    requires ShapeInv(c, y) && Enabled(y.world, Return(ts, tailcall))
    requires WorldInv(c, Next(c, y.world, Return(ts, tailcall)))
    ensures ShapeInv(c, Take(c, y, Return(ts, tailcall)))
  {
    var w, s := y.world, y.shadow;
    EndingShape(c, w, s.stack, ts, tailcall);
    if c.Included(w.frames[|w.frames| - 1].fn) {
      ShapeOf(s.stack[..|s.stack| - 1], Inclusive(s.stack[|s.stack| - 1], ts));
    }
  }

  lemma UnwindShape(c: Config, y: System, ts: int)
    requires c.exceptionsOn && ShapeInv(c, y) && Enabled(y.world, Unwind(ts))
    requires WorldInv(c, Next(c, y.world, Unwind(ts)))
    ensures ShapeInv(c, Take(c, y, Unwind(ts)))
  {
    var top := y.world.frames[|y.world.frames| - 1];
    if !c.Included(top.fn) {
      EndingShape(c, y.world, y.shadow.stack, ts, false);
    } else if y.shadow.catcher == top.fn {
      DeferShape(c, y, ts);
    } else {
      CompleteShape(c, y, ts);
    }
  }

  lemma CompleteShape(c: Config, y: System, ts: int)
    requires c.exceptionsOn && ShapeInv(c, y) && Enabled(y.world, Unwind(ts))
    requires WorldInv(c, Next(c, y.world, Unwind(ts)))
    requires var fn := y.world.frames[|y.world.frames| - 1].fn; c.Included(fn) && y.shadow.catcher != fn
    ensures ShapeInv(c, Take(c, y, Unwind(ts)))
  {
    var w, s := y.world, y.shadow;
    InnermostEntry(c, w, s.stack);
    EndingShape(c, w, s.stack, ts, false);
    var entry, rest := s.stack[|s.stack| - 1], s.stack[..|s.stack| - 1];
    ShapeOf(rest, Inclusive(entry, ts));
    assert OnUnwind(c, s, w.frames[|w.frames| - 1].fn, ts).stack == Credited(rest, Inclusive(entry, ts));
  }

  lemma DeferShape(c: Config, y: System, ts: int)
    requires c.exceptionsOn && ShapeInv(c, y) && Enabled(y.world, Unwind(ts))
    requires WorldInv(c, Next(c, y.world, Unwind(ts)))
    requires var fn := y.world.frames[|y.world.frames| - 1].fn; c.Included(fn) && y.shadow.catcher == fn
    ensures ShapeInv(c, Take(c, y, Unwind(ts)))
  {
    var w, settled := y.world, Settled(c, y.shadow);
    SettledShape(c, y.shadow);
    InnermostEntry(c, w, settled.stack);
    EndingShape(c, w, settled.stack, ts, false);
    RestoredPop(settled.stack, OnUnwind(c, y.shadow, y.shadow.catcher, ts));
  }

  lemma RestoredPop(stack: seq<CallEntry>, s: Shadow)
    requires stack != [] && s.stack == stack[..|stack| - 1]
    requires s.deferred.Some? && s.deferred.value.entry == stack[|stack| - 1]
    ensures Restored(s).stack == stack
  {
  }

  lemma {:induction false} RunShape(c: Config, steps: seq<Step>)
    requires Valid(c, steps) && StackKept(c, steps)
    ensures ShapeInv(c, After(c, steps))
  {
    if steps == [] {
      assert Outline([]) == Hooked(c, []) && Shape([]) == Outline([]);
    } else {
      RunShape(c, steps[..|steps| - 1]);
      TakeShape(c, After(c, steps[..|steps| - 1]), steps[|steps| - 1]);
    }
  }

  // ---- Main results ----

  /** A session that monitors exceptions has at every moment of every run exactly the included frames
      of the true stack on the shadow stack, in order, each with its own enter time; between the visit
      of the catcher and its handler the catcher's entry is the deferred one.  In any session the stack is
      right outside unwinding if and only if it was kept. */
  lemma StackRefines(c: Config, steps: seq<Step>)
    requires Valid(c, steps)
    ensures var y := After(c, steps);
            StackKept(c, steps) ==>
              && Shape(if y.world.phase.Landed? then Restored(y.shadow).stack else y.shadow.stack)
                 == Hooked(c, y.world.frames)
              && (y.world.phase.Running? ==> y.shadow.deferred.None?)
    ensures After(c, steps).world.phase.Running? ==>
              (StackKept(c, steps) <==> Shape(After(c, steps).shadow.stack) == Hooked(c, After(c, steps).world.frames))
  {
    if StackKept(c, steps) {
      RunShape(c, steps);
    } else if After(c, steps).world.phase.Running? {
      var y := After(c, steps);
      KeptIff(c, steps);
      LostCounts(c, steps);
      assert |Shape(y.shadow.stack)| > |Outline(y.world.hist.open)|;
    }
  }

  /** One whole exception: the search, the unwinding at the given times, and the handler. */
  function Episode(k: nat, times: seq<int>): seq<Step> {
    UnwindSteps(k, times) + [Resume]
  }

  function UnwindSteps(k: nat, times: seq<int>): seq<Step> {
    if times == [] then [Throw(k)] else UnwindSteps(k, times[..|times| - 1]) + [Unwind(times[|times| - 1])]
  }

  lemma LastStep(c: Config, steps: seq<Step>, before: seq<Step>, step: Step)
    requires steps == before + [step]
    ensures After(c, steps) == Take(c, After(c, before), step)
    ensures Valid(c, steps) <==> Valid(c, before) && Enabled(After(c, before).world, step)
  {
    assert steps[..|steps| - 1] == before;
  }

  /** How far an unwind that visits frames at the given times has come. */
  ghost predicate Reached(w: World, before: seq<Frame>, k: nat, visited: nat) {
    && k < |before| && visited <= |before| - k
    && (if visited == |before| - k then w.phase.Landed? && w.frames == before[..k + 1]
        else w.phase == Unwinding(k) && w.frames == before[..|before| - visited])
  }

  lemma {:induction false} UnwindingReaches(c: Config, steps: seq<Step>, k: nat, times: seq<int>)
    requires Valid(c, steps) && After(c, steps).world.phase.Running?
    requires Valid(c, steps + UnwindSteps(k, times))
    ensures Reached(After(c, steps + UnwindSteps(k, times)).world, After(c, steps).world.frames, k, |times|)
    decreases |times|
  {
    var all := steps + UnwindSteps(k, times);
    if times == [] {
      LastStep(c, all, steps, Throw(k));
    } else {
      var front, last := times[..|times| - 1], times[|times| - 1];
      var before := steps + UnwindSteps(k, front);
      LastStep(c, all, before, Unwind(last));
      UnwindingReaches(c, steps, k, front);
    }
  }

  lemma EpisodeFrames(c: Config, steps: seq<Step>, k: nat, times: seq<int>)
    requires Valid(c, steps) && After(c, steps).world.phase.Running?
    requires Valid(c, steps + Episode(k, times))
    ensures var frames, z := After(c, steps).world.frames, After(c, steps + Episode(k, times));
            z.world.phase.Running? && k < |frames| && z.world.frames == frames[..k + 1]
  {
    var before := steps + UnwindSteps(k, times);
    assert steps + Episode(k, times) == before + [Resume];
    LastStep(c, steps + Episode(k, times), before, Resume);
    UnwindingReaches(c, steps, k, times);
  }

  lemma {:induction false} EpisodeUnheard(c: Config, steps: seq<Step>, k: nat, times: seq<int>)
    requires !c.exceptionsOn && Valid(c, steps + UnwindSteps(k, times))
    ensures After(c, steps + UnwindSteps(k, times)).shadow == After(c, steps).shadow
    decreases |times|
  {
    var all := steps + UnwindSteps(k, times);
    if times == [] {
      LastStep(c, all, steps, Throw(k));
    } else {
      var front := times[..|times| - 1];
      LastStep(c, all, steps + UnwindSteps(k, front), Unwind(times[|times| - 1]));
      EpisodeUnheard(c, steps, k, front);
    }
  }

  /** A whole exception leaves the frames up to and including the catching one.  The shadow stack is
      their included part, with the catching activation itself on top, however many activations of its
      method were unwound and whatever lay between them, if and only if the stack was kept.  A session
      that does not monitor exceptions still has the stack it had before. */
  lemma CatcherOnTop(c: Config, steps: seq<Step>, k: nat, times: seq<int>)
    requires Valid(c, steps) && After(c, steps).world.phase.Running?
    requires Valid(c, steps + Episode(k, times))
    ensures var y, z := After(c, steps), After(c, steps + Episode(k, times));
            var kept := StackKept(c, steps + Episode(k, times));
            && z.world.phase.Running? && k < |y.world.frames|
            && z.world.frames == y.world.frames[..k + 1]
            && (kept <==> Shape(z.shadow.stack) == Hooked(c, y.world.frames[..k + 1]))
            && (kept && c.Included(y.world.frames[k].fn) ==>
                  z.shadow.stack != [] && Shape(z.shadow.stack)[|z.shadow.stack| - 1] == y.world.frames[k])
            && (!c.exceptionsOn ==> z.shadow == y.shadow)
  {
    EpisodeFrames(c, steps, k, times);
    StackRefines(c, steps + Episode(k, times));
    if !c.exceptionsOn {
      var before := steps + UnwindSteps(k, times);
      assert steps + Episode(k, times) == before + [Resume];
      LastStep(c, steps + Episode(k, times), before, Resume);
      EpisodeUnheard(c, steps, k, times);
    }
  }
}
