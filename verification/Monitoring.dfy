/** Sessions that do not monitor exceptions.

    The exception callbacks arrive only if the session asked for exception events.  In any other
    session an unwind ends activations behind the profiler's back: their entries stay on the shadow
    stack for good, and their leave events and recorded calls never come.  `LostCounts` counts
    exactly these, and `KeptIff` says when there are none. */
module Monitoring {
  import opened Accumulators
  import opened ShadowStack
  import opened CallForest
  import opened Runtime

  /** No included activation is above frame k, so unwinding to it ends none. */
  predicate NoneAbove(c: Config, frames: seq<Frame>, k: nat)
    requires k < |frames|
  {
    forall i :: k < i < |frames| ==> !c.Included(frames[i].fn)
  }

  /** The session monitors exceptions, or no throw of the run found an included activation above its catcher. */
  predicate StackKept(c: Config, steps: seq<Step>) {
    || c.exceptionsOn
    || steps == []
    || (&& StackKept(c, steps[..|steps| - 1])
        && var frames, last := After(c, steps[..|steps| - 1]).world.frames, steps[|steps| - 1];
           last.Throw? && last.k < |frames| ==> NoneAbove(c, frames, last.k))
  }

  /** The step ends an included activation and the profiler does not hear of it. */
  predicate Loses(c: Config, w: World, step: Step) {
    && Enabled(w, step) && step.Unwind? && !Heard(c, step)
    && w.phase.k < |w.frames| - 1 && c.Included(w.frames[|w.frames| - 1].fn)
  }

  function Lost(c: Config, steps: seq<Step>): nat {
    if steps == [] then 0
    else
      Lost(c, steps[..|steps| - 1])
      + if Loses(c, After(c, steps[..|steps| - 1]).world, steps[|steps| - 1]) then 1 else 0
  }

  // ---- What is lost is lost for good ----

  ghost predicate Short(c: Config, y: System, lost: nat) {
    && WorldInv(c, y.world)
    && |y.shadow.stack| == |y.world.hist.open| + lost
    && (Tracing(c) ==> |y.shadow.trace| + lost == |Emit(c, y.world.hist)|)
    && (c.statsOn ==> |y.shadow.records| + lost == |Recorded(y.world.hist)|)
  }

  lemma CallShort(c: Config, y: System, fn: FnId, ts: int, lost: nat)
    requires Short(c, y, lost) && Enabled(y.world, Call(fn, ts))
    ensures Short(c, Take(c, y, Call(fn, ts)), lost)
  {
    NextKeeps(c, y.world, Call(fn, ts));
    if c.Included(fn) {
      BeginExtends(c, y.world.hist, fn, ts);
    }
  }

  lemma EndSizes(c: Config, h: History, tsNs: int, tailcall: bool)
    requires h.open != []
    ensures var after := End(h, tsNs, tailcall);
            && |after.open| == |h.open| - 1
            && |Emit(c, after)| == |Emit(c, h)| + 1 && |Recorded(after)| == |Recorded(h)| + 1
  {
    EndExtendsTrace(c, h, tsNs, tailcall);
    EndExtendsRecorded(c, h, tsNs, tailcall);
  }

  lemma LeaveSizes(c: Config, s: Shadow, fn: FnId, ts: int, tailcall: bool)
    requires c.Included(fn) && s.stack != []
    ensures var after := OnLeave(c, s, fn, ts, tailcall);
            && |after.stack| == |s.stack| - 1
            && |after.trace| == |s.trace| + (if c.leaveOn then 1 else 0)
            && |after.records| == |s.records| + (if c.statsOn then 1 else 0)
  {
  }

  lemma ReturnShort(c: Config, y: System, ts: int, tailcall: bool, lost: nat)
    requires Short(c, y, lost) && Enabled(y.world, Return(ts, tailcall))
    ensures Short(c, Take(c, y, Return(ts, tailcall)), lost)
  {
    NextKeeps(c, y.world, Return(ts, tailcall));
    InnermostOpen(c, y.world);
    if c.Included(y.world.frames[|y.world.frames| - 1].fn) {
      EndSizes(c, y.world.hist, ts, tailcall);
      LeaveSizes(c, y.shadow, y.world.frames[|y.world.frames| - 1].fn, ts, tailcall);
    }
  }

  lemma UnwindShort(c: Config, y: System, ts: int, lost: nat)
    requires !c.exceptionsOn && Short(c, y, lost) && Enabled(y.world, Unwind(ts))
    ensures Short(c, Take(c, y, Unwind(ts)), lost + if Loses(c, y.world, Unwind(ts)) then 1 else 0)
  {
    NextKeeps(c, y.world, Unwind(ts));
    InnermostOpen(c, y.world);
    if Loses(c, y.world, Unwind(ts)) {
      EndSizes(c, y.world.hist, ts, false);
    }
  }

  /** Without monitoring, each activation lost leaves one entry too many on the shadow stack, one leave event
      too few in the trace and one record too few, from then on. */
  lemma {:induction false} LostCounts(c: Config, steps: seq<Step>)
    requires Valid(c, steps) && !c.exceptionsOn
    ensures var y := After(c, steps);
            && WorldInv(c, y.world)
            && |y.shadow.stack| == |y.world.hist.open| + Lost(c, steps)
            && (Tracing(c) ==> |y.shadow.trace| + Lost(c, steps) == |Emit(c, y.world.hist)|)
            && (c.statsOn ==> |y.shadow.records| + Lost(c, steps) == |Recorded(y.world.hist)|)
  {
    if steps == [] {
      assert Outline([]) == Hooked(c, []);
    } else {
      var before, step := steps[..|steps| - 1], steps[|steps| - 1];
      var y, lost := After(c, before), Lost(c, before);
      LostCounts(c, before);
      match step
      case Call(fn, ts) => CallShort(c, y, fn, ts, lost);
      case Return(ts, tailcall) => ReturnShort(c, y, ts, tailcall, lost);
      case Unwind(ts) => UnwindShort(c, y, ts, lost);
      case Throw(_) =>
      case Resume =>
    }
  }

  // ---- When nothing is lost ----

  /** The unwind under way still has an included activation to end. */
  predicate Losing(c: Config, w: World) {
    w.phase.Unwinding? && w.phase.k < |w.frames| && !NoneAbove(c, w.frames, w.phase.k)
  }

  lemma UnwindLoses(c: Config, w: World, ts: int)
    requires !c.exceptionsOn && Enabled(w, Unwind(ts))
    ensures Losing(c, w) <==> Loses(c, w, Unwind(ts)) || Losing(c, Next(c, w, Unwind(ts)))
  {
    var rest := w.frames[..|w.frames| - 1];
    assert forall i :: 0 <= i < |rest| ==> rest[i] == w.frames[i];
  }

  lemma {:induction false} LostStatus(c: Config, steps: seq<Step>)
    requires Valid(c, steps) && !c.exceptionsOn
    ensures StackKept(c, steps) <==> Lost(c, steps) == 0 && !Losing(c, After(c, steps).world)
  {
    if steps != [] {
      var before, step := steps[..|steps| - 1], steps[|steps| - 1];
      LostStatus(c, before);
      if step.Unwind? {
        UnwindLoses(c, After(c, before).world, step.tsNs);
      }
    }
  }

  /** Nothing is lost if and only if no throw found an included activation above its catcher. */
  lemma KeptIff(c: Config, steps: seq<Step>)
    requires Valid(c, steps) && !c.exceptionsOn && !After(c, steps).world.phase.Unwinding?
    ensures StackKept(c, steps) <==> Lost(c, steps) == 0
  {
    LostStatus(c, steps);
  }
}
