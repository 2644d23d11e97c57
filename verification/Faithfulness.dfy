/** When the trace and the recorded calls of a thread are its true history.

    A deferred activation of the catcher's method is completed only when the next matching frame
    is unwound.  If a frame of another included method is unwound in between, that
    frame is completed first: its leave event overtakes the deferred one and the deferred time is
    credited to the wrong caller.  `Contiguous` rules this out by looking at the stack at the throw.
    A session that does not monitor exceptions has no deferred activations, but it never completes the
    included ones an unwind ends; `NoneAbove` rules these out.  Nothing weaker would do. */
module Faithfulness {
  import opened Accumulators
  import opened Options
  import opened Trace
  import opened ShadowStack
  import opened CallForest
  import opened Runtime
  import opened Monitoring
  import opened Refinement

  /** Above the catching frame k, no included activation of another method lies below an
      activation of the catcher's own method. */
  predicate Contiguous(c: Config, frames: seq<Frame>, k: nat)
    requires k < |frames|
  {
    forall i, j :: k < i < j < |frames| ==>
      c.Included(frames[i].fn) && c.Included(frames[j].fn) && frames[j].fn == frames[k].fn ==>
      frames[i].fn == frames[k].fn
  }

  /** What a throw must find for the profiler to follow it. */
  predicate Followed(c: Config, frames: seq<Frame>, k: nat)
    requires k < |frames|
  {
    if c.exceptionsOn then Contiguous(c, frames, k) else NoneAbove(c, frames, k)
  }

  /** The profiler could follow every throw of the run. */
  predicate Clean(c: Config, steps: seq<Step>) {
    steps != [] ==>
      && Clean(c, steps[..|steps| - 1])
      && var frames, last := After(c, steps[..|steps| - 1]).world.frames, steps[|steps| - 1];
         last.Throw? && last.k < |frames| ==> Followed(c, frames, last.k)
  }

  /** No deferred activation is overtaken: every throw could be followed, or the session defers none because
      it does not monitor exceptions. */
  predicate NoneOvertaken(c: Config, steps: seq<Step>) {
    c.exceptionsOn ==> Clean(c, steps)
  }

  /** Without monitoring, following every throw is keeping the stack. */
  lemma {:induction false} KeptIsClean(c: Config, steps: seq<Step>)
    requires !c.exceptionsOn
    ensures StackKept(c, steps) <==> Clean(c, steps)
  {
    if steps != [] {
      KeptIsClean(c, steps[..|steps| - 1]);
    }
  }

  predicate OnlyCatcher(c: Config, frames: seq<Frame>, k: nat)
    requires k < |frames|
  {
    forall i :: k < i < |frames| && c.Included(frames[i].fn) ==> frames[i].fn == frames[k].fn
  }

  /** The rest of the unwind meets no other method once an activation is deferred. */
  predicate Remaining(c: Config, y: System) {
    y.world.phase.Unwinding? && y.world.phase.k < |y.world.frames| ==>
      && Contiguous(c, y.world.frames, y.world.phase.k)
      && (y.shadow.deferred.Some? ==> OnlyCatcher(c, y.world.frames, y.world.phase.k))
  }

  /** The shadow with its deferred activation put where it belongs: back on the stack if it is the
      catcher, completed if it is not. */
  function Resolved(c: Config, y: System): Shadow {
    if y.world.phase.Landed? then Restored(y.shadow) else Settled(c, y.shadow)
  }

  ghost predicate Tracked(c: Config, y: System) {
    Exact(c, Resolved(c, y), y.world.hist)
  }

  ghost predicate Diverged<T>(a: seq<T>, b: seq<T>) {
    exists p :: 0 <= p < |a| && p < |b| && a[p] != b[p]
  }

  ghost predicate Broken(c: Config, y: System) {
    && (Tracing(c) ==> Diverged(BareTrace(y.shadow.trace), Emit(c, y.world.hist)))
    && (c.statsOn ==> Diverged(y.shadow.records, Recorded(y.world.hist)))
  }

  // ---- Steps that keep track ----

  lemma UnwindTracked(c: Config, y: System, ts: int)
    requires c.exceptionsOn && ShapeInv(c, y) && Tracked(c, y) && Enabled(y.world, Unwind(ts))
    requires var fn := y.world.frames[|y.world.frames| - 1].fn;
             c.Included(fn) && fn != y.shadow.catcher ==> y.shadow.deferred.None?
    ensures Tracked(c, Take(c, y, Unwind(ts)))
  {
    var w, s := y.world, y.shadow;
    var top := w.frames[|w.frames| - 1];
    if !c.Included(top.fn) {
    } else if s.catcher == top.fn {
      DeferTracked(c, y, ts);
    } else {
      InnermostEntry(c, w, s.stack);
      EndExact(c, s, w.hist, w.nowNs, ts, false, 0,
               UnnestedIfAsync(c, s.(stack := s.stack[..|s.stack| - 1]), top.fn));
    }
  }

  /** What deferring the innermost activation leaves, and what is still to be done with it. */
  lemma Defers(c: Config, y: System, ts: int)
    requires c.exceptionsOn && ShapeInv(c, y) && Enabled(y.world, Unwind(ts))
    requires var fn := y.world.frames[|y.world.frames| - 1].fn; c.Included(fn) && fn == y.shadow.catcher
    ensures var settled, after := Settled(c, y.shadow), OnUnwind(c, y.shadow, y.shadow.catcher, ts);
            && settled.stack != [] && y.world.hist.open != []
            && y.world.hist.open[|y.world.hist.open| - 1].fn == y.shadow.catcher
            && settled.stack[|settled.stack| - 1].fn == y.shadow.catcher
            && after.trace == settled.trace && after.records == settled.records
            && after.stack == settled.stack[..|settled.stack| - 1]
            && after.deferred == Some(Deferred(settled.stack[|settled.stack| - 1], y.shadow.catcher, ts))
  {
    SettledShape(c, y.shadow);
    InnermostEntry(c, y.world, Settled(c, y.shadow).stack);
  }

  lemma DeferTracked(c: Config, y: System, ts: int)
    requires c.exceptionsOn && ShapeInv(c, y) && Tracked(c, y) && Enabled(y.world, Unwind(ts))
    requires var fn := y.world.frames[|y.world.frames| - 1].fn; c.Included(fn) && fn == y.shadow.catcher
    ensures Tracked(c, Take(c, y, Unwind(ts)))
  {
    Defers(c, y, ts);
    DeferResolves(c, y.world, ts, Settled(c, y.shadow), OnUnwind(c, y.shadow, y.shadow.catcher, ts));
  }

  /** Whether the frame turns out to be the catcher or not, the deferred activation resolves right. */
  lemma DeferResolves(c: Config, w: World, ts: int, settled: Shadow, after: Shadow)
    requires Enabled(w, Unwind(ts)) && c.Included(w.frames[|w.frames| - 1].fn)
    requires Runtime.Timed(w.hist.open, w.nowNs) && w.hist.open != []
    requires w.hist.open[|w.hist.open| - 1].fn == w.frames[|w.frames| - 1].fn
    requires Exact(c, settled, w.hist) && settled.stack != []
    requires after.trace == settled.trace && after.records == settled.records
    requires after.stack == settled.stack[..|settled.stack| - 1]
    requires var entry := settled.stack[|settled.stack| - 1]; after.deferred == Some(Deferred(entry, entry.fn, ts))
    ensures Tracked(c, System(Next(c, w, Unwind(ts)), after))
  {
    if w.phase.k < |w.frames| - 1 {
      SettlesExact(c, settled, after, w.hist, w.nowNs, ts);
    }
  }

  /** An activation deferred, and then completed after all, ends like any other. */
  lemma SettlesExact(c: Config, s: Shadow, t: Shadow, h: History, nowNs: int, tsNs: int)
    requires Exact(c, s, h) && Runtime.Timed(h.open, nowNs) && nowNs <= tsNs
    requires h.open != [] && c.Included(h.open[|h.open| - 1].fn)
    requires s.stack != [] && t.trace == s.trace && t.records == s.records
    requires t.stack == s.stack[..|s.stack| - 1]
    requires t.deferred == Some(Deferred(s.stack[|s.stack| - 1], s.stack[|s.stack| - 1].fn, tsNs))
    ensures Exact(c, Settled(c, t), End(h, tsNs, false))
  {
    var popped := UnnestedIfAsync(c, t.(deferred := None), s.stack[|s.stack| - 1].fn);
    EndExact(c, s, h, nowNs, tsNs, false, 0, popped);
  }

  lemma TakeTracked(c: Config, y: System, step: Step)
    requires ShapeInv(c, y) && Tracked(c, y) && Enabled(y.world, step)
    requires step.Unwind? ==>
               var fn := y.world.frames[|y.world.frames| - 1].fn;
               c.Included(fn) && fn != y.shadow.catcher ==> y.shadow.deferred.None?
    ensures Tracked(c, Take(c, y, step))
  {
    var w, s := y.world, y.shadow;
    match step
    case Call(fn, ts) =>
      if c.Included(fn) {
        BeginExact(c, s, w.hist, fn, ts);
      }
    case Return(ts, tailcall) =>
      var top := w.frames[|w.frames| - 1];
      if c.Included(top.fn) {
        InnermostEntry(c, w, s.stack);
        var wallNs := if c.IsAsync(top.fn) then WallTime(s.nesting, s.firstEnter, top.fn, ts) else 0;
        EndExact(c, s, w.hist, w.nowNs, ts, tailcall, wallNs,
                 UnnestedIfAsync(c, s.(stack := s.stack[..|s.stack| - 1]), top.fn));
      }
    case Throw(_) =>
    case Unwind(ts) =>
      if c.exceptionsOn {
        UnwindTracked(c, y, ts);
      }
    case Resume =>
  }

  lemma TakeRemaining(c: Config, y: System, step: Step)
    requires ShapeInv(c, y) && Remaining(c, y) && Enabled(y.world, step)
    requires step.Throw? ==> Followed(c, y.world.frames, step.k)
    ensures Remaining(c, Take(c, y, step))
  {
  }

  // ---- The step that loses track ----

  /** A frame of another method is about to be unwound while an activation is deferred. */
  ghost predicate Overtaking(c: Config, y: System, ts: int) {
    && ShapeInv(c, y) && Tracked(c, y) && Enabled(y.world, Unwind(ts))
    && y.shadow.deferred.Some?
    && var fn := y.world.frames[|y.world.frames| - 1].fn; c.Included(fn) && fn != y.shadow.catcher
  }

  function Early(c: Config, y: System, ts: int): Event
    requires y.shadow.stack != []
  {
    var entry := y.shadow.stack[|y.shadow.stack| - 1];
    LeaveEvent(c, c.Info(entry.fn), ts, |y.shadow.stack| - 1, Inclusive(entry, ts), false, 0)
  }

  function Late(c: Config, s: Shadow): Event
    requires s.deferred.Some?
  {
    var d := s.deferred.value;
    LeaveEvent(c, c.Info(d.fn), d.tsNs, |s.stack|, Inclusive(d.entry, d.tsNs), false, 0)
  }

  /** The innermost activation ends, and its events go out ahead of the deferred ones. */
  lemma Overtakes(c: Config, y: System, ts: int)
    requires Overtaking(c, y, ts)
    ensures var s, z := y.shadow, Take(c, y, Unwind(ts));
            && y.world.hist.open != [] && z.world.hist == End(y.world.hist, ts, false)
            && s.stack != [] && s.stack[|s.stack| - 1].fn != s.deferred.value.fn
            && (c.leaveOn ==> z.shadow.trace == s.trace + [Early(c, y, ts)])
            && (c.statsOn ==> |z.shadow.records| == |s.records| + 1)
            && (c.statsOn ==> z.shadow.records[|s.records|].fn == s.stack[|s.stack| - 1].fn)
  {
    var w, s := y.world, y.shadow;
    InnermostEntry(c, w, s.stack);
    var entry, rest := s.stack[|s.stack| - 1], s.stack[..|s.stack| - 1];
    assert Take(c, y, Unwind(ts)).shadow
        == Complete(c, UnnestedIfAsync(c, s.(stack := rest), entry.fn), entry, entry.fn, entry.fn, ts, false, 0);
  }

  lemma BreaksTrace(c: Config, y: System, ts: int)
    requires Overtaking(c, y, ts) && Tracing(c)
    ensures var z := Take(c, y, Unwind(ts)); Diverged(BareTrace(z.shadow.trace), Emit(c, z.world.hist))
  {
    Overtakes(c, y, ts);
    EndExtendsTrace(c, y.world.hist, ts, false);
    OvertakenDiverges(BareTrace(y.shadow.trace), Early(c, y, ts), Late(c, y.shadow),
                      Emit(c, End(y.world.hist, ts, false))) by {
      BareTraceSnoc(y.shadow.trace, Late(c, y.shadow));
    }
    BareTraceSnoc(y.shadow.trace, Early(c, y, ts));
  }

  lemma BreaksRecords(c: Config, y: System, ts: int)
    requires Overtaking(c, y, ts) && c.statsOn
    ensures var z := Take(c, y, Unwind(ts)); Diverged(z.shadow.records, Recorded(z.world.hist))
  {
    Overtakes(c, y, ts);
    EndExtendsRecorded(c, y.world.hist, ts, false);
    var p := |y.shadow.records|;
    assert Recorded(End(y.world.hist, ts, false))[p] == Recorded(y.world.hist)[p];
  }

  lemma OvertakenDiverges<T>(before: seq<T>, early: T, late: T, truth: seq<T>)
    requires early != late && before + [late] <= truth
    ensures Diverged(before + [early], truth)
  {
    var p := |before|;
    assert truth[p] == (before + [late])[p];
    assert (before + [early])[p] != truth[p];
  }

  // ---- Monitored runs with a throw that is not contiguous ----

  /** The unwind under way is bound to lose track. */
  ghost predicate Doomed(c: Config, y: System) {
    c.exceptionsOn && Tracked(c, y) && y.world.phase.Unwinding? && !Remaining(c, y)
  }

  lemma StillDoomed(c: Config, y: System, ts: int)
    requires ShapeInv(c, y) && Doomed(c, y) && Enabled(y.world, Unwind(ts)) && !Overtaking(c, y, ts)
    ensures var z := Take(c, y, Unwind(ts)); z.world.phase.Unwinding? && !Remaining(c, z)
  {
    var w, k := y.world, y.world.phase.k;
    var z := Take(c, y, Unwind(ts));
    if Contiguous(c, w.frames, k) {
      var i :| k < i < |w.frames| && c.Included(w.frames[i].fn) && w.frames[i].fn != w.frames[k].fn;
      assert z.world.frames[i] == w.frames[i];
    }
  }

  lemma TakeDoomed(c: Config, y: System, step: Step)
    requires ShapeInv(c, y) && Doomed(c, y) && Enabled(y.world, step)
    ensures Doomed(c, Take(c, y, step)) || Broken(c, Take(c, y, step))
  {
    var ts := step.tsNs;
    if Overtaking(c, y, ts) {
      if Tracing(c) {
        BreaksTrace(c, y, ts);
      }
      if c.statsOn {
        BreaksRecords(c, y, ts);
      }
    } else {
      UnwindTracked(c, y, ts);
      StillDoomed(c, y, ts);
    }
  }

  predicate Extends(s: Shadow, z: Shadow) {
    s.trace <= z.trace && s.records <= z.records
  }

  lemma SettledExtends(c: Config, s: Shadow)
    ensures Extends(s, Settled(c, s))
  {
  }

  lemma LeaveExtends(c: Config, s: Shadow, fn: FnId, tsNs: int, tailcall: bool)
    ensures Extends(s, OnLeave(c, s, fn, tsNs, tailcall))
  {
  }

  lemma UnwindExtends(c: Config, s: Shadow, fn: FnId, tsNs: int)
    ensures Extends(s, OnUnwind(c, s, fn, tsNs))
  {
    SettledExtends(c, s);
  }

  lemma NotifiedExtends(c: Config, w: World, s: Shadow, step: Step)
    requires Enabled(w, step) && Heard(c, step)
    ensures Extends(s, Notified(c, w, s, step))
  {
    match step
    case Call(_, _) =>
    case Return(ts, tailcall) => LeaveExtends(c, s, w.frames[|w.frames| - 1].fn, ts, tailcall);
    case Unwind(ts) => UnwindExtends(c, s, w.frames[|w.frames| - 1].fn, ts);
    case Throw(_) => SettledExtends(c, s);
    case Resume =>
  }

  ghost predicate Prolongs(c: Config, h: History, z: History) {
    Emit(c, h) <= Emit(c, z) && Recorded(h) <= Recorded(z)
  }

  lemma EndingProlongs(c: Config, w: World, tsNs: int, tailcall: bool)
    requires w.frames != []
    ensures Prolongs(c, w.hist, Ending(c, w, tsNs, tailcall).hist)
  {
    if w.hist.open != [] {
      EndExtendsTrace(c, w.hist, tsNs, tailcall);
      EndExtendsRecorded(c, w.hist, tsNs, tailcall);
    }
  }

  lemma NextProlongs(c: Config, w: World, step: Step)
    requires Enabled(w, step)
    ensures Prolongs(c, w.hist, Next(c, w, step).hist)
  {
    match step
    case Call(fn, ts) => BeginExtends(c, w.hist, fn, ts);
    case Return(ts, tailcall) => EndingProlongs(c, w, ts, tailcall);
    case Unwind(ts) => EndingProlongs(c, w, ts, false);
    case Throw(_) =>
    case Resume =>
  }

  lemma TakeBroken(c: Config, y: System, step: Step)
    requires c.exceptionsOn && Broken(c, y) && Enabled(y.world, step)
    ensures Broken(c, Take(c, y, step))
  {
    NotifiedExtends(c, y.world, y.shadow, step);
    NextProlongs(c, y.world, step);
    var z := Take(c, y, step);
    if Tracing(c) {
      var p :| 0 <= p < |y.shadow.trace| && p < |Emit(c, y.world.hist)|
               && BareTrace(y.shadow.trace)[p] != Emit(c, y.world.hist)[p];
      assert BareTrace(z.shadow.trace)[p] == BareTrace(y.shadow.trace)[p];
      assert Emit(c, z.world.hist)[p] == Emit(c, y.world.hist)[p];
    }
    if c.statsOn {
      var p :| 0 <= p < |y.shadow.records| && p < |Recorded(y.world.hist)|
               && y.shadow.records[p] != Recorded(y.world.hist)[p];
      assert z.shadow.records[p] == y.shadow.records[p];
      assert Recorded(z.world.hist)[p] == Recorded(y.world.hist)[p];
    }
  }

  lemma {:induction false} RunFollowed(c: Config, steps: seq<Step>)
    requires Valid(c, steps) && (c.exceptionsOn || Clean(c, steps))
    ensures var y := After(c, steps);
            && ShapeInv(c, y)
            && (if Clean(c, steps) then Tracked(c, y) && Remaining(c, y) else Doomed(c, y) || Broken(c, y))
  {
    if !c.exceptionsOn {
      KeptIsClean(c, steps);
    }
    RunShape(c, steps);
    if steps == [] {
      assert Emit(c, NOTHING) == [] && Recorded(NOTHING) == [];
    } else {
      var before, step := steps[..|steps| - 1], steps[|steps| - 1];
      var y := After(c, before);
      RunFollowed(c, before);
      if Clean(c, before) {
        TakeTracked(c, y, step);
        if Clean(c, steps) {
          TakeRemaining(c, y, step);
        }
      } else if Broken(c, y) {
        TakeBroken(c, y, step);
      } else {
        TakeDoomed(c, y, step);
      }
    }
  }

  /** The thread tracks its history until a throw that it cannot follow.  From then on it has gone wrong for
      good or is about to; if it does not monitor exceptions, by what is lost. */
  lemma RunStatus(c: Config, steps: seq<Step>)
    requires Valid(c, steps)
    ensures var y := After(c, steps);
            if Clean(c, steps) then ShapeInv(c, y) && Tracked(c, y) && Remaining(c, y)
            else if c.exceptionsOn then ShapeInv(c, y) && (Doomed(c, y) || Broken(c, y))
            else 0 < Lost(c, steps) || Losing(c, y.world)
  {
    if c.exceptionsOn || Clean(c, steps) {
      RunFollowed(c, steps);
    } else {
      KeptIsClean(c, steps);
      LostStatus(c, steps);
    }
  }

  // ---- Main results ----

  /** The trace of a thread is the serialisation of its true history (wall times aside) if and only if
      every throw could be followed: it found a contiguous stack in a session that monitors exceptions, and no
      included activation above its catcher in one that does not. */
  lemma FaithfulTrace(c: Config, steps: seq<Step>)
    requires Valid(c, steps) && After(c, steps).world.phase.Running? && Tracing(c)
    ensures Clean(c, steps) <==> BareTrace(After(c, steps).shadow.trace) == Emit(c, After(c, steps).world.hist)
  {
    RunStatus(c, steps);
    if !c.exceptionsOn {
      LostCounts(c, steps);
    }
  }

  /** The calls a thread records are those of its true history, in the order they finish and with
      their true times, under the same condition. */
  lemma FaithfulRecords(c: Config, steps: seq<Step>)
    requires Valid(c, steps) && After(c, steps).world.phase.Running? && c.statsOn
    ensures Clean(c, steps) <==> After(c, steps).shadow.records == Recorded(After(c, steps).world.hist)
  {
    RunStatus(c, steps);
    if !c.exceptionsOn {
      LostCounts(c, steps);
    }
  }

  /** After a clean run every entry of the stack knows exactly the time of its finished calls. */
  lemma ChildrenExact(c: Config, steps: seq<Step>, i: nat)
    requires Valid(c, steps) && Clean(c, steps) && After(c, steps).world.phase.Running?
    requires i < |After(c, steps).shadow.stack|
    ensures var y := After(c, steps);
            && i < |y.world.hist.open|
            && y.shadow.stack[i].childrenTimeNs == KidsTime(y.world.hist.open[i].kids)
  {
    RunStatus(c, steps);
  }
}
