/** The managed runtime as the profiler sees it: one thread with its true stack, nondeterministic
    calls, returns and throws, and the callbacks each of them triggers.

    Only frames of included methods matter to the profiler, but the runtime's stack holds all of
    them.  An exception is two-phase: `Throw` picks the catching frame (a frame, where the
    callback only names its function), one `Unwind` visits each frame from the top down to and including
    the catcher, and `Resume` enters the handler.  Nothing else runs on the thread in between.  The
    profiler hears of these three only in a session that monitors exceptions. */
module Runtime {
  import opened Accumulators
  import opened ShadowStack
  import opened CallForest

  datatype Frame = Frame(fn: FnId, enterNs: int)

  /** `Unwinding(k)`: looking for frame k, the innermost frame is visited next.
      `Landed`: the catcher, now innermost, has been visited. */
  datatype Phase = Running | Unwinding(k: nat) | Landed

  datatype World = World(frames: seq<Frame>, phase: Phase, nowNs: int, hist: History)

  datatype Step =
    | Call(fn: FnId, tsNs: int)
    | Return(tsNs: int, tailcall: bool)
    | Throw(k: nat)
    | Unwind(tsNs: int)
    | Resume

  /** Timestamps are positive and never decrease. */
  predicate Enabled(w: World, step: Step) {
    match step
    case Call(_, ts) => w.phase.Running? && w.nowNs <= ts && 0 < ts
    case Return(ts, _) => w.phase.Running? && w.frames != [] && w.nowNs <= ts
    case Throw(k) => w.phase.Running? && k < |w.frames|
    case Unwind(ts) => w.phase.Unwinding? && w.phase.k < |w.frames| && w.nowNs <= ts
    case Resume => w.phase.Landed?
  }

  function Ending(c: Config, w: World, tsNs: int, tailcall: bool): World
    requires w.frames != []
  {
    w.(frames := w.frames[..|w.frames| - 1], nowNs := tsNs,
       hist := if c.Included(w.frames[|w.frames| - 1].fn) && w.hist.open != []
               then End(w.hist, tsNs, tailcall) else w.hist)
  }

  function Next(c: Config, w: World, step: Step): World
    requires Enabled(w, step)
  {
    match step
    case Call(fn, ts) =>
      w.(frames := w.frames + [Frame(fn, ts)], nowNs := ts,
         hist := if c.Included(fn) then Begin(w.hist, fn, ts) else w.hist)
    case Return(ts, tailcall) => Ending(c, w, ts, tailcall)
    case Throw(k) => w.(phase := Unwinding(k))
    case Unwind(ts) =>
      if w.phase.k == |w.frames| - 1 then w.(phase := Landed, nowNs := ts)
      else Ending(c, w, ts, false)
    case Resume => w.(phase := Running)
  }

  /** Whether the profiler hears of a step: of exceptions only if the session monitors them. */
  predicate Heard(c: Config, step: Step) {
    step.Call? || step.Return? || c.exceptionsOn
  }

  /** The callback a step of the runtime triggers, by function id only. */
  function Notified(c: Config, w: World, s: Shadow, step: Step): Shadow
    requires Enabled(w, step)
  {
    if !Heard(c, step) then s
    else
      match step
      case Call(fn, ts) => OnEnter(c, s, fn, ts)
      case Return(ts, tailcall) => OnLeave(c, s, w.frames[|w.frames| - 1].fn, ts, tailcall)
      case Throw(k) => OnCatcherFound(c, s, w.frames[k].fn)
      case Unwind(ts) => OnUnwind(c, s, w.frames[|w.frames| - 1].fn, ts)
      case Resume => OnCatcherEnter(s)
  }

  // ---- Runs ----

  datatype System = System(world: World, shadow: Shadow)

  const START := System(World([], Running, 0, NOTHING), EMPTY)

  function Take(c: Config, y: System, step: Step): System {
    if Enabled(y.world, step)
    then System(Next(c, y.world, step), Notified(c, y.world, y.shadow, step))
    else y
  }

  function After(c: Config, steps: seq<Step>): System {
    if steps == [] then START
    else Take(c, After(c, steps[..|steps| - 1]), steps[|steps| - 1])
  }

  /** Every step of the run is one the runtime can take. */
  predicate Valid(c: Config, steps: seq<Step>) {
    steps != [] ==>
      && Valid(c, steps[..|steps| - 1])
      && Enabled(After(c, steps[..|steps| - 1]).world, steps[|steps| - 1])
  }

  // ---- The included part of the true stack ----

  function Hooked(c: Config, frames: seq<Frame>): seq<Frame> {
    if frames == [] then []
    else
      var outer, top := Hooked(c, frames[..|frames| - 1]), frames[|frames| - 1];
      if c.Included(top.fn) then outer + [top] else outer
  }

  /** The activations of the true history that are still open, as frames. */
  function Outline(open: seq<Open>): seq<Frame> {
    seq(|open|, i requires 0 <= i < |open| => Frame(open[i].fn, open[i].enterNs))
  }

  /** The entries of the shadow stack, as frames. */
  function Shape(stack: seq<CallEntry>): seq<Frame> {
    seq(|stack|, i requires 0 <= i < |stack| => Frame(stack[i].fn, stack[i].enterTsNs))
  }

  // ---- Time ----

  /** The moment the time of open activation i is accounted up to. */
  function Until(open: seq<Open>, nowNs: int, i: nat): int {
    if i + 1 < |open| then open[i + 1].enterNs else nowNs
  }

  /** Activations nest in time: finished calls fit before the next open call, or before now. */
  ghost predicate Timed(open: seq<Open>, nowNs: int) {
    forall i :: 0 <= i < |open| ==>
      && 0 < open[i].enterNs
      && 0 <= KidsTime(open[i].kids)
      && open[i].enterNs + KidsTime(open[i].kids) <= Until(open, nowNs, i)
  }

  lemma TimedEnd(c: Config, h: History, nowNs: int, tsNs: int, tailcall: bool)
    requires h.open != [] && Timed(h.open, nowNs) && nowNs <= tsNs
    ensures Timed(End(h, tsNs, tailcall).open, tsNs)
    ensures var top := h.open[|h.open| - 1]; 0 <= KidsTime(top.kids) <= tsNs - top.enterNs
  {
    var last := |h.open| - 1;
    assert h.open[last].enterNs + KidsTime(h.open[last].kids) <= Until(h.open, nowNs, last);
    if 0 < last {
      var parent := h.open[last - 1];
      ForestSnoc(c, parent.kids, Ended(h, tsNs, tailcall), 0);
      var after := End(h, tsNs, tailcall).open;
      forall i | 0 <= i < |after|
        ensures 0 < after[i].enterNs && 0 <= KidsTime(after[i].kids)
        ensures after[i].enterNs + KidsTime(after[i].kids) <= Until(after, tsNs, i)
      {
        assert h.open[i].enterNs + KidsTime(h.open[i].kids) <= Until(h.open, nowNs, i);
        if i < last - 1 {
          assert after[i] == h.open[i];
        }
      }
    }
  }

  // ---- What holds of the runtime alone ----

  ghost predicate WorldInv(c: Config, w: World) {
    && Outline(w.hist.open) == Hooked(c, w.frames)
    && Timed(w.hist.open, w.nowNs)
    && (w.phase.Unwinding? ==> w.phase.k < |w.frames|)
    && (w.phase.Landed? ==> w.frames != [])
  }

  /** In a consistent world, an included innermost frame is the innermost open activation. */
  lemma InnermostOpen(c: Config, w: World)
    requires WorldInv(c, w) && w.frames != []
    ensures var top := w.frames[|w.frames| - 1];
            if c.Included(top.fn) then
              && w.hist.open != []
              && Outline(w.hist.open)[|w.hist.open| - 1] == top
              && Outline(w.hist.open[..|w.hist.open| - 1]) == Hooked(c, w.frames[..|w.frames| - 1])
            else Outline(w.hist.open) == Hooked(c, w.frames[..|w.frames| - 1])
  {
    var top, open := w.frames[|w.frames| - 1], w.hist.open;
    var outer := Hooked(c, w.frames[..|w.frames| - 1]);
    if c.Included(top.fn) {
      assert Outline(open) == outer + [top];
      assert Outline(open[..|open| - 1]) == Outline(open)[..|open| - 1];
    }
  }

  lemma EndingKeeps(c: Config, w: World, tsNs: int, tailcall: bool)
    requires WorldInv(c, w) && w.frames != [] && w.nowNs <= tsNs && !w.phase.Landed?
    requires w.phase.Unwinding? ==> w.phase.k < |w.frames| - 1
    ensures WorldInv(c, Ending(c, w, tsNs, tailcall))
  {
    InnermostOpen(c, w);
    if c.Included(w.frames[|w.frames| - 1].fn) {
      TimedEnd(c, w.hist, w.nowNs, tsNs, tailcall);
    }
  }

  lemma NextKeeps(c: Config, w: World, step: Step)
    requires WorldInv(c, w) && Enabled(w, step)
    ensures WorldInv(c, Next(c, w, step))
  {
    match step
    case Call(fn, ts) =>
      if c.Included(fn) {
        assert Outline(Begin(w.hist, fn, ts).open) == Outline(w.hist.open) + [Frame(fn, ts)];
      }
    case Return(ts, tailcall) => EndingKeeps(c, w, ts, tailcall);
    case Unwind(ts) =>
      if w.phase.k < |w.frames| - 1 {
        EndingKeeps(c, w, ts, false);
      }
    case Throw(_) =>
    case Resume =>
  }
}
