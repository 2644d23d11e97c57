/** What running time does to a history: its trace is in timestamp order, and every call covers the
    calls inside it. The offline analysers rely on both. */
module Timing {
  import opened Accumulators
  import opened Trace
  import opened ShadowStack
  import opened CallForest
  import opened Runtime

  // ---- The order of a trace ----

  /** Enters and leaves only, in the order of their timestamps. */
  predicate InOrder(es: seq<Event>) {
    && (forall i :: 0 <= i < |es| ==> CallEvent(es[i]))
    && (forall i, j :: 0 <= i < j < |es| ==> es[i].tsNs <= es[j].tsNs)
  }

  predicate NotAfter(es: seq<Event>, nowNs: int) {
    InOrder(es) && (es != [] ==> es[|es| - 1].tsNs <= nowNs)
  }

  // ---- The calls inside a call ----

  lemma InOrderSnoc(es: seq<Event>, e: Event, nowNs: int)
    requires NotAfter(es, nowNs) && CallEvent(e) && nowNs <= e.tsNs
    ensures NotAfter(es + [e], e.tsNs)
  {
  }

  /** The finished calls of a forest, all the way down, take no longer than the calls around them. */
  predicate TimedForest(ns: seq<Node>) {
    forall i :: 0 <= i < |ns| ==> TimedNode(ns[i])
  }

  predicate TimedNode(n: Node) {
    0 <= KidsTime(n.kids) <= n.Inclusive() && TimedForest(n.kids)
  }

  predicate TimedHistory(h: History) {
    TimedForest(h.roots) && forall i :: 0 <= i < |h.open| ==> TimedForest(h.open[i].kids)
  }

  lemma EndTimed(c: Config, h: History, nowNs: int, tsNs: int, tailcall: bool)
    requires h.open != [] && Timed(h.open, nowNs) && nowNs <= tsNs && TimedHistory(h)
    ensures TimedHistory(End(h, tsNs, tailcall))
  {
    TimedEnd(c, h, nowNs, tsNs, tailcall);
    var n := Ended(h, tsNs, tailcall);
    assert TimedNode(n);
    var after := End(h, tsNs, tailcall);
    forall i | 0 <= i < |after.open| ensures TimedForest(after.open[i].kids) {
      if i < |after.open| - 1 {
        assert after.open[i] == h.open[i];
      } else {
        assert TimedForest(h.open[i].kids);
      }
    }
  }

  // ---- Every run ----

  predicate WellTimed(c: Config, w: World) {
    NotAfter(Emit(c, w.hist), w.nowNs) && TimedHistory(w.hist)
  }

  lemma EndingWellTimed(c: Config, w: World, tsNs: int, tailcall: bool)
    requires WorldInv(c, w) && WellTimed(c, w) && w.frames != [] && w.nowNs <= tsNs
    ensures WellTimed(c, Ending(c, w, tsNs, tailcall))
  {
    if c.Included(w.frames[|w.frames| - 1].fn) && w.hist.open != [] {
      EndExtendsTrace(c, w.hist, tsNs, tailcall);
      InOrderSnoc(Emit(c, w.hist), LeaveOf(c, Ended(w.hist, tsNs, tailcall), |w.hist.open| - 1), w.nowNs);
      EndTimed(c, w.hist, w.nowNs, tsNs, tailcall);
    }
  }

  lemma BeginWellTimed(c: Config, w: World, fn: FnId, tsNs: int)
    requires WellTimed(c, w) && w.nowNs <= tsNs
    ensures WellTimed(c, World(w.frames, w.phase, tsNs, Begin(w.hist, fn, tsNs)))
  {
    BeginExtends(c, w.hist, fn, tsNs);
    InOrderSnoc(Emit(c, w.hist), EnterOf(c, fn, tsNs, |w.hist.open|), w.nowNs);
  }

  lemma NextWellTimed(c: Config, w: World, step: Step)
    requires WorldInv(c, w) && WellTimed(c, w) && Enabled(w, step)
    ensures WellTimed(c, Next(c, w, step))
  {
    match step
    case Call(fn, ts) =>
      if c.Included(fn) {
        BeginWellTimed(c, w, fn, ts);
      }
    case Return(ts, tailcall) => EndingWellTimed(c, w, ts, tailcall);
    case Unwind(ts) =>
      if w.phase.k < |w.frames| - 1 {
        EndingWellTimed(c, w, ts, false);
      }
    case Throw(_) =>
    case Resume =>
  }

  /** The true history of every run is in timestamp order, and its calls cover the calls inside them. */
  lemma {:induction false} RunWellTimed(c: Config, steps: seq<Step>)
    ensures WorldInv(c, After(c, steps).world) && WellTimed(c, After(c, steps).world)
  {
    if steps != [] {
      var w, step := After(c, steps[..|steps| - 1]).world, steps[|steps| - 1];
      RunWellTimed(c, steps[..|steps| - 1]);
      if Enabled(w, step) {
        NextKeeps(c, w, step);
        NextWellTimed(c, w, step);
      }
    }
  }
}
