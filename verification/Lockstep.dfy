/** What a thread records, and what replaying the trace it writes finds.

    Entries go on the shadow stack and come off it with the events they give rise to, so the stack of the
    replay follows the shadow stack, right or wrong; it has a frame for the deferred activation besides.
    Every leave therefore finds a frame, and calls and inclusive times agree in every run.  Self times agree
    too as long as that frame is the one of the entry completed (`RunInStep`), and leaves carry the depth of the
    frame they close if and only if it is: unless a deferred activation is overtaken (`DepthsIff`). */
module Lockstep {
  import opened Accumulators
  import opened Options
  import opened Trace
  import opened ShadowStack
  import opened Runtime
  import opened Refinement
  import opened Faithfulness
  import opened Conservation
  import H = Hotspots
  import T = Threads

  /** The shadow stack with the deferred entry on top. */
  function Whole(s: Shadow): seq<CallEntry> {
    s.stack + if s.deferred.Some? then [s.deferred.value.entry] else []
  }

  /** The frames of a replay hold the children times of the entries. */
  ghost predicate SameKids(frames: seq<H.StackFrame>, entries: seq<CallEntry>) {
    |frames| == |entries| && forall i :: 0 <= i < |frames| ==> frames[i].childrenNs == entries[i].childrenTimeNs
  }

  /** Replay and records of method `key`, of what has been written so far. */
  function Offline(s: Shadow, key: string): Accum {
    H.Tally([], s.trace, key)
  }

  function Online(c: Config, s: Shadow, key: string): Accum {
    Summary(s.records, H.Functions(c, key))
  }

  function Frames(s: Shadow): seq<H.StackFrame> {
    H.Stack([], s.trace)
  }

  /** What holds of every run. */
  ghost predicate CallsInStep(c: Config, s: Shadow, key: string) {
    && |Frames(s)| == |Whole(s)|
    && (c.statsOn && c.computeDeltas ==> SameCalls(Offline(s, key), Online(c, s, key)))
  }

  /** What holds besides unless a deferred activation is overtaken. */
  ghost predicate TimesInStep(c: Config, s: Shadow, key: string) {
    && T.Nested(T.ByDepth, [], s.trace)
    && (c.computeDeltas ==>
          && SameKids(Frames(s), Whole(s)) && T.Nested(T.ByTime, [], s.trace)
          && (c.statsOn ==> Offline(s, key) == Online(c, s, key)))
  }

  // ---- Enters ----

  lemma EnterInStep(c: Config, s: Shadow, fn: FnId, ts: int, key: string)
    requires c.enterOn && s.deferred.None? && CallsInStep(c, s, key)
    ensures CallsInStep(c, OnEnter(c, s, fn, ts), key)
    ensures TimesInStep(c, s, key) ==> TimesInStep(c, OnEnter(c, s, fn, ts), key)
  {
    if c.Included(fn) {
      var e := EnterEvent(c, c.methods[fn], ts, |s.stack|);
      H.StackSnoc([], s.trace, e);
      H.TallySnoc([], s.trace, e, key);
      MergeZero(Offline(s, key));
      T.NestedSnoc(T.ByDepth, [], s.trace, e);
      T.NestedSnoc(T.ByTime, [], s.trace, e);
    }
  }

  // ---- Leaves ----

  /** `t` has written what `s` has. */
  predicate SameOutput(s: Shadow, t: Shadow) {
    t.trace == s.trace && t.records == s.records
  }

  lemma CompleteCalls(c: Config, s: Shadow, t: Shadow, entry: CallEntry, fn: FnId, ts: int, tailcall: bool,
                      wallNs: int, key: string)
    requires c.leaveOn && fn in c.methods && CallsInStep(c, s, key) && SameOutput(s, t)
    requires |Whole(s)| == |Whole(t)| + 1
    ensures CallsInStep(c, Complete(c, t, entry, fn, fn, ts, tailcall, wallNs), key)
  {
    var e := LeaveEvent(c, c.methods[fn], ts, |t.stack|, Inclusive(entry, ts), tailcall, wallNs);
    var r := Record(fn, Inclusive(entry, ts), Self(entry, ts));
    H.StackSnoc([], s.trace, e);
    if c.statsOn && c.computeDeltas {
      H.TallySnoc([], s.trace, e, key);
      SummarySnoc(s.records, r, H.Functions(c, key));
    }
  }

  lemma LeaveKids(frames: seq<H.StackFrame>, e: Event, rest: seq<CallEntry>, entry: CallEntry, ts: int)
    requires e.Leave? && SameKids(frames, rest + [entry]) && Fits(entry, ts) && e.deltaNs == Inclusive(entry, ts)
    ensures frames[|frames| - 1].childrenNs == entry.childrenTimeNs
    ensures SameKids(H.StackAfter(frames, e), Credited(rest, Inclusive(entry, ts)))
  {
    assert (rest + [entry])[|rest|] == entry;
    forall i | 0 <= i < |rest| ensures frames[i].childrenNs == rest[i].childrenTimeNs {
      assert (rest + [entry])[i] == rest[i];
    }
  }

  lemma CompleteTimes(c: Config, s: Shadow, t: Shadow, entry: CallEntry, fn: FnId, ts: int, tailcall: bool,
                      wallNs: int, key: string)
    requires c.leaveOn && fn in c.methods && CallsInStep(c, s, key) && TimesInStep(c, s, key) && SameOutput(s, t)
    requires t.deferred.None? && Whole(s) == t.stack + [entry] && Fits(entry, ts)
    ensures TimesInStep(c, Complete(c, t, entry, fn, fn, ts, tailcall, wallNs), key)
  {
    var z := Complete(c, t, entry, fn, fn, ts, tailcall, wallNs);
    var e := LeaveEvent(c, c.methods[fn], ts, |t.stack|, Inclusive(entry, ts), tailcall, wallNs);
    H.StackSnoc([], s.trace, e);
    T.NestedSnoc(T.ByDepth, [], s.trace, e);
    T.NestedSnoc(T.ByTime, [], s.trace, e);
    assert Whole(z) == z.stack;
    if c.computeDeltas {
      LeaveKids(Frames(s), e, t.stack, entry, ts);
      if c.statsOn {
        H.TallySnoc([], s.trace, e, key);
        SummarySnoc(s.records, Record(fn, Inclusive(entry, ts), Self(entry, ts)), H.Functions(c, key));
      }
    }
  }

  /** Nothing written, and the entries in the same order. */
  lemma MovesInStep(c: Config, s: Shadow, t: Shadow, key: string)
    requires SameOutput(s, t) && Whole(t) == Whole(s)
    ensures CallsInStep(c, s, key) ==> CallsInStep(c, t, key)
    ensures TimesInStep(c, s, key) ==> TimesInStep(c, t, key)
  {
  }

  // ---- The callbacks ----

  /** `t` is `s` with its top entry taken off. */
  predicate Pops(s: Shadow, t: Shadow) {
    s.stack != [] && t.stack == s.stack[..|s.stack| - 1] && t.deferred == s.deferred && SameOutput(s, t)
  }

  lemma PopInStep(c: Config, s: Shadow, t: Shadow, fn: FnId, ts: int, tailcall: bool, wallNs: int, exact: bool,
                  key: string)
    requires c.leaveOn && fn in c.methods && CallsInStep(c, s, key) && Pops(s, t)
    requires exact ==> TimesInStep(c, s, key) && s.deferred.None? && Fits(s.stack[|s.stack| - 1], ts)
    ensures var z := Complete(c, t, s.stack[|s.stack| - 1], fn, fn, ts, tailcall, wallNs);
            CallsInStep(c, z, key) && (exact ==> TimesInStep(c, z, key))
  {
    var entry := s.stack[|s.stack| - 1];
    CompleteCalls(c, s, t, entry, fn, ts, tailcall, wallNs, key);
    if exact {
      CompleteTimes(c, s, t, entry, fn, ts, tailcall, wallNs, key);
    }
  }

  lemma LeaveInStep(c: Config, s: Shadow, fn: FnId, ts: int, tailcall: bool, exact: bool, key: string)
    requires Tracing(c) && c.Included(fn) && s.stack != [] && CallsInStep(c, s, key)
    requires exact ==> TimesInStep(c, s, key) && s.deferred.None? && Fits(s.stack[|s.stack| - 1], ts)
    ensures CallsInStep(c, OnLeave(c, s, fn, ts, tailcall), key)
    ensures exact ==> TimesInStep(c, OnLeave(c, s, fn, ts, tailcall), key)
  {
    var wallNs := if c.IsAsync(fn) then WallTime(s.nesting, s.firstEnter, fn, ts) else 0;
    var t := UnnestedIfAsync(c, s.(stack := s.stack[..|s.stack| - 1]), fn);
    PopInStep(c, s, t, fn, ts, tailcall, wallNs, exact, key);
  }

  /** An unwound activation that is not deferred.  If another one is, that is overtaken. */
  lemma UnwindInStep(c: Config, s: Shadow, fn: FnId, ts: int, exact: bool, key: string)
    requires Tracing(c) && c.Included(fn) && fn != s.catcher && CallsInStep(c, s, key)
    requires s.stack != [] && s.stack[|s.stack| - 1].fn == fn
    requires exact ==> TimesInStep(c, s, key) && s.deferred.None? && Fits(s.stack[|s.stack| - 1], ts)
    ensures CallsInStep(c, OnUnwind(c, s, fn, ts), key)
    ensures exact ==> TimesInStep(c, OnUnwind(c, s, fn, ts), key)
  {
    PopInStep(c, s, UnnestedIfAsync(c, s.(stack := s.stack[..|s.stack| - 1]), fn), fn, ts, false, 0, exact, key);
  }

  lemma SettleInStep(c: Config, s: Shadow, exact: bool, key: string)
    requires Tracing(c) && CallsInStep(c, s, key)
    requires s.deferred.Some? ==> c.Included(s.deferred.value.fn)
    requires exact ==> TimesInStep(c, s, key) && DeferredFits(s)
    ensures CallsInStep(c, Settled(c, s), key) && Settled(c, s).deferred.None?
    ensures exact ==> TimesInStep(c, Settled(c, s), key)
  {
    if s.deferred.Some? {
      var d := s.deferred.value;
      var t := UnnestedIfAsync(c, s.(deferred := None), d.fn);
      CompleteCalls(c, s, t, d.entry, d.fn, d.tsNs, false, 0, key);
      if exact {
        CompleteTimes(c, s, t, d.entry, d.fn, d.tsNs, false, 0, key);
      }
    }
  }

  lemma DeferInStep(c: Config, s: Shadow, ts: int, exact: bool, key: string)
    requires Tracing(c) && c.Included(s.catcher) && CallsInStep(c, s, key) && Settled(c, s).stack != []
    requires s.deferred.Some? ==> c.Included(s.deferred.value.fn)
    requires exact ==> TimesInStep(c, s, key) && DeferredFits(s)
    ensures CallsInStep(c, OnUnwind(c, s, s.catcher, ts), key)
    ensures exact ==> TimesInStep(c, OnUnwind(c, s, s.catcher, ts), key)
  {
    SettleInStep(c, s, exact, key);
    var settled, z := Settled(c, s), OnUnwind(c, s, s.catcher, ts);
    var last := |settled.stack| - 1;
    assert Whole(settled) == settled.stack == settled.stack[..last] + [settled.stack[last]];
    MovesInStep(c, settled, z, key);
  }

  // ---- Every run ----

  /** What the next step relies on. */
  ghost predicate Ready(c: Config, y: System, step: Step, exact: bool) {
    var s := y.shadow;
    && (s.deferred.Some? ==> c.Included(s.deferred.value.fn) && !y.world.phase.Running?)
    && (exact ==> DeferredFits(s))
    && (Enabled(y.world, step) && Heard(c, step) && (step.Return? || step.Unwind?) ==>
          var fn := y.world.frames[|y.world.frames| - 1].fn;
          c.Included(fn) ==>
            if step.Unwind? && fn == s.catcher then Settled(c, s).stack != []
            else
              && s.stack != [] && (step.Unwind? ==> s.stack[|s.stack| - 1].fn == fn)
              && (exact ==> s.deferred.None? && Fits(s.stack[|s.stack| - 1], step.tsNs)))
  }

  lemma RunReady(c: Config, steps: seq<Step>, step: Step)
    requires Valid(c, steps) && Enabled(After(c, steps).world, step)
    ensures Ready(c, After(c, steps), step, NoneOvertaken(c, steps))
  {
    var y := After(c, steps);
    if c.exceptionsOn {
      RunShape(c, steps);
    } else {
      UnheardNests(c, steps);
    }
    if NoneOvertaken(c, steps) {
      NeverClamps(c, steps);
    }
    if Heard(c, step) && (step.Return? || step.Unwind?) && c.Included(y.world.frames[|y.world.frames| - 1].fn) {
      if step.Unwind? && y.world.frames[|y.world.frames| - 1].fn == y.shadow.catcher {
        Faithfulness.Defers(c, y, step.tsNs);
      } else {
        HasEntry(c, steps, step);
        if NoneOvertaken(c, steps) {
          TopFits(c, steps, step);
        }
      }
    }
  }

  lemma UnwindStep(c: Config, y: System, ts: int, exact: bool, key: string)
    requires Tracing(c) && c.exceptionsOn && Enabled(y.world, Unwind(ts)) && Ready(c, y, Unwind(ts), exact)
    requires CallsInStep(c, y.shadow, key) && (exact ==> TimesInStep(c, y.shadow, key))
    ensures var z := OnUnwind(c, y.shadow, y.world.frames[|y.world.frames| - 1].fn, ts);
            CallsInStep(c, z, key) && (exact ==> TimesInStep(c, z, key))
  {
    var fn := y.world.frames[|y.world.frames| - 1].fn;
    if c.Included(fn) {
      if fn == y.shadow.catcher {
        DeferInStep(c, y.shadow, ts, exact, key);
      } else {
        UnwindInStep(c, y.shadow, fn, ts, exact, key);
      }
    }
  }

  lemma TakeInStep(c: Config, y: System, step: Step, exact: bool, key: string)
    requires Tracing(c) && Enabled(y.world, step) && Ready(c, y, step, exact)
    requires CallsInStep(c, y.shadow, key) && (exact ==> TimesInStep(c, y.shadow, key))
    ensures var z := Take(c, y, step).shadow; CallsInStep(c, z, key) && (exact ==> TimesInStep(c, z, key))
  {
    if Heard(c, step) {
      match step
      case Call(fn, ts) => EnterInStep(c, y.shadow, fn, ts, key);
      case Return(ts, tailcall) =>
        if c.Included(y.world.frames[|y.world.frames| - 1].fn) {
          LeaveInStep(c, y.shadow, y.world.frames[|y.world.frames| - 1].fn, ts, tailcall, exact, key);
        }
      case Unwind(ts) => UnwindStep(c, y, ts, exact, key);
      case Throw(k) => MovesInStep(c, y.shadow, OnCatcherFound(c, y.shadow, y.world.frames[k].fn), key);
      case Resume => MovesInStep(c, y.shadow, OnCatcherEnter(y.shadow), key);
    }
  }

  // ---- Main results ----

  /** In every run, at every moment, replaying the trace finds for every method the calls and the inclusive times
      that were recorded.  It also finds their self times, and every leave names a frame at its own depth that took at
      most its time, as long as no deferred activation is overtaken. */
  lemma {:induction false} RunInStep(c: Config, steps: seq<Step>, key: string)
    requires Valid(c, steps) && Tracing(c)
    ensures CallsInStep(c, After(c, steps).shadow, key)
    ensures NoneOvertaken(c, steps) ==> TimesInStep(c, After(c, steps).shadow, key)
  {
    if steps != [] {
      var before, step := steps[..|steps| - 1], steps[|steps| - 1];
      RunInStep(c, before, key);
      RunReady(c, before, step);
      TakeInStep(c, After(c, before), step, NoneOvertaken(c, before), key);
    }
  }

  predicate Deep(es: seq<Event>) {
    T.Nested(T.ByDepth, [], es)
  }

  /** The frame of the deferred activation is still on top when another's leave is written. */
  lemma OvertakesDeep(c: Config, y: System, ts: int)
    requires Tracing(c) && Overtaking(c, y, ts) && |Frames(y.shadow)| == |Whole(y.shadow)|
    ensures !Deep(Take(c, y, Unwind(ts)).shadow.trace)
  {
    Overtakes(c, y, ts);
    T.NestedSnoc(T.ByDepth, [], y.shadow.trace, Early(c, y, ts));
  }

  lemma StaysShallow(es: seq<Event>, more: seq<Event>)
    requires !Deep(es) && es <= more
    ensures !Deep(more)
  {
    assert more == es + more[|es|..];
    T.NestedAppend(T.ByDepth, [], es, more[|es|..]);
  }

  lemma TakeShallow(c: Config, y: System, step: Step)
    requires Tracing(c) && c.exceptionsOn && ShapeInv(c, y) && Enabled(y.world, step)
    requires |Frames(y.shadow)| == |Whole(y.shadow)| && (Doomed(c, y) || !Deep(y.shadow.trace))
    ensures Doomed(c, Take(c, y, step)) || !Deep(Take(c, y, step).shadow.trace)
  {
    if !Deep(y.shadow.trace) {
      NotifiedExtends(c, y.world, y.shadow, step);
      StaysShallow(y.shadow.trace, Take(c, y, step).shadow.trace);
    } else if Overtaking(c, y, step.tsNs) {
      OvertakesDeep(c, y, step.tsNs);
    } else {
      UnwindTracked(c, y, step.tsNs);
      StillDoomed(c, y, step.tsNs);
    }
  }

  lemma {:induction false} UncleanShallow(c: Config, steps: seq<Step>)
    requires Valid(c, steps) && Tracing(c) && c.exceptionsOn && !Clean(c, steps)
    ensures Doomed(c, After(c, steps)) || !Deep(After(c, steps).shadow.trace)
  {
    var before, step := steps[..|steps| - 1], steps[|steps| - 1];
    RunShape(c, before);
    if Clean(c, before) {
      RunStatus(c, before);
      TakeTracked(c, After(c, before), step);
    } else {
      UncleanShallow(c, before);
      RunInStep(c, before, "");
      TakeShallow(c, After(c, before), step);
    }
  }

  /** Every leave of a trace carries the depth of the frame it closes, which is what `Threads.SelfTimeIsRootTime`
      asks of it, if and only if no deferred activation was overtaken; without monitoring, in every run. */
  lemma DepthsIff(c: Config, steps: seq<Step>)
    requires Valid(c, steps) && Tracing(c) && After(c, steps).world.phase.Running?
    ensures NoneOvertaken(c, steps) <==> T.Nested(T.ByDepth, [], After(c, steps).shadow.trace)
    ensures NoneOvertaken(c, steps) && c.computeDeltas ==> T.Nested(T.ByTime, [], After(c, steps).shadow.trace)
  {
    RunInStep(c, steps, "");
    if !NoneOvertaken(c, steps) {
      UncleanShallow(c, steps);
    }
  }
}
