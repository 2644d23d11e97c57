/** What each event and each record says, field by field, and what the session's switches do to them.

    The profiler and the history build their events with the same functions, so agreement between the two
    says nothing about what is in an event.  Here every event a run writes is compared with the metadata, the
    switches and the activation it is about (`CallSays`, `ReturnSays`, `UnwindSays`), every event of a history with
    its call (`LeaveOfHistory`), and a session with some switches off with the one that has them all on
    (`SwitchesFilter`). */
module EventFields {
  import opened Accumulators
  import opened Options
  import opened Trace
  import opened ShadowStack
  import opened CallForest
  import opened Runtime
  import opened Refinement
  import F = Faithfulness
  import opened Conservation
  import CallTree

  /** The profiler is to follow the function: its metadata is cached and says so. */
  predicate Followed(c: Config, fn: FnId) {
    fn in c.methods && c.methods[fn].isIncluded
  }

  /** The event names the method as its metadata does; an async state machine by the method it was made from. */
  predicate Names(e: Event, info: MethodInfo)
    requires CallEvent(e)
  {
    && e.name.asm == info.assemblyName && e.name.ns == info.namespaceName && e.name.cls == info.className
    && e.name.m == (if info.isAsyncStateMachine && info.originalMethodName != "" then info.originalMethodName
                    else info.methodName)
    && e.isAsync == info.isAsyncStateMachine
  }

  /** The event is the end, at `tsNs`, of an activation of `fn` entered at `enterNs`. */
  predicate SaysLeft(c: Config, e: Event, fn: FnId, enterNs: int, tsNs: int, depth: nat, tailcall: bool) {
    && e.Leave? && e.tsNs == tsNs && e.tid == c.tid && e.depth == depth && e.tailcall == tailcall
    && e.deltaNs == (if c.computeDeltas then tsNs - enterNs else 0)
    && fn in c.methods && Names(e, c.methods[fn])
    && (!c.methods[fn].isAsyncStateMachine ==> e.wallTimeNs == 0)
  }

  // ---- Entries are stamped ----

  ghost predicate Stamped(s: Shadow) {
    && (forall i :: 0 <= i < |s.stack| ==> 0 < s.stack[i].enterTsNs)
    && (s.deferred.Some? ==> 0 < s.deferred.value.entry.enterTsNs)
  }

  lemma CreditedStamps(stack: seq<CallEntry>, inclusiveNs: int)
    requires forall i :: 0 <= i < |stack| ==> 0 < stack[i].enterTsNs
    ensures forall i :: 0 <= i < |stack| ==> 0 < Credited(stack, inclusiveNs)[i].enterTsNs
  {
  }

  lemma SettledStamped(c: Config, s: Shadow)
    requires Stamped(s)
    ensures Stamped(Settled(c, s)) && Settled(c, s).deferred.None?
  {
    if s.deferred.Some? {
      CreditedStamps(s.stack, Inclusive(s.deferred.value.entry, s.deferred.value.tsNs));
    }
  }

  lemma UnwindStamped(c: Config, s: Shadow, fn: FnId, ts: int)
    requires Stamped(s) && c.Included(fn)
    requires if fn == s.catcher then Settled(c, s).stack != [] else s.stack != []
    ensures Stamped(OnUnwind(c, s, fn, ts))
  {
    if fn == s.catcher {
      SettledStamped(c, s);
    } else {
      var (entry, rest) := Popped(s.stack);
      CreditedStamps(rest, Inclusive(entry, ts));
    }
  }

  lemma LeaveStamped(c: Config, s: Shadow, fn: FnId, ts: int, tailcall: bool)
    requires Stamped(s) && c.Included(fn) && s.stack != []
    ensures Stamped(OnLeave(c, s, fn, ts, tailcall))
  {
    var (entry, rest) := Popped(s.stack);
    CreditedStamps(rest, Inclusive(entry, ts));
  }

  /** Where the profiler hears of the end of an included activation there is an entry for it. */
  lemma EntryThere(c: Config, steps: seq<Step>, step: Step)
    requires Valid(c, steps) && Enabled(After(c, steps).world, step) && Heard(c, step)
    requires step.Return? || step.Unwind?
    requires var w := After(c, steps).world; c.Included(w.frames[|w.frames| - 1].fn)
    ensures var w, s := After(c, steps).world, After(c, steps).shadow;
            var fn := w.frames[|w.frames| - 1].fn;
            if step.Unwind? && fn == s.catcher then Settled(c, s).stack != [] else s.stack != []
  {
    var y := After(c, steps);
    HasEntry(c, steps, step);
    if step.Unwind? && y.world.frames[|y.world.frames| - 1].fn == y.shadow.catcher {
      RunShape(c, steps);
      F.Defers(c, y, step.tsNs);
    }
  }

  lemma {:induction false} RunStamped(c: Config, steps: seq<Step>)
    requires Valid(c, steps)
    ensures Stamped(After(c, steps).shadow)
  {
    if steps != [] {
      var before, step := steps[..|steps| - 1], steps[|steps| - 1];
      var y := After(c, before);
      RunStamped(c, before);
      if step.Throw? {
        SettledStamped(c, y.shadow);
      } else if (step.Return? || step.Unwind?) && Heard(c, step) {
        var fn := y.world.frames[|y.world.frames| - 1].fn;
        if c.Included(fn) {
          EntryThere(c, before, step);
          if step.Return? {
            LeaveStamped(c, y.shadow, fn, step.tsNs, step.tailcall);
          } else {
            UnwindStamped(c, y.shadow, fn, step.tsNs);
          }
        }
      }
    }
  }

  // ---- What each step writes ----

  /** A call writes one enter event with its own time and the depth of the shadow stack. */
  lemma CallSays(c: Config, y: System, fn: FnId, ts: int)
    requires Enabled(y.world, Call(fn, ts))
    ensures var before, after := y.shadow.trace, Take(c, y, Call(fn, ts)).shadow.trace;
            if c.enterOn && Followed(c, fn) then
              && |after| == |before| + 1 && after[..|before|] == before
              && var e := after[|before|];
                 e.Enter? && e.tsNs == ts && e.tid == c.tid && e.depth == |y.shadow.stack| && Names(e, c.methods[fn])
            else after == before
  {
  }

  /** A return writes one leave event about the entry it takes off, as a tail call exactly if it is one. */
  lemma ReturnSays(c: Config, steps: seq<Step>, ts: int, tailcall: bool)
    requires Valid(c, steps) && Enabled(After(c, steps).world, Return(ts, tailcall))
    ensures var y := After(c, steps);
            var s, after := y.shadow, Take(c, y, Return(ts, tailcall)).shadow.trace;
            var fn := y.world.frames[|y.world.frames| - 1].fn;
            if c.leaveOn && Followed(c, fn) then
              && s.stack != [] && |after| == |s.trace| + 1 && after[..|s.trace|] == s.trace
              && SaysLeft(c, after[|s.trace|], fn, s.stack[|s.stack| - 1].enterTsNs, ts, |s.stack| - 1, tailcall)
            else after == s.trace
  {
    var y := After(c, steps);
    RunStamped(c, steps);
    if c.Included(y.world.frames[|y.world.frames| - 1].fn) {
      EntryThere(c, steps, Return(ts, tailcall));
      LeaveWrites(c, y.shadow, y.world.frames[|y.world.frames| - 1].fn, ts, tailcall);
    }
  }

  /** A return records one call, with the time since the entry it takes off was pushed. */
  lemma ReturnRecords(c: Config, steps: seq<Step>, ts: int, tailcall: bool)
    requires Valid(c, steps) && Enabled(After(c, steps).world, Return(ts, tailcall))
    ensures var y := After(c, steps);
            var s, after := y.shadow, Take(c, y, Return(ts, tailcall)).shadow.records;
            var fn := y.world.frames[|y.world.frames| - 1].fn;
            if c.statsOn && Followed(c, fn) then
              && s.stack != [] && |after| == |s.records| + 1 && after[..|s.records|] == s.records
              && var entry, r := s.stack[|s.stack| - 1], after[|s.records|];
                 && r.fn == fn && r.inclusiveNs == ts - entry.enterTsNs
                 && r.selfNs == if entry.childrenTimeNs <= r.inclusiveNs then r.inclusiveNs - entry.childrenTimeNs
                                else 0
            else after == s.records
  {
    var y := After(c, steps);
    RunStamped(c, steps);
    if c.Included(y.world.frames[|y.world.frames| - 1].fn) {
      EntryThere(c, steps, Return(ts, tailcall));
    }
  }

  lemma LeaveWrites(c: Config, s: Shadow, fn: FnId, ts: int, tailcall: bool)
    requires c.Included(fn) && s.stack != [] && 0 < s.stack[|s.stack| - 1].enterTsNs
    ensures var after := OnLeave(c, s, fn, ts, tailcall).trace;
            if c.leaveOn then
              && |after| == |s.trace| + 1 && after[..|s.trace|] == s.trace
              && SaysLeft(c, after[|s.trace|], fn, s.stack[|s.stack| - 1].enterTsNs, ts, |s.stack| - 1, tailcall)
            else after == s.trace
  {
  }

  /** A leave that finds no entry has no time to report. */
  lemma NothingToClose(c: Config, s: Shadow, fn: FnId, ts: int, tailcall: bool)
    requires c.Included(fn) && s.stack == []
    ensures var after := OnLeave(c, s, fn, ts, tailcall);
            && after.stack == []
            && (c.statsOn ==> after.records == s.records + [Record(fn, 0, 0)])
            && (c.leaveOn ==> |after.trace| == |s.trace| + 1 && after.trace[|s.trace|].Leave?
                              && after.trace[|s.trace|].deltaNs == 0 && after.trace[|s.trace|].depth == 0)
  {
  }

  /** What an unwound activation writes: the pending entry if it is of the catcher's function, and itself if
      it is not. */
  predicate SaysUnwound(c: Config, s: Shadow, fn: FnId, ts: int, after: seq<Event>) {
    if c.leaveOn && (fn != s.catcher || s.deferred.Some?) then
      && |after| == |s.trace| + 1 && after[..|s.trace|] == s.trace
      && after[|s.trace|].Leave? && after[|s.trace|].wallTimeNs == 0
      && if fn == s.catcher then
           var d := s.deferred.value;
           SaysLeft(c, after[|s.trace|], d.fn, d.entry.enterTsNs, d.tsNs, |s.stack|, false)
         else
           && s.stack != []
           && SaysLeft(c, after[|s.trace|], fn, s.stack[|s.stack| - 1].enterTsNs, ts, |s.stack| - 1, false)
    else after == s.trace
  }

  lemma UnwindWrites(c: Config, s: Shadow, fn: FnId, ts: int)
    requires c.Included(fn) && Stamped(s) && (fn != s.catcher ==> s.stack != [])
    requires s.deferred.Some? ==> c.Included(s.deferred.value.fn)
    ensures SaysUnwound(c, s, fn, ts, OnUnwind(c, s, fn, ts).trace)
  {
    if fn == s.catcher {
      assert OnUnwind(c, s, fn, ts).trace == Settled(c, s).trace;
    }
  }

  /** A visited frame writes a leave event, never as a tail call: of the pending entry, with the time it was
      visited, if the frame is of the catcher's function, and else of the entry it takes off. */
  lemma UnwindSays(c: Config, steps: seq<Step>, ts: int)
    requires Valid(c, steps) && Enabled(After(c, steps).world, Unwind(ts))
    ensures var y := After(c, steps);
            var s, after := y.shadow, Take(c, y, Unwind(ts)).shadow.trace;
            var fn := y.world.frames[|y.world.frames| - 1].fn;
            if c.exceptionsOn && Followed(c, fn) then SaysUnwound(c, s, fn, ts, after) else after == s.trace
  {
    var y := After(c, steps);
    var fn := y.world.frames[|y.world.frames| - 1].fn;
    RunStamped(c, steps);
    if c.exceptionsOn && c.Included(fn) {
      EntryThere(c, steps, Unwind(ts));
      RunShape(c, steps);
      UnwindWrites(c, y.shadow, fn, ts);
    }
  }

  /** Finding a catcher and entering its handler write nothing. */
  lemma CatcherSays(c: Config, steps: seq<Step>, step: Step)
    requires Valid(c, steps) && Enabled(After(c, steps).world, step) && (step.Throw? || step.Resume?)
    ensures Take(c, After(c, steps), step).shadow.trace == After(c, steps).shadow.trace
    ensures Take(c, After(c, steps), step).shadow.records == After(c, steps).shadow.records
  {
    if c.exceptionsOn {
      RunShape(c, steps);
    }
  }

  /** Outside an exception no catcher is remembered. */
  lemma {:induction false} NoCatcherAtRest(c: Config, steps: seq<Step>)
    requires Valid(c, steps)
    ensures After(c, steps).world.phase.Running? ==> After(c, steps).shadow.catcher == 0
  {
    if steps != [] {
      NoCatcherAtRest(c, steps[..|steps| - 1]);
      if !c.exceptionsOn {
        NeverToldOf(c, steps);
      }
    }
  }

  lemma {:induction false} NeverToldOf(c: Config, steps: seq<Step>)
    requires !c.exceptionsOn
    ensures After(c, steps).shadow.catcher == 0
  {
    if steps != [] {
      NeverToldOf(c, steps[..|steps| - 1]);
    }
  }

  // ---- The events of a history ----

  /** Every leave event of a history is about a call of it, with its own times and how it ended. */
  lemma LeaveOfHistory(c: Config, h: History, i: nat) returns (n: Node, depth: nat)
    requires i < |Emit(c, h)| && Emit(c, h)[i].Leave?
    ensures i < |Emit(c, h)| && Emit(c, h)[i].Leave?
    ensures n.fn in c.methods ==> SaysLeft(c, Emit(c, h)[i], n.fn, n.enterNs, n.leaveNs, depth, n.tailcall)
    ensures exists before, after :: CallTree.Closes(c, Emit(c, h), i, n, depth, before, after)
  {
    var before, after;
    n, depth, before, after := CallTree.ClosedInHistory(c, h, i);
    assert Emit(c, h)[i] == EmitNode(c, n, depth)[|EmitNode(c, n, depth)| - 1];
  }

  /** The first and the last event of a finished call. */
  lemma CallEvents(c: Config, n: Node, depth: nat)
    requires n.fn in c.methods
    ensures var es := EmitNode(c, n, depth);
            && 2 <= |es| && SaysLeft(c, es[|es| - 1], n.fn, n.enterNs, n.leaveNs, depth, n.tailcall)
            && var e := es[0];
               e.Enter? && e.tsNs == n.enterNs && e.tid == c.tid && e.depth == depth && Names(e, c.methods[n.fn])
  {
  }

  // ---- Switches ----

  /** The same session with everything written. */
  function AllOn(c: Config): Config {
    c.(enterOn := true, leaveOn := true, statsOn := true)
  }

  /** The enter events, the leave events, both or neither. */
  function Filtered(c: Config, es: seq<Event>): seq<Event> {
    if es == [] then []
    else
      var before, e := Filtered(c, es[..|es| - 1]), es[|es| - 1];
      if (e.Enter? && c.enterOn) || (e.Leave? && c.leaveOn) then before + [e] else before
  }

  /** `s` is `all` with what the switches keep back taken out. */
  ghost predicate Less(c: Config, s: Shadow, all: Shadow) {
    && s == all.(trace := s.trace, records := s.records)
    && s.trace == Filtered(c, all.trace)
    && s.records == if c.statsOn then all.records else []
  }

  lemma FilteredSnoc(c: Config, es: seq<Event>, e: Event)
    ensures Filtered(c, es + [e])
         == if (e.Enter? && c.enterOn) || (e.Leave? && c.leaveOn) then Filtered(c, es) + [e] else Filtered(c, es)
  {
    assert (es + [e])[..|es|] == es;
  }

  lemma EnterLess(c: Config, s: Shadow, all: Shadow, fn: FnId, ts: int)
    requires Less(c, s, all)
    ensures Less(c, OnEnter(c, s, fn, ts), OnEnter(AllOn(c), all, fn, ts))
  {
    if c.Included(fn) {
      FilteredSnoc(c, all.trace, EnterEvent(c, c.methods[fn], ts, |s.stack|));
    }
  }

  lemma CompleteLess(c: Config, s: Shadow, all: Shadow, entry: CallEntry, statsFn: FnId, fn: FnId, ts: int,
                     tailcall: bool, wallNs: int)
    requires Less(c, s, all)
    ensures Less(c, Complete(c, s, entry, statsFn, fn, ts, tailcall, wallNs),
                 Complete(AllOn(c), all, entry, statsFn, fn, ts, tailcall, wallNs))
  {
    if fn in c.methods {
      FilteredSnoc(c, all.trace, LeaveEvent(c, c.methods[fn], ts, |s.stack|, Inclusive(entry, ts), tailcall, wallNs));
    }
  }

  lemma LeaveLess(c: Config, s: Shadow, all: Shadow, fn: FnId, ts: int, tailcall: bool)
    requires Less(c, s, all)
    ensures Less(c, OnLeave(c, s, fn, ts, tailcall), OnLeave(AllOn(c), all, fn, ts, tailcall))
  {
    var (entry, rest) := Popped(s.stack);
    var wallNs := if c.IsAsync(fn) then WallTime(s.nesting, s.firstEnter, fn, ts) else 0;
    CompleteLess(c, UnnestedIfAsync(c, s.(stack := rest), fn), UnnestedIfAsync(c, all.(stack := rest), fn), entry,
                 fn, fn, ts, tailcall, wallNs);
  }

  lemma SettledLess(c: Config, s: Shadow, all: Shadow)
    requires Less(c, s, all)
    ensures Less(c, Settled(c, s), Settled(AllOn(c), all))
  {
    if s.deferred.Some? {
      var d := s.deferred.value;
      CompleteLess(c, UnnestedIfAsync(c, s.(deferred := None), d.fn), UnnestedIfAsync(c, all.(deferred := None), d.fn),
                   d.entry, d.fn, d.fn, d.tsNs, false, 0);
    }
  }

  lemma SetAsideLess(c: Config, s: Shadow, all: Shadow, rest: seq<CallEntry>, fn: FnId, d: Deferred)
    requires Less(c, s, all)
    ensures Less(c, UnnestedIfAsync(c, s.(stack := rest), fn).(deferred := Some(d)),
                 UnnestedIfAsync(AllOn(c), all.(stack := rest), fn).(deferred := Some(d)))
  {
  }

  lemma DeferLess(c: Config, s: Shadow, all: Shadow, ts: int)
    requires Less(c, s, all)
    ensures Less(c, OnUnwind(c, s, s.catcher, ts), OnUnwind(AllOn(c), all, s.catcher, ts))
  {
    SettledLess(c, s, all);
    var settled, settledAll := Settled(c, s), Settled(AllOn(c), all);
    var (entry, rest) := Popped(settled.stack);
    SetAsideLess(c, settled, settledAll, rest, s.catcher, Deferred(entry, s.catcher, ts));
  }

  lemma UnwindLess(c: Config, s: Shadow, all: Shadow, fn: FnId, ts: int)
    requires Less(c, s, all)
    ensures Less(c, OnUnwind(c, s, fn, ts), OnUnwind(AllOn(c), all, fn, ts))
  {
    if s.catcher == fn {
      DeferLess(c, s, all, ts);
    } else {
      var (entry, rest) := Popped(s.stack);
      CompleteLess(c, UnnestedIfAsync(c, s.(stack := rest), fn), UnnestedIfAsync(c, all.(stack := rest), fn), entry,
                   entry.fn, fn, ts, false, 0);
    }
  }

  lemma {:induction false} SameWorld(c: Config, d: Config, steps: seq<Step>)
    requires d.methods == c.methods
    ensures After(d, steps).world == After(c, steps).world
  {
    if steps != [] {
      SameWorld(c, d, steps[..|steps| - 1]);
    }
  }

  lemma TakeLess(c: Config, y: System, all: System, step: Step)
    requires Less(c, y.shadow, all.shadow) && all.world == y.world
    ensures Less(c, Take(c, y, step).shadow, Take(AllOn(c), all, step).shadow)
  {
    if Enabled(y.world, step) && Heard(c, step) {
      match step
      case Call(fn, ts) => EnterLess(c, y.shadow, all.shadow, fn, ts);
      case Return(ts, tailcall) =>
        LeaveLess(c, y.shadow, all.shadow, y.world.frames[|y.world.frames| - 1].fn, ts, tailcall);
      case Throw(_) => SettledLess(c, y.shadow, all.shadow);
      case Unwind(ts) => UnwindLess(c, y.shadow, all.shadow, y.world.frames[|y.world.frames| - 1].fn, ts);
      case Resume =>
    }
  }

  /** In every run, what a session writes is what it would write with everything switched on, less the kinds
      of events it did not ask for; the shadow stack and all other state are the same. */
  lemma {:induction false} SwitchesFilter(c: Config, steps: seq<Step>)
    ensures Less(c, After(c, steps).shadow, After(AllOn(c), steps).shadow)
  {
    if steps != [] {
      var before := steps[..|steps| - 1];
      SwitchesFilter(c, before);
      SameWorld(c, AllOn(c), before);
      TakeLess(c, After(c, before), After(AllOn(c), before), steps[|steps| - 1]);
    }
  }
}
