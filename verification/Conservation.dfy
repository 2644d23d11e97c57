/** Where the time goes.

    `TimeIdentity` accounts for every nanosecond over any sequence of callbacks at all, well formed
    or not: the self times recorded so far are the times of the calls that had no caller on the
    stack, plus what the open entries (the deferred one included) hold for their callers to
    subtract, plus whatever the clamp at zero threw away.  So time is conserved exactly when the
    clamp never fired, and it never does unless a deferred activation is overtaken (`NeverClamps`). */
module Conservation {
  import opened Accumulators
  import opened Options
  import opened ShadowStack
  import opened CallForest
  import opened Runtime
  import opened Monitoring
  import opened Refinement
  import opened Faithfulness

  datatype Callback =
    | Entered(fn: FnId, tsNs: int)
    | Left(fn: FnId, tsNs: int, tailcall: bool)
    | CatcherFound(fn: FnId)
    | Unwound(fn: FnId, tsNs: int)
    | CatcherEntered

  function Handle(c: Config, s: Shadow, cb: Callback): Shadow {
    match cb
    case Entered(fn, ts) => OnEnter(c, s, fn, ts)
    case Left(fn, ts, tailcall) => OnLeave(c, s, fn, ts, tailcall)
    case CatcherFound(fn) => OnCatcherFound(c, s, fn)
    case Unwound(fn, ts) => OnUnwind(c, s, fn, ts)
    case CatcherEntered => OnCatcherEnter(s)
  }

  /** Time of calls without a caller on the stack, and time lost to the clamp at zero. */
  datatype Books = Books(outsideNs: int, clampedNs: nat)

  function Booked(b: Books, rest: seq<CallEntry>, entry: CallEntry, tsNs: int): Books {
    var inclusiveNs := Inclusive(entry, tsNs);
    Books(b.outsideNs + (if rest != [] && inclusiveNs > 0 then 0 else inclusiveNs),
          b.clampedNs + Larger(0, entry.childrenTimeNs - inclusiveNs))
  }

  function BookedSettled(b: Books, s: Shadow): Books {
    match s.deferred
    case None => b
    case Some(d) => Booked(b, s.stack, d.entry, d.tsNs)
  }

  /** A callback completes at most one activation. */
  function Account(c: Config, s: Shadow, b: Books, cb: Callback): Books {
    match cb
    case Entered(_, _) => b
    case Left(fn, ts, _) => if c.Included(fn) then Booked(b, Popped(s.stack).1, Popped(s.stack).0, ts) else b
    case CatcherFound(_) => BookedSettled(b, s)
    case Unwound(fn, ts) =>
      if !c.Included(fn) then b
      else if s.catcher == fn then BookedSettled(b, s)
      else Booked(b, Popped(s.stack).1, Popped(s.stack).0, ts)
    case CatcherEntered => b
  }

  function Handled(c: Config, cbs: seq<Callback>): (Shadow, Books) {
    if cbs == [] then (EMPTY, Books(0, 0))
    else
      var (s, b) := Handled(c, cbs[..|cbs| - 1]);
      (Handle(c, s, cbs[|cbs| - 1]), Account(c, s, b, cbs[|cbs| - 1]))
  }

  function SelfTime(rs: seq<Record>): int {
    if rs == [] then 0 else SelfTime(rs[..|rs| - 1]) + rs[|rs| - 1].selfNs
  }

  function HeldBy(stack: seq<CallEntry>): int {
    if stack == [] then 0 else HeldBy(stack[..|stack| - 1]) + stack[|stack| - 1].childrenTimeNs
  }

  /** Children time of the open entries, the deferred one included. */
  function Held(s: Shadow): int {
    HeldBy(s.stack) + (if s.deferred.Some? then s.deferred.value.entry.childrenTimeNs else 0)
  }

  /** Completing an activation that is off the stack moves its time and loses none but the clamp. */
  lemma CompleteBalances(c: Config, t: Shadow, entry: CallEntry, statsFn: FnId, fn: FnId, tsNs: int,
                         tailcall: bool, wallNs: int, b: Books)
    requires c.statsOn
    requires SelfTime(t.records) == b.outsideNs + HeldBy(t.stack) + entry.childrenTimeNs + b.clampedNs
    ensures var z, after := Complete(c, t, entry, statsFn, fn, tsNs, tailcall, wallNs), Booked(b, t.stack, entry, tsNs);
            SelfTime(z.records) == after.outsideNs + HeldBy(z.stack) + after.clampedNs
  {
    var r := Record(statsFn, Inclusive(entry, tsNs), Self(entry, tsNs));
    assert (t.records + [r])[..|t.records|] == t.records;
  }

  ghost predicate Balanced(s: Shadow, b: Books) {
    SelfTime(s.records) == b.outsideNs + Held(s) + b.clampedNs
  }

  lemma SettledBalances(c: Config, s: Shadow, b: Books)
    requires c.statsOn && Balanced(s, b)
    ensures Balanced(Settled(c, s), BookedSettled(b, s)) && Settled(c, s).deferred.None?
  {
    if s.deferred.Some? {
      var d := s.deferred.value;
      CompleteBalances(c, UnnestedIfAsync(c, s.(deferred := None), d.fn), d.entry, d.fn, d.fn, d.tsNs, false, 0, b);
    }
  }

  lemma RestoredBalances(s: Shadow, b: Books)
    requires Balanced(s, b)
    ensures Balanced(OnCatcherEnter(s), b)
  {
    if s.deferred.Some? {
      assert (s.stack + [s.deferred.value.entry])[..|s.stack|] == s.stack;
    }
  }

  lemma LeaveBalances(c: Config, s: Shadow, b: Books, fn: FnId, ts: int, tailcall: bool)
    requires c.statsOn && Balanced(s, b)
    ensures Balanced(OnLeave(c, s, fn, ts, tailcall), Account(c, s, b, Left(fn, ts, tailcall)))
  {
    if c.Included(fn) {
      var (entry, rest) := Popped(s.stack);
      var wallNs := if c.IsAsync(fn) then WallTime(s.nesting, s.firstEnter, fn, ts) else 0;
      var held := if s.deferred.Some? then s.deferred.value.entry.childrenTimeNs else 0;
      CompleteBalances(c, UnnestedIfAsync(c, s.(stack := rest), fn), entry, fn, fn, ts, tailcall, wallNs,
                       b.(outsideNs := b.outsideNs + held));
    }
  }

  lemma DeferBalances(c: Config, s: Shadow, b: Books, ts: int)
    requires c.statsOn && Balanced(s, b) && c.Included(s.catcher)
    ensures Balanced(OnUnwind(c, s, s.catcher, ts), BookedSettled(b, s))
  {
    SettledBalances(c, s, b);
    var after := OnUnwind(c, s, s.catcher, ts);
    assert after.records == Settled(c, s).records;
    assert Held(after) == HeldBy(Settled(c, s).stack);
  }

  lemma UnwindBalances(c: Config, s: Shadow, b: Books, fn: FnId, ts: int)
    requires c.statsOn && Balanced(s, b) && s.catcher != fn
    ensures Balanced(OnUnwind(c, s, fn, ts), Account(c, s, b, Unwound(fn, ts)))
  {
    if c.Included(fn) {
      var (entry, rest) := Popped(s.stack);
      var held := if s.deferred.Some? then s.deferred.value.entry.childrenTimeNs else 0;
      CompleteBalances(c, UnnestedIfAsync(c, s.(stack := rest), fn), entry, entry.fn, fn, ts, false, 0,
                       b.(outsideNs := b.outsideNs + held));
    }
  }

  /** For every sequence of callbacks: recorded self time is outside time plus held time plus clamp
      losses; so it is outside plus held time exactly when the clamp lost nothing. */
  lemma {:induction false} TimeIdentity(c: Config, cbs: seq<Callback>)
    requires c.statsOn
    ensures var (s, b) := Handled(c, cbs);
            && SelfTime(s.records) == b.outsideNs + Held(s) + b.clampedNs
            && (SelfTime(s.records) == b.outsideNs + Held(s) <==> b.clampedNs == 0)
  {
    if cbs != [] {
      var before, cb := cbs[..|cbs| - 1], cbs[|cbs| - 1];
      var (s, b) := Handled(c, before);
      TimeIdentity(c, before);
      match cb
      case Entered(_, _) =>
      case Left(fn, ts, tailcall) => LeaveBalances(c, s, b, fn, ts, tailcall);
      case CatcherFound(_) => SettledBalances(c, s, b);
      case Unwound(fn, ts) =>
        if s.catcher != fn {
          UnwindBalances(c, s, b, fn, ts);
        } else if c.Included(fn) {
          DeferBalances(c, s, b, ts);
        }
      case CatcherEntered => RestoredBalances(s, b);
    }
  }

  // ---- Runs of the runtime ----

  function CallbackOf(w: World, step: Step): Callback
    requires Enabled(w, step)
  {
    match step
    case Call(fn, ts) => Entered(fn, ts)
    case Return(ts, tailcall) => Left(w.frames[|w.frames| - 1].fn, ts, tailcall)
    case Throw(k) => CatcherFound(w.frames[k].fn)
    case Unwind(ts) => Unwound(w.frames[|w.frames| - 1].fn, ts)
    case Resume => CatcherEntered
  }

  /** The callbacks of a run: one for every step the profiler hears of. */
  function Callbacks(c: Config, steps: seq<Step>): seq<Callback> {
    if steps == [] then []
    else
      var before, step := Callbacks(c, steps[..|steps| - 1]), steps[|steps| - 1];
      var w := After(c, steps[..|steps| - 1]).world;
      if Enabled(w, step) && Heard(c, step) then before + [CallbackOf(w, step)] else before
  }

  lemma HandlesCallback(c: Config, w: World, s: Shadow, step: Step)
    requires Enabled(w, step) && Heard(c, step)
    ensures Notified(c, w, s, step) == Handle(c, s, CallbackOf(w, step))
  {
  }

  lemma {:induction false} CallbacksDrive(c: Config, steps: seq<Step>)
    ensures Handled(c, Callbacks(c, steps)).0 == After(c, steps).shadow
  {
    if steps != [] {
      var before, step := steps[..|steps| - 1], steps[|steps| - 1];
      CallbacksDrive(c, before);
      var y := After(c, before);
      if Enabled(y.world, step) && Heard(c, step) {
        HandlesCallback(c, y.world, y.shadow, step);
      }
    }
  }

  /** The activation a step completes, if any, was not credited more than its own time. */
  ghost predicate Fits(entry: CallEntry, tsNs: int) {
    0 <= entry.childrenTimeNs <= Inclusive(entry, tsNs)
  }

  ghost predicate DeferredFits(s: Shadow) {
    s.deferred.Some? ==> Fits(s.deferred.value.entry, s.deferred.value.tsNs)
  }

  /** The moment the time of entry i is accounted up to. */
  function EntryUntil(stack: seq<CallEntry>, nowNs: int, i: nat): int {
    if i + 1 < |stack| then stack[i + 1].enterTsNs else nowNs
  }

  /** Entries nest in time, whether or not they are those of the true stack. */
  ghost predicate Nests(stack: seq<CallEntry>, nowNs: int) {
    forall i :: 0 <= i < |stack| ==>
      && 0 < stack[i].enterTsNs && 0 <= stack[i].childrenTimeNs
      && stack[i].enterTsNs + stack[i].childrenTimeNs <= EntryUntil(stack, nowNs, i)
  }

  lemma PopNests(stack: seq<CallEntry>, nowNs: int, ts: int)
    requires stack != [] && Nests(stack, nowNs) && nowNs <= ts
    ensures Nests(Credited(stack[..|stack| - 1], Inclusive(stack[|stack| - 1], ts)), ts)
  {
    var rest, entry := stack[..|stack| - 1], stack[|stack| - 1];
    var after := Credited(rest, Inclusive(entry, ts));
    forall i | 0 <= i < |after|
      ensures 0 < after[i].enterTsNs && 0 <= after[i].childrenTimeNs
      ensures after[i].enterTsNs + after[i].childrenTimeNs <= EntryUntil(after, ts, i)
    {
      assert rest[i] == stack[i];
      assert stack[i].enterTsNs + stack[i].childrenTimeNs <= EntryUntil(stack, nowNs, i);
      if i + 1 < |after| {
        assert after[i] == rest[i] && after[i + 1].enterTsNs == stack[i + 1].enterTsNs;
      }
    }
  }

  /** Without monitoring, nothing is deferred and the entries nest in time, however many were lost. */
  lemma {:induction false} UnheardNests(c: Config, steps: seq<Step>)
    requires Valid(c, steps) && !c.exceptionsOn
    ensures var y := After(c, steps); y.shadow.deferred.None? && Nests(y.shadow.stack, y.world.nowNs)
  {
    if steps != [] {
      var before, step := steps[..|steps| - 1], steps[|steps| - 1];
      UnheardNests(c, before);
      LostCounts(c, before);
      UnheardStepNests(c, After(c, before), step, Lost(c, before));
    }
  }

  lemma LaterNests(stack: seq<CallEntry>, nowNs: int, laterNs: int)
    requires Nests(stack, nowNs) && nowNs <= laterNs
    ensures Nests(stack, laterNs)
  {
  }

  lemma UnheardStepNests(c: Config, y: System, step: Step, lost: nat)
    requires !c.exceptionsOn && Enabled(y.world, step)
    requires WorldInv(c, y.world) && |y.shadow.stack| == |y.world.hist.open| + lost
    requires y.shadow.deferred.None? && Nests(y.shadow.stack, y.world.nowNs)
    ensures var z := Take(c, y, step); z.shadow.deferred.None? && Nests(z.shadow.stack, z.world.nowNs)
  {
    var w, s := y.world, y.shadow;
    match step
    case Call(fn, ts) =>
      if !c.Included(fn) {
        LaterNests(s.stack, w.nowNs, ts);
      }
    case Return(ts, _) =>
      InnermostOpen(c, w);
      if c.Included(w.frames[|w.frames| - 1].fn) {
        PopNests(s.stack, w.nowNs, ts);
      } else {
        LaterNests(s.stack, w.nowNs, ts);
      }
    case Unwind(ts) => LaterNests(s.stack, w.nowNs, ts);
    case Throw(_) =>
    case Resume =>
  }

  /** As long as no deferred activation was overtaken, the entries nest in time once it is where it belongs. */
  lemma ResolvedNests(c: Config, steps: seq<Step>)
    requires Valid(c, steps) && NoneOvertaken(c, steps)
    ensures Nests(Resolved(c, After(c, steps)).stack, After(c, steps).world.nowNs)
  {
    if c.exceptionsOn {
      RunStatus(c, steps);
    } else {
      UnheardNests(c, steps);
    }
  }

  /** Wherever the profiler hears of the end of an included activation there is an entry for it, the top one
      unless it is deferred at once. */
  lemma HasEntry(c: Config, steps: seq<Step>, step: Step)
    requires Valid(c, steps) && Enabled(After(c, steps).world, step) && Heard(c, step)
    requires step.Return? || step.Unwind?
    requires var w := After(c, steps).world; c.Included(w.frames[|w.frames| - 1].fn)
    ensures var s := After(c, steps).shadow; s.stack != [] && (step.Return? ==> s.deferred.None?)
    ensures var w, s := After(c, steps).world, After(c, steps).shadow;
            step.Unwind? ==> s.stack[|s.stack| - 1].fn == w.frames[|w.frames| - 1].fn
  {
    var y := After(c, steps);
    if c.exceptionsOn {
      RunShape(c, steps);
      InnermostEntry(c, y.world, y.shadow.stack);
    } else {
      LostCounts(c, steps);
      UnheardNests(c, steps);
      InnermostOpen(c, y.world);
    }
  }

  /** The entry that a step takes off the stack fits its own time. */
  lemma TopFits(c: Config, steps: seq<Step>, step: Step)
    requires Valid(c, steps) && NoneOvertaken(c, steps) && Enabled(After(c, steps).world, step) && Heard(c, step)
    requires step.Return? || step.Unwind?
    requires var fn := After(c, steps).world.frames[|After(c, steps).world.frames| - 1].fn;
             c.Included(fn) && (step.Unwind? ==> fn != After(c, steps).shadow.catcher)
    ensures var s := After(c, steps).shadow;
            s.deferred.None? && s.stack != [] && Fits(s.stack[|s.stack| - 1], step.tsNs)
  {
    var y := After(c, steps);
    HasEntry(c, steps, step);
    ResolvedNests(c, steps);
    if step.Unwind? {
      RunStatus(c, steps);
    }
    assert Resolved(c, y).stack == y.shadow.stack;
  }

  /** And so does the one it defers. */
  lemma DeferredTopFits(c: Config, steps: seq<Step>, ts: int)
    requires Valid(c, steps) && NoneOvertaken(c, steps) && Enabled(After(c, steps).world, Unwind(ts))
    requires c.exceptionsOn
    requires var fn := After(c, steps).world.frames[|After(c, steps).world.frames| - 1].fn;
             c.Included(fn) && fn == After(c, steps).shadow.catcher
    ensures var settled := Settled(c, After(c, steps).shadow);
            settled.stack != [] && Fits(settled.stack[|settled.stack| - 1], ts)
  {
    var y := After(c, steps);
    RunStatus(c, steps);
    ResolvedNests(c, steps);
    Faithfulness.Defers(c, y, ts);
  }

  lemma EndFits(c: Config, steps: seq<Step>, step: Step, b: Books)
    requires Valid(c, steps) && NoneOvertaken(c, steps) && DeferredFits(After(c, steps).shadow)
    requires Enabled(After(c, steps).world, step) && Heard(c, step) && (step.Return? || step.Unwind?)
    ensures var y := After(c, steps);
            && DeferredFits(Take(c, y, step).shadow)
            && Account(c, y.shadow, b, CallbackOf(y.world, step)).clampedNs == b.clampedNs
  {
    var y := After(c, steps);
    var s, fn := y.shadow, y.world.frames[|y.world.frames| - 1].fn;
    if c.Included(fn) {
      if step.Unwind? && fn == s.catcher {
        DeferredTopFits(c, steps, step.tsNs);
      } else {
        TopFits(c, steps, step);
      }
    }
  }

  lemma StepFits(c: Config, steps: seq<Step>, step: Step, b: Books)
    requires Valid(c, steps) && NoneOvertaken(c, steps) && DeferredFits(After(c, steps).shadow)
    requires Enabled(After(c, steps).world, step) && Heard(c, step)
    ensures var y := After(c, steps);
            && DeferredFits(Take(c, y, step).shadow)
            && Account(c, y.shadow, b, CallbackOf(y.world, step)).clampedNs == b.clampedNs
  {
    if step.Return? || step.Unwind? {
      EndFits(c, steps, step, b);
    }
  }

  /** The clamp cuts nothing off as long as no deferred activation is overtaken; so without monitoring never.
      Recorded self time is then outside plus held time, of whatever calls were recorded. */
  lemma {:induction false} NeverClamps(c: Config, steps: seq<Step>)
    requires Valid(c, steps) && NoneOvertaken(c, steps)
    ensures DeferredFits(After(c, steps).shadow)
    ensures var (s, b) := Handled(c, Callbacks(c, steps));
            && b.clampedNs == 0 && s == After(c, steps).shadow
            && (c.statsOn ==> SelfTime(s.records) == b.outsideNs + Held(s))
  {
    if steps != [] {
      var before, step := steps[..|steps| - 1], steps[|steps| - 1];
      NeverClamps(c, before);
      if Heard(c, step) {
        StepFits(c, before, step, Handled(c, Callbacks(c, before)).1);
      }
    }
    CallbacksDrive(c, steps);
    if c.statsOn {
      TimeIdentity(c, Callbacks(c, steps));
    }
  }

  // ---- The same from the forest: outermost time is self time ----

  lemma SelfTimeAppend(a: seq<Record>, b: seq<Record>)
    ensures SelfTime(a + b) == SelfTime(a) + SelfTime(b)
  {
    if b == [] {
      assert a + b == a;
    } else {
      assert (a + b)[..|a + b| - 1] == a + b[..|b| - 1];
      SelfTimeAppend(a, b[..|b| - 1]);
    }
  }

  /** The self times inside a call add up to its inclusive time. */
  lemma {:induction false} SelfTimeOfNode(n: Node)
    ensures SelfTime(RecordedNode(n)) == n.Inclusive()
    decreases n, 1
  {
    SelfTimeOfForest(n.kids);
    SelfTimeAppend(RecordedForest(n.kids), [RecordOf(n)]);
  }

  lemma {:induction false} SelfTimeOfForest(ns: seq<Node>)
    ensures SelfTime(RecordedForest(ns)) == KidsTime(ns)
    decreases ns, 0
  {
    if ns != [] {
      SelfTimeOfForest(ns[..|ns| - 1]);
      SelfTimeOfNode(ns[|ns| - 1]);
      SelfTimeAppend(RecordedForest(ns[..|ns| - 1]), RecordedNode(ns[|ns| - 1]));
    }
  }

  // ---- Main result ----

  /** The children time an agreeing stack holds is what the calls finished inside the open ones record. */
  lemma {:induction false} HeldIsRecorded(stack: seq<CallEntry>, open: seq<Open>)
    requires SameStack(stack, open)
    ensures HeldBy(stack) == SelfTime(RecordedOpen(open))
  {
    if open != [] {
      var last := |open| - 1;
      HeldIsRecorded(stack[..last], open[..last]);
      SelfTimeAppend(RecordedOpen(open[..last]), RecordedForest(open[last].kids));
      SelfTimeOfForest(open[last].kids);
    }
  }

  lemma OutsideOfExact(c: Config, s: Shadow, h: History, b: Books)
    requires c.statsOn && Exact(c, s, h) && s.deferred.None? && Balanced(s, b) && b.clampedNs == 0
    ensures b.outsideNs == KidsTime(h.roots)
  {
    SelfTimeAppend(RecordedForest(h.roots), RecordedOpen(h.open));
    SelfTimeOfForest(h.roots);
    HeldIsRecorded(s.stack, h.open);
  }

  lemma {:induction false} HookedHas(c: Config, frames: seq<Frame>, k: nat)
    requires k < |frames| && c.Included(frames[k].fn)
    ensures Hooked(c, frames) != []
  {
    if k < |frames| - 1 {
      HookedHas(c, frames[..|frames| - 1], k);
    }
  }

  /** An activation deferred before its catcher is reached still has a caller to be credited to. */
  lemma DeferredInside(c: Config, y: System, b: Books)
    requires ShapeInv(c, y) && !y.world.phase.Landed? && DeferredFits(y.shadow)
    ensures BookedSettled(b, y.shadow) == b
  {
    if y.shadow.deferred.Some? {
      HookedHas(c, y.world.frames, y.world.phase.k);
      assert |y.shadow.stack| == |Shape(y.shadow.stack)| == |Hooked(c, y.world.frames)|;
    }
  }

  lemma OutsideIsRoots(c: Config, y: System, b: Books)
    requires c.statsOn && ShapeInv(c, y) && Tracked(c, y) && DeferredFits(y.shadow)
    requires Balanced(y.shadow, b) && b.clampedNs == 0
    ensures b.outsideNs == KidsTime(y.world.hist.roots)
  {
    if y.world.phase.Landed? {
      RestoredBalances(y.shadow, b);
      OutsideOfExact(c, Restored(y.shadow), y.world.hist, b);
    } else {
      DeferredInside(c, y, b);
      SettledBalances(c, y.shadow, b);
      OutsideOfExact(c, Settled(c, y.shadow), y.world.hist, b);
    }
  }

  /** At every moment of a clean run, unwinding included, the recorded self times are exactly the
      inclusive times of the finished outermost calls plus the children time still held by open entries. */
  lemma TimeConserved(c: Config, steps: seq<Step>)
    requires Valid(c, steps) && Clean(c, steps) && c.statsOn
    ensures var y := After(c, steps);
            SelfTime(y.shadow.records) == KidsTime(y.world.hist.roots) + Held(y.shadow)
    ensures Handled(c, Callbacks(c, steps)).1.outsideNs == KidsTime(After(c, steps).world.hist.roots)
  {
    NeverClamps(c, steps);
    CallbacksDrive(c, steps);
    TimeIdentity(c, Callbacks(c, steps));
    RunStatus(c, steps);
    OutsideIsRoots(c, After(c, steps), Handled(c, Callbacks(c, steps)).1);
  }
}
