/** The async wall-time bookkeeping of the shadow stack.

    For each async state machine the thread keeps a nesting count and the time of the outermost
    enter.  In a session that monitors exceptions they agree with the true stack throughout a run if and
    only if no async state machine ever was the catcher: a catching frame is counted out when it is
    deferred although it stays on the stack.  In one that does not, they agree if and only if no unwind
    ended an activation of an async state machine: it stays counted. */
module AsyncNesting {
  import opened Accumulators
  import opened ShadowStack
  import opened CallForest
  import opened Runtime
  import opened Monitoring
  import opened Refinement
  import opened Timing

  function Activations(open: seq<Open>, fn: FnId): nat {
    if open == [] then 0
    else Activations(open[..|open| - 1], fn) + if open[|open| - 1].fn == fn then 1 else 0
  }

  /** Enter time of the outermost open activation of `fn`. */
  function OutermostEnter(open: seq<Open>, fn: FnId): int
    requires 0 < Activations(open, fn)
  {
    var outer := open[..|open| - 1];
    if 0 < Activations(outer, fn) then OutermostEnter(outer, fn) else open[|open| - 1].enterNs
  }

  predicate Tracks(c: Config, fn: FnId) {
    c.Included(fn) && c.IsAsync(fn)
  }

  /** Counts and first-enter times are those of the true stack, and nothing else is kept. */
  predicate AgreesOn(c: Config, s: Shadow, open: seq<Open>, fn: FnId) {
    if Tracks(c, fn) && 0 < Activations(open, fn) then
      && fn in s.nesting && s.nesting[fn] == Activations(open, fn)
      && fn in s.firstEnter && s.firstEnter[fn] == OutermostEnter(open, fn)
    else fn !in s.nesting && fn !in s.firstEnter
  }

  ghost predicate Agrees(c: Config, s: Shadow, open: seq<Open>) {
    forall fn :: AgreesOn(c, s, open, fn)
  }

  /** Unwinding to frame k upsets the count of an async state machine. */
  predicate Miscounted(c: Config, frames: seq<Frame>, k: nat)
    requires k < |frames|
  {
    if c.exceptionsOn then Tracks(c, frames[k].fn)
    else exists i :: k < i < |frames| && Tracks(c, frames[i].fn)
  }

  predicate Miscounts(c: Config, w: World, step: Step) {
    step.Throw? && step.k < |w.frames| && Miscounted(c, w.frames, step.k)
  }

  /** No throw of the run upset a count. */
  predicate CountsKept(c: Config, steps: seq<Step>) {
    steps != [] ==>
      && CountsKept(c, steps[..|steps| - 1])
      && !Miscounts(c, After(c, steps[..|steps| - 1]).world, steps[|steps| - 1])
  }

  // ---- Activations come and go ----

  lemma ActivationsSnoc(open: seq<Open>, o: Open, fn: FnId)
    ensures Activations(open + [o], fn) == Activations(open, fn) + if o.fn == fn then 1 else 0
    ensures 0 < Activations(open, fn) ==> OutermostEnter(open + [o], fn) == OutermostEnter(open, fn)
    ensures Activations(open, fn) == 0 && o.fn == fn ==> OutermostEnter(open + [o], fn) == o.enterNs
  {
    assert (open + [o])[..|open|] == open;
  }

  /** Both functions see only which method was entered when. */
  lemma {:induction false} ActivationsByOutline(a: seq<Open>, b: seq<Open>, fn: FnId)
    requires Outline(a) == Outline(b)
    ensures Activations(a, fn) == Activations(b, fn)
    ensures 0 < Activations(a, fn) ==> OutermostEnter(a, fn) == OutermostEnter(b, fn)
  {
    assert |a| == |Outline(a)| == |Outline(b)| == |b|;
    if a != [] {
      var last := |a| - 1;
      assert Outline(a)[last] == Outline(b)[last];
      assert Outline(a[..last]) == Outline(a)[..last] == Outline(b)[..last] == Outline(b[..last]);
      ActivationsByOutline(a[..last], b[..last], fn);
    }
  }

  lemma BeginAgrees(c: Config, s: Shadow, h: History, fn: FnId, tsNs: int)
    requires Agrees(c, s, h.open) && c.Included(fn)
    ensures Agrees(c, OnEnter(c, s, fn, tsNs), Begin(h, fn, tsNs).open)
  {
    forall g ensures AgreesOn(c, OnEnter(c, s, fn, tsNs), Begin(h, fn, tsNs).open, g) {
      assert AgreesOn(c, s, h.open, g);
      ActivationsSnoc(h.open, Open(fn, tsNs, []), g);
    }
  }

  lemma EndAgrees(c: Config, s: Shadow, h: History, tsNs: int, tailcall: bool)
    requires Agrees(c, s, h.open) && h.open != [] && c.Included(h.open[|h.open| - 1].fn)
    ensures Agrees(c, UnnestedIfAsync(c, s, h.open[|h.open| - 1].fn), End(h, tsNs, tailcall).open)
  {
    var outer, top := h.open[..|h.open| - 1], h.open[|h.open| - 1];
    assert h.open == outer + [top];
    forall g ensures AgreesOn(c, UnnestedIfAsync(c, s, top.fn), End(h, tsNs, tailcall).open, g) {
      assert AgreesOn(c, s, h.open, g);
      ActivationsSnoc(outer, top, g);
    }
  }

  lemma SameMaps(c: Config, s: Shadow, t: Shadow, open: seq<Open>)
    requires Agrees(c, s, open) && t.nesting == s.nesting && t.firstEnter == s.firstEnter
    ensures Agrees(c, t, open)
  {
    forall fn ensures AgreesOn(c, t, open, fn) {
      assert AgreesOn(c, s, open, fn);
    }
  }

  // ---- Runs that keep the counts ----

  predicate NoneMiscounted(c: Config, w: World) {
    w.phase.Unwinding? && w.phase.k < |w.frames| ==> !Miscounted(c, w.frames, w.phase.k)
  }

  /** A frame ends: the counts follow the stack, whatever is deferred. */
  lemma EndingAgrees(c: Config, y: System, tsNs: int, tailcall: bool, t: Shadow)
    requires WorldInv(c, y.world) && y.world.frames != [] && Agrees(c, y.shadow, y.world.hist.open)
    requires var fn := y.world.frames[|y.world.frames| - 1].fn;
             var after := if c.Included(fn) then UnnestedIfAsync(c, y.shadow, fn) else y.shadow;
             t.nesting == after.nesting && t.firstEnter == after.firstEnter
    ensures Agrees(c, t, Ending(c, y.world, tsNs, tailcall).hist.open)
  {
    InnermostOpen(c, y.world);
    var fn := y.world.frames[|y.world.frames| - 1].fn;
    var open := Ending(c, y.world, tsNs, tailcall).hist.open;
    if c.Included(fn) {
      assert Outline(y.world.hist.open)[|y.world.hist.open| - 1].fn == fn;
      EndAgrees(c, y.shadow, y.world.hist, tsNs, tailcall);
      SameMaps(c, UnnestedIfAsync(c, y.shadow, fn), t, open);
    } else {
      SameMaps(c, y.shadow, t, open);
    }
  }

  lemma TakeAgrees(c: Config, y: System, step: Step)
    requires WorldInv(c, y.world) && (c.exceptionsOn ==> ShapeInv(c, y))
    requires Agrees(c, y.shadow, y.world.hist.open) && NoneMiscounted(c, y.world)
    requires Enabled(y.world, step) && !Miscounts(c, y.world, step)
    ensures Agrees(c, Take(c, y, step).shadow, Take(c, y, step).world.hist.open)
    ensures NoneMiscounted(c, Take(c, y, step).world)
  {
    var w, s, z := y.world, y.shadow, Take(c, y, step);
    match step
    case Call(fn, ts) =>
      if c.Included(fn) {
        BeginAgrees(c, s, w.hist, fn, ts);
      }
    case Return(ts, tailcall) => EndingAgrees(c, y, ts, tailcall, z.shadow);
    case Throw(_) => SameMaps(c, s, z.shadow, w.hist.open);
    case Unwind(ts) => UnwindAgrees(c, y, ts);
    case Resume => SameMaps(c, s, z.shadow, w.hist.open);
  }

  lemma UnwindAgrees(c: Config, y: System, ts: int)
    requires WorldInv(c, y.world) && (c.exceptionsOn ==> ShapeInv(c, y))
    requires Agrees(c, y.shadow, y.world.hist.open) && NoneMiscounted(c, y.world) && Enabled(y.world, Unwind(ts))
    ensures Agrees(c, Take(c, y, Unwind(ts)).shadow, Take(c, y, Unwind(ts)).world.hist.open)
    ensures NoneMiscounted(c, Take(c, y, Unwind(ts)).world)
  {
    var w, s, z := y.world, y.shadow, Take(c, y, Unwind(ts));
    if c.exceptionsOn {
      UnwindMaps(c, y, ts);
    }
    if w.phase.k == |w.frames| - 1 {
      SameMaps(c, s, z.shadow, w.hist.open);
    } else {
      EndingAgrees(c, y, ts, false, z.shadow);
    }
  }

  /** When the catcher is not an async state machine, deferring leaves the counts alone. */
  lemma UnwindMaps(c: Config, y: System, ts: int)
    requires c.exceptionsOn && ShapeInv(c, y) && NoneMiscounted(c, y.world) && Enabled(y.world, Unwind(ts))
    ensures var fn, z := y.world.frames[|y.world.frames| - 1].fn, Take(c, y, Unwind(ts)).shadow;
            var after := if c.Included(fn) then UnnestedIfAsync(c, y.shadow, fn) else y.shadow;
            z.nesting == after.nesting && z.firstEnter == after.firstEnter
  {
    var s, fn := y.shadow, y.world.frames[|y.world.frames| - 1].fn;
    if c.Included(fn) && s.catcher == fn {
      var settled := Settled(c, s);
      assert settled.nesting == s.nesting && settled.firstEnter == s.firstEnter;
    }
  }

  // ---- The first async catcher ----

  function Level(s: Shadow, fn: FnId): int {
    if fn in s.nesting then s.nesting[fn] else 0
  }

  /** An async state machine is catching, and its count has fallen behind or is about to. */
  ghost predicate FallingBehind(c: Config, y: System) {
    var w := y.world;
    match w.phase
    case Running => false
    case Unwinding(k) =>
      && k < |w.frames| && Tracks(c, w.frames[k].fn)
      && Level(y.shadow, w.frames[k].fn) <= Activations(w.hist.open, w.frames[k].fn)
    case Landed =>
      && w.frames != [] && Tracks(c, w.frames[|w.frames| - 1].fn)
      && Level(y.shadow, w.frames[|w.frames| - 1].fn)
           < Activations(w.hist.open, w.frames[|w.frames| - 1].fn)
  }

  lemma {:induction false} HookedActive(c: Config, open: seq<Open>, frames: seq<Frame>, k: nat)
    requires Outline(open) == Hooked(c, frames) && k < |frames| && c.Included(frames[k].fn)
    ensures 0 < Activations(open, frames[k].fn)
    decreases |frames|
  {
    var outer, top := frames[..|frames| - 1], frames[|frames| - 1];
    if c.Included(top.fn) {
      assert |open| == |Outline(open)|;
      var inner := open[..|open| - 1];
      assert Outline(open)[|open| - 1] == top;
      assert Outline(inner) == Outline(open)[..|open| - 1] == Hooked(c, outer);
      if k < |frames| - 1 {
        HookedActive(c, inner, outer, k);
      }
    } else {
      HookedActive(c, open, outer, k);
    }
  }

  lemma LevelAfter(c: Config, s: Shadow, fn: FnId, g: FnId)
    ensures Level(UnnestedIfAsync(c, s, fn), g)
         == if fn != g || !c.IsAsync(fn) || fn !in s.nesting then Level(s, g)
            else if s.nesting[fn] <= 1 then 0 else s.nesting[fn] - 1
  {
  }

  lemma EndingActivations(c: Config, w: World, tsNs: int, tailcall: bool, g: FnId)
    requires WorldInv(c, w) && w.frames != []
    ensures var fn := w.frames[|w.frames| - 1].fn;
            var one := if c.Included(fn) && fn == g then 1 else 0;
            Activations(Ending(c, w, tsNs, tailcall).hist.open, g) == Activations(w.hist.open, g) - one
  {
    InnermostOpen(c, w);
    var fn, open := w.frames[|w.frames| - 1].fn, w.hist.open;
    if c.Included(fn) {
      assert Outline(open)[|open| - 1].fn == fn;
    }
  }

  lemma UnwindLevel(c: Config, y: System, ts: int)
    requires c.exceptionsOn && ShapeInv(c, y) && FallingBehind(c, y) && Enabled(y.world, Unwind(ts))
    ensures var z, top := Take(c, y, Unwind(ts)).shadow, y.world.frames[|y.world.frames| - 1].fn;
            var one := if top == y.shadow.catcher then 1 else 0;
            Level(z, y.shadow.catcher) <= Activations(y.world.hist.open, y.shadow.catcher) - one
  {
    var w, s := y.world, y.shadow;
    var top, catcher := w.frames[|w.frames| - 1].fn, s.catcher;
    if top == catcher {
      HookedActive(c, w.hist.open, w.frames, w.phase.k);
    } else if c.Included(top) {
      LevelAfter(c, s.(stack := Popped(s.stack).1), top, catcher);
    }
  }

  lemma UnwindFallsBehind(c: Config, y: System, ts: int)
    requires c.exceptionsOn && ShapeInv(c, y) && FallingBehind(c, y) && Enabled(y.world, Unwind(ts))
    ensures FallingBehind(c, Take(c, y, Unwind(ts)))
  {
    UnwindLevel(c, y, ts);
    EndingActivations(c, y.world, ts, false, y.shadow.catcher);
  }

  /** Some moment between two steps of the run, outside any unwind, finds the counts wrong. */
  ghost predicate EverWrong(c: Config, steps: seq<Step>) {
    exists n :: 0 <= n <= |steps| && WrongAt(c, steps[..n])
  }

  ghost predicate WrongAt(c: Config, steps: seq<Step>) {
    var y := After(c, steps);
    y.world.phase.Running? && !Agrees(c, y.shadow, y.world.hist.open)
  }

  lemma WrongStays(c: Config, steps: seq<Step>, before: seq<Step>)
    requires before <= steps && EverWrong(c, before)
    ensures EverWrong(c, steps)
  {
    var n :| 0 <= n <= |before| && WrongAt(c, before[..n]);
    assert steps[..n] == before[..n];
  }

  lemma WrongNow(c: Config, steps: seq<Step>)
    requires WrongAt(c, steps)
    ensures EverWrong(c, steps)
  {
    assert steps[..|steps|] == steps;
  }

  lemma ResumesWrong(c: Config, y: System)
    requires ShapeInv(c, y) && FallingBehind(c, y) && y.world.phase.Landed?
    ensures var z := Take(c, y, Resume); z.world.phase.Running? && !Agrees(c, z.shadow, z.world.hist.open)
  {
    var z, fn := Take(c, y, Resume), y.world.frames[|y.world.frames| - 1].fn;
    HookedActive(c, y.world.hist.open, y.world.frames, |y.world.frames| - 1);
    assert !AgreesOn(c, z.shadow, z.world.hist.open, fn);
  }

  // ---- The first async activation unwound unheard ----

  /** How far the count of `g` is ahead of the stack. */
  function Lead(y: System, g: FnId): int {
    Level(y.shadow, g) - Activations(y.world.hist.open, g)
  }

  /** No count is behind the stack. */
  ghost predicate KeepUp(c: Config, y: System) {
    forall g :: Tracks(c, g) ==> 0 <= Lead(y, g)
  }

  ghost predicate Ahead(c: Config, y: System) {
    exists g :: Tracks(c, g) && 0 < Lead(y, g)
  }

  lemma ReturnLead(c: Config, y: System, ts: int, tailcall: bool, g: FnId)
    requires WorldInv(c, y.world) && Enabled(y.world, Return(ts, tailcall))
    requires Tracks(c, g) && 0 <= Lead(y, g)
    ensures Lead(Take(c, y, Return(ts, tailcall)), g) == Lead(y, g)
  {
    var s, fn := y.shadow, y.world.frames[|y.world.frames| - 1].fn;
    EndingActivations(c, y.world, ts, tailcall, g);
    if c.Included(fn) {
      var popped := s.(stack := Popped(s.stack).1);
      LevelAfter(c, popped, fn, g);
      assert OnLeave(c, s, fn, ts, tailcall).nesting == UnnestedIfAsync(c, popped, fn).nesting;
    }
  }

  lemma EnterLevel(c: Config, s: Shadow, fn: FnId, ts: int, g: FnId)
    ensures Level(OnEnter(c, s, fn, ts), g) == Level(s, g) + if Tracks(c, fn) && fn == g then 1 else 0
  {
  }

  lemma CallLead(c: Config, y: System, fn: FnId, ts: int, g: FnId)
    requires WorldInv(c, y.world) && Enabled(y.world, Call(fn, ts)) && Tracks(c, g)
    ensures Lead(Take(c, y, Call(fn, ts)), g) == Lead(y, g)
  {
    EnterLevel(c, y.shadow, fn, ts, g);
    if c.Included(fn) {
      ActivationsSnoc(y.world.hist.open, Open(fn, ts, []), g);
    }
  }

  /** The lead never goes down, and it goes up when the profiler does not hear of an activation's end. */
  lemma TakeLead(c: Config, y: System, step: Step, g: FnId)
    requires !c.exceptionsOn && WorldInv(c, y.world) && Enabled(y.world, step)
    requires Tracks(c, g) && 0 <= Lead(y, g)
    ensures var one := if Loses(c, y.world, step) && y.world.frames[|y.world.frames| - 1].fn == g then 1 else 0;
            Lead(Take(c, y, step), g) == Lead(y, g) + one
  {
    match step
    case Call(fn, ts) => CallLead(c, y, fn, ts, g);
    case Return(ts, tailcall) => ReturnLead(c, y, ts, tailcall, g);
    case Throw(_) =>
    case Unwind(ts) => EndingActivations(c, y.world, ts, false, g);
    case Resume =>
  }

  lemma TakeAhead(c: Config, y: System, step: Step)
    requires !c.exceptionsOn && WorldInv(c, y.world) && Enabled(y.world, step)
    requires KeepUp(c, y)
    ensures var z := Take(c, y, step);
            && KeepUp(c, z)
            && (Ahead(c, y) ==> Ahead(c, z))
            && (Loses(c, y.world, step) && Tracks(c, y.world.frames[|y.world.frames| - 1].fn) ==> Ahead(c, z))
  {
    forall g | Tracks(c, g) {
      TakeLead(c, y, step, g);
    }
  }

  lemma StillMiscounted(c: Config, w: World, step: Step)
    requires !c.exceptionsOn && Enabled(w, step) && !NoneMiscounted(c, w)
    ensures !NoneMiscounted(c, Next(c, w, step))
            || (Loses(c, w, step) && Tracks(c, w.frames[|w.frames| - 1].fn))
  {
    var i :| w.phase.k < i < |w.frames| && Tracks(c, w.frames[i].fn);
    if i < |w.frames| - 1 {
      assert w.frames[..|w.frames| - 1][i] == w.frames[i];
    }
  }

  /** Without monitoring, a count is ahead for good once an async activation was unwound. */
  lemma {:induction false} UnheardStatus(c: Config, steps: seq<Step>)
    requires Valid(c, steps) && !c.exceptionsOn
    ensures var y := After(c, steps);
            && WorldInv(c, y.world)
            && KeepUp(c, y)
            && (CountsKept(c, steps) || Ahead(c, y) || !NoneMiscounted(c, y.world))
  {
    LostCounts(c, steps);
    if steps != [] {
      var before, step := steps[..|steps| - 1], steps[|steps| - 1];
      var y := After(c, before);
      UnheardStatus(c, before);
      TakeAhead(c, y, step);
      if !NoneMiscounted(c, y.world) {
        StillMiscounted(c, y.world, step);
      }
    }
  }

  // ---- Every run ----

  /** The counts agree until a throw that upsets one.  From then on they have been wrong, or a count has
      fallen behind (ahead, if the session does not monitor exceptions) or is about to. */
  lemma AsyncStatus(c: Config, steps: seq<Step>)
    requires Valid(c, steps)
    ensures var y := After(c, steps);
            if CountsKept(c, steps) then Agrees(c, y.shadow, y.world.hist.open) && NoneMiscounted(c, y.world)
            else if c.exceptionsOn then EverWrong(c, steps) || FallingBehind(c, y)
            else Ahead(c, y) || !NoneMiscounted(c, y.world)
  {
    if CountsKept(c, steps) {
      KeptAgrees(c, steps);
    } else if c.exceptionsOn {
      HeardStatus(c, steps);
    } else {
      UnheardStatus(c, steps);
    }
  }

  lemma {:induction false} KeptAgrees(c: Config, steps: seq<Step>)
    requires Valid(c, steps) && CountsKept(c, steps)
    ensures Agrees(c, After(c, steps).shadow, After(c, steps).world.hist.open)
    ensures NoneMiscounted(c, After(c, steps).world)
  {
    if steps == [] {
      forall fn ensures AgreesOn(c, EMPTY, [], fn) {}
    } else {
      var before, step := steps[..|steps| - 1], steps[|steps| - 1];
      KeptAgrees(c, before);
      RunWellTimed(c, before);
      if c.exceptionsOn {
        RunShape(c, before);
      }
      TakeAgrees(c, After(c, before), step);
    }
  }

  lemma {:induction false} HeardStatus(c: Config, steps: seq<Step>)
    requires Valid(c, steps) && c.exceptionsOn && !CountsKept(c, steps)
    ensures EverWrong(c, steps) || FallingBehind(c, After(c, steps))
  {
    var before, step := steps[..|steps| - 1], steps[|steps| - 1];
    var y := After(c, before);
    RunShape(c, before);
    if CountsKept(c, before) {
      KeptAgrees(c, before);
      assert AgreesOn(c, y.shadow, y.world.hist.open, y.world.frames[step.k].fn);
    } else {
      HeardStatus(c, before);
      if EverWrong(c, before) {
        WrongStays(c, steps, before);
      } else if step.Resume? {
        ResumesWrong(c, y);
        WrongNow(c, steps);
      } else {
        UnwindFallsBehind(c, y, step.tsNs);
      }
    }
  }

  // ---- Main results ----

  lemma {:induction false} KeptNeverWrong(c: Config, steps: seq<Step>, n: nat)
    requires Valid(c, steps) && CountsKept(c, steps) && n <= |steps|
    ensures !WrongAt(c, steps[..n])
  {
    if n == |steps| {
      assert steps[..n] == steps;
      AsyncStatus(c, steps);
    } else {
      var before := steps[..|steps| - 1];
      KeptNeverWrong(c, before, n);
      assert before[..n] == steps[..n];
    }
  }

  /** The async counts agree with the stack at every moment outside an unwind if and only if no async
      state machine caught an exception, in a session that monitors exceptions, and none was unwound,
      in one that does not. */
  lemma AsyncAgreesIff(c: Config, steps: seq<Step>)
    requires Valid(c, steps) && After(c, steps).world.phase.Running?
    ensures CountsKept(c, steps) <==> !EverWrong(c, steps)
  {
    AsyncStatus(c, steps);
    if CountsKept(c, steps) {
      forall n | 0 <= n <= |steps| ensures !WrongAt(c, steps[..n]) {
        KeptNeverWrong(c, steps, n);
      }
    } else if !c.exceptionsOn {
      AheadWrong(c, steps);
    }
  }

  lemma AheadWrong(c: Config, steps: seq<Step>)
    requires var y := After(c, steps); y.world.phase.Running? && Ahead(c, y)
    ensures EverWrong(c, steps)
  {
    var y := After(c, steps);
    var g :| Tracks(c, g) && 0 < Lead(y, g);
    assert !AgreesOn(c, y.shadow, y.world.hist.open, g);
    WrongNow(c, steps);
  }

  lemma EntryTime(stack: seq<CallEntry>, open: seq<Open>)
    requires Shape(stack) == Outline(open) && open != []
    ensures stack != [] && stack[|stack| - 1].enterTsNs == open[|open| - 1].enterNs
  {
    assert |stack| == |Shape(stack)| == |Outline(open)| == |open|;
    assert Shape(stack)[|stack| - 1] == Outline(open)[|open| - 1];
  }

  /** The innermost frame and open activation agree on when it was entered. */
  lemma InnermostTimes(c: Config, w: World)
    requires WorldInv(c, w) && w.frames != [] && c.Included(w.frames[|w.frames| - 1].fn)
    ensures var open, top := w.hist.open, w.frames[|w.frames| - 1];
            && open != [] && open[|open| - 1].fn == top.fn
            && open[|open| - 1].enterNs == top.enterNs
            && 0 < top.enterNs <= w.nowNs
  {
    var open := w.hist.open;
    InnermostOpen(c, w);
    assert Until(open, w.nowNs, |open| - 1) == w.nowNs;
    assert open[|open| - 1].enterNs + KidsTime(open[|open| - 1].kids) <= w.nowNs;
  }

  /** The innermost entry of a stack that was kept is that of the innermost frame. */
  lemma KeptEntry(c: Config, steps: seq<Step>)
    requires Valid(c, steps) && StackKept(c, steps)
    requires var w := After(c, steps).world;
             w.phase.Running? && w.frames != [] && c.Included(w.frames[|w.frames| - 1].fn)
    ensures var stack, w := After(c, steps).shadow.stack, After(c, steps).world;
            stack != [] && stack[|stack| - 1].enterTsNs == w.frames[|w.frames| - 1].enterNs
  {
    RunShape(c, steps);
    InnermostTimes(c, After(c, steps).world);
    EntryTime(After(c, steps).shadow.stack, After(c, steps).world.hist.open);
  }

  lemma AsyncLeave(c: Config, s: Shadow, fn: FnId, ts: int, tailcall: bool)
    requires c.leaveOn && Tracks(c, fn)
    ensures var (entry, rest) := Popped(s.stack);
            OnLeave(c, s, fn, ts, tailcall).trace
            == s.trace + [LeaveEvent(c, c.methods[fn], ts, |rest|, Inclusive(entry, ts), tailcall,
                                     WallTime(s.nesting, s.firstEnter, fn, ts))]
  {
  }

  lemma AgreedWallTime(c: Config, y: System, ts: int)
    requires WorldInv(c, y.world) && Agrees(c, y.shadow, y.world.hist.open)
    requires y.world.frames != [] && Tracks(c, y.world.frames[|y.world.frames| - 1].fn)
    ensures var top := y.world.frames[|y.world.frames| - 1];
            WallTime(y.shadow.nesting, y.shadow.firstEnter, top.fn, ts)
            == if Activations(y.world.hist.open, top.fn) == 1 then ts - top.enterNs else 0
  {
    InnermostTimes(c, y.world);
    assert AgreesOn(c, y.shadow, y.world.hist.open, y.world.frames[|y.world.frames| - 1].fn);
  }

  /** The wall time of an async leave: the whole inclusive time for the outermost activation of its
      method, nothing for the inner ones. */
  lemma WallTimeIsInclusive(c: Config, steps: seq<Step>, ts: int, tailcall: bool)
    requires Valid(c, steps) && CountsKept(c, steps) && Enabled(After(c, steps).world, Return(ts, tailcall))
    requires c.leaveOn && Tracks(c, After(c, steps).world.frames[|After(c, steps).world.frames| - 1].fn)
    ensures var y, trace := After(c, steps), Take(c, After(c, steps), Return(ts, tailcall)).shadow.trace;
            var top := y.world.frames[|y.world.frames| - 1];
            && |trace| == |y.shadow.trace| + 1 && trace[|trace| - 1].Leave?
            && (c.computeDeltas && StackKept(c, steps) ==> trace[|trace| - 1].deltaNs == ts - top.enterNs)
            && trace[|trace| - 1].wallTimeNs
               == if Activations(y.world.hist.open, top.fn) == 1 then ts - top.enterNs else 0
  {
    var y := After(c, steps);
    RunWellTimed(c, steps);
    AsyncStatus(c, steps);
    InnermostTimes(c, y.world);
    AsyncLeave(c, y.shadow, y.world.frames[|y.world.frames| - 1].fn, ts, tailcall);
    AgreedWallTime(c, y, ts);
    if StackKept(c, steps) {
      KeptEntry(c, steps);
    }
  }
}
