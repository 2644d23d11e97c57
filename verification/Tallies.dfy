/** What stays right when a throw cannot be followed.

    A deferred activation keeps its own enter time and the time it was unwound, so however late it is
    completed its inclusive time is right; only the caller it is credited to may be wrong.  So a session
    that monitors exceptions always counts the right calls with the right inclusive times, and one that
    does not does so if and only if it lost none (`CallsTrueIff`). */
module Tallies {
  import opened Accumulators
  import opened ShadowStack
  import opened CallForest
  import opened Runtime
  import opened Monitoring
  import opened Refinement
  import opened Faithfulness

  /** What a deferred activation that is not the catcher has still to add. */
  function Owed(y: System, sel: set<FnId>): Accum {
    if y.shadow.deferred.Some? && !y.world.phase.Landed? then
      var d := y.shadow.deferred.value;
      if d.fn in sel then Single(Inclusive(d.entry, d.tsNs), 0) else ZERO
    else ZERO
  }

  ghost predicate CallsMatch(y: System, sel: set<FnId>) {
    SameCalls(Merge(Summary(y.shadow.records, sel), Owed(y, sel)), Summary(Recorded(y.world.hist), sel))
  }

  /** The other side has seen the call finish, this one owes it. */
  lemma CallOwed(records: seq<Record>, truth: seq<Record>, n: Record, sel: set<FnId>)
    requires SameCalls(Merge(Summary(records, sel), ZERO), Summary(truth, sel))
    ensures SameCalls(Merge(Summary(records, sel), if n.fn in sel then Single(n.inclusiveNs, 0) else ZERO),
                      Summary(truth + [n], sel))
  {
    SummarySnoc(truth, n, sel);
    MergeZero(Summary(records, sel));
  }

  /** The innermost entry and the innermost open activation are the same call. */
  lemma SameInnermost(c: Config, w: World, stack: seq<CallEntry>, ts: int)
    requires WorldInv(c, w) && w.frames != [] && Shape(stack) == Outline(w.hist.open)
    requires c.Included(w.frames[|w.frames| - 1].fn)
    ensures stack != [] && w.hist.open != []
    ensures var entry, n := stack[|stack| - 1], Ended(w.hist, ts, false);
            entry.fn == n.fn == w.frames[|w.frames| - 1].fn && Inclusive(entry, ts) == n.Inclusive()
  {
    InnermostEntry(c, w, stack);
    var last := |stack| - 1;
    assert |stack| == |Shape(stack)| == |Outline(w.hist.open)| == |w.hist.open|;
    assert Shape(stack)[last] == Outline(w.hist.open)[last];
    assert 0 < w.hist.open[last].enterNs;
  }

  /** The step finishes one call, and both sides see it with the same inclusive time. */
  ghost predicate EndsCall(y: System, z: System, r: Record, n: Record) {
    && r.fn == n.fn && r.inclusiveNs == n.inclusiveNs
    && z.shadow.records == y.shadow.records + [r]
    && Recorded(z.world.hist) == Recorded(y.world.hist) + [n]
    && z.shadow.deferred == y.shadow.deferred && z.world.phase == y.world.phase
  }

  lemma EndMatches(y: System, z: System, r: Record, n: Record, sel: set<FnId>)
    requires CallsMatch(y, sel) && EndsCall(y, z, r, n)
    ensures CallsMatch(z, sel)
  {
  }

  lemma ReturnMatches(c: Config, y: System, ts: int, tailcall: bool, sel: set<FnId>)
    requires c.statsOn && ShapeInv(c, y) && CallsMatch(y, sel) && Enabled(y.world, Return(ts, tailcall))
    requires c.Included(y.world.frames[|y.world.frames| - 1].fn)
    ensures CallsMatch(Take(c, y, Return(ts, tailcall)), sel)
  {
    var w, s := y.world, y.shadow;
    var fn := w.frames[|w.frames| - 1].fn;
    SameInnermost(c, w, s.stack, ts);
    EndExtendsRecorded(c, w.hist, ts, tailcall);
    var entry := s.stack[|s.stack| - 1];
    EndMatches(y, Take(c, y, Return(ts, tailcall)), Record(fn, Inclusive(entry, ts), Self(entry, ts)),
               RecordOf(Ended(w.hist, ts, tailcall)), sel);
  }

  lemma CompleteMatches(c: Config, y: System, ts: int, sel: set<FnId>)
    requires c.statsOn && c.exceptionsOn && ShapeInv(c, y) && CallsMatch(y, sel) && Enabled(y.world, Unwind(ts))
    requires var fn := y.world.frames[|y.world.frames| - 1].fn; c.Included(fn) && fn != y.shadow.catcher
    ensures CallsMatch(Take(c, y, Unwind(ts)), sel)
  {
    var w, s := y.world, y.shadow;
    SameInnermost(c, w, s.stack, ts);
    EndExtendsRecorded(c, w.hist, ts, false);
    var entry := s.stack[|s.stack| - 1];
    EndMatches(y, Take(c, y, Unwind(ts)), Record(entry.fn, Inclusive(entry, ts), Self(entry, ts)),
               RecordOf(Ended(w.hist, ts, false)), sel);
  }

  /** Nothing is owed once the deferred activation is completed. */
  lemma SettledMatches(c: Config, y: System, sel: set<FnId>)
    requires c.statsOn && ShapeInv(c, y) && CallsMatch(y, sel) && !y.world.phase.Landed?
    ensures SameCalls(Merge(Summary(Settled(c, y.shadow).records, sel), ZERO), Summary(Recorded(y.world.hist), sel))
  {
  }

  /** What is owed for the activation just deferred is the call that the history has seen finish. */
  lemma OwesInnermost(c: Config, y: System, ts: int, sel: set<FnId>)
    requires c.exceptionsOn && ShapeInv(c, y) && Enabled(y.world, Unwind(ts))
    requires var fn := y.world.frames[|y.world.frames| - 1].fn; c.Included(fn) && fn == y.shadow.catcher
    ensures y.world.hist.open != []
    ensures var z, n := Take(c, y, Unwind(ts)), RecordOf(Ended(y.world.hist, ts, false));
            && z.shadow.records == Settled(c, y.shadow).records
            && (if y.world.phase.k == |y.world.frames| - 1
                then z.world.hist == y.world.hist && Owed(z, sel) == ZERO
                else z.world.hist == End(y.world.hist, ts, false)
                     && Owed(z, sel) == if n.fn in sel then Single(n.inclusiveNs, 0) else ZERO)
  {
    Defers(c, y, ts);
    SettledShape(c, y.shadow);
    SameInnermost(c, y.world, Settled(c, y.shadow).stack, ts);
  }

  lemma DeferMatches(c: Config, y: System, ts: int, sel: set<FnId>)
    requires c.statsOn && c.exceptionsOn && ShapeInv(c, y) && CallsMatch(y, sel) && Enabled(y.world, Unwind(ts))
    requires var fn := y.world.frames[|y.world.frames| - 1].fn; c.Included(fn) && fn == y.shadow.catcher
    ensures CallsMatch(Take(c, y, Unwind(ts)), sel)
  {
    OwesInnermost(c, y, ts, sel);
    SettledMatches(c, y, sel);
    if y.world.phase.k < |y.world.frames| - 1 {
      EndExtendsRecorded(c, y.world.hist, ts, false);
      CallOwed(Settled(c, y.shadow).records, Recorded(y.world.hist), RecordOf(Ended(y.world.hist, ts, false)), sel);
    }
  }

  /** A step that completes no call and ends none. */
  lemma QuietStep(c: Config, y: System, step: Step, sel: set<FnId>)
    requires ShapeInv(c, y) && Enabled(y.world, step)
    requires step.Return? || step.Unwind? ==> !c.Included(y.world.frames[|y.world.frames| - 1].fn)
    ensures var z := Take(c, y, step);
            && z.shadow.records == y.shadow.records && Recorded(z.world.hist) == Recorded(y.world.hist)
            && Owed(z, sel) == Owed(y, sel)
  {
    if step.Call? {
      BeginExtends(c, y.world.hist, step.fn, step.tsNs);
    }
  }

  lemma TakeMatches(c: Config, y: System, step: Step, sel: set<FnId>)
    requires c.statsOn && c.exceptionsOn && ShapeInv(c, y) && CallsMatch(y, sel) && Enabled(y.world, step)
    ensures CallsMatch(Take(c, y, step), sel)
  {
    if (step.Return? || step.Unwind?) && c.Included(y.world.frames[|y.world.frames| - 1].fn) {
      if step.Return? {
        ReturnMatches(c, y, step.tsNs, step.tailcall, sel);
      } else if y.world.frames[|y.world.frames| - 1].fn == y.shadow.catcher {
        DeferMatches(c, y, step.tsNs, sel);
      } else {
        CompleteMatches(c, y, step.tsNs, sel);
      }
    } else {
      QuietStep(c, y, step, sel);
    }
  }

  lemma {:induction false} MonitoredMatches(c: Config, steps: seq<Step>, sel: set<FnId>)
    requires Valid(c, steps) && c.exceptionsOn && c.statsOn
    ensures CallsMatch(After(c, steps), sel)
  {
    if steps != [] {
      var before := steps[..|steps| - 1];
      MonitoredMatches(c, before, sel);
      RunShape(c, before);
      TakeMatches(c, After(c, before), steps[|steps| - 1], sel);
    }
  }

  // ---- Main result ----

  function FunctionsIn(rs: seq<Record>): set<FnId> {
    set i | 0 <= i < |rs| :: rs[i].fn
  }

  lemma {:induction false} CountsAll(rs: seq<Record>, sel: set<FnId>)
    requires FunctionsIn(rs) <= sel
    ensures Summary(rs, sel).callCount == |rs|
  {
    if rs != [] {
      var front := rs[..|rs| - 1];
      assert rs[|rs| - 1].fn in FunctionsIn(rs);
      assert FunctionsIn(front) <= sel by {
        forall i | 0 <= i < |front| ensures front[i].fn in FunctionsIn(rs) {
          assert front[i] == rs[i];
        }
      }
      CountsAll(front, sel);
    }
  }

  /** The recorded call counts, total and maximum inclusive times are those of the true history, for every set of
      functions, if and only if the stack was kept: whatever throws there were if exceptions are monitored. */
  lemma CallsTrueIff(c: Config, steps: seq<Step>)
    requires Valid(c, steps) && After(c, steps).world.phase.Running? && c.statsOn
    ensures var y := After(c, steps);
            StackKept(c, steps) <==>
            forall sel :: SameCalls(Summary(y.shadow.records, sel), Summary(Recorded(y.world.hist), sel))
  {
    var records, truth := After(c, steps).shadow.records, Recorded(After(c, steps).world.hist);
    if c.exceptionsOn {
      RunShape(c, steps);
      forall sel ensures SameCalls(Summary(records, sel), Summary(truth, sel)) {
        MonitoredMatches(c, steps, sel);
        MergeZero(Summary(records, sel));
      }
    } else if StackKept(c, steps) {
      KeptIsClean(c, steps);
      FaithfulRecords(c, steps);
    } else {
      KeptIff(c, steps);
      LostCounts(c, steps);
      var all := FunctionsIn(records) + FunctionsIn(truth);
      CountsAll(records, all);
      CountsAll(truth, all);
      assert !SameCalls(Summary(records, all), Summary(truth, all));
    }
  }
}
