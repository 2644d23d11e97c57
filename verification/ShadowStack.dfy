/** The per-thread shadow call stack: CallStack.h, CallStack.cpp and the enter, leave and exception
    callbacks of Profiler.cpp.

    The class `ThreadProfiler` holds the fields of `ThreadCallStack` together with what the thread
    has handed to the trace writer (`trace`) and to the stats aggregator (`records`), and updates
    them as the callbacks do.  Each of its methods is proved to do what a function on the
    value `Shadow` says; the other modules reason about those functions. */
module ShadowStack {
  import opened Accumulators
  import opened Options
  import opened Trace

  /** CallStack.h, CallEntry. */
  datatype CallEntry = CallEntry(fn: FnId, enterTsNs: int, childrenTimeNs: int)

  /** The deferred-unwind fields of ThreadCallStack. */
  datatype Deferred = Deferred(entry: CallEntry, fn: FnId, tsNs: int)

  /** What is fixed while a thread runs: the cached method metadata and the session configuration.
      Exception callbacks arrive only in a session that asked for exception events (`exceptionsOn`). */
  datatype Config = Config(methods: map<FnId, MethodInfo>, tid: ThreadId, enterOn: bool, leaveOn: bool,
                           statsOn: bool, exceptionsOn: bool, computeDeltas: bool)
  {
    predicate Included(fn: FnId) {
      fn in methods && methods[fn].isIncluded
    }

    predicate IsAsync(fn: FnId) {
      fn in methods && methods[fn].isAsyncStateMachine
    }

    function Info(fn: FnId): MethodInfo {
      if fn in methods then methods[fn] else MethodInfo("", "", "", "", false, false, "")
    }
  }

  predicate Tracing(c: Config) {
    c.enterOn && c.leaveOn
  }

  datatype Shadow = Shadow(stack: seq<CallEntry>, catcher: FnId, deferred: Option<Deferred>,
                           firstEnter: map<FnId, int>, nesting: map<FnId, int>,
                           trace: seq<Event>, records: seq<Record>)

  const EMPTY := Shadow([], 0, None, map[], map[], [], [])

  // ---- CallStackManager ----

  function Popped(stack: seq<CallEntry>): (r: (CallEntry, seq<CallEntry>)) {
    if stack == [] then (CallEntry(0, 0, 0), [])
    else (stack[|stack| - 1], stack[..|stack| - 1])
  }

  /** The top entry and what is below it, or an entry without a time. */
  lemma PoppedMeans(stack: seq<CallEntry>)
    ensures var (entry, rest) := Popped(stack);
            if stack == [] then entry == CallEntry(0, 0, 0) && rest == [] else stack == rest + [entry]
  {
  }

  function Credited(stack: seq<CallEntry>, inclusiveNs: int): seq<CallEntry> {
    if stack != [] && inclusiveNs > 0 then
      var top := stack[|stack| - 1];
      stack[|stack| - 1 := top.(childrenTimeNs := top.childrenTimeNs + inclusiveNs)]
    else stack
  }

  // ---- Time and events of one finished activation ----

  function Inclusive(entry: CallEntry, tsNs: int): int {
    if entry.enterTsNs > 0 then tsNs - entry.enterTsNs else 0
  }

  function Self(entry: CallEntry, tsNs: int): int {
    var selfNs := Inclusive(entry, tsNs) - entry.childrenTimeNs;
    if selfNs < 0 then 0 else selfNs
  }

  function EnterEvent(c: Config, info: MethodInfo, tsNs: int, depth: nat): Event {
    Enter(tsNs, c.tid, depth, info.Name(), info.isAsyncStateMachine)
  }

  function LeaveEvent(c: Config, info: MethodInfo, tsNs: int, depth: nat, inclusiveNs: int,
                      tailcall: bool, wallNs: int): Event {
    Leave(tsNs, c.tid, depth, info.Name(), info.isAsyncStateMachine,
          if c.computeDeltas then inclusiveNs else 0, tailcall, Larger(0, wallNs))
  }

  /** An activation already popped is credited to the new top, recorded and traced. */
  function Complete(c: Config, s: Shadow, entry: CallEntry, statsFn: FnId, fn: FnId, tsNs: int,
                    tailcall: bool, wallNs: int): Shadow {
    var inclusiveNs := Inclusive(entry, tsNs);
    s.(stack := Credited(s.stack, inclusiveNs),
       records := if c.statsOn then s.records + [Record(statsFn, inclusiveNs, Self(entry, tsNs))]
                  else s.records,
       trace := if c.leaveOn && fn in c.methods
                then s.trace + [LeaveEvent(c, c.methods[fn], tsNs, |s.stack|, inclusiveNs, tailcall, wallNs)]
                else s.trace)
  }

  // ---- Async nesting ----

  function Nested(s: Shadow, fn: FnId, tsNs: int): Shadow {
    var count := (if fn in s.nesting then s.nesting[fn] else 0) + 1;
    s.(nesting := s.nesting[fn := count],
       firstEnter := if count == 1 then s.firstEnter[fn := tsNs] else s.firstEnter)
  }

  predicate LastLevel(nesting: map<FnId, int>, fn: FnId) {
    fn in nesting && nesting[fn] - 1 <= 0
  }

  function OneLevelLess(nesting: map<FnId, int>, fn: FnId): map<FnId, int> {
    if LastLevel(nesting, fn) then nesting - {fn}
    else if fn in nesting then nesting[fn := nesting[fn] - 1]
    else nesting
  }

  function WallTime(nesting: map<FnId, int>, firstEnter: map<FnId, int>, fn: FnId, tsNs: int): int {
    if LastLevel(nesting, fn) && fn in firstEnter then tsNs - firstEnter[fn] else 0
  }

  function Unnested(s: Shadow, fn: FnId): Shadow {
    s.(nesting := OneLevelLess(s.nesting, fn),
       firstEnter := if LastLevel(s.nesting, fn) then s.firstEnter - {fn} else s.firstEnter)
  }

  function UnnestedIfAsync(c: Config, s: Shadow, fn: FnId): Shadow {
    if c.IsAsync(fn) then Unnested(s, fn) else s
  }

  // ---- The callbacks ----

  function OnEnter(c: Config, s: Shadow, fn: FnId, tsNs: int): Shadow {
    if !c.Included(fn) then s
    else
      var pushed := s.(stack := s.stack + [CallEntry(fn, tsNs, 0)]);
      var counted := if c.IsAsync(fn) then Nested(pushed, fn, tsNs) else pushed;
      if c.enterOn then counted.(trace := s.trace + [EnterEvent(c, c.methods[fn], tsNs, |s.stack|)])
      else counted
  }

  function OnLeave(c: Config, s: Shadow, fn: FnId, tsNs: int, tailcall: bool): Shadow {
    if !c.Included(fn) then s
    else
      var (entry, rest) := Popped(s.stack);
      var wallNs := if c.IsAsync(fn) then WallTime(s.nesting, s.firstEnter, fn, tsNs) else 0;
      Complete(c, UnnestedIfAsync(c, s.(stack := rest), fn), entry, fn, fn, tsNs, tailcall, wallNs)
  }

  /** FinalizeDeferredUnwind, when there is something to finalize. */
  function Settled(c: Config, s: Shadow): Shadow {
    match s.deferred
    case None => s
    case Some(d) =>
      Complete(c, UnnestedIfAsync(c, s.(deferred := None), d.fn), d.entry, d.fn, d.fn, d.tsNs, false, 0)
  }

  function OnCatcherFound(c: Config, s: Shadow, fn: FnId): Shadow {
    Settled(c, s).(catcher := fn)
  }

  function OnUnwind(c: Config, s: Shadow, fn: FnId, tsNs: int): Shadow {
    if !c.Included(fn) then s
    else if s.catcher == fn then
      var settled := Settled(c, s);
      var (entry, rest) := Popped(settled.stack);
      UnnestedIfAsync(c, settled.(stack := rest), fn).(deferred := Some(Deferred(entry, fn, tsNs)))
    else
      var (entry, rest) := Popped(s.stack);
      Complete(c, UnnestedIfAsync(c, s.(stack := rest), fn), entry, entry.fn, fn, tsNs, false, 0)
  }

  function Restored(s: Shadow): Shadow {
    match s.deferred
    case None => s
    case Some(d) => s.(stack := s.stack + [d.entry], deferred := None)
  }

  function OnCatcherEnter(s: Shadow): Shadow {
    Restored(s).(catcher := 0)
  }

  // ---- The class ----

  class ThreadProfiler {
    const config: Config
    // ThreadCallStack
    var stack: seq<CallEntry>
    var exceptionCatcherFunctionId: FnId
    var hasDeferredUnwind: bool
    var deferredUnwindEntry: CallEntry
    var deferredUnwindFunctionId: FnId
    var deferredUnwindTsNs: int
    var asyncFirstEnterNs: map<FnId, int>
    var asyncNestingCount: map<FnId, int>
    // What this thread has passed on
    var trace: seq<Event>
    var records: seq<Record>

    ghost function State(): Shadow
      reads this
    {
      Shadow(stack, exceptionCatcherFunctionId,
             if hasDeferredUnwind
             then Some(Deferred(deferredUnwindEntry, deferredUnwindFunctionId, deferredUnwindTsNs)) else None,
             asyncFirstEnterNs, asyncNestingCount, trace, records)
    }

    constructor (config: Config)
      ensures this.config == config && State() == EMPTY
    {
      this.config := config;
      stack := [];
      exceptionCatcherFunctionId := 0;
      hasDeferredUnwind := false;
      deferredUnwindEntry := CallEntry(0, 0, 0);
      deferredUnwindFunctionId := 0;
      deferredUnwindTsNs := 0;
      asyncFirstEnterNs := map[];
      asyncNestingCount := map[];
      trace := [];
      records := [];
    }

    method Push(fn: FnId, tsNs: int)
      modifies this`stack
      ensures stack == old(stack) + [CallEntry(fn, tsNs, 0)]
    {
      stack := stack + [CallEntry(fn, tsNs, 0)];
    }

    method Pop() returns (entry: CallEntry)
      modifies this`stack
      ensures (entry, stack) == Popped(old(stack))
    {
      if |stack| == 0 {
        return CallEntry(0, 0, 0);
      }
      entry := stack[|stack| - 1];
      stack := stack[..|stack| - 1];
    }

    method CreditParent(inclusiveNs: int)
      modifies this`stack
      ensures stack == Credited(old(stack), inclusiveNs)
    {
      if |stack| > 0 && inclusiveNs > 0 {
        var top := stack[|stack| - 1];
        stack := stack[..|stack| - 1] + [top.(childrenTimeNs := top.childrenTimeNs + inclusiveNs)];
      }
    }

    method DecrementAsyncNesting(fn: FnId, tsNs: int) returns (wallTimeNs: int)
      modifies this`asyncNestingCount, this`asyncFirstEnterNs
      ensures wallTimeNs == WallTime(old(asyncNestingCount), old(asyncFirstEnterNs), fn, tsNs)
      ensures State() == Unnested(old(State()), fn)
    {
      wallTimeNs := 0;
      if fn in asyncNestingCount {
        var left := asyncNestingCount[fn] - 1;
        asyncNestingCount := asyncNestingCount[fn := left];
        if left <= 0 {
          if fn in asyncFirstEnterNs {
            wallTimeNs := tsNs - asyncFirstEnterNs[fn];
          }
          asyncFirstEnterNs := asyncFirstEnterNs - {fn};
          asyncNestingCount := asyncNestingCount - {fn};
        }
      }
    }

    method RecordMethod(fn: FnId, inclusiveNs: int, selfNs: int)
      modifies this`records
      ensures records == if config.statsOn then old(records) + [Record(fn, inclusiveNs, selfNs)] else old(records)
    {
      if config.statsOn {
        records := records + [Record(fn, inclusiveNs, selfNs)];
      }
    }

    method WriteLeave(tsNs: int, depth: nat, info: MethodInfo, inclusiveNs: int, tailcall: bool, wallTimeNs: int)
      modifies this`trace
      ensures trace == if config.leaveOn
                       then old(trace) + [LeaveEvent(config, info, tsNs, depth, inclusiveNs, tailcall, wallTimeNs)]
                       else old(trace)
    {
      if config.leaveOn {
        var deltaNs := if config.computeDeltas then inclusiveNs else 0;
        var wall := if wallTimeNs > 0 then wallTimeNs else 0;
        trace := trace + [Leave(tsNs, config.tid, depth, info.Name(), info.isAsyncStateMachine,
                                deltaNs, tailcall, wall)];
      }
    }

    method Measure(entry: CallEntry, tsNs: int) returns (inclusiveNs: int, selfNs: int)
      ensures inclusiveNs == Inclusive(entry, tsNs) && selfNs == Self(entry, tsNs)
    {
      inclusiveNs := if entry.enterTsNs > 0 then tsNs - entry.enterTsNs else 0;
      selfNs := inclusiveNs - entry.childrenTimeNs;
      if selfNs < 0 {
        selfNs := 0;
      }
    }

    method EnterStub(fn: FnId, tsNs: int)
      modifies this
      ensures State() == OnEnter(config, old(State()), fn, tsNs)
    {
      if !config.Included(fn) {
        return;
      }
      var info := config.methods[fn];
      var depth := |stack|;
      Push(fn, tsNs);
      if info.isAsyncStateMachine {
        var nestCount := (if fn in asyncNestingCount then asyncNestingCount[fn] else 0) + 1;
        asyncNestingCount := asyncNestingCount[fn := nestCount];
        if nestCount == 1 {
          asyncFirstEnterNs := asyncFirstEnterNs[fn := tsNs];
        }
      }
      if config.enterOn {
        trace := trace + [EnterEvent(config, info, tsNs, depth)];
      }
    }

    method ProcessLeave(fn: FnId, tsNs: int, isTailcall: bool)
      modifies this
      ensures State() == OnLeave(config, old(State()), fn, tsNs, isTailcall)
    {
      if !config.Included(fn) {
        return;
      }
      var info := config.methods[fn];
      var entry := Pop();
      var inclusiveNs, selfNs := Measure(entry, tsNs);
      CreditParent(inclusiveNs);
      var depth := |stack|;
      var wallTimeNs := 0;
      if info.isAsyncStateMachine {
        wallTimeNs := DecrementAsyncNesting(fn, tsNs);
      }
      RecordMethod(fn, inclusiveNs, selfNs);
      WriteLeave(tsNs, depth, info, inclusiveNs, isTailcall, wallTimeNs);
    }

    method FinalizeDeferredUnwind()
      requires hasDeferredUnwind
      modifies this
      ensures State() == Settled(config, old(State()))
    {
      var entry := deferredUnwindEntry;
      var inclusiveNs, selfNs := Measure(entry, deferredUnwindTsNs);
      CreditParent(inclusiveNs);
      var depth := |stack|;
      if config.IsAsync(deferredUnwindFunctionId) {
        var _ := DecrementAsyncNesting(deferredUnwindFunctionId, deferredUnwindTsNs);
      }
      RecordMethod(deferredUnwindFunctionId, inclusiveNs, selfNs);
      if deferredUnwindFunctionId in config.methods {
        WriteLeave(deferredUnwindTsNs, depth, config.methods[deferredUnwindFunctionId], inclusiveNs, false, 0);
      }
      hasDeferredUnwind := false;
    }

    method ExceptionSearchCatcherFound(fn: FnId)
      modifies this
      ensures State() == OnCatcherFound(config, old(State()), fn)
    {
      if hasDeferredUnwind {
        FinalizeDeferredUnwind();
      }
      exceptionCatcherFunctionId := fn;
    }

    method ExceptionUnwindFunctionEnter(fn: FnId, tsNs: int)
      modifies this
      ensures State() == OnUnwind(config, old(State()), fn, tsNs)
    {
      if !config.Included(fn) {
        return;
      }
      var info := config.methods[fn];
      if exceptionCatcherFunctionId == fn {
        if hasDeferredUnwind {
          FinalizeDeferredUnwind();
        }
        var entry := Pop();
        if info.isAsyncStateMachine {
          var _ := DecrementAsyncNesting(fn, tsNs);
        }
        deferredUnwindEntry := entry;
        deferredUnwindFunctionId := fn;
        deferredUnwindTsNs := tsNs;
        hasDeferredUnwind := true;
        return;
      }
      var entry := Pop();
      if info.isAsyncStateMachine {
        var _ := DecrementAsyncNesting(fn, tsNs);
      }
      var inclusiveNs, selfNs := Measure(entry, tsNs);
      CreditParent(inclusiveNs);
      var depth := |stack|;
      RecordMethod(entry.fn, inclusiveNs, selfNs);
      WriteLeave(tsNs, depth, info, inclusiveNs, false, 0);
    }

    method ExceptionCatcherEnter()
      modifies this
      ensures State() == OnCatcherEnter(old(State()))
    {
      if hasDeferredUnwind {
        stack := stack + [deferredUnwindEntry];
        hasDeferredUnwind := false;
      }
      exceptionCatcherFunctionId := 0;
    }
  }
}
