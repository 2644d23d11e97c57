/** The smallest runs on which the profiler's time accounting is wrong, as concrete traces of steps.
    When it is right is proved in general: `Faithfulness.FaithfulRecords`, `AsyncNesting.AsyncAgreesIff`. */
module Counterexamples {
  import opened Accumulators
  import opened Options
  import opened Trace
  import opened ShadowStack
  import opened CallForest
  import opened Runtime
  import opened Refinement
  import opened Faithfulness
  import opened AsyncNesting
  import H = Hotspots

  lemma Extend(c: Config, steps: seq<Step>, step: Step) returns (longer: seq<Step>)
    requires Valid(c, steps) && Enabled(After(c, steps).world, step)
    ensures longer == steps + [step] && Valid(c, longer) && After(c, longer) == Take(c, After(c, steps), step)
  {
    longer := steps + [step];
    LastStep(c, longer, steps, step);
  }

  predicate Plain(c: Config, fn: FnId) {
    c.Included(fn) && !c.IsAsync(fn)
  }

  /** Statistics, with a trace or without, and two plain methods. */
  predicate Setting(c: Config, outer: FnId, inner: FnId) {
    Plain(c, outer) && Plain(c, inner) && outer != inner && c.statsOn
  }

  function Enters(c: Config, trace: seq<Event>, fn: FnId, ts: int, depth: nat): seq<Event> {
    if c.enterOn then trace + [EnterEvent(c, c.Info(fn), ts, depth)] else trace
  }

  function Leaves(c: Config, trace: seq<Event>, fn: FnId, ts: int, depth: nat, inclusiveNs: int): seq<Event> {
    if c.leaveOn then trace + [LeaveEvent(c, c.Info(fn), ts, depth, inclusiveNs, false, 0)] else trace
  }

  // ---- The shadow stack through the exception ----

  const OUTER_CHARGED := 77

  function Called(outer: FnId, inner: FnId, trace: seq<Event>): Shadow {
    EMPTY.(stack := [CallEntry(outer, 10, 0), CallEntry(inner, 11, 0), CallEntry(outer, 12, 0)], trace := trace)
  }

  function Deferring(outer: FnId, inner: FnId, trace: seq<Event>): Shadow {
    EMPTY.(stack := [CallEntry(outer, 10, 0), CallEntry(inner, 11, 0)], catcher := outer, trace := trace,
           deferred := Some(Deferred(CallEntry(outer, 12, 0), outer, 50)))
  }

  function Overtaken(outer: FnId, inner: FnId, trace: seq<Event>): Shadow {
    Deferring(outer, inner, trace).(stack := [CallEntry(outer, 10, 39)], records := [Record(inner, 39, 39)])
  }

  function Charged(outer: FnId, inner: FnId, trace: seq<Event>): Shadow {
    EMPTY.(catcher := outer, deferred := Some(Deferred(CallEntry(outer, 10, OUTER_CHARGED), outer, 50)),
           records := [Record(inner, 39, 39), Record(outer, 38, 38)], trace := trace)
  }

  lemma Defers(c: Config, outer: FnId, inner: FnId, trace: seq<Event>)
    requires Setting(c, outer, inner)
    ensures OnUnwind(c, OnCatcherFound(c, Called(outer, inner, trace), outer), outer, 50)
         == Deferring(outer, inner, trace)
  {
  }

  lemma Overtakes(c: Config, outer: FnId, inner: FnId, trace: seq<Event>)
    requires Setting(c, outer, inner)
    ensures OnUnwind(c, Deferring(outer, inner, trace), inner, 50)
         == Overtaken(outer, inner, Leaves(c, trace, inner, 50, 1, 39))
  {
  }

  function CallsTrace(c: Config, outer: FnId, inner: FnId): seq<Event> {
    Enters(c, Enters(c, Enters(c, [], outer, 10, 0), inner, 11, 1), outer, 12, 2)
  }

  function UnwoundTrace(c: Config, outer: FnId, inner: FnId): seq<Event> {
    Leaves(c, Leaves(c, CallsTrace(c, outer, inner), inner, 50, 1, 39), outer, 50, 1, 38)
  }

  // ---- The truth ----

  function Deepest(outer: FnId): Node {
    Node(outer, 12, 50, false, [])
  }

  function Middle(outer: FnId, inner: FnId): Node {
    Node(inner, 11, 50, false, [Deepest(outer)])
  }

  function Root(outer: FnId, inner: FnId): Node {
    Node(outer, 10, 60, false, [Middle(outer, inner)])
  }

  lemma TrueRecords(outer: FnId, inner: FnId)
    ensures Recorded(History([Root(outer, inner)], []))
         == [Record(outer, 38, 38), Record(inner, 39, 1), Record(outer, 50, 11)]
  {
    RecordedOne(Deepest(outer));
    RecordedOne(Middle(outer, inner));
    RecordedOne(Root(outer, inner));
  }

  lemma RecordedOne(n: Node)
    ensures RecordedForest([n]) == RecordedForest(n.kids) + [RecordOf(n)]
    ensures KidsTime([n]) == n.Inclusive()
  {
    assert [n][..0] == [];
  }

  // ---- The run ----

  function OpenCalls(outer: FnId, inner: FnId): History {
    History([], [Open(outer, 10, []), Open(inner, 11, []), Open(outer, 12, [])])
  }

  function DeepestEnded(outer: FnId, inner: FnId): History {
    History([], [Open(outer, 10, []), Open(inner, 11, [Deepest(outer)])])
  }

  function MiddleEnded(outer: FnId, inner: FnId): History {
    History([], [Open(outer, 10, [Middle(outer, inner)])])
  }

  lemma TrueEnds(outer: FnId, inner: FnId)
    ensures End(OpenCalls(outer, inner), 50, false) == DeepestEnded(outer, inner)
    ensures End(DeepestEnded(outer, inner), 50, false) == MiddleEnded(outer, inner)
    ensures End(MiddleEnded(outer, inner), 60, false) == History([Root(outer, inner)], [])
  {
    EndsInto([Open(outer, 10, [])], Open(inner, 11, []), Open(outer, 12, []), 50);
    EndsInto([], Open(outer, 10, []), Open(inner, 11, [Deepest(outer)]), 50);
    assert [Open(outer, 10, [])] + [Open(inner, 11, []), Open(outer, 12, [])] == OpenCalls(outer, inner).open;
    assert [] + [Open(outer, 10, []), Open(inner, 11, [Deepest(outer)])] == DeepestEnded(outer, inner).open;
    assert [] + [Root(outer, inner)] == [Root(outer, inner)];
  }

  lemma EndsInto(before: seq<Open>, parent: Open, top: Open, ts: int)
    requires parent.kids == []
    ensures End(History([], before + [parent, top]), ts, false)
         == History([], before + [parent.(kids := [Node(top.fn, top.enterNs, ts, false, top.kids)])])
  {
    var open := before + [parent, top];
    assert open[..|open| - 1] == before + [parent];
    assert (before + [parent])[..|before|] == before;
    var n := Node(top.fn, top.enterNs, ts, false, top.kids);
    assert [] + [n] == [n];
  }

  lemma MakeCalls(c: Config, outer: FnId, inner: FnId) returns (steps: seq<Step>)
    requires Setting(c, outer, inner)
    ensures Valid(c, steps)
    ensures After(c, steps) == System(World([Frame(outer, 10), Frame(inner, 11), Frame(outer, 12)], Running, 12,
                                            OpenCalls(outer, inner)), Called(outer, inner, CallsTrace(c, outer, inner)))
  {
    steps := [];
    steps := Extend(c, steps, Call(outer, 10));
    steps := Extend(c, steps, Call(inner, 11));
    steps := Extend(c, steps, Call(outer, 12));
  }

  lemma Unwinds(c: Config, outer: FnId, inner: FnId) returns (steps: seq<Step>)
    requires Setting(c, outer, inner) && c.exceptionsOn
    ensures Valid(c, steps)
    ensures After(c, steps).world == World([Frame(outer, 10)], Landed, 50, MiddleEnded(outer, inner))
    ensures After(c, steps).shadow == Charged(outer, inner, UnwoundTrace(c, outer, inner))
  {
    var trace := CallsTrace(c, outer, inner);
    TrueEnds(outer, inner);
    steps := MakeCalls(c, outer, inner);
    steps := Extend(c, steps, Throw(0));
    steps := Extend(c, steps, Unwind(50));
    Defers(c, outer, inner, trace);
    assert [Frame(outer, 10), Frame(inner, 11), Frame(outer, 12)][..2] == [Frame(outer, 10), Frame(inner, 11)];
    assert After(c, steps).world
        == World([Frame(outer, 10), Frame(inner, 11)], Unwinding(0), 50, DeepestEnded(outer, inner));
    steps := Extend(c, steps, Unwind(50));
    Overtakes(c, outer, inner, trace);
    assert [Frame(outer, 10), Frame(inner, 11)][..1] == [Frame(outer, 10)];
    assert After(c, steps).world == World([Frame(outer, 10)], Unwinding(0), 50, MiddleEnded(outer, inner));
    steps := Extend(c, steps, Unwind(50));
  }

  /** `outer` calls `inner`, which calls `outer` again; the inner activation of `outer` throws and the
      outer one catches.  When the frame of `inner` is unwound, the deferred activation of `outer`
      is still pending: it is completed last and credited to the catcher, not to `inner`.  The
      catcher's self time comes out negative and is cut off at 0. */
  lemma CaughtAcrossAnother(c: Config, outer: FnId, inner: FnId) returns (steps: seq<Step>)
    requires Setting(c, outer, inner) && c.exceptionsOn
    ensures Valid(c, steps) && After(c, steps).world.phase.Running? && After(c, steps).world.frames == []
    ensures After(c, steps).shadow.records == [Record(inner, 39, 39), Record(outer, 38, 38), Record(outer, 50, 0)]
    ensures After(c, steps).shadow.trace == Leaves(c, UnwoundTrace(c, outer, inner), outer, 60, 0, 50)
    ensures Recorded(After(c, steps).world.hist) == [Record(outer, 38, 38), Record(inner, 39, 1), Record(outer, 50, 11)]
    ensures !Clean(c, steps)
  {
    steps := Unwinds(c, outer, inner);
    steps := Extend(c, steps, Resume);
    steps := Extend(c, steps, Return(60, false));
    TrueEnds(outer, inner);
    TrueRecords(outer, inner);
    FaithfulRecords(c, steps);
    assert After(c, steps).shadow.records[0] == Record(inner, 39, 39) != Record(outer, 38, 38);
  }

  // ---- The same run replayed ----

  lemma EnterFound(c: Config, trace: seq<Event>, fn: FnId, ts: int, depth: nat, key: string)
    requires c.enterOn
    ensures var longer := Enters(c, trace, fn, ts, depth);
            && H.Stack([], longer) == H.Stack([], trace) + [H.StackFrame(H.KeyOf(c, fn), 0)]
            && H.Tally([], longer, key) == H.Tally([], trace, key)
  {
    var e := EnterEvent(c, c.Info(fn), ts, depth);
    H.StackSnoc([], trace, e);
    H.TallySnoc([], trace, e, key);
    MergeZero(H.Tally([], trace, key));
  }

  lemma LeaveFound(c: Config, trace: seq<Event>, fn: FnId, ts: int, depth: nat, inclusiveNs: int,
                   rest: seq<H.StackFrame>, frame: H.StackFrame, key: string)
    requires c.leaveOn && c.computeDeltas && H.Stack([], trace) == rest + [frame]
    ensures var longer := Leaves(c, trace, fn, ts, depth, inclusiveNs);
            && H.Stack([], longer) == H.TopCredited(rest, inclusiveNs)
            && H.Tally([], longer, key).totalSelfNs
               == H.Tally([], trace, key).totalSelfNs
                  + if H.KeyOf(c, fn) == key then inclusiveNs - frame.childrenNs else 0
  {
    var e := LeaveEvent(c, c.Info(fn), ts, depth, inclusiveNs, false, 0);
    H.StackSnoc([], trace, e);
    H.TallySnoc([], trace, e, key);
    assert (rest + [frame])[..|rest|] == rest && (rest + [frame])[|rest|] == frame;
    MergeZero(H.Tally([], trace, key));
  }

  lemma ReplayFinds(c: Config, outer: FnId, inner: FnId)
    requires Tracing(c) && c.computeDeltas && H.KeyOf(c, outer) != H.KeyOf(c, inner)
    ensures var trace := Leaves(c, UnwoundTrace(c, outer, inner), outer, 60, 0, 50);
            H.Tally([], trace, H.KeyOf(c, outer)).totalSelfNs == 11
  {
    var key, k := H.KeyOf(c, outer), H.KeyOf(c, inner);
    var one := Enters(c, [], outer, 10, 0);
    var two := Enters(c, one, inner, 11, 1);
    EnterFound(c, [], outer, 10, 0, key);
    EnterFound(c, one, inner, 11, 1, key);
    EnterFound(c, two, outer, 12, 2, key);
    var calls := CallsTrace(c, outer, inner);
    var left := Leaves(c, calls, inner, 50, 1, 39);
    var o, i := H.StackFrame(key, 0), H.StackFrame(k, 0);
    assert [] + [o] + [i] + [o] == [o, i] + [o];
    LeaveFound(c, calls, inner, 50, 1, 39, [o, i], o, key);
    H.TopCreditedLast([o], i, 39);
    assert [o] + [i] == [o, i];
    LeaveFound(c, left, outer, 50, 1, 38, [o], H.StackFrame(k, 39), key);
    H.TopCreditedLast([], o, 38);
    assert [] + [o] == [o];
    LeaveFound(c, UnwoundTrace(c, outer, inner), outer, 60, 0, 50, [], H.StackFrame(key, 38), key);
  }

  lemma RecordsFind(c: Config, outer: FnId, inner: FnId)
    requires outer in c.methods && H.KeyOf(c, outer) != H.KeyOf(c, inner)
    ensures var records := [Record(inner, 39, 39), Record(outer, 38, 38), Record(outer, 50, 0)];
            Summary(records, H.Functions(c, H.KeyOf(c, outer))).totalSelfNs == 38
  {
    var a, b, d := Record(inner, 39, 39), Record(outer, 38, 38), Record(outer, 50, 0);
    var sel := H.Functions(c, H.KeyOf(c, outer));
    assert [a, b, d] == [] + [a] + [b] + [d];
    SummarySnoc([], a, sel);
    SummarySnoc([] + [a], b, sel);
    SummarySnoc([] + [a] + [b], d, sel);
  }

  /** In a session that does both, the two give `outer` different self times: the replay closes the deferred
      frame for `inner`, and that of `inner` for the deferred activation. */
  lemma OfflineDisagrees(c: Config, outer: FnId, inner: FnId) returns (steps: seq<Step>)
    requires Setting(c, outer, inner) && c.exceptionsOn && Tracing(c) && c.computeDeltas
    requires H.KeyOf(c, outer) != H.KeyOf(c, inner)
    ensures Valid(c, steps) && After(c, steps).world.phase.Running? && !NoneOvertaken(c, steps)
    ensures var s, key := After(c, steps).shadow, H.KeyOf(c, outer);
            && H.Tally([], s.trace, key).totalSelfNs == 11
            && Summary(s.records, H.Functions(c, key)).totalSelfNs == 38
  {
    steps := CaughtAcrossAnother(c, outer, inner);
    ReplayFinds(c, outer, inner);
    RecordsFind(c, outer, inner);
  }

  // ---- Async state machines ----

  /** An async state machine catches its own exception: it is on the stack, and not counted. */
  lemma AsyncCaught(c: Config, fn: FnId) returns (steps: seq<Step>)
    requires Tracks(c, fn) && !c.enterOn && c.exceptionsOn
    ensures Valid(c, steps) && After(c, steps).world.frames == [Frame(fn, 10)]
    ensures fn !in After(c, steps).shadow.nesting && WrongAt(c, steps) && !CountsKept(c, steps)
  {
    steps := [];
    steps := Extend(c, steps, Call(fn, 10));
    steps := Extend(c, steps, Throw(0));
    steps := Extend(c, steps, Unwind(20));
    steps := Extend(c, steps, Resume);
    assert !AgreesOn(c, After(c, steps).shadow, After(c, steps).world.hist.open, fn);
    WrongNow(c, steps);
    AsyncAgreesIff(c, steps);
  }

  // ---- Without exception monitoring ----

  function ThrownFrom(inner: FnId): Node {
    Node(inner, 11, 20, false, [])
  }

  lemma TwoCalls(c: Config, outer: FnId, inner: FnId) returns (steps: seq<Step>)
    requires c.Included(outer) && c.Included(inner)
    ensures Valid(c, steps)
    ensures After(c, steps).world == World([Frame(outer, 10), Frame(inner, 11)], Running, 11,
                                           History([], [Open(outer, 10, []), Open(inner, 11, [])]))
    ensures After(c, steps).shadow == OnEnter(c, OnEnter(c, EMPTY, outer, 10), inner, 11)
  {
    steps := [];
    steps := Extend(c, steps, Call(outer, 10));
    steps := Extend(c, steps, Call(inner, 11));
  }

  /** `outer` calls `inner`, which throws; `outer` catches at 20. */
  lemma UnheardRun(c: Config, outer: FnId, inner: FnId) returns (steps: seq<Step>)
    requires c.Included(outer) && c.Included(inner) && !c.exceptionsOn
    ensures Valid(c, steps)
    ensures After(c, steps).world
         == World([Frame(outer, 10)], Running, 20, History([], [Open(outer, 10, [ThrownFrom(inner)])]))
    ensures After(c, steps).shadow == OnEnter(c, OnEnter(c, EMPTY, outer, 10), inner, 11)
  {
    steps := TwoCalls(c, outer, inner);
    assert [Frame(outer, 10), Frame(inner, 11)][..1] == [Frame(outer, 10)];
    EndsInto([], Open(outer, 10, []), Open(inner, 11, []), 20);
    steps := Extend(c, steps, Throw(0));
    steps := Extend(c, steps, Unwind(20));
    steps := Extend(c, steps, Unwind(20));
    steps := Extend(c, steps, Resume);
  }

  lemma UnheardRecords(outer: FnId, inner: FnId)
    ensures Recorded(End(History([], [Open(outer, 10, [ThrownFrom(inner)])]), 30, false))
         == [Record(inner, 9, 9), Record(outer, 20, 11)]
  {
    var root := Node(outer, 10, 30, false, [ThrownFrom(inner)]);
    RecordedOne(ThrownFrom(inner));
    RecordedOne(root);
    assert [] + [root] == [root];
  }

  /** A session without exception monitoring never hears that `inner` was unwound: its entry stays, and the
      return of `outer` is timed as that of `inner`. */
  lemma CaughtUnheard(c: Config, outer: FnId, inner: FnId) returns (steps: seq<Step>)
    requires Setting(c, outer, inner) && !c.exceptionsOn
    ensures Valid(c, steps) && After(c, steps).world.phase.Running? && After(c, steps).world.frames == []
    ensures Shape(After(c, steps).shadow.stack) == [Frame(outer, 10)]
    ensures After(c, steps).shadow.records == [Record(outer, 19, 19)]
    ensures Recorded(After(c, steps).world.hist) == [Record(inner, 9, 9), Record(outer, 20, 11)]
    ensures !Clean(c, steps)
  {
    steps := UnheardRun(c, outer, inner);
    steps := Extend(c, steps, Return(30, false));
    UnheardRecords(outer, inner);
    FaithfulRecords(c, steps);
  }

  /** No async state machine catches, and `inner` is off the stack, but still counted. */
  lemma AsyncUnheard(c: Config, outer: FnId, inner: FnId) returns (steps: seq<Step>)
    requires Plain(c, outer) && Tracks(c, inner) && !c.exceptionsOn
    ensures Valid(c, steps) && After(c, steps).world.frames == [Frame(outer, 10)]
    ensures inner in After(c, steps).shadow.nesting && WrongAt(c, steps) && !CountsKept(c, steps)
  {
    steps := UnheardRun(c, outer, inner);
    assert !AgreesOn(c, After(c, steps).shadow, After(c, steps).world.hist.open, inner);
    WrongNow(c, steps);
    AsyncAgreesIff(c, steps);
  }

  // ---- Calls that take no time ----

  /** Two calls, one after the other, in the same instant: nothing keeps the clock from standing still. */
  lemma InstantCalls(c: Config, first: FnId, second: FnId, ts: int) returns (steps: seq<Step>)
    requires c.Included(first) && c.Included(second) && 0 < ts
    ensures Valid(c, steps) && After(c, steps).world.phase.Running?
    ensures After(c, steps).world.hist
         == History([Node(first, ts, ts, false, []), Node(second, ts, ts, true, [])], [])
  {
    steps := [];
    steps := Extend(c, steps, Call(first, ts));
    steps := Extend(c, steps, Return(ts, false));
    assert [] + [Node(first, ts, ts, false, [])] == [Node(first, ts, ts, false, [])];
    assert After(c, steps).world == World([], Running, ts, History([Node(first, ts, ts, false, [])], []));
    steps := Extend(c, steps, Call(second, ts));
    steps := Extend(c, steps, Return(ts, true));
    assert [Node(first, ts, ts, false, [])] + [Node(second, ts, ts, true, [])]
        == [Node(first, ts, ts, false, []), Node(second, ts, ts, true, [])];
  }
}
