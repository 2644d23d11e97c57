/** ThreadsAnalyzer.AggregateAsync, and its agreement with the hotspots analyser: self time summed
    over methods is root time summed over threads. */
module Threads {
  import opened Accumulators
  import opened Trace
  import opened ShadowStack
  import opened CallForest
  import opened Runtime
  import opened Faithfulness
  import opened Timing
  import H = Hotspots

  const LONG_MAX := 0x7FFF_FFFF_FFFF_FFFF
  const LONG_MIN := -0x8000_0000_0000_0000

  datatype ThreadStats = ThreadStats(callCount: nat, rootTimeNs: int, firstTsNs: int, lastTsNs: int)

  const UNSEEN := ThreadStats(0, 0, LONG_MAX, LONG_MIN)

  function StatsOf(threads: map<ThreadId, ThreadStats>, tid: ThreadId): ThreadStats {
    if tid in threads then threads[tid] else UNSEEN
  }

  function RootTimeOf(e: Event): int {
    if e.Leave? && e.depth == 0 then e.deltaNs else 0
  }

  function Seen(stats: ThreadStats, e: Event): ThreadStats
    requires !e.MethodStats?
  {
    ThreadStats(stats.callCount + (if e.Enter? then 1 else 0), stats.rootTimeNs + RootTimeOf(e),
                if e.tsNs < stats.firstTsNs then e.tsNs else stats.firstTsNs,
                if e.tsNs > stats.lastTsNs then e.tsNs else stats.lastTsNs)
  }

  function Analyzed(es: seq<Event>): map<ThreadId, ThreadStats> {
    if es == [] then map[]
    else
      var before, e := Analyzed(es[..|es| - 1]), es[|es| - 1];
      if e.MethodStats? then before else before[e.tid := Seen(StatsOf(before, e.tid), e)]
  }

  method Aggregate(events: seq<Event>) returns (threads: map<ThreadId, ThreadStats>)
    ensures threads == Analyzed(events)
  {
    threads := map[];
    for i := 0 to |events|
      invariant threads == Analyzed(events[..i])
    {
      assert events[..i + 1][..i] == events[..i];
      var e := events[i];
      if e.MethodStats? {
        continue;
      }
      var stats := if e.tid in threads then threads[e.tid] else ThreadStats(0, 0, LONG_MAX, LONG_MIN);
      if e.tsNs < stats.firstTsNs {
        stats := stats.(firstTsNs := e.tsNs);
      }
      if e.tsNs > stats.lastTsNs {
        stats := stats.(lastTsNs := e.tsNs);
      }
      if e.Enter? {
        stats := stats.(callCount := stats.callCount + 1);
      } else if e.Leave? && e.depth == 0 {
        stats := stats.(rootTimeNs := stats.rootTimeNs + e.deltaNs);
      }
      threads := threads[e.tid := stats];
    }
    assert events[..|events|] == events;
  }

  // ---- Well-nested traces ----

  /** What a leave event can be asked of the frame it closes: to carry its depth, to name its method as well,
      or to take at least the time of the calls inside it. */
  datatype Rule = ByDepth | ByCall | ByTime

  predicate Obeys(rule: Rule, stack: seq<H.StackFrame>, e: Event) {
    e.Leave? ==>
      match rule
      case ByDepth => e.depth + 1 == |stack|
      case ByCall => e.depth + 1 == |stack| && stack[|stack| - 1].key == BuildMethodKey(e.name)
      case ByTime => stack != [] && stack[|stack| - 1].childrenNs <= e.deltaNs
  }

  /** From the given stack on, every leave obeys the rule. */
  predicate Nested(rule: Rule, stack: seq<H.StackFrame>, es: seq<Event>) {
    es != [] ==>
      && Nested(rule, stack, es[..|es| - 1])
      && Obeys(rule, H.Stack(stack, es[..|es| - 1]), es[|es| - 1])
  }

  ghost predicate AllNested(es: seq<Event>) {
    forall t :: Nested(ByDepth, [], ThreadTrace(es, t))
  }

  lemma NestedSnoc(rule: Rule, stack: seq<H.StackFrame>, es: seq<Event>, e: Event)
    ensures Nested(rule, stack, es + [e]) <==> Nested(rule, stack, es) && Obeys(rule, H.Stack(stack, es), e)
  {
    assert (es + [e])[..|es|] == es;
  }

  lemma {:induction false} NestedAppend(rule: Rule, stack: seq<H.StackFrame>, a: seq<Event>, b: seq<Event>)
    ensures Nested(rule, stack, a + b) <==> Nested(rule, stack, a) && Nested(rule, H.Stack(stack, a), b)
  {
    if b == [] {
      assert a + b == a;
    } else {
      var front, e := b[..|b| - 1], b[|b| - 1];
      assert a + b == (a + front) + [e] && b == front + [e];
      NestedAppend(rule, stack, a, front);
      NestedSnoc(rule, stack, a + front, e);
      NestedSnoc(rule, H.Stack(stack, a), front, e);
      H.StackAppend(stack, a, front);
    }
  }

  /** A call is nested if the events inside it are and its leave closes what they leave behind. */
  lemma NestedCall(rule: Rule, stack: seq<H.StackFrame>, enter: Event, kids: seq<Event>, leave: Event)
    requires enter.Enter? && Nested(rule, H.Stack(stack, [enter]), kids)
    requires Obeys(rule, H.Stack(stack, [enter] + kids), leave)
    ensures Nested(rule, stack, [enter] + kids + [leave])
  {
    NestedAppend(rule, stack, [enter], kids);
    NestedSnoc(rule, stack, [enter] + kids, leave);
  }

  /** Closing the right calls means closing them at the right depth. */
  lemma {:induction false} CallsHaveDepths(stack: seq<H.StackFrame>, es: seq<Event>)
    requires Nested(ByCall, stack, es)
    ensures Nested(ByDepth, stack, es)
  {
    if es != [] {
      CallsHaveDepths(stack, es[..|es| - 1]);
    }
  }

  /** Wall times play no part in it. */
  lemma {:induction false} NestedBare(rule: Rule, stack: seq<H.StackFrame>, es: seq<Event>)
    ensures Nested(rule, stack, BareTrace(es)) <==> Nested(rule, stack, es)
  {
    if es != [] {
      var front, e := es[..|es| - 1], es[|es| - 1];
      NestedBare(rule, stack, front);
      H.BareReplay(stack, front, "");
      assert BareTrace(es) == BareTrace(front) + [Bare(e)];
      NestedSnoc(rule, stack, BareTrace(front), Bare(e));
    }
  }

  // ---- Totals over a map ----

  function Time(ns: int): Accum {
    Accum(0, ns, 0, 0, 0)
  }

  ghost function Total<K(!new)>(m: map<K, Accum>): int {
    SumKeys(m, m.Keys).totalSelfNs
  }

  lemma TotalUpdate<K(!new)>(m: map<K, Accum>, k: K, a: Accum)
    ensures Total(m[k := a]) == Total(m) - Get(m, k).totalSelfNs + a.totalSelfNs
  {
    var n, ks := m[k := a], m.Keys + {k};
    assert n.Keys == ks;
    SumKeysGrow(m, m.Keys, ks);
    SumKeysSplit(m, ks, k);
    SumKeysSplit(n, ks, k);
    SumKeysSame(m, n, ks - {k});
  }

  ghost function RootTimes(threads: map<ThreadId, ThreadStats>): map<ThreadId, Accum> {
    map t | t in threads :: Time(threads[t].rootTimeNs)
  }

  function HeldBy(stack: seq<H.StackFrame>): int {
    if stack == [] then 0 else HeldBy(stack[..|stack| - 1]) + stack[|stack| - 1].childrenNs
  }

  /** What the open frames of each thread hold for their callers to subtract. */
  ghost function HeldTimes(stacks: map<ThreadId, seq<H.StackFrame>>): map<ThreadId, Accum> {
    map t | t in stacks :: Time(HeldBy(stacks[t]))
  }

  lemma RootUpdate(threads: map<ThreadId, ThreadStats>, tid: ThreadId, after: ThreadStats)
    ensures Total(RootTimes(threads[tid := after]))
         == Total(RootTimes(threads)) - StatsOf(threads, tid).rootTimeNs + after.rootTimeNs
  {
    TotalUpdate(RootTimes(threads), tid, Time(after.rootTimeNs));
    assert RootTimes(threads[tid := after]) == RootTimes(threads)[tid := Time(after.rootTimeNs)];
  }

  lemma HeldUpdate(r: H.Replay, tid: ThreadId, after: seq<H.StackFrame>)
    ensures Total(HeldTimes(r.stacks[tid := after]))
         == Total(HeldTimes(r.stacks)) - HeldBy(H.StackOf(r, tid)) + HeldBy(after)
  {
    TotalUpdate(HeldTimes(r.stacks), tid, Time(HeldBy(after)));
    assert HeldTimes(r.stacks[tid := after]) == HeldTimes(r.stacks)[tid := Time(HeldBy(after))];
  }

  lemma SelfUpdate(stats: map<string, Accum>, key: string, a: Accum)
    ensures Total(stats[key := Merge(Get(stats, key), a)]) == Total(stats) + a.totalSelfNs
  {
    TotalUpdate(stats, key, Merge(Get(stats, key), a));
  }

  ghost predicate Balanced(es: seq<Event>) {
    Total(H.Replayed(es).stats) == Total(RootTimes(Analyzed(es))) + Total(HeldTimes(H.Replayed(es).stacks))
  }

  lemma LeaveBalances(front: seq<Event>, e: Event)
    requires Balanced(front) && e.Leave?
    requires e.depth + 1 == |H.StackOf(H.Replayed(front), e.tid)|
    ensures Balanced(front + [e])
  {
    assert (front + [e])[..|front|] == front;
    var r, key := H.Replayed(front), BuildMethodKey(e.name);
    var stack := H.StackOf(r, e.tid);
    HeldUpdate(r, e.tid, H.StackAfter(stack, e));
    RootUpdate(Analyzed(front), e.tid, Seen(StatsOf(Analyzed(front), e.tid), e));
    SelfUpdate(r.stats, key, H.Adds(stack, e, key));
  }

  lemma OtherBalances(front: seq<Event>, e: Event)
    requires Balanced(front) && (e.Enter? || e.Other?)
    ensures Balanced(front + [e])
  {
    assert (front + [e])[..|front|] == front;
    var r := H.Replayed(front);
    RootUpdate(Analyzed(front), e.tid, Seen(StatsOf(Analyzed(front), e.tid), e));
    if e.Enter? {
      HeldUpdate(r, e.tid, H.StackAfter(H.StackOf(r, e.tid), e));
    }
  }

  lemma NestedFront(front: seq<Event>, e: Event)
    requires AllNested(front + [e])
    ensures AllNested(front)
    ensures e.Leave? ==> e.depth + 1 == |H.StackOf(H.Replayed(front), e.tid)|
  {
    forall t ensures Nested(ByDepth, [], ThreadTrace(front, t)) {
      assert Nested(ByDepth, [], ThreadTrace(front + [e], t));
      ThreadTraceSnoc(front, e, t);
      NestedSnoc(ByDepth, [], ThreadTrace(front, t), e);
    }
    if e.Leave? {
      assert Nested(ByDepth, [], ThreadTrace(front + [e], e.tid));
      ThreadTraceSnoc(front, e, e.tid);
      NestedSnoc(ByDepth, [], ThreadTrace(front, e.tid), e);
      H.StacksApart(front, e.tid);
    }
  }

  /** On any prefix of any interleaving of well-nested threads, self time over all methods exceeds
      root time over all threads by exactly what the open frames hold; with no frame open they are equal. */
  lemma {:induction false} SelfTimeIsRootTime(es: seq<Event>)
    requires AllNested(es) && forall i :: 0 <= i < |es| ==> !es[i].MethodStats?
    ensures Total(H.Replayed(es).stats) == Total(RootTimes(Analyzed(es))) + Total(HeldTimes(H.Replayed(es).stacks))
  {
    if es == [] {
      SumKeysEmpty<string>({});
      SumKeysEmpty<ThreadId>({});
    } else {
      var front, e := es[..|es| - 1], es[|es| - 1];
      assert es == front + [e];
      NestedFront(front, e);
      SelfTimeIsRootTime(front);
      if e.Leave? {
        LeaveBalances(front, e);
      } else {
        OtherBalances(front, e);
      }
    }
  }

  // ---- The trace of a history ----

  predicate SameKeys(a: seq<H.StackFrame>, b: seq<H.StackFrame>) {
    |a| == |b| && forall i :: 0 <= i < |a| ==> a[i].key == b[i].key
  }

  /** Whatever is measured, a call leaves the frames below it in place and closes its own. */
  lemma {:induction false} NodeCloses(c: Config, stack: seq<H.StackFrame>, n: Node, depth: nat)
    requires |stack| == depth
    ensures Nested(ByCall, stack, EmitNode(c, n, depth))
    ensures SameKeys(H.Stack(stack, EmitNode(c, n, depth)), stack)
    decreases n, 1
  {
    var enter, leave := EnterOf(c, n.fn, n.enterNs, depth), LeaveOf(c, n, depth);
    var kids := EmitForest(c, n.kids, depth + 1);
    H.EnteredStack(c, stack, n, depth);
    var entered := stack + [H.StackFrame(H.KeyOf(c, n.fn), 0)];
    ForestCloses(c, entered, n.kids, depth + 1);
    H.StackAppend(stack, [enter], kids);
    NestedCall(ByCall, stack, enter, kids, leave);
    H.StackSnoc(stack, [enter] + kids, leave);
    LeaveKeeps(stack, H.Stack(entered, kids), entered[depth], leave);
  }

  lemma LeaveKeeps(stack: seq<H.StackFrame>, inside: seq<H.StackFrame>, own: H.StackFrame, leave: Event)
    requires leave.Leave? && SameKeys(inside, stack + [own])
    ensures SameKeys(H.StackAfter(inside, leave), stack)
  {
    assert forall i :: 0 <= i < |stack| ==> (stack + [own])[i] == stack[i];
  }

  lemma {:induction false} ForestCloses(c: Config, stack: seq<H.StackFrame>, ns: seq<Node>, depth: nat)
    requires |stack| == depth
    ensures Nested(ByCall, stack, EmitForest(c, ns, depth))
    ensures SameKeys(H.Stack(stack, EmitForest(c, ns, depth)), stack)
    decreases ns, 0
  {
    if ns != [] {
      var front, last := ns[..|ns| - 1], ns[|ns| - 1];
      ForestCloses(c, stack, front, depth);
      NodeCloses(c, H.Stack(stack, EmitForest(c, front, depth)), last, depth);
      NestedAppend(ByCall, stack, EmitForest(c, front, depth), EmitNode(c, last, depth));
      H.StackAppend(stack, EmitForest(c, front, depth), EmitNode(c, last, depth));
    }
  }

  lemma {:induction false} OpenCloses(c: Config, open: seq<Open>)
    ensures Nested(ByCall, [], EmitOpen(c, open)) && |H.Stack([], EmitOpen(c, open))| == |open|
  {
    if open != [] {
      var outer, top, depth := open[..|open| - 1], open[|open| - 1], |open| - 1;
      var first, enter := EmitOpen(c, outer), EnterOf(c, top.fn, top.enterNs, depth);
      OpenCloses(c, outer);
      NestedSnoc(ByCall, [], first, enter);
      H.StackSnoc([], first, enter);
      ForestCloses(c, H.Stack([], first + [enter]), top.kids, depth + 1);
      NestedAppend(ByCall, [], first + [enter], EmitForest(c, top.kids, depth + 1));
      H.StackAppend([], first + [enter], EmitForest(c, top.kids, depth + 1));
    }
  }

  /** The trace of a history is well nested, whatever is still open: every leave names the call opened last
      among those not yet left, at its depth. */
  lemma HistoryNested(c: Config, h: History)
    ensures Nested(ByCall, [], Emit(c, h))
  {
    ForestCloses(c, [], h.roots, 0);
    assert H.Stack([], EmitForest(c, h.roots, 0)) == [];
    OpenCloses(c, h.open);
    NestedAppend(ByCall, [], EmitForest(c, h.roots, 0), EmitOpen(c, h.open));
  }

  // ---- The time of a call covers the calls inside it ----

  lemma {:induction false} NodeCovers(c: Config, stack: seq<H.StackFrame>, n: Node, depth: nat)
    requires c.computeDeltas && TimedNode(n)
    ensures Nested(ByTime, stack, EmitNode(c, n, depth))
    decreases n, 1
  {
    H.EnteredStack(c, stack, n, depth);
    H.InsideStack(c, stack, n, depth);
    ForestCovers(c, stack + [H.StackFrame(H.KeyOf(c, n.fn), 0)], n.kids, depth + 1);
    NestedCall(ByTime, stack, EnterOf(c, n.fn, n.enterNs, depth), EmitForest(c, n.kids, depth + 1),
               LeaveOf(c, n, depth));
  }

  lemma {:induction false} ForestCovers(c: Config, stack: seq<H.StackFrame>, ns: seq<Node>, depth: nat)
    requires c.computeDeltas && TimedForest(ns)
    ensures Nested(ByTime, stack, EmitForest(c, ns, depth))
    decreases ns, 0
  {
    if ns != [] {
      var front, last := ns[..|ns| - 1], ns[|ns| - 1];
      ForestCovers(c, stack, front, depth);
      NodeCovers(c, H.Stack(stack, EmitForest(c, front, depth)), last, depth);
      NestedAppend(ByTime, stack, EmitForest(c, front, depth), EmitNode(c, last, depth));
    }
  }

  lemma {:induction false} OpenCovers(c: Config, open: seq<Open>)
    requires c.computeDeltas && forall i :: 0 <= i < |open| ==> TimedForest(open[i].kids)
    ensures Nested(ByTime, [], EmitOpen(c, open))
  {
    if open != [] {
      var outer, top, depth := open[..|open| - 1], open[|open| - 1], |open| - 1;
      var first, enter := EmitOpen(c, outer), EnterOf(c, top.fn, top.enterNs, depth);
      OpenCovers(c, outer);
      NestedSnoc(ByTime, [], first, enter);
      ForestCovers(c, H.Stack([], first + [enter]), top.kids, depth + 1);
      NestedAppend(ByTime, [], first + [enter], EmitForest(c, top.kids, depth + 1));
    }
  }

  /** With times that nest, as those of every run do, every leave takes at least the time of the calls inside. */
  lemma HistoryCovers(c: Config, h: History)
    requires c.computeDeltas && TimedHistory(h)
    ensures Nested(ByTime, [], Emit(c, h))
  {
    ForestCovers(c, [], h.roots, 0);
    H.ForestStack(c, [], h.roots, 0);
    OpenCovers(c, h.open);
    NestedAppend(ByTime, [], EmitForest(c, h.roots, 0), EmitOpen(c, h.open));
  }

  /** What a thread emits in a clean run is well nested in every sense, whether it has finished or not. */
  lemma CleanRunNested(c: Config, steps: seq<Step>)
    requires Valid(c, steps) && Clean(c, steps) && After(c, steps).world.phase.Running? && Tracing(c)
    ensures Nested(ByCall, [], After(c, steps).shadow.trace) && Nested(ByDepth, [], After(c, steps).shadow.trace)
    ensures c.computeDeltas ==> Nested(ByTime, [], After(c, steps).shadow.trace)
  {
    var y := After(c, steps);
    FaithfulTrace(c, steps);
    HistoryNested(c, y.world.hist);
    NestedBare(ByCall, [], y.shadow.trace);
    CallsHaveDepths([], y.shadow.trace);
    if c.computeDeltas {
      RunWellTimed(c, steps);
      HistoryCovers(c, y.world.hist);
      NestedBare(ByTime, [], y.shadow.trace);
    }
  }

  // ---- Root time ----

  function RootTime(es: seq<Event>): int {
    if es == [] then 0 else RootTime(es[..|es| - 1]) + RootTimeOf(es[|es| - 1])
  }

  lemma {:induction false} RootTimeAppend(a: seq<Event>, b: seq<Event>)
    ensures RootTime(a + b) == RootTime(a) + RootTime(b)
  {
    if b == [] {
      assert a + b == a;
    } else {
      assert (a + b)[..|a + b| - 1] == a + b[..|b| - 1];
      RootTimeAppend(a, b[..|b| - 1]);
    }
  }

  lemma {:induction false} RootTimeNode(c: Config, n: Node, depth: nat)
    requires c.computeDeltas
    ensures RootTime(EmitNode(c, n, depth)) == if depth == 0 then n.Inclusive() else 0
    decreases n, 1
  {
    RootTimeForest(c, n.kids, depth + 1);
    RootTimeCall(EnterOf(c, n.fn, n.enterNs, depth), EmitForest(c, n.kids, depth + 1), LeaveOf(c, n, depth));
  }

  lemma RootTimeCall(enter: Event, kids: seq<Event>, leave: Event)
    requires enter.Enter?
    ensures RootTime([enter] + kids + [leave]) == RootTime(kids) + RootTimeOf(leave)
  {
    RootTimeAppend([enter], kids);
    RootTimeAppend([enter] + kids, [leave]);
    assert [enter][..0] == [] && [leave][..0] == [];
  }

  lemma {:induction false} RootTimeForest(c: Config, ns: seq<Node>, depth: nat)
    requires c.computeDeltas
    ensures RootTime(EmitForest(c, ns, depth)) == if depth == 0 then KidsTime(ns) else 0
    decreases ns, 0
  {
    if ns != [] {
      RootTimeForest(c, ns[..|ns| - 1], depth);
      RootTimeNode(c, ns[|ns| - 1], depth);
      RootTimeAppend(EmitForest(c, ns[..|ns| - 1], depth), EmitNode(c, ns[|ns| - 1], depth));
    }
  }

  lemma {:induction false} RootTimeOpen(c: Config, open: seq<Open>)
    requires c.computeDeltas
    ensures RootTime(EmitOpen(c, open)) == 0
  {
    if open != [] {
      var outer, top, depth := open[..|open| - 1], open[|open| - 1], |open| - 1;
      var enter := EnterOf(c, top.fn, top.enterNs, depth);
      RootTimeOpen(c, outer);
      assert (EmitOpen(c, outer) + [enter])[..|EmitOpen(c, outer)|] == EmitOpen(c, outer);
      RootTimeForest(c, top.kids, depth + 1);
      RootTimeAppend(EmitOpen(c, outer) + [enter], EmitForest(c, top.kids, depth + 1));
    }
  }

  lemma {:induction false} ThreadsApart(es: seq<Event>, tid: ThreadId)
    ensures StatsOf(Analyzed(es), tid).rootTimeNs == RootTime(ThreadTrace(es, tid))
  {
    if es != [] {
      var front, e := es[..|es| - 1], es[|es| - 1];
      ThreadsApart(front, tid);
      if OnThread(e, tid) {
        var mine := ThreadTrace(front, tid);
        assert (mine + [e])[..|mine|] == mine;
      }
    }
  }

  /** The root time of a thread is the inclusive time of its finished outermost calls. */
  lemma RootTimeOfHistory(c: Config, h: History, es: seq<Event>)
    requires c.computeDeltas && BareTrace(ThreadTrace(es, c.tid)) == Emit(c, h)
    ensures StatsOf(Analyzed(es), c.tid).rootTimeNs == KidsTime(h.roots)
  {
    ThreadsApart(es, c.tid);
    RootTimeBare(ThreadTrace(es, c.tid));
    RootTimeForest(c, h.roots, 0);
    RootTimeOpen(c, h.open);
    RootTimeAppend(EmitForest(c, h.roots, 0), EmitOpen(c, h.open));
  }

  lemma {:induction false} RootTimeBare(es: seq<Event>)
    ensures RootTime(BareTrace(es)) == RootTime(es)
  {
    if es != [] {
      RootTimeBare(es[..|es| - 1]);
      assert BareTrace(es)[..|es| - 1] == BareTrace(es[..|es| - 1]);
    }
  }

  function Enters(es: seq<Event>): nat {
    if es == [] then 0 else Enters(es[..|es| - 1]) + if es[|es| - 1].Enter? then 1 else 0
  }

  ghost predicate Bounds(stats: ThreadStats, own: seq<Event>) {
    && (forall i :: 0 <= i < |own| ==> !own[i].MethodStats?)
    && (own == [] ==> stats == UNSEEN)
    && (forall i :: 0 <= i < |own| ==> stats.firstTsNs <= own[i].tsNs <= stats.lastTsNs)
    && (own != [] ==> exists i :: 0 <= i < |own| && own[i].tsNs == stats.firstTsNs)
    && (own != [] ==> exists i :: 0 <= i < |own| && own[i].tsNs == stats.lastTsNs)
    && stats.callCount == Enters(own)
  }

  lemma SeenBounds(stats: ThreadStats, own: seq<Event>, e: Event)
    requires Bounds(stats, own) && !e.MethodStats? && LONG_MIN <= e.tsNs <= LONG_MAX
    ensures Bounds(Seen(stats, e), own + [e])
  {
    var all := own + [e];
    assert all[..|own|] == own && all[|own|] == e;
    if own != [] {
      var i :| 0 <= i < |own| && own[i].tsNs == stats.firstTsNs;
      var j :| 0 <= j < |own| && own[j].tsNs == stats.lastTsNs;
      assert all[i] == own[i] && all[j] == own[j];
    }
  }

  /** A thread's first and last timestamps bound its events, and are those of some of them; its call
      count is the number of its enter events. */
  lemma {:induction false} FirstAndLast(es: seq<Event>, tid: ThreadId)
    requires forall i :: 0 <= i < |es| && OnThread(es[i], tid) ==> LONG_MIN <= es[i].tsNs <= LONG_MAX
    ensures Bounds(StatsOf(Analyzed(es), tid), ThreadTrace(es, tid))
  {
    if es != [] {
      var front, e := es[..|es| - 1], es[|es| - 1];
      FirstAndLast(front, tid);
      if OnThread(e, tid) {
        SeenBounds(StatsOf(Analyzed(front), tid), ThreadTrace(front, tid), e);
      }
    }
  }
}
