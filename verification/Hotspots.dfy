/** HotspotsAnalyzer.AggregateAsync: replaying a trace with one stack per thread.

    The specification is the call forest: on the trace of a history the replay finds, method by
    method, what the history records (`ReplaysHistory`), and on an interleaving of several threads
    the sum of what it finds on each (`ReplaysThreadsApart`). */
module Hotspots {
  import opened Accumulators
  import opened Trace
  import opened ShadowStack
  import opened CallForest

  datatype StackFrame = StackFrame(key: string, childrenNs: int)

  datatype Replay = Replay(stacks: map<ThreadId, seq<StackFrame>>, stats: map<string, Accum>)

  const NEW := Replay(map[], map[])

  function StackOf(r: Replay, tid: ThreadId): seq<StackFrame> {
    if tid in r.stacks then r.stacks[tid] else []
  }

  function TopCredited(stack: seq<StackFrame>, deltaNs: int): seq<StackFrame> {
    if stack == [] then []
    else
      var top := stack[|stack| - 1];
      stack[|stack| - 1 := top.(childrenNs := top.childrenNs + deltaNs)]
  }

  /** What one event adds to the statistics of method `key`, given the stack of its thread. */
  function Adds(stack: seq<StackFrame>, e: Event, key: string): Accum {
    match e
    case Leave(_, _, _, name, _, deltaNs, _, _) =>
      if stack != [] && BuildMethodKey(name) == key
      then Single(deltaNs, deltaNs - stack[|stack| - 1].childrenNs) else ZERO
    case MethodStats(name, accum) => if BuildMethodKey(name) == key then accum else ZERO
    case _ => ZERO
  }

  function StackAfter(stack: seq<StackFrame>, e: Event): seq<StackFrame> {
    match e
    case Enter(_, _, _, name, _) => stack + [StackFrame(BuildMethodKey(name), 0)]
    case Leave(_, _, _, _, _, deltaNs, _, _) =>
      if stack != [] then TopCredited(stack[..|stack| - 1], deltaNs) else stack
    case _ => stack
  }

  function Step(r: Replay, e: Event): Replay {
    match e
    case Enter(_, tid, _, _, _) => r.(stacks := r.stacks[tid := StackAfter(StackOf(r, tid), e)])
    case Leave(_, tid, _, name, _, _, _, _) =>
      var stack, key := StackOf(r, tid), BuildMethodKey(name);
      if stack == [] then r
      else Replay(r.stacks[tid := StackAfter(stack, e)],
                  r.stats[key := Merge(Get(r.stats, key), Adds(stack, e, key))])
    case MethodStats(name, _) =>
      var key := BuildMethodKey(name);
      r.(stats := r.stats[key := Merge(Get(r.stats, key), Adds([], e, key))])
    case Other(_, _) => r
  }

  function From(r: Replay, es: seq<Event>): Replay {
    if es == [] then r else Step(From(r, es[..|es| - 1]), es[|es| - 1])
  }

  function Replayed(es: seq<Event>): Replay {
    From(NEW, es)
  }

  method Aggregate(events: seq<Event>) returns (stats: map<string, Accum>)
    ensures stats == Replayed(events).stats
  {
    stats := map[];
    var threadStacks: map<ThreadId, seq<StackFrame>> := map[];
    for i := 0 to |events|
      invariant Replay(threadStacks, stats) == Replayed(events[..i])
    {
      assert events[..i + 1][..i] == events[..i];
      var e := events[i];
      match e
      case Enter(_, tid, _, name, _) =>
        var stack := if tid in threadStacks then threadStacks[tid] else [];
        threadStacks := threadStacks[tid := stack + [StackFrame(BuildMethodKey(name), 0)]];
      case Leave(_, tid, _, name, _, deltaNs, _, _) =>
        if tid in threadStacks && |threadStacks[tid]| > 0 {
          var stack := threadStacks[tid];
          var frame := stack[|stack| - 1];
          stack := stack[..|stack| - 1];
          var selfNs := deltaNs - frame.childrenNs;
          var key := BuildMethodKey(name);
          var ms := if key in stats then stats[key] else ZERO;
          stats := stats[key := Accum(ms.callCount + 1, ms.totalSelfNs + selfNs,
                                      if selfNs > ms.maxSelfNs then selfNs else ms.maxSelfNs,
                                      ms.totalInclusiveNs + deltaNs,
                                      if deltaNs > ms.maxInclusiveNs then deltaNs else ms.maxInclusiveNs)];
          if |stack| > 0 {
            var caller := stack[|stack| - 1];
            stack := stack[|stack| - 1 := caller.(childrenNs := caller.childrenNs + deltaNs)];
          }
          threadStacks := threadStacks[tid := stack];
        }
      case MethodStats(name, accum) =>
        var key := BuildMethodKey(name);
        var ms := if key in stats then stats[key] else ZERO;
        stats := stats[key := Merge(ms, accum)];
      case Other(_, _) =>
    }
    assert events[..|events|] == events;
  }

  lemma StepStats(r: Replay, e: Event, key: string)
    ensures Get(Step(r, e).stats, key)
         == Merge(Get(r.stats, key), Adds(if e.MethodStats? then [] else StackOf(r, e.tid), e, key))
  {
    var before, adds := Get(r.stats, key), Adds(if e.MethodStats? then [] else StackOf(r, e.tid), e, key);
    MergeZero(before);
    if adds == ZERO {
      assert Merge(before, adds) == before;
    }
    if e.Enter? || e.Other? {
      assert Step(r, e).stats == r.stats;
    } else if e.Leave? && StackOf(r, e.tid) == [] {
      assert Step(r, e) == r;
    } else if BuildMethodKey(e.name) == key {
      assert Step(r, e).stats[key] == Merge(before, adds);
    } else {
      assert adds == ZERO;
    }
  }

  // ---- One thread on its own ----

  function Stack(stack: seq<StackFrame>, es: seq<Event>): seq<StackFrame> {
    if es == [] then stack else StackAfter(Stack(stack, es[..|es| - 1]), es[|es| - 1])
  }

  /** What the events of one thread add to method `key`, from the given stack on. */
  function Tally(stack: seq<StackFrame>, es: seq<Event>, key: string): Accum {
    if es == [] then ZERO
    else
      var front, e := es[..|es| - 1], es[|es| - 1];
      Merge(Tally(stack, front, key), Adds(Stack(stack, front), e, key))
  }

  lemma StackSnoc(stack: seq<StackFrame>, es: seq<Event>, e: Event)
    ensures Stack(stack, es + [e]) == StackAfter(Stack(stack, es), e)
  {
    assert (es + [e])[..|es|] == es;
  }

  lemma TallySnoc(stack: seq<StackFrame>, es: seq<Event>, e: Event, key: string)
    ensures Tally(stack, es + [e], key) == Merge(Tally(stack, es, key), Adds(Stack(stack, es), e, key))
  {
    assert (es + [e])[..|es|] == es;
  }

  lemma {:induction false} StackAppend(stack: seq<StackFrame>, a: seq<Event>, b: seq<Event>)
    ensures Stack(stack, a + b) == Stack(Stack(stack, a), b)
  {
    if b == [] {
      assert a + b == a;
    } else {
      var front, e := b[..|b| - 1], b[|b| - 1];
      assert a + b == (a + front) + [e];
      StackAppend(stack, a, front);
      StackSnoc(stack, a + front, e);
    }
  }

  lemma {:induction false} TallyAppend(stack: seq<StackFrame>, a: seq<Event>, b: seq<Event>, key: string)
    ensures Tally(stack, a + b, key) == Merge(Tally(stack, a, key), Tally(Stack(stack, a), b, key))
  {
    if b == [] {
      assert a + b == a;
      MergeZero(Tally(stack, a, key));
    } else {
      var front, e := b[..|b| - 1], b[|b| - 1];
      assert a + b == (a + front) + [e];
      TallyAppend(stack, a, front, key);
      TallySnoc(stack, a + front, e, key);
      StackAppend(stack, a, front);
      MergeAssociates(Tally(stack, a, key), Tally(Stack(stack, a), front, key),
                      Adds(Stack(Stack(stack, a), front), e, key));
    }
  }

  /** Wall times play no part in a replay. */
  lemma {:induction false} BareReplay(stack: seq<StackFrame>, es: seq<Event>, key: string)
    ensures Stack(stack, BareTrace(es)) == Stack(stack, es)
    ensures Tally(stack, BareTrace(es), key) == Tally(stack, es, key)
  {
    if es != [] {
      var front, e := es[..|es| - 1], es[|es| - 1];
      BareReplay(stack, front, key);
      assert BareTrace(es)[..|es| - 1] == BareTrace(front);
      assert StackAfter(Stack(stack, front), Bare(e)) == StackAfter(Stack(stack, front), e);
    }
  }

  // ---- The replay of a history ----

  function KeyOf(c: Config, fn: FnId): string {
    BuildMethodKey(c.Info(fn).Name())
  }

  /** The functions a method key stands for: generic instantiations share one. */
  function Functions(c: Config, key: string): set<FnId> {
    set fn | fn in c.methods && KeyOf(c, fn) == key
  }

  predicate Known(c: Config, rs: seq<Record>) {
    forall i :: 0 <= i < |rs| ==> rs[i].fn in c.methods
  }

  lemma KnownParts(c: Config, a: seq<Record>, b: seq<Record>)
    requires Known(c, a + b)
    ensures Known(c, a) && Known(c, b)
  {
    assert forall i :: 0 <= i < |a| ==> a[i] == (a + b)[i];
    assert forall i :: 0 <= i < |b| ==> b[i] == (a + b)[|a| + i];
  }

  lemma TopCreditedLast(stack: seq<StackFrame>, f: StackFrame, deltaNs: int)
    ensures TopCredited(stack + [f], deltaNs) == stack + [f.(childrenNs := f.childrenNs + deltaNs)]
  {
  }

  lemma TopCreditedNothing(stack: seq<StackFrame>)
    ensures TopCredited(stack, 0) == stack
  {
  }

  lemma EnteredStack(c: Config, stack: seq<StackFrame>, n: Node, depth: nat)
    ensures Stack(stack, [EnterOf(c, n.fn, n.enterNs, depth)]) == stack + [StackFrame(KeyOf(c, n.fn), 0)]
  {
    StackSnoc(stack, [], EnterOf(c, n.fn, n.enterNs, depth));
    assert [] + [EnterOf(c, n.fn, n.enterNs, depth)] == [EnterOf(c, n.fn, n.enterNs, depth)];
  }

  lemma {:induction false} NodeStack(c: Config, stack: seq<StackFrame>, n: Node, depth: nat)
    requires c.computeDeltas
    ensures Stack(stack, EmitNode(c, n, depth)) == TopCredited(stack, n.Inclusive())
    decreases n, 1
  {
    InsideStack(c, stack, n, depth);
    StackSnoc(stack, [EnterOf(c, n.fn, n.enterNs, depth)] + EmitForest(c, n.kids, depth + 1), LeaveOf(c, n, depth));
  }

  lemma {:induction false} ForestStack(c: Config, stack: seq<StackFrame>, ns: seq<Node>, depth: nat)
    requires c.computeDeltas
    ensures Stack(stack, EmitForest(c, ns, depth)) == TopCredited(stack, KidsTime(ns))
    decreases ns, 0
  {
    if ns == [] {
      TopCreditedNothing(stack);
    } else {
      var front, last := ns[..|ns| - 1], ns[|ns| - 1];
      ForestStack(c, stack, front, depth);
      NodeStack(c, TopCredited(stack, KidsTime(front)), last, depth);
      StackAppend(stack, EmitForest(c, front, depth), EmitNode(c, last, depth));
    }
  }

  /** The stack when a call is about to leave: its frame holds the time of its finished calls. */
  lemma {:induction false} InsideStack(c: Config, stack: seq<StackFrame>, n: Node, depth: nat)
    requires c.computeDeltas
    ensures Stack(stack, [EnterOf(c, n.fn, n.enterNs, depth)] + EmitForest(c, n.kids, depth + 1))
         == stack + [StackFrame(KeyOf(c, n.fn), KidsTime(n.kids))]
    decreases n, 0
  {
    var enter, kids := EnterOf(c, n.fn, n.enterNs, depth), EmitForest(c, n.kids, depth + 1);
    EnteredStack(c, stack, n, depth);
    StackAppend(stack, [enter], kids);
    ForestStack(c, stack + [StackFrame(KeyOf(c, n.fn), 0)], n.kids, depth + 1);
    TopCreditedLast(stack, StackFrame(KeyOf(c, n.fn), 0), KidsTime(n.kids));
  }

  lemma EnterTally(c: Config, stack: seq<StackFrame>, fn: FnId, ts: int, depth: nat, key: string)
    ensures Tally(stack, [EnterOf(c, fn, ts, depth)], key) == ZERO
  {
    var enter := EnterOf(c, fn, ts, depth);
    TallySnoc(stack, [], enter, key);
    assert [] + [enter] == [enter];
    assert Adds(stack, enter, key) == ZERO;
    MergeZero(ZERO);
  }

  lemma NodeSum(rs: seq<Record>, r: Record, adds: Accum, sel: set<FnId>)
    requires adds == if r.fn in sel then Single(r.inclusiveNs, r.selfNs) else ZERO
    ensures Merge(Merge(ZERO, Summary(rs, sel)), adds) == Summary(rs + [r], sel)
  {
    SummarySnoc(rs, r, sel);
    MergeZero(Summary(rs, sel));
  }

  /** From the tally of its finished calls to the tally of a call. */
  lemma CallTally(c: Config, stack: seq<StackFrame>, n: Node, depth: nat, key: string)
    requires c.computeDeltas && n.fn in c.methods
    requires Tally(stack + [StackFrame(KeyOf(c, n.fn), 0)], EmitForest(c, n.kids, depth + 1), key)
          == Summary(RecordedForest(n.kids), Functions(c, key))
    ensures Tally(stack, EmitNode(c, n, depth), key) == Summary(RecordedNode(n), Functions(c, key))
  {
    var enter, leave := EnterOf(c, n.fn, n.enterNs, depth), LeaveOf(c, n, depth);
    var kids := EmitForest(c, n.kids, depth + 1);
    EnteredStack(c, stack, n, depth);
    InsideStack(c, stack, n, depth);
    EnterTally(c, stack, n.fn, n.enterNs, depth, key);
    TallyAppend(stack, [enter], kids, key);
    TallySnoc(stack, [enter] + kids, leave, key);
    NodeSum(RecordedForest(n.kids), RecordOf(n),
            Adds(stack + [StackFrame(KeyOf(c, n.fn), KidsTime(n.kids))], leave, key), Functions(c, key));
  }

  lemma {:induction false} NodeTally(c: Config, stack: seq<StackFrame>, n: Node, depth: nat, key: string)
    requires c.computeDeltas && Known(c, RecordedNode(n))
    ensures Tally(stack, EmitNode(c, n, depth), key) == Summary(RecordedNode(n), Functions(c, key))
    decreases n, 1
  {
    KnownParts(c, RecordedForest(n.kids), [RecordOf(n)]);
    assert [RecordOf(n)][0].fn in c.methods;
    ForestTally(c, stack + [StackFrame(KeyOf(c, n.fn), 0)], n.kids, depth + 1, key);
    CallTally(c, stack, n, depth, key);
  }

  lemma {:induction false} ForestTally(c: Config, stack: seq<StackFrame>, ns: seq<Node>, depth: nat, key: string)
    requires c.computeDeltas && Known(c, RecordedForest(ns))
    ensures Tally(stack, EmitForest(c, ns, depth), key) == Summary(RecordedForest(ns), Functions(c, key))
    decreases ns, 0
  {
    if ns != [] {
      var front, last := ns[..|ns| - 1], ns[|ns| - 1];
      KnownParts(c, RecordedForest(front), RecordedNode(last));
      ForestTally(c, stack, front, depth, key);
      NodeTally(c, Stack(stack, EmitForest(c, front, depth)), last, depth, key);
      TallyAppend(stack, EmitForest(c, front, depth), EmitNode(c, last, depth), key);
      SummaryAppend(RecordedForest(front), RecordedNode(last), Functions(c, key));
    }
  }

  /** The frames a replay holds for the open activations of a history. */
  function OpenFrames(c: Config, open: seq<Open>): seq<StackFrame> {
    seq(|open|, i requires 0 <= i < |open| => StackFrame(KeyOf(c, open[i].fn), KidsTime(open[i].kids)))
  }

  lemma {:induction false} OpenStack(c: Config, open: seq<Open>)
    requires c.computeDeltas
    ensures Stack([], EmitOpen(c, open)) == OpenFrames(c, open)
  {
    if open != [] {
      var outer, top, depth := open[..|open| - 1], open[|open| - 1], |open| - 1;
      OpenStack(c, outer);
      var enter, kids := EnterOf(c, top.fn, top.enterNs, depth), EmitForest(c, top.kids, depth + 1);
      StackSnoc([], EmitOpen(c, outer), enter);
      StackAppend([], EmitOpen(c, outer) + [enter], kids);
      ForestStack(c, OpenFrames(c, outer) + [StackFrame(KeyOf(c, top.fn), 0)], top.kids, depth + 1);
      TopCreditedLast(OpenFrames(c, outer), StackFrame(KeyOf(c, top.fn), 0), KidsTime(top.kids));
      assert OpenFrames(c, open) == OpenFrames(c, outer) + [StackFrame(KeyOf(c, top.fn), KidsTime(top.kids))];
    }
  }

  lemma {:induction false} OpenTally(c: Config, open: seq<Open>, key: string)
    requires c.computeDeltas && Known(c, RecordedOpen(open))
    ensures Tally([], EmitOpen(c, open), key) == Summary(RecordedOpen(open), Functions(c, key))
  {
    if open != [] {
      var outer, top, depth := open[..|open| - 1], open[|open| - 1], |open| - 1;
      KnownParts(c, RecordedOpen(outer), RecordedForest(top.kids));
      OpenTally(c, outer, key);
      var enter, kids := EnterOf(c, top.fn, top.enterNs, depth), EmitForest(c, top.kids, depth + 1);
      var entered := EmitOpen(c, outer) + [enter];
      TallySnoc([], EmitOpen(c, outer), enter, key);
      assert Adds(Stack([], EmitOpen(c, outer)), enter, key) == ZERO;
      MergeZero(Tally([], EmitOpen(c, outer), key));
      TallyAppend([], entered, kids, key);
      ForestTally(c, Stack([], entered), top.kids, depth + 1, key);
      SummaryAppend(RecordedOpen(outer), RecordedForest(top.kids), Functions(c, key));
    }
  }

  /** Replaying the trace of a history finds, for every method, exactly what the history records,
      and leaves one frame per open activation holding the time of its finished calls. */
  lemma ReplaysHistory(c: Config, h: History, es: seq<Event>, key: string)
    requires c.computeDeltas && Known(c, Recorded(h)) && BareTrace(es) == Emit(c, h)
    ensures Tally([], es, key) == Summary(Recorded(h), Functions(c, key))
    ensures Stack([], es) == OpenFrames(c, h.open)
  {
    var roots, open := EmitForest(c, h.roots, 0), EmitOpen(c, h.open);
    BareReplay([], es, key);
    KnownParts(c, RecordedForest(h.roots), RecordedOpen(h.open));
    ForestStack(c, [], h.roots, 0);
    ForestTally(c, [], h.roots, 0, key);
    OpenStack(c, h.open);
    OpenTally(c, h.open, key);
    StackAppend([], roots, open);
    TallyAppend([], roots, open, key);
    SummaryAppend(RecordedForest(h.roots), RecordedOpen(h.open), Functions(c, key));
  }

  // ---- Many threads ----

  /** What each thread's own events contribute to method `key`. */
  ghost function ByThread(es: seq<Event>, tids: set<ThreadId>, key: string): map<ThreadId, Accum> {
    map t | t in tids :: Tally([], ThreadTrace(es, t), key)
  }

  /** What the method_stats lines contribute. */
  function ByLines(es: seq<Event>, key: string): Accum {
    if es == [] then ZERO
    else
      var before, e := ByLines(es[..|es| - 1], key), es[|es| - 1];
      if e.MethodStats? then Merge(before, Adds([], e, key)) else before
  }

  predicate Covers(tids: set<ThreadId>, es: seq<Event>) {
    forall i :: 0 <= i < |es| && !es[i].MethodStats? ==> es[i].tid in tids
  }

  lemma {:induction false} StacksApart(es: seq<Event>, tid: ThreadId)
    ensures StackOf(Replayed(es), tid) == Stack([], ThreadTrace(es, tid))
  {
    if es != [] {
      var front, e := es[..|es| - 1], es[|es| - 1];
      StacksApart(front, tid);
      if OnThread(e, tid) {
        StackSnoc([], ThreadTrace(front, tid), e);
      }
    }
  }

  /** An event adds to the share of its own thread what it adds to the whole, and nothing to others. */
  lemma ShareOf(front: seq<Event>, e: Event, t: ThreadId, key: string)
    requires !e.MethodStats?
    ensures Tally([], ThreadTrace(front + [e], t), key)
         == if t == e.tid then Merge(Tally([], ThreadTrace(front, t), key), Adds(StackOf(Replayed(front), t), e, key))
            else Tally([], ThreadTrace(front, t), key)
  {
    ThreadTraceSnoc(front, e, t);
    StacksApart(front, t);
    TallySnoc([], ThreadTrace(front, t), e, key);
  }

  lemma ShareGrows(front: seq<Event>, e: Event, tids: set<ThreadId>, key: string)
    requires !e.MethodStats? && e.tid in tids
    ensures var shares, adds := ByThread(front, tids, key), Adds(StackOf(Replayed(front), e.tid), e, key);
            ByThread(front + [e], tids, key) == shares[e.tid := Merge(Get(shares, e.tid), adds)]
  {
    forall t | t in tids
      ensures ByThread(front + [e], tids, key)[t]
           == if t == e.tid then Merge(ByThread(front, tids, key)[t], Adds(StackOf(Replayed(front), t), e, key))
              else ByThread(front, tids, key)[t]
    {
      ShareOf(front, e, t, key);
    }
  }

  lemma LineShares(front: seq<Event>, e: Event, tids: set<ThreadId>, key: string)
    requires e.MethodStats?
    ensures ByThread(front + [e], tids, key) == ByThread(front, tids, key)
  {
    forall t ensures ThreadTrace(front + [e], t) == ThreadTrace(front, t) {
      ThreadTraceSnoc(front, e, t);
    }
  }

  lemma AddLast(a: Accum, b: Accum, c: Accum)
    ensures Merge(Merge(a, b), c) == Merge(a, Merge(b, c)) == Merge(Merge(a, c), b)
  {
  }

  ghost predicate Apart(es: seq<Event>, tids: set<ThreadId>, key: string) {
    Get(Replayed(es).stats, key) == Merge(SumKeys(ByThread(es, tids, key), tids), ByLines(es, key))
  }

  lemma NothingApart(tids: set<ThreadId>, key: string)
    ensures Apart([], tids, key)
  {
    var shares := ByThread([], tids, key);
    assert SumKeys(shares, tids) == ZERO by {
      SumKeysSame(shares, map[], tids);
      SumKeysEmpty<ThreadId>(tids);
    }
    assert Get(Replayed([]).stats, key) == ZERO && ByLines([], key) == ZERO;
    var all := SumKeys(shares, tids);
    assert Merge(all, ByLines([], key)) == Merge(ZERO, ZERO) == ZERO;
  }

  lemma LineApart(front: seq<Event>, e: Event, tids: set<ThreadId>, key: string)
    requires Apart(front, tids, key) && e.MethodStats?
    ensures Apart(front + [e], tids, key)
  {
    assert (front + [e])[..|front|] == front;
    StepStats(Replayed(front), e, key);
    LineShares(front, e, tids, key);
    AddLast(SumKeys(ByThread(front, tids, key), tids), ByLines(front, key), Adds([], e, key));
  }

  lemma EventApart(front: seq<Event>, e: Event, tids: set<ThreadId>, key: string)
    requires Apart(front, tids, key) && !e.MethodStats? && e.tid in tids
    ensures Apart(front + [e], tids, key)
  {
    assert (front + [e])[..|front|] == front;
    var shares, adds := ByThread(front, tids, key), Adds(StackOf(Replayed(front), e.tid), e, key);
    StepStats(Replayed(front), e, key);
    ShareGrows(front, e, tids, key);
    SumKeysAdd(shares, e.tid, adds, tids);
    AddLast(SumKeys(shares, tids), ByLines(front, key), adds);
  }

  /** However the events of the threads interleave, with each other and with method_stats lines, the
      statistics of a method are the sum of what each thread's own events and the lines give. */
  lemma {:induction false} ReplaysThreadsApart(es: seq<Event>, tids: set<ThreadId>, key: string)
    requires Covers(tids, es)
    ensures Get(Replayed(es).stats, key) == Merge(SumKeys(ByThread(es, tids, key), tids), ByLines(es, key))
  {
    if es == [] {
      NothingApart(tids, key);
    } else {
      var front, e := es[..|es| - 1], es[|es| - 1];
      assert es == front + [e];
      ReplaysThreadsApart(front, tids, key);
      if e.MethodStats? {
        LineApart(front, e, tids, key);
      } else {
        EventApart(front, e, tids, key);
      }
    }
  }

  // ---- One trace after another ----

  lemma {:induction false} ByLinesAppend(a: seq<Event>, b: seq<Event>, key: string)
    ensures ByLines(a + b, key) == Merge(ByLines(a, key), ByLines(b, key))
  {
    if b == [] {
      assert a + b == a;
      MergeZero(ByLines(a, key));
    } else {
      var front, e := b[..|b| - 1], b[|b| - 1];
      assert (a + b)[..|a + b| - 1] == a + front;
      ByLinesAppend(a, front, key);
      MergeAssociates(ByLines(a, key), ByLines(front, key), Adds([], e, key));
    }
  }

  function Tids(es: seq<Event>): set<ThreadId> {
    set i | 0 <= i < |es| && !es[i].MethodStats? :: es[i].tid
  }

  /** Thread t enters or leaves something. */
  predicate Calls(es: seq<Event>, t: ThreadId) {
    exists i :: 0 <= i < |es| && CallEvent(es[i]) && es[i].tid == t
  }

  /** A thread's other events leave no trace in a replay. */
  lemma {:induction false} OthersAddNothing(stack: seq<StackFrame>, es: seq<Event>, t: ThreadId, key: string)
    requires !Calls(es, t)
    ensures Stack(stack, ThreadTrace(es, t)) == stack && Tally(stack, ThreadTrace(es, t), key) == ZERO
  {
    if es != [] {
      var front, e := es[..|es| - 1], es[|es| - 1];
      assert forall i :: 0 <= i < |front| ==> front[i] == es[i];
      OthersAddNothing(stack, front, t, key);
      if OnThread(e, t) {
        StackSnoc(stack, ThreadTrace(front, t), e);
        TallySnoc(stack, ThreadTrace(front, t), e, key);
        MergeZero(ZERO);
      }
    }
  }

  lemma ShareTogether(a: seq<Event>, b: seq<Event>, t: ThreadId, key: string)
    requires !Calls(a, t) || !Calls(b, t)
    ensures Tally([], ThreadTrace(a + b, t), key)
         == Merge(Tally([], ThreadTrace(a, t), key), Tally([], ThreadTrace(b, t), key))
  {
    ThreadTraceAppend(a, b, t);
    TallyAppend([], ThreadTrace(a, t), ThreadTrace(b, t), key);
    if !Calls(a, t) {
      OthersAddNothing([], a, t, key);
    } else {
      OthersAddNothing([], b, t, key);
      OthersAddNothing(Stack([], ThreadTrace(a, t)), b, t, key);
    }
  }

  /** Two traces in which no thread calls in both, one after the other, replay to the merge of their
      statistics. */
  lemma ReplaysTogether(a: seq<Event>, b: seq<Event>, key: string)
    requires forall t :: !Calls(a, t) || !Calls(b, t)
    ensures Get(Replayed(a + b).stats, key) == Merge(Get(Replayed(a).stats, key), Get(Replayed(b).stats, key))
  {
    var tids := Tids(a) + Tids(b);
    forall t | t in tids
      ensures ByThread(a + b, tids, key)[t] == Merge(ByThread(a, tids, key)[t], ByThread(b, tids, key)[t])
    {
      ShareTogether(a, b, t, key);
    }
    ReplaysThreadsApart(a, tids, key);
    ReplaysThreadsApart(b, tids, key);
    ReplaysThreadsApart(a + b, tids, key);
    SumKeysMerge(ByThread(a + b, tids, key), ByThread(a, tids, key), ByThread(b, tids, key), tids);
    ByLinesAppend(a, b, key);
    MergeCrosses(SumKeys(ByThread(a, tids, key), tids), SumKeys(ByThread(b, tids, key), tids),
                 ByLines(a, key), ByLines(b, key));
  }
}
