/** CallTreeAnalyzer: find the invocations of a method, then collect the subtree of one of them in a
    second pass over the trace.

    The second pass knows the invocation only by thread, depth and time window, and collects the first
    call at that depth that is entered in the window, whatever was selected (`CollectsFirstInWindow`).
    `CollectsSelectedIff` says exactly when that is the selected call. */
module CallTree {
  import opened Accumulators
  import opened Options
  import opened Trace
  import opened ShadowStack
  import opened CallForest
  import opened Runtime
  import opened Faithfulness
  import opened Timing

  datatype Occurrence = Occurrence(tid: ThreadId, depth: nat, enterTsNs: int, leaveTsNs: int, deltaNs: int)

  datatype DisplayEntry = DisplayEntry(depth: int, name: string, isAsync: bool, deltaNs: int)

  // ---- Pass 1 ----

  function OccurrenceOf(e: Event): Occurrence
    requires e.Leave?
  {
    Occurrence(e.tid, e.depth, e.tsNs - e.deltaNs, e.tsNs, e.deltaNs)
  }

  predicate Matches(e: Event, names: set<MethodName>, tidFilter: Option<ThreadId>) {
    e.Leave? && (tidFilter.Some? ==> e.tid == tidFilter.value) && e.name in names
  }

  function Found(es: seq<Event>, names: set<MethodName>, tidFilter: Option<ThreadId>): seq<Occurrence> {
    if es == [] then []
    else
      var before, e := Found(es[..|es| - 1], names, tidFilter), es[|es| - 1];
      if Matches(e, names, tidFilter) then before + [OccurrenceOf(e)] else before
  }

  method FindOccurrences(events: seq<Event>, names: set<MethodName>, tidFilter: Option<ThreadId>)
    returns (occurrences: seq<Occurrence>)
    ensures occurrences == Found(events, names, tidFilter)
  {
    occurrences := [];
    for i := 0 to |events|
      invariant occurrences == Found(events[..i], names, tidFilter)
    {
      assert events[..i + 1][..i] == events[..i];
      var e := events[i];
      if e.MethodStats? || (tidFilter.Some? && e.tid != tidFilter.value) {
        continue;
      }
      if e.Leave? && e.name in names {
        occurrences := occurrences + [Occurrence(e.tid, e.depth, e.tsNs - e.deltaNs, e.tsNs, e.deltaNs)];
      }
    }
    assert events[..|events|] == events;
  }

  /** The positions of the leaves of a named method on a thread the filter allows. */
  function Hits(es: seq<Event>, names: set<MethodName>, tidFilter: Option<ThreadId>): set<int> {
    set i | 0 <= i < |es| && es[i].Leave? && es[i].name in names && (tidFilter == None || tidFilter == Some(es[i].tid))
  }

  /** The occurrence is that of the leave event: its thread, its depth, its time, and its window. */
  predicate IsOf(o: Occurrence, e: Event) {
    && e.Leave? && o.tid == e.tid && o.depth == e.depth && o.deltaNs == e.deltaNs
    && o.enterTsNs == e.tsNs - e.deltaNs && o.leaveTsNs == e.tsNs
  }

  /** `found` lists the leaves at the positions `at`, once and in order, and these are all. */
  ghost predicate Lists(found: seq<Occurrence>, es: seq<Event>, hits: set<int>, at: seq<nat>) {
    && |found| == |at| == |hits|
    && (forall p, q :: 0 <= p < q < |at| ==> at[p] < at[q])
    && (forall p :: 0 <= p < |at| ==> at[p] in hits && at[p] < |es| && IsOf(found[p], es[at[p]]))
    && (forall i :: i in hits ==> 0 <= i < |es| && i in at)
  }

  lemma ListsLonger(found: seq<Occurrence>, es: seq<Event>, hits: set<int>, at: seq<nat>, e: Event)
    requires Lists(found, es, hits, at)
    ensures Lists(found, es + [e], hits, at)
  {
    assert forall p :: 0 <= p < |at| ==> (es + [e])[at[p]] == es[at[p]];
  }

  lemma ListsSnoc(found: seq<Occurrence>, es: seq<Event>, hits: set<int>, at: seq<nat>, e: Event)
    requires Lists(found, es, hits, at) && e.Leave?
    ensures Lists(found + [OccurrenceOf(e)], es + [e], hits + {|es|}, at + [|es|])
  {
    var longer, all, more := found + [OccurrenceOf(e)], es + [e], at + [|es|];
    assert |es| !in hits;
    forall p | 0 <= p < |more|
      ensures more[p] in hits + {|es|} && more[p] < |all| && IsOf(longer[p], all[more[p]])
    {
      if p < |at| {
        assert more[p] == at[p] && longer[p] == found[p] && all[at[p]] == es[at[p]];
      }
    }
    forall p, q | 0 <= p < q < |more| ensures more[p] < more[q] {
      assert more[p] == at[p];
    }
    forall i | i in hits + {|es|} ensures i in more {
      assert i in at || i == more[|at|];
    }
  }

  lemma HitsSnoc(es: seq<Event>, e: Event, names: set<MethodName>, tidFilter: Option<ThreadId>)
    ensures var hit := e.Leave? && e.name in names && (tidFilter == None || tidFilter == Some(e.tid));
            Hits(es + [e], names, tidFilter) == Hits(es, names, tidFilter) + if hit then {|es|} else {}
  {
    var all := es + [e];
    assert all[|es|] == e && forall i :: 0 <= i < |es| ==> all[i] == es[i];
  }

  /** Pass 1 finds every such leave, once and in order, each with the window from its enter to its leave. */
  lemma {:induction false} FindsAll(es: seq<Event>, names: set<MethodName>, tidFilter: Option<ThreadId>)
    returns (at: seq<nat>)
    ensures Lists(Found(es, names, tidFilter), es, Hits(es, names, tidFilter), at)
  {
    if es == [] {
      at := [];
    } else {
      var front, e := es[..|es| - 1], es[|es| - 1];
      at := FindsAll(front, names, tidFilter);
      HitsSnoc(front, e, names, tidFilter);
      assert es == front + [e];
      ListsLonger(Found(front, names, tidFilter), front, Hits(front, names, tidFilter), at, e);
      if Matches(e, names, tidFilter) {
        ListsSnoc(Found(front, names, tidFilter), front, Hits(front, names, tidFilter), at, e);
        at := at + [|front|];
      }
    }
  }

  // ---- Pass 2 ----

  /** `open` are the positions in `entries` of the calls whose leave has not been seen. */
  datatype Collection = Collection(entries: seq<DisplayEntry>, open: seq<nat>, inSubtree: bool, stopped: bool)

  const NOTHING_YET := Collection([], [], false, false)

  predicate Starts(e: Event, target: Occurrence) {
    e.Enter? && e.depth == target.depth && target.enterTsNs <= e.tsNs <= target.leaveTsNs
  }

  function EntryFor(e: Event, target: Occurrence): DisplayEntry
    requires e.Enter?
  {
    DisplayEntry(e.depth - target.depth, BuildMethodKey(e.name), e.isAsync, -1)
  }

  function Timed(entries: seq<DisplayEntry>, at: nat, deltaNs: int): seq<DisplayEntry> {
    if at < |entries| then entries[at := entries[at].(deltaNs := deltaNs)] else entries
  }

  function Step(k: Collection, e: Event, target: Occurrence): Collection {
    if k.stopped || e.MethodStats? || e.tid != target.tid then k
    else
      match e
      case Enter(_, _, depth, _, _) =>
        var inSubtree := k.inSubtree || Starts(e, target);
        if inSubtree && depth >= target.depth
        then Collection(k.entries + [EntryFor(e, target)], k.open + [|k.entries|], inSubtree, false)
        else k.(inSubtree := inSubtree)
      case Leave(_, _, depth, _, _, deltaNs, _, _) =>
        if !k.inSubtree then k
        else
          var popped :=
            if k.open != [] && depth >= target.depth
            then k.(entries := Timed(k.entries, k.open[|k.open| - 1], deltaNs), open := k.open[..|k.open| - 1])
            else k;
          popped.(stopped := popped.open == [])
      case _ => k
  }

  function From(k: Collection, es: seq<Event>, target: Occurrence): Collection {
    if es == [] then k else Step(From(k, es[..|es| - 1], target), es[|es| - 1], target)
  }

  function Collected(es: seq<Event>, target: Occurrence): seq<DisplayEntry> {
    From(NOTHING_YET, es, target).entries
  }

  /** The open positions are positions in the listing. */
  predicate InListing(k: Collection) {
    forall j :: 0 <= j < |k.open| ==> k.open[j] < |k.entries|
  }

  /** One turn of the loop below. */
  method TakeOne(e: Event, target: Occurrence, before: seq<DisplayEntry>, open: seq<nat>, within: bool)
    returns (entries: seq<DisplayEntry>, depthStack: seq<nat>, inSubtree: bool, stopped: bool)
    requires InListing(Collection(before, open, within, false))
    ensures Collection(entries, depthStack, inSubtree, stopped)
         == Step(Collection(before, open, within, false), e, target)
    ensures InListing(Collection(entries, depthStack, inSubtree, stopped))
  {
    entries, depthStack, inSubtree, stopped := before, open, within, false;
    if e.MethodStats? || e.tid != target.tid {
      return;
    }
    match e
    case Enter(tsNs, _, depth, name, isAsync) =>
      if !inSubtree && depth == target.depth && tsNs >= target.enterTsNs && tsNs <= target.leaveTsNs {
        inSubtree := true;
      }
      if inSubtree && depth >= target.depth {
        depthStack := depthStack + [|entries|];
        entries := entries + [DisplayEntry(depth - target.depth, BuildMethodKey(name), isAsync, -1)];
      }
    case Leave(_, _, depth, _, _, deltaNs, _, _) =>
      if inSubtree {
        var relativeDepth := depth - target.depth;
        if |depthStack| > 0 && relativeDepth >= 0 {
          var at := depthStack[|depthStack| - 1];
          depthStack := depthStack[..|depthStack| - 1];
          entries := entries[at := entries[at].(deltaNs := deltaNs)];
        }
        stopped := |depthStack| == 0;
      }
    case _ =>
  }

  method CollectSubtree(events: seq<Event>, target: Occurrence) returns (entries: seq<DisplayEntry>)
    ensures entries == Collected(events, target)
  {
    entries := [];
    var inSubtree := false;
    var depthStack: seq<nat> := [];
    for i := 0 to |events|
      invariant Collection(entries, depthStack, inSubtree, false) == From(NOTHING_YET, events[..i], target)
      invariant InListing(Collection(entries, depthStack, inSubtree, false))
    {
      TakeEvent(events, i, target);
      var stopped;
      entries, depthStack, inSubtree, stopped := TakeOne(events[i], target, entries, depthStack, inSubtree);
      if stopped {
        StoppedStays(events, i + 1, target);
        return;
      }
    }
    assert events[..|events|] == events;
  }

  lemma TakeEvent(es: seq<Event>, i: nat, target: Occurrence)
    requires i < |es|
    ensures From(NOTHING_YET, es[..i + 1], target) == Step(From(NOTHING_YET, es[..i], target), es[i], target)
  {
    assert es[..i + 1][..i] == es[..i];
  }

  lemma {:induction false} StoppedStays(es: seq<Event>, i: nat, target: Occurrence)
    requires i <= |es| && From(NOTHING_YET, es[..i], target).stopped
    ensures From(NOTHING_YET, es, target) == From(NOTHING_YET, es[..i], target)
    decreases |es|
  {
    if i == |es| {
      assert es[..i] == es;
    } else {
      var front := es[..|es| - 1];
      assert front[..i] == es[..i];
      StoppedStays(front, i, target);
    }
  }

  /** A call is listed when it is entered, below the selected one by the difference of their depths, with -1 for
      a time until its leave has been seen. */
  lemma ListedUnfinished(k: Collection, e: Event, target: Occurrence)
    requires e.Enter? && e.tid == target.tid && k.inSubtree && !k.stopped && target.depth <= e.depth
    ensures var after := Step(k, e, target);
            && after.entries
               == k.entries + [DisplayEntry(e.depth - target.depth, BuildMethodKey(e.name), e.isAsync, -1)]
            && after.open == k.open + [|k.entries|]
  {
  }

  // ---- What it should collect: the preorder listing of a call ----

  function Listing(c: Config, n: Node, depth: nat): seq<DisplayEntry>
    decreases n, 1
  {
    [DisplayEntry(depth, BuildMethodKey(c.Info(n.fn).Name()), c.Info(n.fn).isAsyncStateMachine, n.Inclusive())]
    + ListingForest(c, n.kids, depth + 1)
  }

  function ListingForest(c: Config, ns: seq<Node>, depth: nat): seq<DisplayEntry>
    decreases ns, 0
  {
    if ns == [] then [] else ListingForest(c, ns[..|ns| - 1], depth) + Listing(c, ns[|ns| - 1], depth)
  }

  function Target(c: Config, n: Node, depth: nat): Occurrence {
    OccurrenceOf(LeaveOf(c, n, depth))
  }

  lemma FromSnoc(k: Collection, es: seq<Event>, e: Event, target: Occurrence)
    ensures From(k, es + [e], target) == Step(From(k, es, target), e, target)
  {
    assert (es + [e])[..|es|] == es;
  }

  lemma {:induction false} FromAppend(k: Collection, a: seq<Event>, b: seq<Event>, target: Occurrence)
    ensures From(k, a + b, target) == From(From(k, a, target), b, target)
  {
    if b == [] {
      assert a + b == a;
    } else {
      var front, e := b[..|b| - 1], b[|b| - 1];
      assert a + b == (a + front) + [e] && b == front + [e];
      FromAppend(k, a, front, target);
      FromSnoc(k, a + front, e, target);
      FromSnoc(From(k, a, target), front, e, target);
    }
  }

  /** Inside the subtree, below its root. */
  predicate Inside(k: Collection) {
    k.inSubtree && !k.stopped && k.open != []
  }

  /** Entering a call: its entry is listed, its time still unknown. */
  function Entered(c: Config, k: Collection, n: Node, depth: nat, target: Occurrence): Collection {
    Collection(k.entries + [EntryFor(EnterOf(c, n.fn, n.enterNs, depth), target)], k.open + [|k.entries|], true, false)
  }

  lemma FromCall(k: Collection, enter: Event, kids: seq<Event>, leave: Event, target: Occurrence,
                 entered: Collection, inside: Collection)
    requires Step(k, enter, target) == entered && From(entered, kids, target) == inside
    ensures From(k, [enter] + kids + [leave], target) == Step(inside, leave, target)
  {
    FromSnoc(k, [enter] + kids, leave, target);
    FromAppend(k, [enter], kids, target);
    assert [enter][..0] == [];
  }

  /** The collection with a call's finished calls listed below it. */
  function Below(c: Config, k: Collection, n: Node, depth: nat): Collection {
    k.(entries := k.entries + ListingForest(c, n.kids, depth + 1))
  }

  /** Leaving a call whose finished calls have been listed completes its listing. */
  lemma LeaveTimes(c: Config, k: Collection, n: Node, depth: nat, target: Occurrence)
    requires c.computeDeltas && target.tid == c.tid && target.depth <= depth && !k.stopped
    ensures Step(Below(c, Entered(c, k, n, depth, target), n, depth - target.depth), LeaveOf(c, n, depth), target)
         == Collection(k.entries + Listing(c, n, depth - target.depth), k.open, true, k.open == [])
  {
    var below := ListingForest(c, n.kids, depth - target.depth + 1);
    var entry := EntryFor(EnterOf(c, n.fn, n.enterNs, depth), target);
    assert Listing(c, n, depth - target.depth) == [entry.(deltaNs := n.Inclusive())] + below;
  }

  lemma {:induction false} CollectsNode(c: Config, k: Collection, n: Node, depth: nat, target: Occurrence)
    requires c.computeDeltas && target.tid == c.tid && target.depth <= depth
    requires !k.stopped && (Inside(k) || Starts(EnterOf(c, n.fn, n.enterNs, depth), target))
    ensures From(k, EmitNode(c, n, depth), target)
         == Collection(k.entries + Listing(c, n, depth - target.depth), k.open, true, k.open == [])
    decreases n, 1
  {
    var entered := Entered(c, k, n, depth, target);
    var inside := Below(c, entered, n, depth - target.depth);
    CollectsForest(c, entered, n.kids, depth + 1, target);
    FromCall(k, EnterOf(c, n.fn, n.enterNs, depth), EmitForest(c, n.kids, depth + 1), LeaveOf(c, n, depth), target,
             entered, inside);
    LeaveTimes(c, k, n, depth, target);
  }

  lemma Listed<T>(before: seq<T>, first: seq<T>, last: seq<T>)
    ensures before + (first + last) == (before + first) + last
  {
  }

  lemma {:induction false} CollectsForest(c: Config, k: Collection, ns: seq<Node>, depth: nat, target: Occurrence)
    requires c.computeDeltas && target.tid == c.tid && target.depth <= depth && Inside(k)
    ensures From(k, EmitForest(c, ns, depth), target)
         == k.(entries := k.entries + ListingForest(c, ns, depth - target.depth))
    decreases ns, 0
  {
    if ns == [] {
      assert k.entries + [] == k.entries;
    } else {
      var front, last, rel := ns[..|ns| - 1], ns[|ns| - 1], depth - target.depth;
      var first, node := ListingForest(c, front, rel), Listing(c, last, rel);
      CollectsForest(c, k, front, depth, target);
      var between := k.(entries := k.entries + first);
      CollectsNode(c, between, last, depth, target);
      assert From(between, EmitNode(c, last, depth), target) == k.(entries := k.entries + first + node);
      FromAppend(k, EmitForest(c, front, depth), EmitNode(c, last, depth), target);
      Listed(k.entries, first, node);
    }
  }

  // ---- Before and after the subtree, and other threads ----

  predicate NoStart(es: seq<Event>, target: Occurrence) {
    forall i :: 0 <= i < |es| ==> !Starts(es[i], target)
  }

  lemma {:induction false} SkipsBefore(es: seq<Event>, target: Occurrence)
    requires NoStart(es, target)
    ensures From(NOTHING_YET, es, target) == NOTHING_YET
  {
    if es != [] {
      SkipsBefore(es[..|es| - 1], target);
    }
  }

  lemma {:induction false} IgnoresAfter(k: Collection, es: seq<Event>, target: Occurrence)
    requires k.stopped
    ensures From(k, es, target) == k
  {
    if es != [] {
      IgnoresAfter(k, es[..|es| - 1], target);
    }
  }

  lemma {:induction false} OwnThreadOnly(es: seq<Event>, target: Occurrence)
    ensures From(NOTHING_YET, es, target) == From(NOTHING_YET, ThreadTrace(es, target.tid), target)
  {
    if es != [] {
      var front, e := es[..|es| - 1], es[|es| - 1];
      OwnThreadOnly(front, target);
      if OnThread(e, target.tid) {
        FromSnoc(NOTHING_YET, ThreadTrace(front, target.tid), e, target);
      }
    }
  }

  lemma {:induction false} BareCollects(k: Collection, es: seq<Event>, target: Occurrence)
    ensures From(k, BareTrace(es), target) == From(k, es, target)
  {
    if es != [] {
      BareCollects(k, es[..|es| - 1], target);
      assert BareTrace(es)[..|es| - 1] == BareTrace(es[..|es| - 1]);
    }
  }

  /** Before, during and after a call on one thread's events: the first that starts in the window. */
  lemma CollectsOwn(c: Config, before: seq<Event>, m: Node, after: seq<Event>, target: Occurrence)
    requires c.computeDeltas && target.tid == c.tid && NoStart(before, target)
    requires Starts(EnterOf(c, m.fn, m.enterNs, target.depth), target)
    ensures From(NOTHING_YET, before + EmitNode(c, m, target.depth) + after, target).entries == Listing(c, m, 0)
  {
    var own := EmitNode(c, m, target.depth);
    SkipsBefore(before, target);
    CollectsNode(c, NOTHING_YET, m, target.depth, target);
    assert [] + Listing(c, m, 0) == Listing(c, m, 0);
    FromAppend(NOTHING_YET, before, own, target);
    FromAppend(NOTHING_YET, before + own, after, target);
    IgnoresAfter(From(NOTHING_YET, own, target), after, target);
  }

  /** The same wherever other threads' events fall between them: the first call at the target's depth that is
      entered in its window is collected, for any target at all. */
  lemma CollectsFirst(c: Config, es: seq<Event>, before: seq<Event>, m: Node, after: seq<Event>, target: Occurrence)
    requires c.computeDeltas && target.tid == c.tid && NoStart(before, target)
    requires Starts(EnterOf(c, m.fn, m.enterNs, target.depth), target)
    requires BareTrace(ThreadTrace(es, c.tid)) == before + EmitNode(c, m, target.depth) + after
    ensures Collected(es, target) == Listing(c, m, 0)
  {
    OwnThreadOnly(es, target);
    BareCollects(NOTHING_YET, ThreadTrace(es, c.tid), target);
    CollectsOwn(c, before, m, after, target);
  }

  /** So a selected call is collected if nothing at its depth starts in its window before it. */
  lemma CollectsSubtree(c: Config, es: seq<Event>, before: seq<Event>, n: Node, depth: nat, after: seq<Event>)
    requires c.computeDeltas && n.enterNs <= n.leaveNs
    requires BareTrace(ThreadTrace(es, c.tid)) == before + EmitNode(c, n, depth) + after
    requires NoStart(before, Target(c, n, depth))
    ensures Collected(es, Target(c, n, depth)) == Listing(c, n, 0)
  {
    CollectsFirst(c, es, before, n, after, Target(c, n, depth));
  }

  // ---- Every leave of a history closes a call of it ----

  /** Event i of `es` is the leave of call `n`: `n`'s own events end there, with `before` and `after`
      around them. */
  predicate Closes(c: Config, es: seq<Event>, i: nat, n: Node, depth: nat, before: seq<Event>, after: seq<Event>) {
    es == before + EmitNode(c, n, depth) + after && |before| + |EmitNode(c, n, depth)| == i + 1
  }

  lemma {:induction false} ClosedInNode(c: Config, m: Node, depth: nat, i: nat)
    returns (n: Node, at: nat, before: seq<Event>, after: seq<Event>)
    requires i < |EmitNode(c, m, depth)| && EmitNode(c, m, depth)[i].Leave?
    ensures Closes(c, EmitNode(c, m, depth), i, n, at, before, after)
    decreases m, 1
  {
    var enter, leave := [EnterOf(c, m.fn, m.enterNs, depth)], [LeaveOf(c, m, depth)];
    var kids := EmitForest(c, m.kids, depth + 1);
    if i == |kids| + 1 {
      n, at, before, after := m, depth, [], [];
    } else {
      assert EmitNode(c, m, depth)[i] == kids[i - 1];
      n, at, before, after := ClosedInForest(c, m.kids, depth + 1, i - 1);
      Listed(enter, kids, leave);
      before, after := enter + before, after + leave;
    }
  }

  lemma {:induction false} ClosedInForest(c: Config, ns: seq<Node>, depth: nat, i: nat)
    returns (n: Node, at: nat, before: seq<Event>, after: seq<Event>)
    requires i < |EmitForest(c, ns, depth)| && EmitForest(c, ns, depth)[i].Leave?
    ensures Closes(c, EmitForest(c, ns, depth), i, n, at, before, after)
    decreases ns, 0
  {
    var first, last := EmitForest(c, ns[..|ns| - 1], depth), EmitNode(c, ns[|ns| - 1], depth);
    if i < |first| {
      n, at, before, after := ClosedInForest(c, ns[..|ns| - 1], depth, i);
      OnTheLeft(before, EmitNode(c, n, at), after, last);
      after := after + last;
    } else {
      n, at, before, after := ClosedInNode(c, ns[|ns| - 1], depth, i - |first|);
      OnTheRight(first, before, EmitNode(c, n, at), after);
      before := first + before;
    }
  }

  lemma OnTheLeft<T>(before: seq<T>, own: seq<T>, after: seq<T>, right: seq<T>)
    ensures (before + own + after) + right == before + own + (after + right)
  {
  }

  lemma OnTheRight<T>(left: seq<T>, before: seq<T>, own: seq<T>, after: seq<T>)
    ensures left + (before + own + after) == (left + before) + own + after
  {
  }

  lemma {:induction false} ClosedInOpen(c: Config, open: seq<Open>, i: nat)
    returns (n: Node, at: nat, before: seq<Event>, after: seq<Event>)
    requires i < |EmitOpen(c, open)| && EmitOpen(c, open)[i].Leave?
    ensures Closes(c, EmitOpen(c, open), i, n, at, before, after)
  {
    var outer, top, depth := open[..|open| - 1], open[|open| - 1], |open| - 1;
    var first, kids := EmitOpen(c, outer), EmitForest(c, top.kids, depth + 1);
    var enter := [EnterOf(c, top.fn, top.enterNs, depth)];
    if i < |first| {
      n, at, before, after := ClosedInOpen(c, outer, i);
      OnTheLeft(before, EmitNode(c, n, at), after, enter + kids);
      after := after + (enter + kids);
    } else {
      assert EmitOpen(c, open)[i] == kids[i - |first| - 1];
      n, at, before, after := ClosedInForest(c, top.kids, depth + 1, i - |first| - 1);
      OnTheRight(first + enter, before, EmitNode(c, n, at), after);
      before := first + enter + before;
    }
  }

  lemma ClosedInHistory(c: Config, h: History, i: nat)
    returns (n: Node, at: nat, before: seq<Event>, after: seq<Event>)
    requires i < |Emit(c, h)| && Emit(c, h)[i].Leave?
    ensures Closes(c, Emit(c, h), i, n, at, before, after)
  {
    var roots, open := EmitForest(c, h.roots, 0), EmitOpen(c, h.open);
    if i < |roots| {
      n, at, before, after := ClosedInForest(c, h.roots, 0, i);
      OnTheLeft(before, EmitNode(c, n, at), after, open);
      after := after + open;
    } else {
      n, at, before, after := ClosedInOpen(c, h.open, i - |roots|);
      OnTheRight(roots, before, EmitNode(c, n, at), after);
      before := roots + before;
    }
  }

  predicate StrictlyIncreasing(es: seq<Event>) {
    forall i, j :: 0 <= i < j < |es| && !es[i].MethodStats? && !es[j].MethodStats? ==> es[i].tsNs < es[j].tsNs
  }

  /** The events around the call of event i, when timestamps strictly increase: it takes time, and no
      earlier event lies in its window. */
  lemma Window(c: Config, es: seq<Event>, i: nat, n: Node, depth: nat, before: seq<Event>, after: seq<Event>)
    requires StrictlyIncreasing(es) && Closes(c, es, i, n, depth, before, after)
    ensures n.enterNs < n.leaveNs && es[i] == LeaveOf(c, n, depth)
    ensures NoStart(before, Target(c, n, depth))
  {
    var own := EmitNode(c, n, depth);
    assert es[i] == own[|own| - 1] == LeaveOf(c, n, depth);
    assert es[|before|] == own[0] == EnterOf(c, n.fn, n.enterNs, depth);
    forall p | 0 <= p < |before| ensures !Starts(before[p], Target(c, n, depth)) {
      assert before[p] == es[p];
    }
  }

  /** On the interleaved trace of a thread whose timestamps strictly increase, selecting any
      finished invocation collects exactly that call: its preorder listing, with depths relative to it
      and every call's own time, and nothing else. */
  lemma CallTreeExact(c: Config, h: History, es: seq<Event>, i: nat)
    returns (n: Node, depth: nat, before: seq<Event>, after: seq<Event>)
    requires c.computeDeltas && BareTrace(ThreadTrace(es, c.tid)) == Emit(c, h)
    requires StrictlyIncreasing(Emit(c, h))
    requires i < |Emit(c, h)| && Emit(c, h)[i].Leave?
    ensures Closes(c, Emit(c, h), i, n, depth, before, after)
    ensures Collected(es, OccurrenceOf(Emit(c, h)[i])) == Listing(c, n, 0)
  {
    n, depth, before, after := ClosedInHistory(c, h, i);
    Window(c, Emit(c, h), i, n, depth, before, after);
    CollectsSubtree(c, es, before, n, depth, after);
  }

  // ---- Every enter of a history opens a call of it ----

  /** Event i of `es` is the enter of call `n`: `n`'s own events begin there. */
  predicate Opens(c: Config, es: seq<Event>, i: nat, n: Node, depth: nat, before: seq<Event>, after: seq<Event>) {
    es == before + EmitNode(c, n, depth) + after && |before| == i
  }

  lemma {:induction false} OpenedInNode(c: Config, m: Node, depth: nat, i: nat)
    returns (n: Node, at: nat, before: seq<Event>, after: seq<Event>)
    requires i < |EmitNode(c, m, depth)| && EmitNode(c, m, depth)[i].Enter?
    ensures Opens(c, EmitNode(c, m, depth), i, n, at, before, after)
    decreases m, 1
  {
    var enter, leave := [EnterOf(c, m.fn, m.enterNs, depth)], [LeaveOf(c, m, depth)];
    var kids := EmitForest(c, m.kids, depth + 1);
    if i == 0 {
      n, at, before, after := m, depth, [], [];
    } else {
      assert EmitNode(c, m, depth)[i] == kids[i - 1];
      n, at, before, after := OpenedInForest(c, m.kids, depth + 1, i - 1);
      Listed(enter, kids, leave);
      before, after := enter + before, after + leave;
    }
  }

  lemma {:induction false} OpenedInForest(c: Config, ns: seq<Node>, depth: nat, i: nat)
    returns (n: Node, at: nat, before: seq<Event>, after: seq<Event>)
    requires i < |EmitForest(c, ns, depth)| && EmitForest(c, ns, depth)[i].Enter?
    ensures Opens(c, EmitForest(c, ns, depth), i, n, at, before, after)
    decreases ns, 0
  {
    var first, last := EmitForest(c, ns[..|ns| - 1], depth), EmitNode(c, ns[|ns| - 1], depth);
    if i < |first| {
      n, at, before, after := OpenedInForest(c, ns[..|ns| - 1], depth, i);
      OnTheLeft(before, EmitNode(c, n, at), after, last);
      after := after + last;
    } else {
      n, at, before, after := OpenedInNode(c, ns[|ns| - 1], depth, i - |first|);
      OnTheRight(first, before, EmitNode(c, n, at), after);
      before := first + before;
    }
  }

  predicate Deep(es: seq<Event>, depth: nat) {
    forall i :: 0 <= i < |es| ==> CallEvent(es[i]) && depth <= es[i].depth
  }

  lemma {:induction false} NodeDeep(c: Config, n: Node, depth: nat)
    ensures Deep(EmitNode(c, n, depth), depth)
    decreases n, 1
  {
    ForestDeep(c, n.kids, depth + 1);
  }

  lemma {:induction false} ForestDeep(c: Config, ns: seq<Node>, depth: nat)
    ensures Deep(EmitForest(c, ns, depth), depth)
    decreases ns, 0
  {
    if ns != [] {
      ForestDeep(c, ns[..|ns| - 1], depth);
      NodeDeep(c, ns[|ns| - 1], depth);
    }
  }

  /** Nothing after event i is at its depth, or outside it. */
  predicate StaysOpen(es: seq<Event>, i: nat)
    requires i < |es| && CallEvent(es[i])
  {
    Deep(es[i + 1..], es[i].depth + 1)
  }

  /** An enter of an activation still open is the last event at its depth. */
  lemma {:induction false} OpenedInOpen(c: Config, open: seq<Open>, i: nat)
    returns (finished: bool, n: Node, at: nat, before: seq<Event>, after: seq<Event>)
    requires i < |EmitOpen(c, open)| && EmitOpen(c, open)[i].Enter?
    ensures finished ==> Opens(c, EmitOpen(c, open), i, n, at, before, after)
    ensures !finished ==> StaysOpen(EmitOpen(c, open), i) && EmitOpen(c, open)[i].depth < |open|
  {
    var outer, top, depth := open[..|open| - 1], open[|open| - 1], |open| - 1;
    var first, kids := EmitOpen(c, outer), EmitForest(c, top.kids, depth + 1);
    var enter := [EnterOf(c, top.fn, top.enterNs, depth)];
    ForestDeep(c, top.kids, depth + 1);
    if i < |first| {
      finished, n, at, before, after := OpenedInOpen(c, outer, i);
      if finished {
        OnTheLeft(before, EmitNode(c, n, at), after, enter + kids);
        after := after + (enter + kids);
      }
    } else if i == |first| {
      finished, n, at, before, after := false, Node(0, 0, 0, false, []), 0, [], [];
      assert EmitOpen(c, open)[i + 1..] == kids;
    } else {
      assert EmitOpen(c, open)[i] == kids[i - |first| - 1];
      n, at, before, after := OpenedInForest(c, top.kids, depth + 1, i - |first| - 1);
      OnTheRight(first + enter, before, EmitNode(c, n, at), after);
      finished, before := true, first + enter + before;
    }
  }

  lemma OpenedInHistory(c: Config, h: History, i: nat)
    returns (finished: bool, n: Node, at: nat, before: seq<Event>, after: seq<Event>)
    requires i < |Emit(c, h)| && Emit(c, h)[i].Enter?
    ensures finished ==> Opens(c, Emit(c, h), i, n, at, before, after)
    ensures !finished ==> StaysOpen(Emit(c, h), i)
  {
    var roots, open := EmitForest(c, h.roots, 0), EmitOpen(c, h.open);
    if i < |roots| {
      n, at, before, after := OpenedInForest(c, h.roots, 0, i);
      OnTheLeft(before, EmitNode(c, n, at), after, open);
      finished, after := true, after + open;
    } else {
      finished, n, at, before, after := OpenedInOpen(c, h.open, i - |roots|);
      if finished {
        OnTheRight(roots, before, EmitNode(c, n, at), after);
        before := roots + before;
      } else {
        assert Emit(c, h)[i + 1..] == open[i - |roots| + 1..];
      }
    }
  }

  // ---- Which call is collected ----

  lemma {:induction false} FirstStart(es: seq<Event>, target: Occurrence) returns (p: nat)
    requires !NoStart(es, target)
    ensures p < |es| && Starts(es[p], target) && NoStart(es[..p], target)
  {
    var front := es[..|es| - 1];
    if NoStart(front, target) {
      p := |es| - 1;
    } else {
      p := FirstStart(front, target);
      assert front[..p] == es[..p];
    }
  }

  /** A call entered before another one at the same depth is over when that one is entered. */
  lemma OverBefore(c: Config, es: seq<Event>, p: nat, m: Node, depth: nat,
                   before: seq<Event>, after: seq<Event>, q: nat)
    requires Opens(c, es, p, m, depth, before, after) && p < q < |es| && es[q].Enter? && es[q].depth == depth
    ensures |before| + |EmitNode(c, m, depth)| <= q
    ensures es[|before| + |EmitNode(c, m, depth)| - 1] == LeaveOf(c, m, depth)
  {
    var own, kids := EmitNode(c, m, depth), EmitForest(c, m.kids, depth + 1);
    ForestDeep(c, m.kids, depth + 1);
    assert own[|own| - 1] == LeaveOf(c, m, depth) && es[|before| + |own| - 1] == own[|own| - 1];
    assert forall r :: p < r < |before| + |own| - 1 ==> es[r] == own[r - p] == kids[r - p - 1];
  }

  /** The call that starts first in the window of a finished call `n`: `n` itself, or a call that took no time
      at the instant `n` was entered. */
  lemma StartsFirst(c: Config, h: History, i: nat, n: Node, depth: nat, before: seq<Event>, after: seq<Event>)
    returns (m: Node, left: seq<Event>, right: seq<Event>)
    requires c.computeDeltas && InOrder(Emit(c, h)) && Closes(c, Emit(c, h), i, n, depth, before, after)
    ensures Emit(c, h) == left + EmitNode(c, m, depth) + right && NoStart(left, Target(c, n, depth))
    ensures Starts(EnterOf(c, m.fn, m.enterNs, depth), Target(c, n, depth))
    ensures if NoStart(before, Target(c, n, depth)) then m == n && left == before
            else m.enterNs == m.leaveNs == n.enterNs && |left| < |before|
  {
    var es, target, q := Emit(c, h), Target(c, n, depth), |before|;
    assert es[q] == EmitNode(c, n, depth)[0] == EnterOf(c, n.fn, n.enterNs, depth);
    assert es[i] == EmitNode(c, n, depth)[|EmitNode(c, n, depth)| - 1] == LeaveOf(c, n, depth);
    if NoStart(before, target) {
      m, left, right := n, before, after;
    } else {
      var p := FirstStart(before, target);
      assert es[p] == before[p] && es[..p] == before[..p];
      var finished, at;
      finished, m, at, left, right := OpenedInHistory(c, h, p);
      assert es[p] == EmitNode(c, m, at)[0] == EnterOf(c, m.fn, m.enterNs, at);
      OverBefore(c, es, p, m, depth, left, right, q);
      assert left == es[..p];
    }
  }

  /** Whatever finished call is selected: the second pass collects the first call at its depth that is entered
      in its window, which is the selected one or one that took no time at the same instant. */
  lemma CollectsFirstInWindow(c: Config, h: History, es: seq<Event>, i: nat, n: Node, depth: nat,
                              before: seq<Event>, after: seq<Event>)
    returns (m: Node, left: seq<Event>, right: seq<Event>)
    requires c.computeDeltas && BareTrace(ThreadTrace(es, c.tid)) == Emit(c, h) && InOrder(Emit(c, h))
    requires Closes(c, Emit(c, h), i, n, depth, before, after)
    ensures Emit(c, h) == left + EmitNode(c, m, depth) + right && NoStart(left, Target(c, n, depth))
    ensures Starts(EnterOf(c, m.fn, m.enterNs, depth), Target(c, n, depth))
    ensures if NoStart(before, Target(c, n, depth)) then m == n && left == before
            else m.enterNs == m.leaveNs == n.enterNs && |left| < |before|
    ensures Collected(es, Target(c, n, depth)) == Listing(c, m, 0)
  {
    m, left, right := StartsFirst(c, h, i, n, depth, before, after);
    CollectsFirst(c, es, left, m, right, Target(c, n, depth));
  }

  /** A selected call that took time is collected if and only if no earlier call at its depth starts in its
      window, that is, at the instant it was entered. */
  lemma CollectsSelectedIff(c: Config, h: History, es: seq<Event>, i: nat, n: Node, depth: nat,
                            before: seq<Event>, after: seq<Event>)
    requires c.computeDeltas && BareTrace(ThreadTrace(es, c.tid)) == Emit(c, h) && InOrder(Emit(c, h))
    requires Closes(c, Emit(c, h), i, n, depth, before, after) && n.enterNs < n.leaveNs
    ensures Collected(es, Target(c, n, depth)) == Listing(c, n, 0) <==> NoStart(before, Target(c, n, depth))
  {
    var m, left, right := CollectsFirstInWindow(c, h, es, i, n, depth, before, after);
    assert Listing(c, m, 0)[0].deltaNs == m.Inclusive() && Listing(c, n, 0)[0].deltaNs == n.Inclusive();
  }

  /** All this holds of every trace a thread emits in a clean run: each leave in it closes a call of the true
      history, and timestamps are in order. */
  lemma CleanRunCollects(c: Config, steps: seq<Step>, es: seq<Event>, i: nat)
    returns (n: Node, depth: nat, before: seq<Event>, after: seq<Event>)
    requires Valid(c, steps) && Clean(c, steps) && After(c, steps).world.phase.Running?
    requires Tracing(c) && c.computeDeltas && ThreadTrace(es, c.tid) == After(c, steps).shadow.trace
    requires var all := Emit(c, After(c, steps).world.hist); i < |all| && all[i].Leave?
    ensures Closes(c, Emit(c, After(c, steps).world.hist), i, n, depth, before, after)
    ensures n.enterNs < n.leaveNs ==>
              (Collected(es, Target(c, n, depth)) == Listing(c, n, 0) <==> NoStart(before, Target(c, n, depth)))
  {
    var h := After(c, steps).world.hist;
    FaithfulTrace(c, steps);
    RunWellTimed(c, steps);
    n, depth, before, after := ClosedInHistory(c, h, i);
    if n.enterNs < n.leaveNs {
      CollectsSelectedIff(c, h, es, i, n, depth, before, after);
    }
  }

  /** Every occurrence pass 1 finds on that thread is the leave of such a call. */
  lemma {:induction false} FoundAreLeaves(es: seq<Event>, names: set<MethodName>, tidFilter: Option<ThreadId>, p: nat)
    returns (i: nat)
    requires p < |Found(es, names, tidFilter)|
    ensures i < |es| && Matches(es[i], names, tidFilter) && Found(es, names, tidFilter)[p] == OccurrenceOf(es[i])
  {
    var front := es[..|es| - 1];
    if p < |Found(front, names, tidFilter)| {
      i := FoundAreLeaves(front, names, tidFilter, p);
    } else {
      i := |es| - 1;
    }
  }

  lemma TwoRoots(c: Config, first: Node, second: Node)
    ensures EmitForest(c, [first, second], 0) == EmitNode(c, first, 0) + EmitNode(c, second, 0)
  {
    assert [first, second][..1] == [first] && [first][..0] == [];
    assert EmitForest(c, [first], 0) == EmitNode(c, first, 0);
  }

  /** Without strictly increasing timestamps the wrong call can be collected: of two calls at the
      same depth and the same instant, selecting the second collects the first. */
  lemma EqualTimestampsMislead(c: Config, first: Node, second: Node)
    requires c.computeDeltas && first.kids == [] && second.kids == []
    requires first.enterNs == first.leaveNs == second.enterNs == second.leaveNs
    requires first.fn != second.fn && first.fn in c.methods && second.fn in c.methods
    requires BuildMethodKey(c.Info(first.fn).Name()) != BuildMethodKey(c.Info(second.fn).Name())
    ensures var es := EmitForest(c, [first, second], 0);
            Collected(es, Target(c, second, 0)) == Listing(c, first, 0) != Listing(c, second, 0)
  {
    var target := Target(c, second, 0);
    var one, two := EmitNode(c, first, 0), EmitNode(c, second, 0);
    TwoRoots(c, first, second);
    CollectsNode(c, NOTHING_YET, first, 0, target);
    FromAppend(NOTHING_YET, one, two, target);
    IgnoresAfter(From(NOTHING_YET, one, target), two, target);
    assert [] + Listing(c, first, 0) == Listing(c, first, 0);
    assert Listing(c, first, 0)[0] != Listing(c, second, 0)[0];
  }
}
