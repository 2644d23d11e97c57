/** What really happened on a thread, as a forest of calls, and the three things it determines: the
    trace that describes it, the calls that should be recorded, and where the time went.

    The profiler is proved to produce `Emit` and `Recorded` of the true history of its thread; the
    offline analysers are proved against the same forest. */
module CallForest {
  import opened Accumulators
  import opened Trace
  import opened ShadowStack

  /** A finished activation with its finished calls, oldest first. */
  datatype Node = Node(fn: FnId, enterNs: int, leaveNs: int, tailcall: bool, kids: seq<Node>)
  {
    function Inclusive(): int {
      leaveNs - enterNs
    }
  }

  /** An activation still on the stack, with the calls it has finished so far. */
  datatype Open = Open(fn: FnId, enterNs: int, kids: seq<Node>)

  /** The finished outermost calls and the stack of open activations, outermost first. */
  datatype History = History(roots: seq<Node>, open: seq<Open>)

  const NOTHING := History([], [])

  function Begin(h: History, fn: FnId, tsNs: int): History {
    h.(open := h.open + [Open(fn, tsNs, [])])
  }

  /** The innermost activation ends. */
  function End(h: History, tsNs: int, tailcall: bool): History
    requires h.open != []
  {
    var top, rest := h.open[|h.open| - 1], h.open[..|h.open| - 1];
    var n := Node(top.fn, top.enterNs, tsNs, tailcall, top.kids);
    if rest == [] then History(h.roots + [n], [])
    else
      var parent := rest[|rest| - 1];
      History(h.roots, rest[..|rest| - 1] + [parent.(kids := parent.kids + [n])])
  }

  // ---- The trace of a history ----

  function EnterOf(c: Config, fn: FnId, tsNs: int, depth: nat): Event {
    EnterEvent(c, c.Info(fn), tsNs, depth)
  }

  function LeaveOf(c: Config, n: Node, depth: nat): Event {
    LeaveEvent(c, c.Info(n.fn), n.leaveNs, depth, n.Inclusive(), n.tailcall, 0)
  }

  function EmitNode(c: Config, n: Node, depth: nat): seq<Event>
    decreases n, 1
  {
    [EnterOf(c, n.fn, n.enterNs, depth)] + EmitForest(c, n.kids, depth + 1) + [LeaveOf(c, n, depth)]
  }

  function EmitForest(c: Config, ns: seq<Node>, depth: nat): seq<Event>
    decreases ns, 0
  {
    if ns == [] then []
    else EmitForest(c, ns[..|ns| - 1], depth) + EmitNode(c, ns[|ns| - 1], depth)
  }

  function EmitOpen(c: Config, open: seq<Open>): seq<Event> {
    if open == [] then []
    else
      var top, depth := open[|open| - 1], |open| - 1;
      EmitOpen(c, open[..depth]) + [EnterOf(c, top.fn, top.enterNs, depth)] + EmitForest(c, top.kids, depth + 1)
  }

  function Emit(c: Config, h: History): seq<Event> {
    EmitForest(c, h.roots, 0) + EmitOpen(c, h.open)
  }

  // ---- The calls a history records, in the order they finish ----

  function KidsTime(ns: seq<Node>): int {
    if ns == [] then 0 else KidsTime(ns[..|ns| - 1]) + ns[|ns| - 1].Inclusive()
  }

  function RecordOf(n: Node): Record {
    Record(n.fn, n.Inclusive(), n.Inclusive() - KidsTime(n.kids))
  }

  function RecordedNode(n: Node): seq<Record>
    decreases n, 1
  {
    RecordedForest(n.kids) + [RecordOf(n)]
  }

  function RecordedForest(ns: seq<Node>): seq<Record>
    decreases ns, 0
  {
    if ns == [] then [] else RecordedForest(ns[..|ns| - 1]) + RecordedNode(ns[|ns| - 1])
  }

  function RecordedOpen(open: seq<Open>): seq<Record> {
    if open == [] then [] else RecordedOpen(open[..|open| - 1]) + RecordedForest(open[|open| - 1].kids)
  }

  function Recorded(h: History): seq<Record> {
    RecordedForest(h.roots) + RecordedOpen(h.open)
  }

  // ---- Growth ----

  lemma ForestSnoc(c: Config, ns: seq<Node>, n: Node, depth: nat)
    ensures EmitForest(c, ns + [n], depth) == EmitForest(c, ns, depth) + EmitNode(c, n, depth)
    ensures RecordedForest(ns + [n]) == RecordedForest(ns) + RecordedNode(n)
    ensures KidsTime(ns + [n]) == KidsTime(ns) + n.Inclusive()
  {
    assert (ns + [n])[..|ns|] == ns;
  }

  lemma BeginExtends(c: Config, h: History, fn: FnId, tsNs: int)
    ensures Emit(c, Begin(h, fn, tsNs)) == Emit(c, h) + [EnterOf(c, fn, tsNs, |h.open|)]
    ensures Recorded(Begin(h, fn, tsNs)) == Recorded(h)
  {
  }

  function Ended(h: History, tsNs: int, tailcall: bool): Node
    requires h.open != []
  {
    var top := h.open[|h.open| - 1];
    Node(top.fn, top.enterNs, tsNs, tailcall, top.kids)
  }

  lemma Regroup<T>(roots: seq<T>, before: seq<T>, kids: seq<T>, l: seq<T>)
    ensures roots + (before + (kids + l)) == (roots + (before + kids)) + l
  {
  }

  /** The innermost activation of `h` and what it leaves behind when it ends. */
  lemma EndParts(c: Config, h: History, tsNs: int, tailcall: bool)
    requires h.open != []
    ensures var rest, n := h.open[..|h.open| - 1], Ended(h, tsNs, tailcall);
            var after := End(h, tsNs, tailcall);
            && Emit(c, after) == EmitForest(c, h.roots, 0) + (EmitOpen(c, rest) + EmitNode(c, n, |rest|))
            && Recorded(after) == RecordedForest(h.roots) + (RecordedOpen(rest) + RecordedNode(n))
  {
    var rest, n := h.open[..|h.open| - 1], Ended(h, tsNs, tailcall);
    if rest == [] {
      ForestSnoc(c, h.roots, n, 0);
      NoneOpen(EmitForest(c, h.roots, 0), EmitNode(c, n, 0));
      NoneOpen(RecordedForest(h.roots), RecordedNode(n));
    } else {
      EndExtendsInner(c, rest, n);
    }
  }

  lemma NoneOpen<T>(roots: seq<T>, node: seq<T>)
    ensures (roots + node) + [] == roots + ([] + node)
  {
  }

  lemma EndExtendsTrace(c: Config, h: History, tsNs: int, tailcall: bool)
    requires h.open != []
    ensures Emit(c, End(h, tsNs, tailcall)) == Emit(c, h) + [LeaveOf(c, Ended(h, tsNs, tailcall), |h.open| - 1)]
  {
    EndParts(c, h, tsNs, tailcall);
    var rest, n := h.open[..|h.open| - 1], Ended(h, tsNs, tailcall);
    Regroup(EmitForest(c, h.roots, 0), EmitOpen(c, rest),
            [EnterOf(c, n.fn, n.enterNs, |rest|)] + EmitForest(c, n.kids, |rest| + 1), [LeaveOf(c, n, |rest|)]);
  }

  lemma EndExtendsRecorded(c: Config, h: History, tsNs: int, tailcall: bool)
    requires h.open != []
    ensures Recorded(End(h, tsNs, tailcall)) == Recorded(h) + [RecordOf(Ended(h, tsNs, tailcall))]
  {
    EndParts(c, h, tsNs, tailcall);
    var rest, n := h.open[..|h.open| - 1], Ended(h, tsNs, tailcall);
    Regroup(RecordedForest(h.roots), RecordedOpen(rest), RecordedForest(n.kids), [RecordOf(n)]);
  }

  /** The innermost activation of `rest` takes in a finished call. */
  lemma EndExtendsInner(c: Config, rest: seq<Open>, n: Node)
    requires rest != []
    ensures var parent, outer := rest[|rest| - 1], rest[..|rest| - 1];
            && EmitOpen(c, outer + [parent.(kids := parent.kids + [n])]) == EmitOpen(c, rest) + EmitNode(c, n, |rest|)
            && RecordedOpen(outer + [parent.(kids := parent.kids + [n])]) == RecordedOpen(rest) + RecordedNode(n)
  {
    var parent, outer := rest[|rest| - 1], rest[..|rest| - 1];
    assert rest == outer + [parent];
    ForestSnoc(c, parent.kids, n, |rest|);
  }
}
