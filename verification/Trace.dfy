/** The events of a trace, as the native writer emits them (NdjsonWriter.cpp) and as the offline
    tool reads them back (EventReader.cs), and the method metadata both sides name methods with. */
module Trace {
  import opened Accumulators

  /** MethodCache.h, MethodInfo: what the profiler caches about a function. */
  datatype MethodInfo = MethodInfo(assemblyName: string, namespaceName: string, className: string,
                                   methodName: string, isIncluded: bool, isAsyncStateMachine: bool,
                                   originalMethodName: string)
  {
    function DisplayName(): string {
      if isAsyncStateMachine && originalMethodName != "" then originalMethodName else methodName
    }

    function Name(): MethodName {
      MethodName(assemblyName, namespaceName, className, DisplayName())
    }
  }

  /** The `asm`, `ns`, `cls` and `m` members of an event. */
  datatype MethodName = MethodName(asm: string, ns: string, cls: string, m: string)

  /** EventReader.BuildMethodKey. */
  function BuildMethodKey(name: MethodName): string {
    if name.ns == "" then name.cls + "." + name.m
    else name.ns + "." + name.cls + "." + name.m
  }

  datatype Event =
    | Enter(tsNs: int, tid: ThreadId, depth: nat, name: MethodName, isAsync: bool)
    | Leave(tsNs: int, tid: ThreadId, depth: nat, name: MethodName, isAsync: bool,
            deltaNs: int, tailcall: bool, wallTimeNs: nat)
    | MethodStats(name: MethodName, accum: Accum)
    | Other(tsNs: int, tid: ThreadId)

  predicate CallEvent(e: Event) {
    e.Enter? || e.Leave?
  }

  predicate OnThread(e: Event, tid: ThreadId) {
    !e.MethodStats? && e.tid == tid
  }

  /** The events of one thread, in order. */
  function ThreadTrace(es: seq<Event>, tid: ThreadId): seq<Event> {
    if es == [] then []
    else
      var before := ThreadTrace(es[..|es| - 1], tid);
      var e := es[|es| - 1];
      if OnThread(e, tid) then before + [e] else before
  }

  lemma ThreadTraceSnoc(es: seq<Event>, e: Event, tid: ThreadId)
    ensures ThreadTrace(es + [e], tid)
         == if OnThread(e, tid) then ThreadTrace(es, tid) + [e] else ThreadTrace(es, tid)
  {
    assert (es + [e])[..|es|] == es;
  }

  lemma {:induction false} ThreadTraceAppend(a: seq<Event>, b: seq<Event>, tid: ThreadId)
    ensures ThreadTrace(a + b, tid) == ThreadTrace(a, tid) + ThreadTrace(b, tid)
  {
    if b == [] {
      assert a + b == a;
    } else {
      var front, last := b[..|b| - 1], b[|b| - 1];
      assert a + b == (a + front) + [last] && b == front + [last];
      ThreadTraceAppend(a, front, tid);
      ThreadTraceSnoc(a + front, last, tid);
      ThreadTraceSnoc(front, last, tid);
    }
  }

  // ---- Method keys ----

  predicate Dotless(s: string) {
    '.' !in s
  }

  lemma LastDot(a: string, b: string)
    requires Dotless(b)
    ensures var s := a + "." + b; s[|a|] == '.' && '.' in s && forall k :: |a| < k < |s| ==> s[k] != '.'
  {
    var s := a + "." + b;
    assert s[|a|] == '.' && forall k :: |a| < k < |s| ==> s[k] == b[k - |a| - 1];
  }

  lemma LastDotUnique(a: string, b: string, x: string, y: string)
    requires a + "." + b == x + "." + y && Dotless(b) && Dotless(y)
    ensures a == x && b == y
  {
    LastDot(a, b);
    LastDot(x, y);
    var s, t := a + "." + b, x + "." + y;
    assert a == s[..|a|] && x == t[..|x|] && b == s[|a| + 1..] && y == t[|x| + 1..];
  }

  /** The key is the namespace, if there is one, the class and the method, with dots between them. */
  lemma KeySpells(name: MethodName)
    ensures var key := BuildMethodKey(name);
            && (name.ns != "" ==> key == name.ns + "." + (name.cls + "." + name.m))
            && (name.ns == "" ==> key == name.cls + "." + name.m)
  {
    assert name.ns + "." + name.cls + "." + name.m == name.ns + "." + (name.cls + "." + name.m);
  }

  /** Without dots in class and method names, which methods share a key is exactly decided by namespace, class and
      method: assemblies and generic instantiations are not told apart. */
  lemma SameKeyIff(a: MethodName, b: MethodName)
    requires Dotless(a.cls) && Dotless(a.m) && Dotless(b.cls) && Dotless(b.m)
    ensures BuildMethodKey(a) == BuildMethodKey(b) <==> a.ns == b.ns && a.cls == b.cls && a.m == b.m
  {
    if BuildMethodKey(a) == BuildMethodKey(b) {
      var left := if a.ns == "" then a.cls else a.ns + "." + a.cls;
      var right := if b.ns == "" then b.cls else b.ns + "." + b.cls;
      LastDotUnique(left, a.m, right, b.m);
      LastDot(a.ns, a.cls);
      LastDot(b.ns, b.cls);
      if a.ns != "" && b.ns != "" {
        LastDotUnique(a.ns, a.cls, b.ns, b.cls);
      }
    }
  }

  // ---- Traces without their wall times ----

  /** The event with its wall time blanked: what the call structure alone determines. */
  function Bare(e: Event): Event {
    if e.Leave? then e.(wallTimeNs := 0) else e
  }

  function BareTrace(es: seq<Event>): (r: seq<Event>)
    ensures |r| == |es|
    ensures forall i :: 0 <= i < |es| ==> r[i] == Bare(es[i])
  {
    if es == [] then []
    else BareTrace(es[..|es| - 1]) + [Bare(es[|es| - 1])]
  }

  lemma BareTraceSnoc(es: seq<Event>, e: Event)
    ensures BareTrace(es + [e]) == BareTrace(es) + [Bare(e)]
  {
    assert (es + [e])[..|es|] == es;
  }
}
