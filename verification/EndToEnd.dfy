/** The two ways to the same numbers.

    A session can trace every enter and leave and replay the trace offline, or aggregate in the
    process and write method_stats lines.  `OfflineEqualsOnline` proves that both give the hotspots analyser the
    same calls and inclusive times for every method, in every session, and the same self times unless a deferred
    activation was overtaken: for any number of threads, any interleaving of their trace events, any
    interleaving of their recording with registration and flushing, and any flush schedule.  A session
    that does not monitor exceptions defers nothing, so there the two always agree, even where neither is
    the true history; when they are true is in `ThreadTrue`. */
module EndToEnd {
  import opened Accumulators
  import opened Trace
  import opened ShadowStack
  import opened CallForest
  import opened Runtime
  import opened Monitoring
  import opened Faithfulness
  import opened Tallies
  import L = Lockstep
  import H = Hotspots
  import A = StatsAggregator

  /** One thread, whatever it did and wherever it is: replaying its trace gives what it recorded. */
  lemma ThreadAgrees(c: Config, steps: seq<Step>, key: string)
    requires Valid(c, steps) && Tracing(c) && c.statsOn && c.computeDeltas
    ensures var s := After(c, steps).shadow;
            var offline, online := H.Tally([], s.trace, key), Summary(s.records, H.Functions(c, key));
            SameCalls(offline, online) && (NoneOvertaken(c, steps) ==> offline == online)
  {
    L.RunInStep(c, steps, key);
  }

  /** At rest both are also true of the calls that were made: calls and inclusive times if the stack was kept,
      self times if every throw could be followed. */
  lemma ThreadTrue(c: Config, steps: seq<Step>, key: string)
    requires Valid(c, steps) && Tracing(c) && c.statsOn && c.computeDeltas && After(c, steps).world.phase.Running?
    ensures var y := After(c, steps);
            var offline := H.Tally([], y.shadow.trace, key);
            var truth := Summary(Recorded(y.world.hist), H.Functions(c, key));
            && (StackKept(c, steps) ==> SameCalls(offline, truth))
            && (Clean(c, steps) ==> offline == truth)
  {
    ThreadAgrees(c, steps, key);
    CallsTrueIff(c, steps);
    FaithfulRecords(c, steps);
    assert StackKept(c, steps) ==>
        SameCalls(Summary(After(c, steps).shadow.records, H.Functions(c, key)),
                  Summary(Recorded(After(c, steps).world.hist), H.Functions(c, key)));
  }

  // ---- Splitting what the aggregator saw by thread ----

  function ThreadRecords(entries: seq<A.Entry>, tid: ThreadId): seq<Record> {
    if entries == [] then []
    else
      var before, e := ThreadRecords(entries[..|entries| - 1], tid), entries[|entries| - 1];
      if e.tid == tid then before + [e.record] else before
  }

  predicate RecordedBy(tids: set<ThreadId>, entries: seq<A.Entry>) {
    forall i :: 0 <= i < |entries| ==> entries[i].tid in tids
  }

  ghost function Shares(entries: seq<A.Entry>, tids: set<ThreadId>, sel: set<FnId>): map<ThreadId, Accum> {
    map t | t in tids :: Summary(ThreadRecords(entries, t), sel)
  }

  lemma SharesSnoc(front: seq<A.Entry>, e: A.Entry, tids: set<ThreadId>, sel: set<FnId>)
    requires e.tid in tids
    ensures var shares, one := Shares(front, tids, sel), Single(e.record.inclusiveNs, e.record.selfNs);
            var after := if e.record.fn in sel then shares[e.tid := Merge(Get(shares, e.tid), one)] else shares;
            Shares(front + [e], tids, sel) == after
  {
    assert (front + [e])[..|front|] == front;
    SummarySnoc(ThreadRecords(front, e.tid), e.record, sel);
  }

  lemma {:induction false} RecordsByThread(entries: seq<A.Entry>, tids: set<ThreadId>, sel: set<FnId>)
    requires RecordedBy(tids, entries)
    ensures Summary(A.RecordsOf(entries), sel) == SumKeys(Shares(entries, tids, sel), tids)
  {
    if entries == [] {
      SumKeysSame(Shares([], tids, sel), map[], tids);
      SumKeysEmpty<ThreadId>(tids);
    } else {
      var front, e := entries[..|entries| - 1], entries[|entries| - 1];
      assert entries == front + [e];
      RecordsByThread(front, tids, sel);
      SummarySnoc(A.RecordsOf(front), e.record, sel);
      SharesSnoc(front, e, tids, sel);
      SumKeysAdd(Shares(front, tids, sel), e.tid, Single(e.record.inclusiveNs, e.record.selfNs), tids);
    }
  }

  // ---- The method_stats lines as events ----

  /** WriteMergedStats: one event per line, named by the cached metadata. */
  function LineEvents(c: Config, lines: seq<A.Line>): seq<Event> {
    if lines == [] then []
    else LineEvents(c, lines[..|lines| - 1])
         + [MethodStats(c.Info(lines[|lines| - 1].fn).Name(), lines[|lines| - 1].accum)]
  }

  lemma {:induction false} LinesByKey(c: Config, lines: seq<A.Line>, key: string)
    requires forall i :: 0 <= i < |lines| ==> lines[i].fn in c.methods
    ensures H.ByLines(LineEvents(c, lines), key) == A.LinesTotal(lines, H.Functions(c, key))
    ensures forall i :: 0 <= i < |LineEvents(c, lines)| ==> LineEvents(c, lines)[i].MethodStats?
  {
    if lines != [] {
      var front, last := lines[..|lines| - 1], lines[|lines| - 1];
      LinesByKey(c, front, key);
      var e := MethodStats(c.Info(last.fn).Name(), last.accum);
      assert LineEvents(c, lines)[..|lines| - 1] == LineEvents(c, front) by {
        assert |LineEvents(c, front)| == |front| by { LineCount(c, front); }
      }
      LineCount(c, lines);
      assert H.Adds([], e, key) == if last.fn in H.Functions(c, key) then last.accum else ZERO;
      MergeZero(A.LinesTotal(front, H.Functions(c, key)));
    }
  }

  lemma {:induction false} LineCount(c: Config, lines: seq<A.Line>)
    ensures |LineEvents(c, lines)| == |lines|
  {
    if lines != [] {
      LineCount(c, lines[..|lines| - 1]);
    }
  }

  lemma {:induction false} LinesCached(cached: set<FnId>, steps: seq<A.Step>)
    ensures A.After(cached, steps).cached == cached
    ensures forall i :: 0 <= i < |A.After(cached, steps).lines| ==> A.After(cached, steps).lines[i].fn in cached
  {
    if steps != [] {
      LinesCached(cached, steps[..|steps| - 1]);
    }
  }

  // ---- Sessions ----

  /** A session: shared metadata, the run of each thread, the interleaved trace of all of them, and
      the aggregator's history, of which `flush` is the last, undisturbed flush. */
  datatype Session = Session(c: Config, runs: map<ThreadId, seq<Step>>, trace: seq<Event>,
                             before: seq<A.Step>, flush: seq<A.Step>)
  {
    function Of(tid: ThreadId): Config {
      c.(tid := tid)
    }

    function Aggregated(): A.Machine {
      A.After(c.methods.Keys, before + flush)
    }

    /** The session traces and aggregates, and each thread did what the runtime lets it. */
    predicate DoesBoth() {
      && Tracing(c) && c.statsOn && c.computeDeltas
      && forall t :: t in runs ==> Valid(Of(t), runs[t])
    }

    /** On no thread was a deferred activation overtaken. */
    predicate InOrder() {
      forall t :: t in runs ==> NoneOvertaken(Of(t), runs[t])
    }

    /** The trace interleaves the threads' own traces. */
    predicate TraceInterleaves() {
      && H.Covers(runs.Keys, trace)
      && forall t :: t in runs ==> ThreadTrace(trace, t) == After(Of(t), runs[t]).shadow.trace
    }

    /** The aggregator saw, thread by thread, the calls the threads recorded, and has been flushed. */
    predicate AllFlushed() {
      && RecordedBy(runs.Keys, Aggregated().recorded)
      && (forall t :: t in runs ==>
            ThreadRecords(Aggregated().recorded, t) == After(Of(t), runs[t]).shadow.records)
      && A.After(c.methods.Keys, before).flush.Idle?
      && flush != [] && flush[0] == A.StartFlush
      && (forall i :: 0 <= i < |flush| ==> A.Quiet(flush[i]))
      && Aggregated().flush.Idle?
    }

    function Lines(): seq<Event> {
      LineEvents(c, Aggregated().lines)
    }
  }

  lemma SameFunctions(s: Session, t: ThreadId, key: string)
    ensures H.Functions(s.Of(t), key) == H.Functions(s.c, key)
  {
  }

  /** Thread by thread, the trace gives what the aggregator saw. */
  lemma TraceSide(s: Session, es: seq<Event>, key: string)
    requires s.DoesBoth() && s.AllFlushed()
    requires forall t :: t in s.runs ==> ThreadTrace(es, t) == After(s.Of(t), s.runs[t]).shadow.trace
    ensures var tids, recorded := s.runs.Keys, s.Aggregated().recorded;
            var traced, shares := H.ByThread(es, tids, key), Shares(recorded, tids, H.Functions(s.c, key));
            SameCalls(SumKeys(traced, tids), SumKeys(shares, tids)) && (s.InOrder() ==> traced == shares)
  {
    var tids, recorded := s.runs.Keys, s.Aggregated().recorded;
    var traced, shares := H.ByThread(es, tids, key), Shares(recorded, tids, H.Functions(s.c, key));
    forall t | t in tids
      ensures SameCalls(Get(traced, t), Get(shares, t)) && (s.InOrder() ==> traced[t] == shares[t])
    {
      ThreadAgrees(s.Of(t), s.runs[t], key);
      SameFunctions(s, t, key);
    }
    SumKeysSameCalls(traced, shares, tids);
  }

  /** What the written lines hold for a method. */
  lemma LinesSide(s: Session, key: string)
    requires s.AllFlushed()
    ensures H.ByLines(s.Lines(), key)
         == SumKeys(Shares(s.Aggregated().recorded, s.runs.Keys, H.Functions(s.c, key)), s.runs.Keys)
    ensures H.Covers({}, s.Lines())
  {
    var sel := H.Functions(s.c, key);
    LinesCached(s.c.methods.Keys, s.before + s.flush);
    A.FinalFlushComplete(s.c.methods.Keys, s.before, s.flush, sel);
    RecordsByThread(s.Aggregated().recorded, s.runs.Keys, sel);
    LinesByKey(s.c, s.Aggregated().lines, key);
  }

  lemma {:induction false} NoLines(es: seq<Event>, key: string)
    requires forall i :: 0 <= i < |es| ==> !es[i].MethodStats?
    ensures H.ByLines(es, key) == ZERO
  {
    if es != [] {
      NoLines(es[..|es| - 1], key);
    }
  }

  /** Replaying the enter and leave events gives every method the count and the total and maximum inclusive
      time that the method_stats lines give it, and, unless a deferred activation was overtaken, the
      total and maximum self time (`Counterexamples.OfflineDisagrees` is a session where one was). */
  lemma OfflineEqualsOnline(s: Session, key: string)
    requires s.DoesBoth() && s.TraceInterleaves() && s.AllFlushed()
    requires forall i :: 0 <= i < |s.trace| ==> !s.trace[i].MethodStats?
    ensures var offline, online := Get(H.Replayed(s.trace).stats, key), Get(H.Replayed(s.Lines()).stats, key);
            SameCalls(offline, online) && (s.InOrder() ==> offline == online)
  {
    TraceSide(s, s.trace, key);
    LinesSide(s, key);
    NoLines(s.trace, key);
    H.ReplaysThreadsApart(s.trace, s.runs.Keys, key);
    H.ReplaysThreadsApart(s.Lines(), {}, key);
    MergeZero(H.ByLines(s.Lines(), key));
    MergeZero(SumKeys(H.ByThread(s.trace, s.runs.Keys, key), s.runs.Keys));
  }

  /** A session that does both writes one file with both kinds of events, and the analyser counts
      everything in it twice; only the maxima come out right. */
  lemma BothStreamsDouble(s: Session, file: seq<Event>, key: string)
    requires s.DoesBoth() && s.AllFlushed() && H.Covers(s.runs.Keys, file)
    requires forall t :: t in s.runs ==> ThreadTrace(file, t) == After(s.Of(t), s.runs[t]).shadow.trace
    requires H.ByLines(file, key) == H.ByLines(s.Lines(), key)
    ensures var once, both := Get(H.Replayed(s.Lines()).stats, key), Get(H.Replayed(file).stats, key);
            && both.callCount == 2 * once.callCount && both.totalInclusiveNs == 2 * once.totalInclusiveNs
            && both.maxInclusiveNs == once.maxInclusiveNs
            && (s.InOrder() ==> both.totalSelfNs == 2 * once.totalSelfNs && both.maxSelfNs == once.maxSelfNs)
  {
    TraceSide(s, file, key);
    LinesSide(s, key);
    H.ReplaysThreadsApart(file, s.runs.Keys, key);
    H.ReplaysThreadsApart(s.Lines(), {}, key);
    MergeZero(H.ByLines(s.Lines(), key));
  }
}
