/** StatsAggregator.cpp: per-thread maps under their own locks, a registry of threads under its lock,
    and delta collection that swaps each map out and merges it.

    `Machine` is the concurrent protocol, one step per atomic section.  `NothingLost` is its
    invariant over every interleaving: what was recorded is what still sits in thread maps, plus
    what a flush has in its hands, plus what was written.  The classes below are the
    sections themselves, as the source's code runs them. */
module StatsAggregator {
  import opened Accumulators

  /** One method_stats line. */
  datatype Line = Line(fn: FnId, accum: Accum)

  function LinesTotal(lines: seq<Line>, sel: set<FnId>): Accum {
    if lines == [] then ZERO
    else
      var before, last := LinesTotal(lines[..|lines| - 1], sel), lines[|lines| - 1];
      if last.fn in sel then Merge(before, last.accum) else before
  }

  type Stats = map<FnId, Accum>

  /** What one flush is doing.  From `Collecting` through `Merging` it holds the registry lock. */
  datatype Flush =
    | Idle
    | Collecting(next: nat, merged: Stats)
    | Merging(next: nat, swapped: Stats, merged: Stats)
    | Writing(merged: Stats)

  datatype Entry = Entry(tid: ThreadId, record: Record)

  /** `cached` are the functions with metadata; `recorded` is the history of RecordMethod calls. */
  datatype Machine = Machine(cached: set<FnId>, local: map<ThreadId, Stats>, registry: seq<ThreadId>,
                             flush: Flush, lines: seq<Line>, recorded: seq<Entry>)

  datatype Step =
    | Create(tid: ThreadId)
    | Register(tid: ThreadId)
    | RecordCall(tid: ThreadId, record: Record)
    | StartFlush
    | Swap
    | MergeOne(fn: FnId)
    | NextThread
    | EndCollect
    | WriteOne(fn: FnId)
    | EndFlush

  function Fresh(cached: set<FnId>): Machine {
    Machine(cached, map[], [], Idle, [], [])
  }

  predicate Enabled(m: Machine, step: Step) {
    match step
    case Create(t) => t !in m.local
    case Register(t) => t in m.local && t !in m.registry && (m.flush.Idle? || m.flush.Writing?)
    case RecordCall(t, _) => t in m.local && t in m.registry
    case StartFlush => m.flush.Idle?
    case Swap => m.flush.Collecting? && m.flush.next < |m.registry| && m.registry[m.flush.next] in m.local
    case MergeOne(fn) => m.flush.Merging? && fn in m.flush.swapped
    case NextThread => m.flush.Merging? && m.flush.swapped == map[]
    case EndCollect => m.flush.Collecting? && m.flush.next == |m.registry|
    case WriteOne(fn) => m.flush.Writing? && fn in m.flush.merged
    case EndFlush => m.flush.Writing? && m.flush.merged == map[]
  }

  function Added(stats: Stats, r: Record): Stats {
    stats[r.fn := Merge(Get(stats, r.fn), Single(r.inclusiveNs, r.selfNs))]
  }

  function Take(m: Machine, step: Step): Machine
    requires Enabled(m, step)
  {
    match step
    case Create(t) => m.(local := m.local[t := map[]])
    case Register(t) => m.(registry := m.registry + [t])
    case RecordCall(t, r) =>
      m.(local := m.local[t := Added(m.local[t], r)], recorded := m.recorded + [Entry(t, r)])
    case StartFlush => m.(flush := Collecting(0, map[]))
    case Swap =>
      var t := m.registry[m.flush.next];
      m.(flush := Merging(m.flush.next, m.local[t], m.flush.merged), local := m.local[t := map[]])
    case MergeOne(fn) =>
      m.(flush := Merging(m.flush.next, m.flush.swapped - {fn},
                          m.flush.merged[fn := Merge(Get(m.flush.merged, fn), m.flush.swapped[fn])]))
    case NextThread => m.(flush := Collecting(m.flush.next + 1, m.flush.merged))
    case EndCollect => m.(flush := Writing(m.flush.merged))
    case WriteOne(fn) =>
      m.(flush := Writing(m.flush.merged - {fn}),
         lines := if fn in m.cached then m.lines + [Line(fn, m.flush.merged[fn])] else m.lines)
    case EndFlush => m.(flush := Idle)
  }

  function After(cached: set<FnId>, steps: seq<Step>): Machine {
    if steps == [] then Fresh(cached)
    else
      var m := After(cached, steps[..|steps| - 1]);
      if Enabled(m, steps[|steps| - 1]) then Take(m, steps[|steps| - 1]) else m
  }

  // ---- The conserved total ----

  ghost function LocalShares(local: map<ThreadId, Stats>, sel: set<FnId>): map<ThreadId, Accum> {
    map t | t in local :: SumKeys(local[t], sel)
  }

  ghost function LocalTotal(local: map<ThreadId, Stats>, sel: set<FnId>): Accum {
    SumKeys(LocalShares(local, sel), local.Keys)
  }

  ghost function InFlight(f: Flush, sel: set<FnId>): Accum {
    match f
    case Idle => ZERO
    case Collecting(_, merged) => SumKeys(merged, sel)
    case Merging(_, swapped, merged) => Merge(SumKeys(swapped, sel), SumKeys(merged, sel))
    case Writing(merged) => SumKeys(merged, sel)
  }

  function RecordsOf(entries: seq<Entry>): seq<Record> {
    if entries == [] then [] else RecordsOf(entries[..|entries| - 1]) + [entries[|entries| - 1].record]
  }

  ghost function Accounted(m: Machine, sel: set<FnId>): Accum {
    Merge(LocalTotal(m.local, sel), Merge(InFlight(m.flush, sel), LinesTotal(m.lines, sel)))
  }

  lemma LocalAdd(local: map<ThreadId, Stats>, t: ThreadId, stats: Stats, a: Accum, sel: set<FnId>)
    requires t in local && SumKeys(stats, sel) == Merge(SumKeys(local[t], sel), a)
    ensures LocalTotal(local[t := stats], sel) == Merge(LocalTotal(local, sel), a)
  {
    var shares := LocalShares(local, sel);
    assert Get(shares, t) == SumKeys(local[t], sel);
    assert local[t := stats].Keys == local.Keys;
    assert LocalShares(local[t := stats], sel) == shares[t := SumKeys(stats, sel)];
    SumKeysAdd(shares, t, a, local.Keys);
  }

  lemma LocalTake(local: map<ThreadId, Stats>, t: ThreadId, sel: set<FnId>)
    requires t in local
    ensures LocalTotal(local, sel) == Merge(LocalTotal(local[t := map[]], sel), SumKeys(local[t], sel))
  {
    var emptied := local[t := map[]];
    SumKeysEmpty<FnId>(sel);
    MergeZero(SumKeys(local[t], sel));
    LocalAdd(emptied, t, local[t], SumKeys(local[t], sel), sel);
    assert emptied[t := local[t]] == local;
  }

  lemma LocalCreate(local: map<ThreadId, Stats>, t: ThreadId, sel: set<FnId>)
    requires t !in local
    ensures LocalTotal(local[t := map[]], sel) == LocalTotal(local, sel)
  {
    SumKeysEmpty<FnId>(sel);
    var created := local[t := map[]];
    SumKeysSame(LocalShares(local, sel), LocalShares(created, sel), local.Keys);
    SumKeysGrow(LocalShares(created, sel), local.Keys, created.Keys);
  }

  lemma Shift(a: Accum, b: Accum, c: Accum, d: Accum)
    ensures Merge(Merge(a, b), Merge(c, d)) == Merge(a, Merge(Merge(b, c), d))
    ensures Merge(a, Merge(Merge(b, c), d)) == Merge(a, Merge(b, Merge(c, d)))
    ensures Merge(Merge(a, d), Merge(b, c)) == Merge(Merge(a, Merge(b, c)), d)
    ensures Merge(a, Merge(Merge(b, c), d)) == Merge(a, Merge(b, Merge(d, c)))
  {
  }

  lemma RecordConserves(m: Machine, t: ThreadId, r: Record, sel: set<FnId>)
    requires Enabled(m, RecordCall(t, r))
    requires Accounted(m, sel) == Summary(RecordsOf(m.recorded), sel)
    ensures var z := Take(m, RecordCall(t, r)); Accounted(z, sel) == Summary(RecordsOf(z.recorded), sel)
  {
    SummarySnoc(RecordsOf(m.recorded), r, sel);
    var one := Single(r.inclusiveNs, r.selfNs);
    var added := if r.fn in sel then one else ZERO;
    SumKeysAdd(m.local[t], r.fn, one, sel);
    MergeZero(SumKeys(m.local[t], sel));
    LocalAdd(m.local, t, Added(m.local[t], r), added, sel);
    MergeZero(Summary(RecordsOf(m.recorded), sel));
    Shift(LocalTotal(m.local, sel), InFlight(m.flush, sel), LinesTotal(m.lines, sel), added);
  }

  lemma SwapConserves(m: Machine, sel: set<FnId>)
    requires Enabled(m, Swap)
    ensures Accounted(Take(m, Swap), sel) == Accounted(m, sel)
  {
    var t := m.registry[m.flush.next];
    LocalTake(m.local, t, sel);
    Shift(LocalTotal(m.local[t := map[]], sel), SumKeys(m.local[t], sel), SumKeys(m.flush.merged, sel),
          LinesTotal(m.lines, sel));
    MergeAssociates(LocalTotal(m.local[t := map[]], sel), SumKeys(m.local[t], sel),
                    Merge(SumKeys(m.flush.merged, sel), LinesTotal(m.lines, sel)));
  }

  lemma MergeConserves(m: Machine, fn: FnId, sel: set<FnId>)
    requires Enabled(m, MergeOne(fn))
    ensures InFlight(Take(m, MergeOne(fn)).flush, sel) == InFlight(m.flush, sel)
  {
    SumKeysTake(m.flush.swapped, fn, sel);
    SumKeysAdd(m.flush.merged, fn, m.flush.swapped[fn], sel);
    if fn in sel {
      var rest, held, a := SumKeys(m.flush.swapped - {fn}, sel), SumKeys(m.flush.merged, sel), m.flush.swapped[fn];
      MergeAssociates(rest, a, held);
    }
  }

  lemma WriteConserves(m: Machine, fn: FnId, sel: set<FnId>)
    requires Enabled(m, WriteOne(fn)) && sel <= m.cached
    ensures var z := Take(m, WriteOne(fn));
            && Merge(InFlight(z.flush, sel), LinesTotal(z.lines, sel))
               == Merge(InFlight(m.flush, sel), LinesTotal(m.lines, sel))
  {
    SumKeysTake(m.flush.merged, fn, sel);
    if fn in sel {
      var rest, a, lines := SumKeys(m.flush.merged - {fn}, sel), m.flush.merged[fn], LinesTotal(m.lines, sel);
      MergeAssociates(rest, a, lines);
    }
  }

  lemma TakeConserves(m: Machine, step: Step, sel: set<FnId>)
    requires Enabled(m, step) && sel <= m.cached
    requires Accounted(m, sel) == Summary(RecordsOf(m.recorded), sel)
    ensures var z := Take(m, step); Accounted(z, sel) == Summary(RecordsOf(z.recorded), sel)
  {
    SumKeysEmpty<FnId>(sel);
    match step
    case Create(t) => LocalCreate(m.local, t, sel);
    case RecordCall(t, r) => RecordConserves(m, t, r, sel);
    case Swap => SwapConserves(m, sel);
    case MergeOne(fn) => MergeConserves(m, fn, sel);
    case NextThread => MergeZero(SumKeys(m.flush.merged, sel));
    case WriteOne(fn) => WriteConserves(m, fn, sel);
    case Register(_) =>
    case StartFlush =>
    case EndCollect =>
    case EndFlush =>
  }

  /** In every interleaving, at every moment: recorded = thread-local + in flight + written. */
  lemma {:induction false} NothingLost(cached: set<FnId>, steps: seq<Step>, sel: set<FnId>)
    requires sel <= cached
    ensures After(cached, steps).cached == cached
    ensures Accounted(After(cached, steps), sel) == Summary(RecordsOf(After(cached, steps).recorded), sel)
  {
    if steps == [] {
      SumKeysEmpty<ThreadId>({});
      assert LocalTotal(map[], sel) == SumKeys<ThreadId>(map[], {});
      MergeZero(ZERO);
    } else {
      var m := After(cached, steps[..|steps| - 1]);
      NothingLost(cached, steps[..|steps| - 1], sel);
      if Enabled(m, steps[|steps| - 1]) {
        TakeConserves(m, steps[|steps| - 1], sel);
      }
    }
  }

  // ---- What the protocol lets happen ----

  /** A thread can register except while a flush holds the registry's lock; from then on it can record at any
      moment, whatever a flush is doing. */
  lemma ThreadsMayRecord(m: Machine, t: ThreadId, r: Record)
    ensures t !in m.local ==> Enabled(m, Create(t))
    ensures t in m.local && t !in m.registry ==>
              (Enabled(m, Register(t)) <==> !m.flush.Collecting? && !m.flush.Merging?)
    ensures t in m.local && t in m.registry ==> Enabled(m, RecordCall(t, r))
  {
  }

  // ---- The final flush ----

  /** Only registered threads hold anything. */
  ghost predicate Registered(m: Machine) {
    && (forall t :: t in m.local ==> t in m.registry || m.local[t] == map[])
    && (forall i :: 0 <= i < |m.registry| ==> m.registry[i] in m.local)
  }

  predicate Emptied(m: Machine, count: nat) {
    forall i :: 0 <= i < |m.registry| && i < count ==> m.registry[i] in m.local ==> m.local[m.registry[i]] == map[]
  }

  /** How much a flush that nobody disturbs has emptied. */
  predicate Drained(m: Machine) {
    match m.flush
    case Collecting(next, _) => Emptied(m, next)
    case Merging(next, _, _) => Emptied(m, next + 1)
    case _ => Emptied(m, |m.registry|)
  }

  predicate Quiet(step: Step) {
    !step.Create? && !step.Register? && !step.RecordCall?
  }

  lemma {:induction false} RunRegistered(cached: set<FnId>, steps: seq<Step>)
    ensures Registered(After(cached, steps))
  {
    if steps != [] {
      RunRegistered(cached, steps[..|steps| - 1]);
    }
  }

  lemma {:induction false} FlushDrains(cached: set<FnId>, before: seq<Step>, flush: seq<Step>)
    requires After(cached, before).flush.Idle?
    requires flush != [] && flush[0] == StartFlush
    requires forall i :: 0 <= i < |flush| ==> Quiet(flush[i])
    ensures Drained(After(cached, before + flush))
    decreases |flush|
  {
    var front := flush[..|flush| - 1];
    assert (before + flush)[..|before + flush| - 1] == before + front;
    if front == [] {
      assert before + front == before;
    } else {
      FlushDrains(cached, before, front);
    }
  }

  /** Once recording has stopped and a last flush has run to its end, the written lines hold exactly
      what was recorded: how the earlier flushes fell does not show. */
  lemma FinalFlushComplete(cached: set<FnId>, before: seq<Step>, flush: seq<Step>, sel: set<FnId>)
    requires sel <= cached
    requires After(cached, before).flush.Idle?
    requires flush != [] && flush[0] == StartFlush
    requires forall i :: 0 <= i < |flush| ==> Quiet(flush[i])
    requires After(cached, before + flush).flush.Idle?
    ensures var m := After(cached, before + flush);
            LinesTotal(m.lines, sel) == Summary(RecordsOf(m.recorded), sel)
  {
    var m := After(cached, before + flush);
    NothingLost(cached, before + flush, sel);
    RunRegistered(cached, before + flush);
    FlushDrains(cached, before, flush);
    SumKeysEmpty<FnId>(sel);
    assert LocalTotal(m.local, sel) == ZERO by {
      SumKeysSame(LocalShares(m.local, sel), map[], m.local.Keys);
      SumKeysEmpty<ThreadId>(m.local.Keys);
    }
    MergeZero(LinesTotal(m.lines, sel));
  }

  // ---- The sections as code ----

  /** StatsAggregator.h, ThreadStats. */
  class ThreadStats {
    var methodStats: Stats

    constructor ()
      ensures methodStats == map[]
    {
      methodStats := map[];
    }

    method RecordMethod(fn: FnId, inclusiveNs: int, selfNs: int)
      modifies this
      ensures methodStats == Added(old(methodStats), Record(fn, inclusiveNs, selfNs))
    {
      var accum := if fn in methodStats then methodStats[fn] else ZERO;
      accum := accum.(callCount := accum.callCount + 1, totalSelfNs := accum.totalSelfNs + selfNs);
      if selfNs > accum.maxSelfNs {
        accum := accum.(maxSelfNs := selfNs);
      }
      accum := accum.(totalInclusiveNs := accum.totalInclusiveNs + inclusiveNs);
      if inclusiveNs > accum.maxInclusiveNs {
        accum := accum.(maxInclusiveNs := inclusiveNs);
      }
      methodStats := methodStats[fn := accum];
    }

    method SwapOut() returns (swapped: Stats)
      modifies this
      ensures swapped == old(methodStats) && methodStats == map[]
    {
      swapped := methodStats;
      methodStats := map[];
    }
  }

  ghost function Contents(threads: seq<ThreadStats>): seq<Stats>
    reads threads
  {
    seq(|threads|, i reads threads requires 0 <= i < |threads| => threads[i].methodStats)
  }

  ghost function Gathered(stats: seq<Stats>, sel: set<FnId>): Accum {
    if stats == [] then ZERO else Merge(Gathered(stats[..|stats| - 1], sel), SumKeys(stats[|stats| - 1], sel))
  }

  /** The merge loop, in whatever order the hash map yields its entries. */
  method MergeInto(swapped: Stats, merged: Stats) returns (result: Stats)
    ensures forall sel :: SumKeys(result, sel) == Merge(SumKeys(merged, sel), SumKeys(swapped, sel))
  {
    result := merged;
    var rest := swapped;
    forall sel ensures SumKeys(merged, sel) == SumKeys(result, sel) {}
    while rest != map[]
      invariant forall sel :: Merge(SumKeys(result, sel), SumKeys(rest, sel))
                           == Merge(SumKeys(merged, sel), SumKeys(swapped, sel))
      decreases |rest.Keys|
    {
      var fn :| fn in rest;
      var accum := rest[fn];
      var into := if fn in result then result[fn] else ZERO;
      forall sel
        ensures Merge(SumKeys(result[fn := Merge(into, accum)], sel), SumKeys(rest - {fn}, sel))
             == Merge(SumKeys(merged, sel), SumKeys(swapped, sel))
      {
        MoveEntry(result, rest, fn, sel);
      }
      result := result[fn := Merge(into, accum)];
      assert (rest - {fn}).Keys < rest.Keys;
      rest := rest - {fn};
    }
    forall sel ensures SumKeys(result, sel) == Merge(SumKeys(merged, sel), SumKeys(swapped, sel)) {
      SumKeysEmpty<FnId>(sel);
      MergeZero(SumKeys(result, sel));
    }
  }

  lemma MoveEntry(result: Stats, rest: Stats, fn: FnId, sel: set<FnId>)
    requires fn in rest
    ensures Merge(SumKeys(result[fn := Merge(Get(result, fn), rest[fn])], sel), SumKeys(rest - {fn}, sel))
         == Merge(SumKeys(result, sel), SumKeys(rest, sel))
  {
    SumKeysAdd(result, fn, rest[fn], sel);
    SumKeysTake(rest, fn, sel);
    if fn in sel {
      MergeAssociates(SumKeys(result, sel), rest[fn], SumKeys(rest - {fn}, sel));
    }
  }

  /** CollectDeltaStats while the registry lock is held and no thread records in between. */
  method CollectDeltaStats(threads: seq<ThreadStats>) returns (merged: Stats)
    requires forall i, j :: 0 <= i < j < |threads| ==> threads[i] != threads[j]
    modifies threads
    ensures forall i :: 0 <= i < |threads| ==> threads[i].methodStats == map[]
    ensures forall sel :: SumKeys(merged, sel) == Gathered(old(Contents(threads)), sel)
  {
    merged := map[];
    ghost var contents := Contents(threads);
    forall sel ensures SumKeys(merged, sel) == Gathered(contents[..0], sel) {
      SumKeysEmpty<FnId>(sel);
    }
    for i := 0 to |threads|
      invariant forall k :: 0 <= k < i ==> threads[k].methodStats == map[]
      invariant forall k :: i <= k < |threads| ==> threads[k].methodStats == contents[k]
      invariant forall sel :: SumKeys(merged, sel) == Gathered(contents[..i], sel)
    {
      var swapped := threads[i].SwapOut();
      var before := merged;
      merged := MergeInto(swapped, merged);
      forall sel ensures SumKeys(merged, sel) == Gathered(contents[..i + 1], sel) {
        assert contents[..i + 1][..i] == contents[..i];
      }
    }
    assert contents[..|threads|] == contents;
  }
}
