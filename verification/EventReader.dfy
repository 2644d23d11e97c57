/** EventReader.CollectMethodMetricsAsync: the per-method totals that comparisons of sessions use. */
module EventReader {
  import opened Accumulators
  import opened Trace
  import H = Hotspots
  import E = EndToEnd

  datatype MethodMetrics = MethodMetrics(selfNs: int, inclusiveNs: int, callCount: int, hasStats: bool)

  const EMPTY := MethodMetrics(0, 0, 0, false)

  function MetricsOf(metrics: map<string, MethodMetrics>, key: string): MethodMetrics {
    if key in metrics then metrics[key] else EMPTY
  }

  function Counted(existing: MethodMetrics, e: Event): MethodMetrics {
    match e
    case MethodStats(_, a) =>
      MethodMetrics(existing.selfNs + a.totalSelfNs, existing.inclusiveNs + a.totalInclusiveNs,
                    existing.callCount + a.callCount, true)
    case Leave(_, _, _, _, _, deltaNs, _, _) => existing.(inclusiveNs := existing.inclusiveNs + deltaNs)
    case _ => existing
  }

  /** The metrics of one method. */
  function Metrics(es: seq<Event>, key: string): MethodMetrics {
    if es == [] then EMPTY
    else
      var before, e := Metrics(es[..|es| - 1], key), es[|es| - 1];
      if (e.Leave? || e.MethodStats?) && BuildMethodKey(e.name) == key then Counted(before, e) else before
  }

  method CollectMethodMetrics(events: seq<Event>) returns (metrics: map<string, MethodMetrics>)
    ensures forall key :: MetricsOf(metrics, key) == Metrics(events, key)
  {
    metrics := map[];
    for i := 0 to |events|
      invariant forall key :: MetricsOf(metrics, key) == Metrics(events[..i], key)
    {
      assert events[..i + 1][..i] == events[..i];
      var e := events[i];
      if !(e.Leave? || e.MethodStats?) {
        continue;
      }
      var key := BuildMethodKey(e.name);
      var existing := if key in metrics then metrics[key] else EMPTY;
      if e.MethodStats? {
        metrics := metrics[key := MethodMetrics(existing.selfNs + e.accum.totalSelfNs,
                                                existing.inclusiveNs + e.accum.totalInclusiveNs,
                                                existing.callCount + e.accum.callCount, true)];
      } else {
        metrics := metrics[key := MethodMetrics(existing.selfNs, existing.inclusiveNs + e.deltaNs,
                                                existing.callCount, existing.hasStats)];
      }
    }
    assert events[..|events|] == events;
  }

  /** What the leave events of method `key` add to its inclusive time. */
  function LeaveTime(es: seq<Event>, key: string): int {
    if es == [] then 0
    else
      var e := es[|es| - 1];
      LeaveTime(es[..|es| - 1], key) + if e.Leave? && BuildMethodKey(e.name) == key then e.deltaNs else 0
  }

  /** The totals are those of the method_stats lines, plus the leave events' times as inclusive time. */
  lemma {:induction false} MetricsAddUp(es: seq<Event>, key: string)
    ensures var m, lines := Metrics(es, key), H.ByLines(es, key);
            && m.selfNs == lines.totalSelfNs && m.callCount == lines.callCount
            && m.inclusiveNs == lines.totalInclusiveNs + LeaveTime(es, key)
            && (m.hasStats <==> exists i :: 0 <= i < |es| && es[i].MethodStats? && BuildMethodKey(es[i].name) == key)
  {
    if es != [] {
      MetricsAddUp(es[..|es| - 1], key);
    }
  }

  /** The metrics of a statistics session are the totals of what its threads recorded, whenever and
      however often it was flushed in between. */
  lemma IndependentOfFlushes(s: E.Session, key: string)
    requires s.AllFlushed()
    ensures var m := Metrics(s.Lines(), key);
            var total := SumKeys(E.Shares(s.Aggregated().recorded, s.runs.Keys, H.Functions(s.c, key)), s.runs.Keys);
            m.selfNs == total.totalSelfNs && m.inclusiveNs == total.totalInclusiveNs && m.callCount == total.callCount
  {
    E.LinesSide(s, key);
    MetricsAddUp(s.Lines(), key);
    NoLeaves(s.Lines(), key);
  }

  lemma {:induction false} NoLeaves(es: seq<Event>, key: string)
    requires forall i :: 0 <= i < |es| ==> es[i].MethodStats?
    ensures LeaveTime(es, key) == 0
  {
    if es != [] {
      NoLeaves(es[..|es| - 1], key);
    }
  }
}
