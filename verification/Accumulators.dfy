/** Call statistics (StatsAggregator.h, MethodStatsAccum) and the algebra they form.

    `Merge` is what both the native aggregator and the offline analyser do with two
    accumulators: add the totals, keep the larger maximum.  It is commutative and associative
    with `ZERO` as unit, so a total does not depend on who added what first; the lemmas below turn
    that into rules for folding sequences of calls and finite maps of accumulators. */
module Accumulators {
  type FnId = nat
  type ThreadId = nat

  /** The maxima start at 0 and only grow, so they are natural numbers. */
  datatype Accum = Accum(callCount: nat, totalSelfNs: int, maxSelfNs: nat,
                         totalInclusiveNs: int, maxInclusiveNs: nat)

  const ZERO := Accum(0, 0, 0, 0, 0)

  function Larger(a: nat, b: int): nat {
    if b > a then b else a
  }

  function Merge(a: Accum, b: Accum): Accum {
    var Accum(calls, selfNs, maxSelfNs, inclusiveNs, maxInclusiveNs) := a;
    Accum(calls + b.callCount,
          selfNs + b.totalSelfNs, Larger(maxSelfNs, b.maxSelfNs),
          inclusiveNs + b.totalInclusiveNs, Larger(maxInclusiveNs, b.maxInclusiveNs))
  }

  /** The contribution of one finished call. */
  function Single(inclusiveNs: int, selfNs: int): Accum {
    Accum(1, selfNs, Larger(0, selfNs), inclusiveNs, Larger(0, inclusiveNs))
  }

  /** The two agree on everything but self time. */
  predicate SameCalls(a: Accum, b: Accum) {
    a.callCount == b.callCount && a.totalInclusiveNs == b.totalInclusiveNs && a.maxInclusiveNs == b.maxInclusiveNs
  }

  lemma MergeAssociates(a: Accum, b: Accum, c: Accum)
    ensures Merge(Merge(a, b), c) == Merge(a, Merge(b, c))
  {
  }

  lemma MergeSwaps(a: Accum, b: Accum, c: Accum)
    ensures Merge(a, Merge(b, c)) == Merge(b, Merge(a, c))
  {
  }

  lemma MergeZero(a: Accum)
    ensures Merge(a, ZERO) == a && Merge(ZERO, a) == a
  {
  }

  // ---- Sequences of finished calls ----

  /** One call of RecordMethod. */
  datatype Record = Record(fn: FnId, inclusiveNs: int, selfNs: int)

  /** What the calls of the functions in `sel` add up to. */
  function Summary(rs: seq<Record>, sel: set<FnId>): Accum {
    if rs == [] then ZERO
    else
      var r := rs[|rs| - 1];
      var before := Summary(rs[..|rs| - 1], sel);
      if r.fn in sel then Merge(before, Single(r.inclusiveNs, r.selfNs)) else before
  }

  lemma SummarySnoc(rs: seq<Record>, r: Record, sel: set<FnId>)
    ensures Summary(rs + [r], sel)
         == if r.fn in sel then Merge(Summary(rs, sel), Single(r.inclusiveNs, r.selfNs)) else Summary(rs, sel)
  {
    assert (rs + [r])[..|rs|] == rs;
  }

  lemma {:induction false} SummaryAppend(a: seq<Record>, b: seq<Record>, sel: set<FnId>)
    ensures Summary(a + b, sel) == Merge(Summary(a, sel), Summary(b, sel))
  {
    if b == [] {
      assert a + b == a;
      MergeZero(Summary(a, sel));
    } else {
      var front, last := b[..|b| - 1], b[|b| - 1];
      SummaryAppend(a, front, sel);
      assert a + b == (a + front) + [last] && b == front + [last];
      SummarySnoc(a + front, last, sel);
      SummarySnoc(front, last, sel);
      MergeAssociates(Summary(a, sel), Summary(front, sel), Single(last.inclusiveNs, last.selfNs));
    }
  }

  // ---- What the five numbers are ----

  function Selected(rs: seq<Record>, sel: set<FnId>): seq<Record> {
    if rs == [] then []
    else
      var before, r := Selected(rs[..|rs| - 1], sel), rs[|rs| - 1];
      if r.fn in sel then before + [r] else before
  }

  function SumInclusive(rs: seq<Record>): int {
    if rs == [] then 0 else SumInclusive(rs[..|rs| - 1]) + rs[|rs| - 1].inclusiveNs
  }

  function SumSelf(rs: seq<Record>): int {
    if rs == [] then 0 else SumSelf(rs[..|rs| - 1]) + rs[|rs| - 1].selfNs
  }

  /** `max` is the largest self time of `rs`, or 0 if none is positive. */
  ghost predicate LargestSelf(rs: seq<Record>, max: int) {
    && 0 <= max && (forall i :: 0 <= i < |rs| ==> rs[i].selfNs <= max)
    && (max == 0 || exists i :: 0 <= i < |rs| && rs[i].selfNs == max)
  }

  ghost predicate LargestInclusive(rs: seq<Record>, max: int) {
    && 0 <= max && (forall i :: 0 <= i < |rs| ==> rs[i].inclusiveNs <= max)
    && (max == 0 || exists i :: 0 <= i < |rs| && rs[i].inclusiveNs == max)
  }

  lemma LargestSnoc(rs: seq<Record>, r: Record, maxSelf: int, maxInclusive: int)
    requires LargestSelf(rs, maxSelf) && LargestInclusive(rs, maxInclusive)
    ensures LargestSelf(rs + [r], if maxSelf < r.selfNs then r.selfNs else maxSelf)
    ensures LargestInclusive(rs + [r], if maxInclusive < r.inclusiveNs then r.inclusiveNs else maxInclusive)
  {
    var all := rs + [r];
    assert all[|rs|] == r && forall i :: 0 <= i < |rs| ==> all[i] == rs[i];
  }

  /** Of any calls: how many, what their times add up to, and the largest of each time. */
  lemma {:induction false} SummaryMeans(rs: seq<Record>, sel: set<FnId>)
    ensures var chosen, a := Selected(rs, sel), Summary(rs, sel);
            && a.callCount == |chosen|
            && a.totalInclusiveNs == SumInclusive(chosen) && a.totalSelfNs == SumSelf(chosen)
            && LargestInclusive(chosen, a.maxInclusiveNs) && LargestSelf(chosen, a.maxSelfNs)
  {
    if rs != [] {
      var before, r := rs[..|rs| - 1], rs[|rs| - 1];
      SummaryMeans(before, sel);
      LargestSnoc(Selected(before, sel), r, Summary(before, sel).maxSelfNs, Summary(before, sel).maxInclusiveNs);
    }
  }

  /** `chosen` are the calls of `rs` at the positions `at`, which are those of the functions in `sel`. */
  ghost predicate Located(rs: seq<Record>, sel: set<FnId>, chosen: seq<Record>, at: seq<nat>) {
    && |at| == |chosen|
    && (forall p, q :: 0 <= p < q < |at| ==> at[p] < at[q])
    && (forall p :: 0 <= p < |at| ==> at[p] < |rs| && rs[at[p]] == chosen[p] && rs[at[p]].fn in sel)
    && (forall i :: 0 <= i < |rs| && rs[i].fn in sel ==> i in at)
  }

  lemma LocatedSnoc(rs: seq<Record>, r: Record, sel: set<FnId>, chosen: seq<Record>, at: seq<nat>)
    requires Located(rs, sel, chosen, at)
    ensures if r.fn in sel then Located(rs + [r], sel, chosen + [r], at + [|rs|])
            else Located(rs + [r], sel, chosen, at)
  {
    var all, more := rs + [r], at + [|rs|];
    forall i | 0 <= i < |all| && all[i].fn in sel ensures if r.fn in sel then i in more else i in at {
      if i < |rs| {
        assert rs[i] == all[i] && i in at;
      } else {
        assert more[|at|] == i;
      }
    }
  }

  /** Chosen are all the calls of the functions in `sel`, in order. */
  lemma {:induction false} SelectedAll(rs: seq<Record>, sel: set<FnId>) returns (at: seq<nat>)
    ensures Located(rs, sel, Selected(rs, sel), at)
  {
    if rs == [] {
      at := [];
    } else {
      var front, r := rs[..|rs| - 1], rs[|rs| - 1];
      at := SelectedAll(front, sel);
      LocatedSnoc(front, r, sel, Selected(front, sel), at);
      assert rs == front + [r];
      if r.fn in sel {
        at := at + [|front|];
      }
    }
  }

  /** Counts and totals are added; each maximum of the merge is the larger one. */
  lemma MergeMeans(a: Accum, b: Accum)
    ensures var m := Merge(a, b);
            && m.callCount == a.callCount + b.callCount
            && m.totalSelfNs == a.totalSelfNs + b.totalSelfNs
            && m.totalInclusiveNs == a.totalInclusiveNs + b.totalInclusiveNs
            && a.maxSelfNs <= m.maxSelfNs && b.maxSelfNs <= m.maxSelfNs
            && (m.maxSelfNs == a.maxSelfNs || m.maxSelfNs == b.maxSelfNs)
            && a.maxInclusiveNs <= m.maxInclusiveNs && b.maxInclusiveNs <= m.maxInclusiveNs
            && (m.maxInclusiveNs == a.maxInclusiveNs || m.maxInclusiveNs == b.maxInclusiveNs)
  {
  }

  // ---- Finite maps of accumulators ----

  function Get<K>(m: map<K, Accum>, k: K): Accum {
    if k in m then m[k] else ZERO
  }

  ghost function SumKeys<K(!new)>(m: map<K, Accum>, ks: set<K>): Accum {
    if ks == {} then ZERO
    else
      var k :| k in ks;
      Merge(Get(m, k), SumKeys(m, ks - {k}))
  }

  /** Any element may be split off, not only the one the definition picks. */
  lemma {:induction false} SumKeysSplit<K(!new)>(m: map<K, Accum>, ks: set<K>, k: K)
    requires k in ks
    ensures SumKeys(m, ks) == Merge(Get(m, k), SumKeys(m, ks - {k}))
    decreases ks
  {
    var first :| first in ks && SumKeys(m, ks) == Merge(Get(m, first), SumKeys(m, ks - {first}));
    if first != k {
      SumKeysSplit(m, ks - {first}, k);
      SumKeysSplit(m, ks - {k}, first);
      assert ks - {first} - {k} == ks - {k} - {first};
      MergeSwaps(Get(m, first), Get(m, k), SumKeys(m, ks - {first} - {k}));
    }
  }

  lemma {:induction false} SumKeysSame<K(!new)>(m: map<K, Accum>, n: map<K, Accum>, ks: set<K>)
    requires forall k :: k in ks ==> Get(m, k) == Get(n, k)
    ensures SumKeys(m, ks) == SumKeys(n, ks)
    decreases ks
  {
    if ks != {} {
      var k :| k in ks;
      SumKeysSplit(m, ks, k);
      SumKeysSplit(n, ks, k);
      SumKeysSame(m, n, ks - {k});
    }
  }

  lemma {:induction false} SumKeysSameCalls<K(!new)>(m: map<K, Accum>, n: map<K, Accum>, ks: set<K>)
    requires forall k :: k in ks ==> SameCalls(Get(m, k), Get(n, k))
    ensures SameCalls(SumKeys(m, ks), SumKeys(n, ks))
    decreases ks
  {
    if ks != {} {
      var k :| k in ks;
      SumKeysSplit(m, ks, k);
      SumKeysSplit(n, ks, k);
      SumKeysSameCalls(m, n, ks - {k});
    }
  }

  /** Keys that hold nothing add nothing. */
  lemma {:induction false} SumKeysGrow<K(!new)>(m: map<K, Accum>, small: set<K>, big: set<K>)
    requires small <= big
    requires forall k :: k in big - small ==> Get(m, k) == ZERO
    ensures SumKeys(m, small) == SumKeys(m, big)
    decreases big - small
  {
    if small != big {
      assert big - small != {} by {
        assert big == small + (big - small);
      }
      var k :| k in big - small;
      SumKeysSplit(m, small + {k}, k);
      assert small + {k} - {k} == small;
      SumKeysGrow(m, small + {k}, big);
    }
  }

  /** Totals of entry-wise merged maps. */
  lemma {:induction false} SumKeysMerge<K(!new)>(m: map<K, Accum>, a: map<K, Accum>, b: map<K, Accum>, ks: set<K>)
    requires forall k :: k in ks ==> Get(m, k) == Merge(Get(a, k), Get(b, k))
    ensures SumKeys(m, ks) == Merge(SumKeys(a, ks), SumKeys(b, ks))
    decreases ks
  {
    if ks == {} {
      MergeZero(ZERO);
    } else {
      var k :| k in ks;
      SumKeysSplit(m, ks, k);
      SumKeysSplit(a, ks, k);
      SumKeysSplit(b, ks, k);
      SumKeysMerge(m, a, b, ks - {k});
      MergeCrosses(Get(a, k), Get(b, k), SumKeys(a, ks - {k}), SumKeys(b, ks - {k}));
    }
  }

  lemma MergeCrosses(a: Accum, b: Accum, c: Accum, d: Accum)
    ensures Merge(Merge(a, b), Merge(c, d)) == Merge(Merge(a, c), Merge(b, d))
  {
  }

  /** Adding to one entry of a map adds as much to the total. */
  lemma SumKeysAdd<K(!new)>(m: map<K, Accum>, k: K, a: Accum, ks: set<K>)
    ensures SumKeys(m[k := Merge(Get(m, k), a)], ks)
         == if k in ks then Merge(SumKeys(m, ks), a) else SumKeys(m, ks)
  {
    var n := m[k := Merge(Get(m, k), a)];
    if k in ks {
      SumKeysSplit(m, ks, k);
      SumKeysSplit(n, ks, k);
      SumKeysSame(m, n, ks - {k});
    } else {
      SumKeysSame(m, n, ks);
    }
  }

  /** An entry taken out of a map takes its share of the total with it. */
  lemma SumKeysTake<K(!new)>(m: map<K, Accum>, k: K, ks: set<K>)
    requires k in m
    ensures SumKeys(m, ks) == if k in ks then Merge(SumKeys(m - {k}, ks), m[k]) else SumKeys(m - {k}, ks)
  {
    var n := m - {k};
    if k in ks {
      SumKeysSplit(m, ks, k);
      SumKeysSplit(n, ks, k);
      SumKeysSame(m, n, ks - {k});
      MergeZero(SumKeys(n, ks - {k}));
    } else {
      SumKeysSame(m, n, ks);
    }
  }

  lemma {:induction false} SumKeysEmpty<K(!new)>(ks: set<K>)
    ensures SumKeys(map[], ks) == ZERO
    decreases ks
  {
    SumKeysGrow<K>(map[], {}, ks);
  }
}
