/** CallStackManager.GetTimestampNs: performance counter ticks to nanoseconds in 64-bit arithmetic.

    The source splits off whole seconds so that the multiplication by 10^9 does not overflow.  The
    split is proved exact, and overflow-free exactly for the frequencies for which it is. */
module Clock {
  const NS_PER_SECOND := 1_000_000_000
  const INT64_MAX := 0x7FFF_FFFF_FFFF_FFFF

  /** The timestamp a tick count stands for, rounded down. */
  function Ns(ticks: nat, freq: nat): nat
    requires freq > 0
  {
    ticks * NS_PER_SECOND / freq
  }

  method GetTimestampNs(ticks: nat, freq: nat) returns (ns: nat)
    requires freq > 0
    ensures ns == Ns(ticks, freq)
  {
    var seconds := ticks / freq;
    var remainder := ticks % freq;
    SplitExact(ticks, freq);
    ns := seconds * NS_PER_SECOND + remainder * NS_PER_SECOND / freq;
  }

  // ---- Division ----

  lemma MulMonotone(x: nat, y: nat, d: nat)
    requires x <= y
    ensures x * d <= y * d
  {
  }

  lemma Cancel(x: nat, y: nat, d: nat)
    requires x * d < y * d
    ensures x < y
  {
    if y <= x {
      MulMonotone(y, x, d);
    }
  }

  lemma RoundsDown(a: nat, d: nat)
    requires d > 0
    ensures a / d * d <= a < (a / d + 1) * d
  {
    assert a == a / d * d + a % d;
  }

  lemma DivUnique(a: nat, d: nat, q: nat)
    requires q * d <= a < (q + 1) * d
    ensures d > 0 && a / d == q
  {
    RoundsDown(a, d);
    Cancel(a / d, q + 1, d);
    Cancel(q, a / d + 1, d);
  }

  // ---- The split ----

  lemma SplitExact(ticks: nat, freq: nat)
    requires freq > 0
    ensures ticks / freq * NS_PER_SECOND + ticks % freq * NS_PER_SECOND / freq == Ns(ticks, freq)
  {
    var s, r := ticks / freq, ticks % freq;
    assert ticks == s * freq + r;
    var part := r * NS_PER_SECOND;
    RoundsDown(part, freq);
    var q := s * NS_PER_SECOND + part / freq;
    Distribute(s, part / freq, freq);
    assert ticks * NS_PER_SECOND == s * NS_PER_SECOND * freq + part;
    DivUnique(ticks * NS_PER_SECOND, freq, q);
  }

  lemma Distribute(s: nat, t: nat, d: nat)
    ensures (s * NS_PER_SECOND + t) * d == s * NS_PER_SECOND * d + t * d
    ensures (s * NS_PER_SECOND + t + 1) * d == s * NS_PER_SECOND * d + (t + 1) * d
  {
  }

  /** Timestamps never run backwards. */
  lemma Monotone(earlier: nat, later: nat, freq: nat)
    requires freq > 0 && earlier <= later
    ensures Ns(earlier, freq) <= Ns(later, freq)
  {
    RoundsDown(earlier * NS_PER_SECOND, freq);
    RoundsDown(later * NS_PER_SECOND, freq);
    Cancel(Ns(earlier, freq), Ns(later, freq) + 1, freq);
  }

  /** A clock of at most 1 GHz moves the timestamp with every tick. */
  lemma Strict(ticks: nat, freq: nat)
    requires 0 < freq <= NS_PER_SECOND
    ensures Ns(ticks, freq) < Ns(ticks + 1, freq)
  {
    var a, b := Ns(ticks, freq), Ns(ticks + 1, freq);
    RoundsDown(ticks * NS_PER_SECOND, freq);
    RoundsDown((ticks + 1) * NS_PER_SECOND, freq);
    assert (a + 1) * freq == a * freq + freq;
    Cancel(a + 1, b + 1, freq);
  }

  /** Different ticks give different timestamps exactly for clocks of at most 1 GHz. */
  lemma StrictIff(freq: nat)
    requires freq > 0
    ensures freq <= NS_PER_SECOND <==> (forall ticks: nat :: Ns(ticks, freq) < Ns(ticks + 1, freq))
  {
    if freq <= NS_PER_SECOND {
      forall ticks: nat ensures Ns(ticks, freq) < Ns(ticks + 1, freq) {
        Strict(ticks, freq);
      }
    } else {
      assert Ns(0, freq) == 0 == Ns(0 + 1, freq);
    }
  }

  // ---- Overflow ----

  /** No intermediate value of the split formula exceeds 64 bits. */
  predicate Fits(ticks: nat, freq: nat)
    requires freq > 0
  {
    && ticks / freq * NS_PER_SECOND <= INT64_MAX
    && ticks % freq * NS_PER_SECOND <= INT64_MAX
  }

  lemma RemainderTooBig(freq: nat)
    requires freq > 9223372037
    ensures Ns(freq - 1, freq) < NS_PER_SECOND && !Fits(freq - 1, freq)
  {
    DivUnique(freq - 1, freq, 0);
    RoundsDown((freq - 1) * NS_PER_SECOND, freq);
    Cancel(Ns(freq - 1, freq), NS_PER_SECOND, freq);
  }

  /** For a timestamp that fits 64 bits every intermediate value does too, whatever the tick count,
      exactly up to a frequency of 9223372037 Hz. */
  lemma NoOverflowIff(freq: nat)
    requires freq > 0
    ensures freq <= 9223372037
       <==> (forall ticks: nat :: Ns(ticks, freq) <= INT64_MAX ==> Fits(ticks, freq))
  {
    if freq <= 9223372037 {
      forall ticks: nat | Ns(ticks, freq) <= INT64_MAX ensures Fits(ticks, freq) {
        SplitExact(ticks, freq);
        RemainderFits(ticks % freq, freq);
      }
    } else {
      RemainderTooBig(freq);
    }
  }

  lemma RemainderFits(r: nat, freq: nat)
    requires r < freq <= 9223372037
    ensures r * NS_PER_SECOND <= INT64_MAX
  {
  }
}
