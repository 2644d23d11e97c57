/** PalWaitMultiple as the POSIX build implements it: waiting for two events by polling in slices of
    100 ms.

    What the loop sees of the events in each slice is a parameter; what it decides is proved against
    the first slice in which it sees anything. */
module PalWait {
  const DWORD := 0x1_0000_0000
  const INFINITE := 0xFFFF_FFFF
  const POLL_MS := 100

  /** One turn of the loop: the shutdown and manual events when they are checked, and the shutdown
      event after the timed wait. */
  datatype Slice = Slice(shutdown: bool, manual: bool, shutdownAfterWait: bool)

  /** `Blocked`: the given slices ran out while the loop was still waiting. */
  datatype Outcome = Shutdown | ManualFlush | Timeout | Blocked

  function Sum(waits: seq<nat>): nat {
    if waits == [] then 0 else Sum(waits[..|waits| - 1]) + waits[|waits| - 1]
  }

  predicate Quiet(slice: Slice, hasManual: bool) {
    !slice.shutdown && !(hasManual && slice.manual) && !slice.shutdownAfterWait
  }

  /** The first slice from `i` on in which an event is seen. */
  function FirstSignal(slices: seq<Slice>, hasManual: bool, i: nat): (k: nat)
    requires i <= |slices|
    ensures i <= k <= |slices|
    ensures forall j :: i <= j < k ==> Quiet(slices[j], hasManual)
    ensures k < |slices| ==> !Quiet(slices[k], hasManual)
    decreases |slices| - i
  {
    if i == |slices| || !Quiet(slices[i], hasManual) then i else FirstSignal(slices, hasManual, i + 1)
  }

  /** How many slices fit the interval, the last one possibly shorter. */
  function Slices(intervalMs: nat): nat {
    (intervalMs + POLL_MS - 1) / POLL_MS
  }

  function Decision(slice: Slice, hasManual: bool): Outcome {
    if !slice.shutdown && hasManual && slice.manual then ManualFlush else Shutdown
  }

  function Decided(intervalMs: nat, hasManual: bool, slices: seq<Slice>): Outcome {
    var k := FirstSignal(slices, hasManual, 0);
    if intervalMs != INFINITE && Slices(intervalMs) <= k then Timeout
    else if k < |slices| then Decision(slices[k], hasManual)
    else Blocked
  }

  predicate AllQuiet(slices: seq<Slice>, hasManual: bool, n: nat)
    requires n <= |slices|
  {
    forall j :: 0 <= j < n ==> Quiet(slices[j], hasManual)
  }

  /** `waits` are the timed waits the loop asks for, `manualReset` whether it takes the manual signal.
      A timeout is reported only when the waits add up to exactly the interval; until then they fall
      short of it. */
  method PalWaitMultiple(intervalMs: nat, hasManual: bool, slices: seq<Slice>)
    returns (result: Outcome, waits: seq<nat>, manualReset: bool)
    requires intervalMs < DWORD
    ensures result == Decided(intervalMs, hasManual, slices)
    ensures manualReset <==> result == ManualFlush
    ensures forall i :: 0 <= i < |waits| ==> 0 < waits[i] <= POLL_MS
    ensures intervalMs != INFINITE ==> Sum(waits) <= intervalMs && (result == Timeout ==> Sum(waits) == intervalMs)
    ensures intervalMs == INFINITE ==> result != Timeout
  {
    var remaining: nat := intervalMs;
    waits, manualReset := [], false;
    var i := 0;
    while (remaining > 0 || intervalMs == INFINITE) && i < |slices|
      invariant 0 <= i <= |slices| && |waits| == i && !manualReset
      invariant AllQuiet(slices, hasManual, i)
      invariant forall j :: 0 <= j < i ==> 0 < waits[j] <= POLL_MS
      invariant intervalMs == INFINITE ==> remaining == INFINITE
      invariant intervalMs != INFINITE ==> Sum(waits) == POLL_MS * i && remaining == intervalMs - POLL_MS * i
      invariant intervalMs != INFINITE && 0 < i ==> 0 < remaining
      decreases |slices| - i, remaining
    {
      var slice := slices[i];
      if slice.shutdown {
        return Shutdown, waits, manualReset;
      }
      if hasManual && slice.manual {
        manualReset := true;
        return ManualFlush, waits, manualReset;
      }
      var waitTime := if intervalMs == INFINITE then POLL_MS else if remaining < POLL_MS then remaining else POLL_MS;
      waits := waits + [waitTime];
      if slice.shutdownAfterWait {
        return Shutdown, waits, manualReset;
      }
      i := i + 1;
      if intervalMs != INFINITE {
        if remaining <= waitTime {
          return Timeout, waits, manualReset;
        }
        remaining := remaining - waitTime;
      }
    }
    if remaining > 0 || intervalMs == INFINITE {
      return Blocked, waits, manualReset;
    }
    return Timeout, waits, manualReset;
  }

  /** What the call returns when the first `k` slices show nothing: what the next one shows if there is time
      left, and a timeout once the slices of 100 ms cover the interval. */
  lemma DecidedMeans(intervalMs: nat, hasManual: bool, slices: seq<Slice>, k: nat)
    requires k <= |slices|
    requires forall j :: 0 <= j < k ==>
               !slices[j].shutdown && !slices[j].shutdownAfterWait && (hasManual ==> !slices[j].manual)
    ensures var result := Decided(intervalMs, hasManual, slices);
            if intervalMs != 0xFFFF_FFFF && intervalMs <= 100 * k then result == Timeout
            else if k == |slices| then result == Blocked
            else
              && (slices[k].shutdown ==> result == Shutdown)
              && (!slices[k].shutdown && hasManual && slices[k].manual ==> result == ManualFlush)
              && (!slices[k].shutdown && !(hasManual && slices[k].manual) && slices[k].shutdownAfterWait
                  ==> result == Shutdown)
  {
    assert k <= FirstSignal(slices, hasManual, 0);
  }

  /** A shutdown that is visible before the interval is over wins over the timeout, and over a manual
      flush that is not seen earlier. */
  lemma ShutdownWins(intervalMs: nat, hasManual: bool, slices: seq<Slice>, k: nat)
    requires intervalMs == INFINITE || k < Slices(intervalMs)
    requires k < |slices| && (slices[k].shutdown || (slices[k].shutdownAfterWait && !(hasManual && slices[k].manual)))
    requires forall j :: 0 <= j < k && hasManual ==> !slices[j].manual
    ensures Decided(intervalMs, hasManual, slices) == Shutdown
  {
    assert !Quiet(slices[k], hasManual);
    assert FirstSignal(slices, hasManual, 0) <= k;
  }

  /** A shutdown that has been requested before the call is noticed by every interval but zero. */
  lemma NoticesShutdownIff(intervalMs: nat, hasManual: bool)
    ensures intervalMs != 0
       <==> (forall slices: seq<Slice> :: slices != [] && slices[0].shutdown ==>
               Decided(intervalMs, hasManual, slices) == Shutdown)
  {
    var s := [Slice(true, false, true)];
    if intervalMs == 0 {
      assert Decided(intervalMs, hasManual, s) == Timeout;
    } else {
      forall slices: seq<Slice> | slices != [] && slices[0].shutdown
        ensures Decided(intervalMs, hasManual, slices) == Shutdown
      {
        ShutdownWins(intervalMs, hasManual, slices, 0);
      }
    }
  }
}
