/** The real-time throttle of analyzer/throttle.c: it paces the release of
    samples so that `samp_count` samples at `samp_rate` samples per second
    are released no earlier than `samp_count / samp_rate` seconds after a
    reference time t0. All times are nanoseconds of the raw clock, which is
    read by the caller and passed in; the sleep is returned, not taken.
    SUSCOUNT and the clock are 64-bit unsigned integers. */
module Throttle {
  import opened Bytes

  const NanosPerSecond: nat := 1_000_000_000
  /** Lead, in nanoseconds, below which no sleep is taken. */
  const SleepFloor: int := 500

  /** A struct timespec for nanosleep. */
  datatype Timespec = Timespec(sec: nat, nsec: nat)

  /** The time, in nanoseconds after t0, at which `count` samples are due at
      `rate` samples per second (rounded down). */
  function Target(count: nat, rate: nat): nat
    requires rate > 0
  {
    count * NanosPerSecond / rate
  }

  /** The elapsed time `now - t0` on `uint64_t`, which wraps when the clock
      reads less than t0. */
  function Elapsed(now: u64, t0: u64): u64
  {
    (now - t0) % U64_LIMIT
  }

  /** The `int64_t` delay: the unsigned target for count + h samples minus the
      unsigned elapsed time, modulo 2^64, read as a signed value. */
  function Delay(count: u64, h: u64, rate: u64, now: u64, t0: u64): i64
    requires rate > 0 && (count + h) * NanosPerSecond < U64_LIMIT
  {
    Signed64((Target(count + h, rate) - Elapsed(now, t0)) % U64_LIMIT)
  }

  /** The nanosleep request for a delay: none at or below the floor,
      otherwise whole seconds and the remaining nanoseconds. */
  function SleepFor(delay: int): Option<Timespec>
  {
    if delay > SleepFloor then Some(Timespec(delay / NanosPerSecond, delay % NanosPerSecond)) else None
  }

  /** A sleep is requested exactly when the delay is above the floor, and
      then it lasts exactly the delay, with a normalised nanosecond field. */
  lemma SleepSplit(delay: int)
    ensures SleepFor(delay).Some? <==> delay > SleepFloor
    ensures SleepFor(delay).Some? ==>
      var t := SleepFor(delay).value;
      t.sec * NanosPerSecond + t.nsec == delay && t.nsec < NanosPerSecond
  {
  }

  /** While neither the clock nor the target has wrapped, the delay is the
      target minus the time actually elapsed since t0: positive when the
      caller is early, negative when it is late. */
  lemma DelayIsLead(count: u64, h: u64, rate: u64, now: u64, t0: u64)
    requires rate > 0 && (count + h) * NanosPerSecond < U64_LIMIT
    requires t0 <= now && now - t0 < I64_LIMIT && Target(count + h, rate) < I64_LIMIT
    ensures Delay(count, h, rate, now, t0) == Target(count + h, rate) - (now - t0)
  {
    var d := Target(count + h, rate) - (now - t0);
    assert Elapsed(now, t0) == now - t0;
    if d < 0 {
      assert (d % U64_LIMIT) == d + U64_LIMIT;
    } else {
      assert (d % U64_LIMIT) == d;
    }
  }

  /** The pacing guarantee: the caller leaves get_portion at t0 plus the
      target for count + h samples when it sleeps, and at most SleepFloor
      nanoseconds before it when it does not. */
  lemma Paces(count: u64, h: u64, rate: u64, now: u64, t0: u64)
    requires rate > 0 && (count + h) * NanosPerSecond < U64_LIMIT
    requires t0 <= now && now - t0 < I64_LIMIT && Target(count + h, rate) < I64_LIMIT
    ensures var s := SleepFor(Delay(count, h, rate, now, t0));
      if s.Some? then now + s.value.sec * NanosPerSecond + s.value.nsec == t0 + Target(count + h, rate)
      else now + SleepFloor >= t0 + Target(count + h, rate)
  {
    DelayIsLead(count, h, rate, now, t0);
    SleepSplit(Delay(count, h, rate, now, t0));
  }

  /** The pacing that follows init(rate = 1000) when the first request, for
      1000 samples, comes after the 100 ms settling pause: 0.9 s more of
      sleep, so that the request returns one second after t0. */
  lemma OneSecondOfSamples(t0: u64)
    requires t0 + 100_000_000 < U64_LIMIT
    ensures SleepFor(Delay(0, 1000, 1000, t0 + 100_000_000, t0)) == Some(Timespec(0, 900_000_000))
  {
    assert Target(1000, 1000) == NanosPerSecond;
    assert Elapsed(t0 + 100_000_000, t0) == 100_000_000;
    assert (NanosPerSecond - 100_000_000) % U64_LIMIT == 900_000_000;
  }

  /** suscan_throttle_t. */
  class Throttle {
    var sampRate: u64
    var sampCount: u64
    var t0: u64

    /** suscan_throttle_init: clears the state, records the rate and takes
        the raw clock reading `now` as t0. */
    method Init(rate: u64, now: u64)
      modifies this
      ensures sampRate == rate && sampCount == 0 && t0 == now
    {
      sampCount := 0;
      sampRate := rate;
      t0 := now;
    }

    /** suscan_throttle_get_portion: a zero request returns 0 and touches
        nothing; otherwise the delay until the count + h samples are due is
        slept (when above the floor), the counter and t0 restart from `now`
        once the counter has passed the threshold, and h is returned. */
    method GetPortion(h: u64, now: u64, threshold: u64) returns (r: u64, sleep: Option<Timespec>)
      requires h != 0 ==> sampRate > 0 && (sampCount + h) * NanosPerSecond < U64_LIMIT
      modifies this
      ensures r == h && sampRate == old(sampRate)
      ensures h == 0 ==> sleep == None && sampCount == old(sampCount) && t0 == old(t0)
      ensures h != 0 ==> sleep == SleepFor(Delay(old(sampCount), h, sampRate, now, old(t0)))
      ensures h != 0 && old(sampCount) > threshold ==> sampCount == 0 && t0 == now
      ensures h != 0 && old(sampCount) <= threshold ==> sampCount == old(sampCount) && t0 == old(t0)
    {
      if h == 0 {
        return 0, None;
      }
      var elapsed := (now - t0) % U64_LIMIT;
      var target := (sampCount + h) * NanosPerSecond / sampRate;
      var delay := Signed64((target - elapsed) % U64_LIMIT);
      sleep := None;
      if delay > SleepFloor {
        sleep := Some(Timespec(delay / NanosPerSecond, delay % NanosPerSecond));
      }
      if sampCount > threshold {
        sampCount := 0;
        t0 := now;
      }
      r := h;
    }

    /** suscan_throttle_advance: counts `got` more samples released, on a
        `uint64_t` counter. */
    method Advance(got: u64)
      modifies this
      ensures sampCount == (old(sampCount) + got) % U64_LIMIT
      ensures sampRate == old(sampRate) && t0 == old(t0)
    {
      sampCount := (sampCount + got) % U64_LIMIT;
    }
  }
}
