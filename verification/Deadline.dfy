/** Deadlines on the monotonic clock: seconds and nanoseconds in 64-bit machine
    arithmetic, related to plain nanosecond counts. */
module Deadlines {
  import opened Input

  const NS_PER_SECOND: nat := 1_000_000_000
  const NS_PER_MILLISECOND: nat := 1_000_000
  const UINT32_LIMIT: nat := 0x1_0000_0000
  const UINT64_LIMIT: nat := 0x1_0000_0000_0000_0000
  /** Clock readings stay below this, so that adding a duration stays a time_t. */
  const CLOCK_LIMIT_SECONDS: nat := 0x4000_0000_0000_0000

  datatype Timespec = Timespec(sec: int, nsec: int)

  predicate Normalized(t: Timespec) {
    t.sec >= 0 && 0 <= t.nsec < NS_PER_SECOND
  }

  function Ns(t: Timespec): int {
    t.sec * NS_PER_SECOND + t.nsec
  }

  function FromNs(ns: nat): Timespec {
    Timespec(ns / NS_PER_SECOND, ns % NS_PER_SECOND)
  }

  lemma NormalizedIsFromNs(t: Timespec)
    requires Normalized(t)
    ensures FromNs(Ns(t)) == t
  {
  }

  function Wrap64(x: nat): nat {
    x % UINT64_LIMIT
  }

  function DurationNs(durationMs: nat): nat {
    durationMs * NS_PER_MILLISECOND
  }

  predicate DeadlineExpired(deadline: Timespec, now: Timespec) {
    now.sec > deadline.sec || (now.sec == deadline.sec && now.nsec >= deadline.nsec)
  }

  /** Expiry is comparison of nanosecond counts. */
  lemma ExpiredIsNsComparison(deadline: Timespec, now: Timespec)
    requires Normalized(deadline) && Normalized(now)
    ensures DeadlineExpired(deadline, now) <==> Ns(deadline) <= Ns(now)
  {
  }

  /** For any 64-bit duration the deadline is normalized, fits a time_t, and is
      the clock reading plus the duration as far as 64 bits carry it. */
  method SetDeadline(now: Timespec, durationMs: nat) returns (deadline: Timespec)
    requires Normalized(now) && now.sec < CLOCK_LIMIT_SECONDS && durationMs < UINT64_LIMIT
    ensures Normalized(deadline) && deadline.sec < UINT64_LIMIT / 2
    ensures Ns(deadline) == Ns(now) + Wrap64(DurationNs(durationMs))
    ensures durationMs < UINT32_LIMIT ==> Ns(deadline) == Ns(now) + DurationNs(durationMs)
  {
    var durationNs := Wrap64(durationMs * NS_PER_MILLISECOND);
    var seconds := durationNs / NS_PER_SECOND;
    var nanoseconds := durationNs % NS_PER_SECOND;
    deadline := Timespec(now.sec + seconds, now.nsec + nanoseconds);
    if deadline.nsec >= NS_PER_SECOND {
      deadline := Timespec(deadline.sec + 1, deadline.nsec - NS_PER_SECOND);
    }
    DurationExactIff(durationMs);
  }

  /** The duration survives the 64-bit multiplication exactly up to this limit,
      which every 32-bit duration respects. */
  lemma DurationExactIff(durationMs: nat)
    ensures Wrap64(DurationNs(durationMs)) == DurationNs(durationMs) <==> durationMs <= 18_446_744_073_709
    ensures durationMs < UINT32_LIMIT ==> Wrap64(DurationNs(durationMs)) == DurationNs(durationMs)
  {
  }

  /** Microseconds from `now` to `deadline`, rounded up. */
  function UsecUntil(deadlineNs: int, nowNs: int): nat {
    if deadlineNs <= nowNs then 0 else (deadlineNs - nowNs + 999) / 1000
  }

  function Min(a: nat, b: nat): nat {
    if a < b then a else b
  }

  /** For every 32-bit duration the conversion fits 64 bits. */
  lemma WaitFits64(seconds: nat, nanoseconds: nat)
    requires seconds <= 4_294_968 && nanoseconds < NS_PER_SECOND
    ensures Wrap64(Wrap64(Wrap64(seconds) * 1_000_000) + Wrap64(Wrap64(nanoseconds) + 999) / 1000) ==
            seconds * 1_000_000 + (nanoseconds + 999) / 1000
  {
  }

  /** The wait for one deadline, given the answer of the clock. */
  method DeadlineWaitTimeout(deadline: Option<Timespec>, clock: Option<Timespec>, maximumUsec: nat)
    returns (usec: nat)
    requires deadline.Some? ==> Normalized(deadline.value)
    requires clock.Some? ==> Normalized(clock.value)
    requires deadline.Some? && clock.Some? ==> Ns(deadline.value) <= Ns(clock.value) + DurationNs(UINT32_LIMIT)
    ensures usec ==
      if deadline.None? || clock.None? then maximumUsec
      else Min(maximumUsec, UsecUntil(Ns(deadline.value), Ns(clock.value)))
    ensures usec <= maximumUsec
    ensures usec < maximumUsec ==>
      deadline.Some? && clock.Some? && Ns(deadline.value) <= Ns(clock.value) + usec * 1000
    ensures usec > 0 && deadline.Some? && clock.Some? ==> Ns(clock.value) + usec * 1000 < Ns(deadline.value) + 1000
  {
    hide Wrap64;
    if deadline.None? || clock.None? {
      return maximumUsec;
    }
    var due, now := deadline.value, clock.value;
    ExpiredIsNsComparison(due, now);
    if DeadlineExpired(due, now) {
      return 0;
    }
    var seconds := due.sec - now.sec;
    var nanoseconds := due.nsec - now.nsec;
    if nanoseconds < 0 {
      seconds := seconds - 1;
      nanoseconds := nanoseconds + NS_PER_SECOND;
    }
    assert seconds >= 0 && seconds * NS_PER_SECOND + nanoseconds == Ns(due) - Ns(now);
    var remaining := Wrap64(Wrap64(Wrap64(seconds) * 1_000_000) + Wrap64(Wrap64(nanoseconds) + 999) / 1000);
    WaitFits64(seconds, nanoseconds);
    assert (Ns(due) - Ns(now) + 999) / 1000 == seconds * 1_000_000 + (nanoseconds + 999) / 1000;
    return if remaining < maximumUsec then remaining else maximumUsec;
  }
}
