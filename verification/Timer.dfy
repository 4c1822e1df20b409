/**
 * The clock arithmetic of a single timer (src/timer/timer.cpp).
 *
 * Clock readings are normalised timespecs.  Every reading of the monotonic clock is below
 * CLOCK_LIMIT_MS, so the signed 64-bit sums of the program never overflow; the one subtraction
 * it performs on unsigned 64-bit numbers is written out with its wrap-around.
 */
module Timers {
  import opened Widths

  const NS_PER_MS: nat := 1_000_000
  const NS_PER_SEC: nat := 1_000_000_000
  const CLOCK_LIMIT_MS: nat := 0x4000_0000_0000_0000
  const ARM_FLOOR_MS: nat := 15

  datatype Timespec = Timespec(sec: nat, nsec: nat) {
    predicate Normal() {
      nsec < NS_PER_SEC
    }

    function Nanos(): nat {
      sec * NS_PER_SEC + nsec
    }

    /** The reading in whole milliseconds, as the program computes it from the two fields. */
    function Millis(): nat {
      sec * 1000 + nsec / NS_PER_MS
    }
  }

  /** A clock reading is a normalised timespec within the range the program can represent. */
  predicate IsReading(t: Timespec) {
    t.Normal() && t.Millis() < CLOCK_LIMIT_MS
  }

  /** Relative delay, in ms, that a timer with this deadline asks the timerfd for. */
  function ArmingDelay(deadline: nat, reading: nat): nat {
    var delay := (deadline - reading) % U64_LIMIT;
    if delay <= ARM_FLOOR_MS then ARM_FLOOR_MS else delay
  }

  /**
   * An arming covers its deadline (expires neither before it nor more than the floor after it)
   * exactly when the clock was read no later than the deadline.  A late reading wraps.
   */
  lemma ArmingDelayExact(deadline: nat, reading: nat)
    requires deadline < 2 * CLOCK_LIMIT_MS && reading < 2 * CLOCK_LIMIT_MS
    ensures reading <= deadline ==>
              ArmingDelay(deadline, reading)
              == if deadline - reading < ARM_FLOOR_MS then ARM_FLOOR_MS else deadline - reading
    ensures reading > deadline ==> reading + ArmingDelay(deadline, reading) == deadline + U64_LIMIT
    ensures deadline <= reading + ArmingDelay(deadline, reading) <= deadline + ARM_FLOOR_MS
            <==> reading <= deadline
  {
  }

  /** The millisecond count of a normalised timespec is its nanosecond count rounded down. */
  lemma MillisRoundsDown(t: Timespec)
    requires t.Normal()
    ensures t.Millis() == t.Nanos() / NS_PER_MS
  {
  }

  /** The monotonic clock: every reading is arbitrary but never earlier than the one before. */
  class Clock {
    var last: Timespec

    ghost predicate Valid()
      reads this
    {
      IsReading(last)
    }

    ghost function Now(): nat
      reads this
    {
      last.Millis()
    }

    method Read() returns (t: Timespec)
      requires Valid()
      modifies this
      ensures Valid() && t == last && t.Nanos() >= old(last.Nanos())
      ensures t.Millis() >= old(Now())
    {
      t :| IsReading(t) && t.Nanos() >= last.Nanos();
      assert IsReading(t);
      MillisRoundsDown(t);
      MillisRoundsDown(last);
      last := t;
    }
  }

  class Timer {
    const intervalMs: nat
    ghost const id: nat
    var now: Timespec

    ghost predicate Valid()
      reads this
    {
      intervalMs < U32_LIMIT && IsReading(now)
    }

    /** The constructor takes the first clock reading through Update. */
    constructor (interval: nat, clock: Clock, ghost ident: nat)
      requires interval < U32_LIMIT && clock.Valid()
      modifies clock
      ensures Valid() && intervalMs == interval && id == ident
      ensures clock.Valid() && now == clock.last && old(clock.Now()) <= clock.Now()
    {
      intervalMs := interval;
      id := ident;
      now := Timespec(0, 0);
      new;
      Update(clock);
    }

    /** Start reading in ms plus the interval. */
    ghost function Deadline(): nat
      reads this
    {
      now.Millis() + intervalMs
    }

    /** Splits the interval into seconds and nanoseconds and carries, yet adds it exactly. */
    method GetTimeout() returns (timeout: Timespec)
      requires Valid()
      ensures timeout.Normal()
      ensures timeout.Nanos() == now.Nanos() + intervalMs * NS_PER_MS
    {
      timeout := now;
      timeout := timeout.(nsec := timeout.nsec + (intervalMs % 1000) * NS_PER_MS);
      timeout := timeout.(sec := timeout.sec + intervalMs / 1000);
      if timeout.nsec >= NS_PER_SEC {
        timeout := timeout.(sec := timeout.sec + timeout.nsec / NS_PER_SEC);
        timeout := timeout.(nsec := timeout.nsec % NS_PER_SEC);
      }
    }

    /** The split and the carry lose nothing to rounding. */
    method GetTimeOutMSecond() returns (ms: nat)
      requires Valid()
      ensures ms == Deadline() < 2 * CLOCK_LIMIT_MS
    {
      var timeout := GetTimeout();
      ms := timeout.sec * 1000 + timeout.nsec / NS_PER_MS;
      MillisRoundsDown(timeout);
      MillisRoundsDown(now);
    }

    /** The timespec handed to the timerfd: normalised, never the disarming zero, exact in ms. */
    method GetTimeInterval(clock: Clock) returns (t: Timespec)
      requires Valid() && clock.Valid()
      modifies clock
      ensures clock.Valid() && old(clock.Now()) <= clock.Now()
      ensures t.Normal() && t != Timespec(0, 0)
      ensures t.Millis() == ArmingDelay(Deadline(), clock.Now())
      ensures t.Nanos() == ArmingDelay(Deadline(), clock.Now()) * NS_PER_MS
    {
      var deadline := GetTimeOutMSecond();
      var reading := clock.Read();
      var interval := (deadline - reading.Millis()) % U64_LIMIT;
      if interval <= ARM_FLOOR_MS {
        interval := ARM_FLOOR_MS;
      }
      t := Timespec(interval / 1000, (interval % 1000) * NS_PER_MS);
    }

    method Update(clock: Clock)
      requires clock.Valid()
      modifies this`now, clock
      ensures clock.Valid() && now == clock.last && old(clock.Now()) <= clock.Now()
      ensures IsReading(now)
    {
      now := clock.Read();
    }
  }
}
