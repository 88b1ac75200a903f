/**
  Milliseconds from the timers' nanosecond clock, by a multiplication in Q49 fixed point done in two
  32-bit halves.
 */
module SystemTime {
  import opened Words
  import opened SwTimer
  import T = TimerRuns
  import Q = TimerQueue

  const Half: nat := 0x1_0000_0000                // 2^32
  const Unit: nat := 0x2_0000_0000_0000           // 2^49, one in Q49
  const Millionth: U32 := 0x218D_EF41             // a millionth in Q49, rounded down
  const Short: nat := 421312                      // what a million of those lack of one

  /** nltime_get_system_ms. Every intermediate value fits 64 bits; the result is the product, rounded to the
      nearest whole number. */
  function SystemMs(t: U64): (r: U64)
    ensures r == (t * Millionth + Unit / 2) / Unit
  {
    var upper: U64 := t / Half;
    var lower: U64 := t % Half;
    var upper1: U64 := upper * Millionth;
    var lower1: U64 := lower * Millionth;
    var upper2: U64 := upper1 + lower1 / Half;
    var upper3: U64 := upper2 + 0x1_0000;
    HalvesJoin(t, upper1, lower1, upper3);
    upper3 / 0x2_0000
  }

  lemma {:induction false} HalvesJoin(t: U64, upper: nat, lower: nat, sum: nat)
    requires upper == t / Half * Millionth && lower == t % Half * Millionth
    requires sum == upper + lower / Half + 0x1_0000
    ensures sum / 0x2_0000 == (t * Millionth + Unit / 2) / Unit
  {
    var x := t * Millionth + Unit / 2;
    assert t == t / Half * Half + t % Half;
    assert x == Half * (upper + 0x1_0000) + lower;
    DivideTwice(x, Half, 0x2_0000, sum);
  }

  lemma {:induction false} DivideTwice(x: nat, a: nat, b: nat, y: nat)
    requires a == Half && b == 0x2_0000 && y == x / a
    ensures y / b == x / Unit
  {
  }

  /** Off by at most half a millisecond upwards; downwards by less than that plus the shortfall of the
      constant, t * 421312 / 2^49 nanoseconds. */
  lemma {:induction false} ErrorBounds(t: U64)
    ensures 1_000_000 * SystemMs(t) <= t + 500_000
    ensures Unit * (t - 1_000_000 * SystemMs(t) - 500_000) < t * Short
  {
    var r := SystemMs(t);
    var x := t * Millionth + Unit / 2;
    assert r * Unit <= x < r * Unit + Unit;
    assert 1_000_000 * Millionth == Unit - Short;
  }

  lemma {:induction false} Monotone(t: U64, u: U64)
    requires t <= u
    ensures SystemMs(t) <= SystemMs(u)
  {
    var x, y := t * Millionth + Unit / 2, u * Millionth + Unit / 2;
    assert x <= y;
  }

  // ----- with the timers' clock -----

  lemma {:induction false} TimePasses(s: Q.State, evs: seq<T.Event>)
    ensures s.now <= T.Run(s, evs).now
    decreases |evs|
  {
    if evs != [] {
      var r := T.Step(s, evs[0]);
      if evs[0].OnTick? && !s.halted {
        DrainNow(s.(now := s.now + 1), evs[0].scripts);
      }
      assert s.now <= r.now;
      TimePasses(r, evs[1..]);
    }
  }

  /** What a reader sees at a point of a run, until the nanosecond count passes 2^64. */
  method GetSystemMs(scheduler: Scheduler, ghost s: Q.State) returns (ms: U64)
    requires scheduler.ClockOk(s) && s.now * scheduler.nsPerTick < 0x1_0000_0000_0000_0000
    ensures ms == SystemMs(s.now * scheduler.nsPerTick)
  {
    ms := SystemMs(scheduler.timeNs);
  }

  lemma {:induction false} MoreTicks(a: nat, b: nat, ns: nat)
    requires a <= b && b * ns < 0x1_0000_0000_0000_0000
    ensures a * ns <= b * ns && SystemMs(a * ns) <= SystemMs(b * ns)
  {
    MulLess(a, b, ns);
    Monotone(a * ns, b * ns);
  }

  lemma {:induction false} MulLess(a: nat, b: nat, c: nat)
    requires a <= b
    ensures a * c <= b * c
  {
  }

  /** Through any run the reported time does not go backwards before the nanosecond count wraps. */
  lemma {:induction false} NeverBackwards(s: Q.State, evs: seq<T.Event>, ns: nat)
    requires T.Run(s, evs).now * ns < 0x1_0000_0000_0000_0000
    ensures s.now * ns <= T.Run(s, evs).now * ns
    ensures SystemMs(s.now * ns) <= SystemMs(T.Run(s, evs).now * ns)
  {
    TimePasses(s, evs);
    MoreTicks(s.now, T.Run(s, evs).now, ns);
  }
}
