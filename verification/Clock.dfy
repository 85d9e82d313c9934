/** Conversion between durations and timer ticks at a given timebase frequency. */
module Clock {

  const BILLION: nat := 1_000_000_000
  const U64: nat := 0x1_0000_0000_0000_0000

  /** Nanoseconds of `Duration::MAX`: 2^64 - 1 seconds and 999 999 999 nanoseconds. */
  const DURATION_MAX: nat := (U64 - 1) * BILLION + (BILLION - 1)

  /** `get_time` at tick `ticks`, in nanoseconds; the product is computed in 64 bits. */
  function GetTime(ticks: nat, freq: nat): nat {
    if freq != 0 then ticks * BILLION % U64 / freq else 0
  }

  /** The tick `set_timer` programs for a time in nanoseconds; the last cast keeps the low 64 bits. */
  function TimerTicks(time: nat, freq: nat): nat {
    time * freq / BILLION % U64
  }

  lemma DivBounds(a: nat, b: nat)
    requires b > 0
    ensures a / b * b <= a < a / b * b + b
  {
  }

  lemma DivUnique(a: nat, b: nat, q: nat)
    requires b > 0 && q * b <= a < q * b + b
    ensures a / b == q
  {
    DivBounds(a, b);
    var d := a / b - q;
    assert d * b == a / b * b - q * b;
    MulSign(d, b);
  }

  lemma MulSign(d: int, b: int)
    requires b >= 0
    ensures d >= 1 ==> d * b >= b
    ensures d <= -1 ==> d * b <= -b
  {
  }

  lemma CancelFactor(a: nat, b: nat, c: nat)
    requires c > 0 && a * c <= b * c
    ensures a <= b
  {
    assert (a - b) * c == a * c - b * c;
    MulSign(a - b, c);
  }

  lemma Scale(a: nat, b: nat, c: nat)
    requires c > 0
    ensures a <= b ==> a * c <= b * c
    ensures a < b ==> a * c < b * c
  {
    assert (b - a) * c == b * c - a * c;
    MulSign(b - a, c);
  }

  /** `set_timer(Duration::MAX)` programs the largest tick at every frequency up to a gigahertz. */
  lemma MaxIsNever(freq: nat)
    requires 1 <= freq <= BILLION
    ensures TimerTicks(DURATION_MAX, freq) == U64 - 1
  {
    var q := U64 * freq - 1;
    assert DURATION_MAX * freq == (U64 * BILLION - 1) * freq == U64 * BILLION * freq - freq;
    assert q * BILLION == U64 * BILLION * freq - BILLION by {
      assert q * BILLION == U64 * freq * BILLION - BILLION;
    }
    DivUnique(DURATION_MAX * freq, BILLION, q);
    assert q == (freq - 1) * U64 + (U64 - 1);
    LowBits(freq - 1, U64 - 1);
  }

  lemma LowBits(high: nat, low: nat)
    requires low < U64
    ensures (high * U64 + low) % U64 == low
  {
  }

  /** Times whose tick and whose product in `get_time` both fit in 64 bits. */
  predicate InRange(time: nat, freq: nat) {
    time * freq / BILLION * BILLION < U64
  }

  /** The clock read at the programmed tick is never after the requested time, and less than one tick and one
      nanosecond before it. */
  lemma ProgrammedTickIsClose(time: nat, freq: nat)
    requires 1 <= freq && InRange(time, freq)
    ensures var read := GetTime(TimerTicks(time, freq), freq);
            read <= time && time * freq < (read + 1) * freq + BILLION
  {
    var tick := time * freq / BILLION;
    DivBounds(time * freq, BILLION);
    assert tick <= tick * BILLION;
    assert TimerTicks(time, freq) == tick;
    var read := GetTime(tick, freq);
    DivBounds(tick * BILLION, freq);
    CancelFactor(read, time, freq);
    assert (read + 1) * freq == read * freq + freq;
  }

  lemma WholeTicks(time: nat, freq: nat, ns: nat)
    requires freq >= 1 && ns >= 1 && freq * ns == BILLION
    ensures time * freq / BILLION == time / ns
  {
    var k := time / ns;
    DivBounds(time, ns);
    assert (k * ns) * freq == k * BILLION;
    assert (k * ns + ns) * freq == k * BILLION + BILLION;
    Scale(k * ns, time, freq);
    Scale(time, k * ns + ns, freq);
    DivUnique(time * freq, BILLION, k);
  }

  lemma TicksToTime(k: nat, freq: nat, ns: nat)
    requires freq >= 1 && ns >= 1 && freq * ns == BILLION
    ensures k * BILLION / freq == k * ns
  {
    assert (k * ns) * freq == k * BILLION;
    DivUnique(k * BILLION, freq, k * ns);
  }

  /** When a tick is a whole number of nanoseconds, the read time is the requested time rounded down to ticks. */
  lemma ReadIsRoundedDown(time: nat, freq: nat, ns: nat)
    requires freq >= 1 && ns >= 1 && freq * ns == BILLION && InRange(time, freq)
    ensures GetTime(TimerTicks(time, freq), freq) == time / ns * ns
  {
    var k := time / ns;
    WholeTicks(time, freq, ns);
    TicksToTime(k, freq, ns);
    assert k <= k * BILLION;
  }

  /** So an event is due at the tick programmed for it exactly when its time is a whole number of ticks. */
  lemma DueAtItsTick(time: nat, freq: nat, ns: nat)
    requires freq >= 1 && ns >= 1 && freq * ns == BILLION && InRange(time, freq)
    ensures time <= GetTime(TimerTicks(time, freq), freq) <==> time % ns == 0
  {
    ReadIsRoundedDown(time, freq, ns);
    DivBounds(time, ns);
    assert time == time / ns * ns + time % ns;
  }

  /** The first tick whose product in `get_time` does not fit in 64 bits. */
  const WRAP: nat := 18_446_744_074

  ghost predicate MonotoneUpTo(n: nat, freq: nat) {
    forall a: nat, b: nat | a <= b <= n :: GetTime(a, freq) <= GetTime(b, freq)
  }

  /** The clock never goes backwards up to tick `n` exactly when the 64-bit product does not wrap by then, or when
      the frequency has not been set, since it then stands at zero. */
  lemma MonotoneExactly(n: nat, freq: nat)
    requires freq <= BILLION
    ensures MonotoneUpTo(n, freq) <==> freq == 0 || n * BILLION < U64
    ensures freq == 0 ==> GetTime(n, freq) == 0
  {
    if freq == 0 {
      assert MonotoneUpTo(n, freq);
    } else if n * BILLION < U64 {
      forall a: nat, b: nat | a <= b <= n
        ensures GetTime(a, freq) <= GetTime(b, freq)
      {
        NoWrap(a, freq);
        NoWrap(b, freq);
        DivMonotone(a * BILLION, b * BILLION, freq);
      }
    } else {
      FallsAtWrap(freq);
      assert WRAP - 1 <= WRAP <= n;
    }
  }

  /** At every frequency up to a gigahertz the clock falls when that tick comes. */
  lemma FallsAtWrap(freq: nat)
    requires 1 <= freq <= BILLION
    ensures GetTime(WRAP, freq) < GetTime(WRAP - 1, freq)
  {
    assert (WRAP - 1) * BILLION % U64 == 18_446_744_073_000_000_000;
    assert WRAP * BILLION % U64 == 290_448_384;
    DivApart(290_448_384, 18_446_744_073_000_000_000, freq);
  }

  lemma DivApart(a: nat, b: nat, c: nat)
    requires c > 0 && a + c <= b
    ensures a / c < b / c
  {
    DivBounds(a, c);
    DivBounds(b, c);
    var d := b / c - a / c;
    assert d * c == b / c * c - a / c * c;
    MulSign(d, c);
    assert d == 0 ==> d * c == 0;
  }

  lemma NoWrap(ticks: nat, freq: nat)
    requires freq >= 1 && ticks * BILLION < U64
    ensures GetTime(ticks, freq) == ticks * BILLION / freq
  {
    assert ticks * BILLION % U64 == ticks * BILLION;
  }

  lemma DivMonotone(a: nat, b: nat, c: nat)
    requires c > 0 && a <= b
    ensures a / c <= b / c
  {
    DivBounds(a, c);
    DivBounds(b, c);
    var d := a / c - b / c;
    assert d * c == a / c * c - b / c * c;
    MulSign(d, c);
  }

  /** At ten megahertz that is after about half an hour, and the clock starts again from zero. */
  lemma ClockWraps()
    ensures GetTime(WRAP - 1, 10_000_000) == 1_844_674_407_300 && GetTime(WRAP, 10_000_000) == 29
    ensures MonotoneUpTo(WRAP - 1, 10_000_000) && !MonotoneUpTo(WRAP, 10_000_000)
  {
    assert (WRAP - 1) * BILLION % U64 == 18_446_744_073_000_000_000;
    assert WRAP * BILLION % U64 == 290_448_384;
    MonotoneExactly(WRAP - 1, 10_000_000);
    MonotoneExactly(WRAP, 10_000_000);
  }

  /** The tick programmed for a time has come exactly when the time lies before the end of the current tick. */
  lemma TickReached(time: nat, freq: nat, ns: nat, tick: nat)
    requires freq >= 1 && ns >= 1 && freq * ns == BILLION && time / ns < U64
    ensures TimerTicks(time, freq) <= tick <==> time < (tick + 1) * ns
  {
    WholeTicks(time, freq, ns);
    DivBounds(time, ns);
    assert (tick + 1) * ns == tick * ns + ns;
    var d := time / ns - tick;
    assert d * ns == time / ns * ns - tick * ns;
    MulSign(d, ns);
    MulSign(d - 1, ns);
  }
}
