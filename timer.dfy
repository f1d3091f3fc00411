/**
  The millisecond clock kept by `ISR(TIMER0_OVF_vect)` (main.c:163-177) with the
  macros it uses (main.c:19-27). Timer 0 counts 256 ticks of the CPU clock divided by
  64 between overflows; each overflow adds the whole milliseconds of that period and
  its remaining microseconds in units of 8 us, carrying a millisecond when the
  fraction reaches 125.

  The CPU clock `F_CPU` is not defined in the source; it is the parameter `fCpu`,
  from which `MicrosPerOverflow` derives the overflow period. The handler's arithmetic
  takes that period, `period`, as its parameter.
  The `unsigned long` fields wrap modulo 2^32 and the `unsigned char` fraction modulo
  2^8, written out below.
 */
module OverflowTimer {

  /** CPU cycles between two overflows: prescaler 64 times 256 counts (main.c:20). */
  const CYCLES_PER_OVERFLOW: int := 64 * 256
  /** `FRACT_MAX`, 1000 >> 3 (main.c:23). */
  const FRACT_MAX: int := 1000 / 8
  /** Modulus of `unsigned long` (32 bits on the target). */
  const ULONG: int := 0x1_0000_0000
  /** Modulus of `unsigned char`. */
  const UCHAR: int := 0x100

  /** The macros divide by `F_CPU / 1000`, so the clock must be at least 1 kHz. */
  predicate ValidClock(fCpu: int) {
    fCpu >= 1000
  }

  /**
    `MICROSECONDS_PER_TIMER0_OVERFLOW` via `clockCyclesToMicroseconds` (main.c:19-20):
    the duration of one overflow period in microseconds, rounded down, with the clock
    taken in whole kilohertz.
   */
  function MicrosPerOverflow(fCpu: int): (r: nat)
    requires ValidClock(fCpu)
    ensures r * (fCpu / 1000) <= CYCLES_PER_OVERFLOW * 1000 < (r + 1) * (fCpu / 1000)
  {
    (CYCLES_PER_OVERFLOW * 1000) / (fCpu / 1000)
  }

  /** `MILLIS_INC` (main.c:21): the whole milliseconds of the period. */
  function MillisInc(period: nat): (r: nat)
    ensures 1000 * r <= period < 1000 * (r + 1)
  {
    period / 1000
  }

  /** `FRACT_INC` (main.c:22): the leftover microseconds, shifted right by 3. */
  function FractInc(period: nat): (r: nat)
    ensures r < FRACT_MAX
  {
    (period % 1000) / 8
  }

  /**
    The time, in microseconds, that one overflow adds to the clock: the overflow
    period rounded down to a multiple of 8 us.
   */
  function Quantum(period: nat): (q: nat)
    ensures q == 1000 * MillisInc(period) + 8 * FractInc(period)
    ensures q % 8 == 0
    ensures q <= period < q + 8
  {
    RoundDownToEight(period);
    period - period % 8
  }

  /** Whole milliseconds plus the leftover shifted right by 3 drop only `u % 8`. */
  lemma RoundDownToEight(u: nat)
    ensures 1000 * (u / 1000) + 8 * ((u % 1000) / 8) == u - u % 8
    ensures (u - u % 8) % 8 == 0
  {
    var a, b := u / 1000, u % 1000;
    var c, d := b / 8, b % 8;
    assert u == 8 * (125 * a + c) + d;
    DivUniqueBy8(u, 125 * a + c, d);
    DivUniqueBy8(u - d, 125 * a + c, 0);
  }

  lemma DivUniqueBy8(x: int, k: int, d: int)
    requires x == 8 * k + d && 0 <= d < 8
    ensures x % 8 == d
  {
  }

  /** The values of `zeroMillis`, `zeroFract` and `zeroOverflowCount`. */
  datatype Clock = Clock(millis: int, fract: int, overflows: int)

  /** The static initial values (main.c:25-27). */
  const START: Clock := Clock(0, 0, 0)

  /** The fields hold values of their C types and the fraction is below `FRACT_MAX`. */
  predicate Normal(c: Clock) {
    0 <= c.millis < ULONG && 0 <= c.fract < FRACT_MAX && 0 <= c.overflows < ULONG
  }

  /**
    One run of the overflow handler: add `MillisInc` and `FractInc`, and carry a
    millisecond when the fraction reaches `FRACT_MAX`. The overflow count goes up by
    one; from a normal clock the result is normal and the milliseconds grow by
    `MillisInc` or `MillisInc + 1`.
   */
  function OverflowStep(period: nat, c: Clock): (r: Clock)
    ensures r.overflows == (c.overflows + 1) % ULONG
    ensures Normal(c) ==> Normal(r)
    ensures Normal(c) ==>
              r.millis == (c.millis + MillisInc(period)) % ULONG || r.millis == (c.millis + MillisInc(period) + 1) % ULONG
  {
    var m := (c.millis + MillisInc(period)) % ULONG;
    var f := (c.fract + FractInc(period)) % UCHAR;
    if f >= FRACT_MAX then
      ModAddOne(c.millis + MillisInc(period));
      Clock((m + 1) % ULONG, f - FRACT_MAX, (c.overflows + 1) % ULONG)
    else
      Clock(m, f, (c.overflows + 1) % ULONG)
  }

  /**
    From a normal clock one overflow advances the clock by exactly one `Quantum`: the
    new milliseconds and fraction are the old ones plus `Quantum` microseconds, split
    at whole milliseconds.
   */
  lemma OverflowAdvancesByQuantum(period: nat, c: Clock)
    requires Normal(c)
    ensures OverflowStep(period, c).millis == (c.millis + (8 * c.fract + Quantum(period)) / 1000) % ULONG
    ensures 8 * OverflowStep(period, c).fract == (8 * c.fract + Quantum(period)) % 1000
  {
    var mi, fi, q := MillisInc(period), FractInc(period), Quantum(period);
    assert q == 1000 * mi + 8 * fi;
    CarrySplit(c.fract, mi, fi);
    ModAddOne(c.millis + mi);
    var r := OverflowStep(period, c);
    if c.fract + fi >= FRACT_MAX {
      assert r == Clock(((c.millis + mi) % ULONG + 1) % ULONG, c.fract + fi - FRACT_MAX, (c.overflows + 1) % ULONG);
    } else {
      assert r == Clock((c.millis + mi) % ULONG, c.fract + fi, (c.overflows + 1) % ULONG);
    }
  }

  /**
    Adding `fi` eighths of a millisecond to a fraction `f` below `FRACT_MAX` fits the
    `unsigned char`, and carries exactly when the sum reaches `FRACT_MAX`.
   */
  lemma CarrySplit(f: int, mi: int, fi: int)
    requires 0 <= f < FRACT_MAX && 0 <= fi < FRACT_MAX
    ensures (f + fi) % UCHAR == f + fi
    ensures var carry := if f + fi >= FRACT_MAX then 1 else 0;
            (8 * f + 1000 * mi + 8 * fi) / 1000 == mi + carry &&
            (8 * f + 1000 * mi + 8 * fi) % 1000 == 8 * (f + fi - FRACT_MAX * carry)
  {
    var carry := if f + fi >= FRACT_MAX then 1 else 0;
    DivUnique(8 * f + 1000 * mi + 8 * fi, mi + carry, 8 * (f + fi - FRACT_MAX * carry));
  }

  /** Division by 1000 is determined by a quotient and a remainder below 1000. */
  lemma DivUnique(x: int, a: int, b: int)
    requires x == 1000 * a + b && 0 <= b < 1000
    ensures x / 1000 == a && x % 1000 == b
  {
  }

  /** Adding one after reducing modulo 2^32 is the same as adding one before. */
  lemma ModAddOne(x: int)
    ensures (x % ULONG + 1) % ULONG == (x + 1) % ULONG
  {
  }

  /** From a normal clock the intermediate fraction fits its `unsigned char`. */
  lemma FractionFits(period: nat, c: Clock)
    requires Normal(c)
    ensures c.fract + FractInc(period) < UCHAR
  {
  }

  /** The clock after `n` overflows from the start. */
  function Elapsed(period: nat, n: nat): Clock
  {
    if n == 0 then START else OverflowStep(period, Elapsed(period, n - 1))
  }

  /** The microseconds `n` overflows add to the clock: `n` quanta. */
  function Total(period: nat, n: nat): (t: nat)
    ensures t == n * Quantum(period)
  {
    if n == 0 then 0 else Total(period, n - 1) + Quantum(period)
  }

  /**
    After `n` overflows the clock shows `n` times `Quantum` microseconds: the
    milliseconds (modulo 2^32) and the remainder in 8 us units, and it counted `n`
    overflows (modulo 2^32). With `Quantum`'s bounds, the clock never runs ahead of the
    timer and falls behind by less than 8 us per overflow.
   */
  lemma {:induction false} ElapsedTime(period: nat, n: nat)
    ensures Normal(Elapsed(period, n))
    ensures Elapsed(period, n).millis == (Total(period, n) / 1000) % ULONG
    ensures 8 * Elapsed(period, n).fract == Total(period, n) % 1000
    ensures Elapsed(period, n).overflows == n % ULONG
  {
    if n > 0 {
      var prev := Elapsed(period, n - 1);
      ElapsedTime(period, n - 1);
      OverflowAdvancesByQuantum(period, prev);
      AddQuantum(prev.millis, prev.fract, Total(period, n - 1), Quantum(period));
      ModAddOne(n - 1);
    }
  }

  /**
    A clock that shows `x` microseconds and advances by `q` microseconds shows `x + q`.
   */
  lemma AddQuantum(m: int, f: int, x: nat, q: nat)
    requires m == (x / 1000) % ULONG && 8 * f == x % 1000
    ensures (m + (8 * f + q) / 1000) % ULONG == ((x + q) / 1000) % ULONG
    ensures (8 * f + q) % 1000 == (x + q) % 1000
  {
    SplitAtMillis(x, q);
    ModAdd(x / 1000, (x % 1000 + q) / 1000);
  }

  /** Adding `q` microseconds to `x`, split into whole milliseconds and the rest. */
  lemma SplitAtMillis(x: int, q: int)
    requires x >= 0 && q >= 0
    ensures (x + q) / 1000 == x / 1000 + (x % 1000 + q) / 1000
    ensures (x + q) % 1000 == (x % 1000 + q) % 1000
  {
    var a, b := x / 1000, x % 1000;
    assert x + q == 1000 * a + (b + q);
  }

  /** Reducing modulo 2^32 before an addition does not change the result. */
  lemma ModAdd(a: int, b: int)
    ensures (a % ULONG + b) % ULONG == (a + b) % ULONG
  {
    assert a == ULONG * (a / ULONG) + a % ULONG;
  }

  /** The timer's globals, with the overflow handler that advances them. */
  class Timer0Clock {
    /** `MICROSECONDS_PER_TIMER0_OVERFLOW` for the board's `F_CPU`. */
    const period: nat
    var zeroMillis: int
    var zeroFract: int
    var zeroOverflowCount: int

    ghost predicate Valid()
      reads this
    {
      Normal(State())
    }

    function State(): Clock
      reads this
    {
      Clock(zeroMillis, zeroFract, zeroOverflowCount)
    }

    constructor (fCpu: int)
      requires ValidClock(fCpu)
      ensures Valid() && period == MicrosPerOverflow(fCpu) && State() == START
    {
      period := MicrosPerOverflow(fCpu);
      zeroMillis, zeroFract, zeroOverflowCount := 0, 0, 0;
    }

    /** The body of `ISR(TIMER0_OVF_vect)` (main.c:163-177). */
    method OnOverflow()
      requires Valid()
      modifies this
      ensures Valid()
      ensures State() == OverflowStep(period, old(State()))
    {
      var m := zeroMillis;
      var f := zeroFract;

      m := (m + MillisInc(period)) % ULONG;
      f := (f + FractInc(period)) % UCHAR;
      if f >= FRACT_MAX {
        f := f - FRACT_MAX;
        m := (m + 1) % ULONG;
      }

      zeroFract := f;
      zeroMillis := m;
      zeroOverflowCount := (zeroOverflowCount + 1) % ULONG;
    }
  }
}
