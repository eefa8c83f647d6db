/** settimeofday and gettimeofday over the 32-bit tick counter (alt_settod.c, alt_gettod.c). */
module TimeOfDay {
  import opened CInt

  datatype TimeVal = TimeVal(sec: int, usec: int) {
    function Micros(): int {
      sec * 1_000_000 + usec
    }
  }

  datatype Zone = Zone(minutesWest: int, dstTime: int)

  datatype Reading = Read(time: TimeVal, zone: Zone) | NotSupported

  datatype Status = Success | NoSystemClock

  /** Microseconds in a tick, rounded down. */
  function TickMicros(rate: Word): nat
    requires rate > 0
  {
    1_000_000 / rate
  }

  /** A time with its microseconds brought into a second; a time before zero becomes zero if it is its
      microseconds that are negative. */
  function Normal(t: TimeVal): TimeVal {
    if t.usec < 0 && t.Micros() < 0 then TimeVal(0, 0)
    else FromMicros(t.Micros())
  }

  function FromMicros(m: int): TimeVal {
    TimeVal(m / 1_000_000, m % 1_000_000)
  }

  /** Ticks as seconds and microseconds, in 64-bit arithmetic and, as setting the clock does it, with a
      32-bit product. */
  function Elapsed(n: Word, rate: Word): TimeVal
    requires rate > 0
  {
    TimeVal(n / rate, n * TickMicros(rate) % 1_000_000)
  }

  function Elapsed32(n: Word, rate: Word): TimeVal
    requires rate > 0
  {
    TimeVal(n / rate, Low(n * TickMicros(rate)) % 1_000_000)
  }

  function Plus(t: TimeVal, e: TimeVal): TimeVal {
    TimeVal(Signed(t.sec + e.sec), Signed(t.usec + e.usec))
  }

  function Minus(t: TimeVal, e: TimeVal): TimeVal {
    TimeVal(Signed(t.sec - e.sec), Signed(t.usec - e.usec))
  }

  /** The reset time kept by setting the clock to t at tick n. */
  function ResetFor(t: TimeVal, n: Word, rate: Word): TimeVal
    requires rate > 0
  {
    Minus(t, Elapsed32(n, rate))
  }

  /** The time read at tick n. */
  function TimeAt(reset: TimeVal, n: Word, rate: Word): TimeVal
    requires rate > 0
  {
    Normal(Plus(reset, Elapsed(n, rate)))
  }

  class SystemClock {
    var nticks: Word
    var tickRate: Word
    var resetTime: TimeVal
    var zone: Zone

    constructor (tickRate: Word)
      ensures nticks == 0 && this.tickRate == tickRate && resetTime == TimeVal(0, 0) && zone == Zone(0, 0)
    {
      nticks, this.tickRate, resetTime, zone := 0, tickRate, TimeVal(0, 0), Zone(0, 0);
    }

    /** ALT_SETTIMEOFDAY. */
    method SetTime(t: TimeVal, tz: Zone) returns (status: Status)
      modifies this`resetTime, this`zone
      ensures status == if tickRate > 0 then Success else NoSystemClock
      ensures tickRate > 0 ==> resetTime == ResetFor(t, nticks, tickRate) && zone == tz
      ensures tickRate == 0 ==> resetTime == old(resetTime) && zone == old(zone)
    {
      if tickRate > 0 {
        resetTime := TimeVal(Signed(t.sec - nticks / tickRate),
                             Signed(t.usec - Low(nticks * (1_000_000 / tickRate)) % 1_000_000));
        zone := tz;
        return Success;
      }
      status := NoSystemClock;
    }

    /** ALT_GETTIMEOFDAY. */
    method GetTime() returns (r: Reading)
      ensures r == if tickRate > 0 then Read(TimeAt(resetTime, nticks, tickRate), zone) else NotSupported
    {
      if tickRate > 0 {
        var sec := Signed(resetTime.sec + nticks / tickRate);
        var usec := Signed(resetTime.usec + nticks * (1_000_000 / tickRate) % 1_000_000);
        sec, usec := RaiseMicros(sec, usec);
        sec, usec := LowerMicros(sec, usec);
        return Read(TimeVal(sec, usec), zone);
      }
      r := NotSupported;
    }

    /** The loop that borrows seconds while the microseconds are negative. */
    method RaiseMicros(sec0: int, usec0: int) returns (sec: int, usec: int)
      ensures usec >= 0 && Normal(TimeVal(sec, usec)) == Normal(TimeVal(sec0, usec0))
    {
      sec, usec := sec0, usec0;
      while usec < 0
        invariant Normal(TimeVal(sec, usec)) == Normal(TimeVal(sec0, usec0))
        decreases 0 - usec
      {
        NormalBorrows(sec, usec);
        if sec <= 0 {
          sec, usec := 0, 0;
        } else {
          sec, usec := sec - 1, usec + 1_000_000;
        }
      }
    }

    /** The loop that carries whole seconds out of the microseconds. */
    method LowerMicros(sec0: int, usec0: int) returns (sec: int, usec: int)
      requires usec0 >= 0
      ensures TimeVal(sec, usec) == Normal(TimeVal(sec0, usec0))
    {
      sec, usec := sec0, usec0;
      while usec >= 1_000_000
        invariant usec >= 0 && sec * 1_000_000 + usec == sec0 * 1_000_000 + usec0
        decreases usec
      {
        sec, usec := sec + 1, usec - 1_000_000;
      }
      DivModIs(sec0 * 1_000_000 + usec0, 1_000_000, sec, usec);
    }

    /** Setting the clock and reading it at once gives the time set, in normal form, exactly when the
        product of ticks and microseconds kept its low 32 bits' worth of microseconds. */
    method SetAndGet(t: TimeVal, tz: Zone) returns (r: Reading)
      requires 0 < tickRate && 1_000_000 % tickRate == 0
      requires 0 <= t.sec < 0x7FFF_FFFF && 0 <= t.usec < 1_000_000 && t != TimeVal(0, 0)
      modifies this`resetTime, this`zone
      ensures r == Read(t, tz) <==> nticks * TickMicros(tickRate) / 0x1_0000_0000 % 15625 == 0
    {
      var status := SetTime(t, tz);
      r := GetTime();
      ImmediateReading(t, nticks, tickRate);
    }
  }

  // ---------- what a reading shows ----------

  /** What setting the clock loses to the 32-bit product of x, in microseconds. */
  function Slip(x: int): (e: int)
    ensures -1_000_000 < e < 1_000_000
  {
    x % 1_000_000 - Low(x) % 1_000_000
  }

  /** Ticks in seconds and microseconds, when the rate divides a million. */
  lemma TicksInMicros(n: Word, rate: Word)
    requires rate > 0 && 1_000_000 % rate == 0
    ensures Elapsed(n, rate).Micros() == n * TickMicros(rate)
  {
    var u, zero := DivMod(1_000_000, rate);
    var a, b := DivMod(n, rate);
    Regroup(n, a, b, rate, u);
    StepsOrder(0, u, rate);
    StepsOrder(b, rate, u);
    DivModIs(n * u, 1_000_000, a, b * u);
  }

  lemma Regroup(n: nat, a: nat, b: nat, rate: nat, u: nat)
    requires n == a * rate + b && u * rate == 1_000_000
    ensures n * u == a * 1_000_000 + b * u && rate * u == 1_000_000
  {
    assert n * u == a * (rate * u) + b * u;
  }

  /** Taking away and adding back cancels, however far the difference wraps. */
  lemma MinusPlus(t: TimeVal, lost: TimeVal, gained: TimeVal)
    requires -0x8000_0000 <= t.sec - lost.sec + gained.sec < 0x8000_0000
    requires -0x8000_0000 <= t.usec - lost.usec + gained.usec < 0x8000_0000
    ensures Plus(Minus(t, lost), gained) == TimeVal(t.sec - lost.sec + gained.sec, t.usec - lost.usec + gained.usec)
  {
  }

  lemma NormalMicros(raw: TimeVal)
    ensures Normal(raw).Micros() == if raw.usec < 0 && raw.Micros() < 0 then 0 else raw.Micros()
    ensures 0 <= Normal(raw).usec < 1_000_000
    ensures raw.sec >= 0 ==> Normal(raw).Micros() == Max(0, raw.Micros()) && Normal(raw).sec >= 0
    ensures raw.sec < 0x7FFF_FFFF && raw.usec < 2_000_000 ==> Normal(raw).sec < 0x8000_0000
  {
    var m, t := raw.Micros(), Normal(raw);
    FromMicrosIs(m);
    if raw.usec < 0 && m < 0 {
      assert t == TimeVal(0, 0);
    } else {
      assert t == FromMicros(m) && t.Micros() == m;
      NotNegative(raw.sec, raw.usec, m);
    }
  }

  lemma NotNegative(sec: int, usec: int, m: int)
    requires m == sec * 1_000_000 + usec
    ensures sec >= 0 && usec >= 0 ==> m >= 0
    ensures sec < 0x7FFF_FFFF && usec < 2_000_000 ==> m < 0x8000_0000 * 1_000_000
  {
  }

  lemma FromMicrosIs(m: int)
    ensures FromMicros(m).Micros() == m && 0 <= FromMicros(m).usec < 1_000_000
    ensures m >= 0 ==> FromMicros(m).sec >= 0
    ensures m < 0x8000_0000 * 1_000_000 ==> FromMicros(m).sec < 0x8000_0000
  {
  }

  lemma MicrosBorrow(sec: int, usec: int)
    ensures TimeVal(sec, usec).Micros() == TimeVal(sec - 1, usec + 1_000_000).Micros()
    ensures usec < 0 && sec <= 0 ==> TimeVal(sec, usec).Micros() < 0
    ensures sec > 0 && usec + 1_000_000 >= 0 ==> TimeVal(sec, usec).Micros() >= 0
  {
  }

  lemma NormalZero()
    ensures Normal(TimeVal(0, 0)) == TimeVal(0, 0)
  {
    DivModIs(0, 1_000_000, 0, 0);
  }

  lemma NormalBorrows(sec: int, usec: int)
    requires usec < 0
    ensures sec > 0 ==> Normal(TimeVal(sec, usec)) == Normal(TimeVal(sec - 1, usec + 1_000_000))
    ensures sec <= 0 ==> Normal(TimeVal(sec, usec)) == TimeVal(0, 0) == Normal(TimeVal(0, 0))
  {
    MicrosBorrow(sec, usec);
    if sec > 0 {
      SameNormal(TimeVal(sec, usec), TimeVal(sec - 1, usec + 1_000_000));
    } else {
      NormalZero();
    }
  }

  lemma SameNormal(t: TimeVal, t': TimeVal)
    requires t.Micros() == t'.Micros()
    requires t.usec < 0 && t.Micros() < 0 <==> t'.usec < 0 && t'.Micros() < 0
    ensures Normal(t) == Normal(t')
  {
  }

  /** The clock set to t at tick n0 shows at tick n, whatever the rate, the time set plus what the ticks since
      have added, plus the slip. */
  lemma SetThenGetAtAnyRate(t: TimeVal, n0: Word, n: Word, rate: Word)
    requires 0 < rate && n0 <= n
    requires 0 <= t.sec && 0 <= t.usec < 1_000_000 && t.sec + n / rate - n0 / rate + 1 < 0x8000_0000
    ensures var r := TimeAt(ResetFor(t, n0, rate), n, rate);
            && r.Micros() == Max(0, t.Micros() + Elapsed(n, rate).Micros() - Elapsed(n0, rate).Micros()
                                    + Slip(n0 * TickMicros(rate)))
            && 0 <= r.usec < 1_000_000 && 0 <= r.sec < 0x8000_0000
  {
    QuotientsOrder(n0, n, rate);
    Shown(t, Elapsed32(n0, rate), Elapsed(n, rate));
    Slipped(n0, rate);
  }

  lemma Shown(t: TimeVal, lost: TimeVal, gained: TimeVal)
    requires 0 <= t.sec && 0 <= t.usec < 1_000_000 && 0 <= lost.usec < 1_000_000 && 0 <= gained.usec < 1_000_000
    requires lost.sec <= gained.sec && t.sec - lost.sec + gained.sec + 1 < 0x8000_0000
    ensures var r := Normal(Plus(Minus(t, lost), gained));
            && r.Micros() == Max(0, t.Micros() + gained.Micros() - lost.Micros())
            && 0 <= r.usec < 1_000_000 && 0 <= r.sec < 0x8000_0000
  {
    var raw := TimeVal(t.sec - lost.sec + gained.sec, t.usec - lost.usec + gained.usec);
    MinusPlus(t, lost, gained);
    Balance(t, lost, gained, raw);
    ShownRaw(raw);
  }

  lemma Balance(t: TimeVal, lost: TimeVal, gained: TimeVal, raw: TimeVal)
    requires raw == TimeVal(t.sec - lost.sec + gained.sec, t.usec - lost.usec + gained.usec)
    ensures raw.Micros() == t.Micros() + gained.Micros() - lost.Micros()
  {
  }

  lemma ShownRaw(raw: TimeVal)
    requires 0 <= raw.sec < 0x7FFF_FFFF && raw.usec < 2_000_000
    ensures Normal(raw).Micros() == Max(0, raw.Micros())
    ensures 0 <= Normal(raw).usec < 1_000_000 && 0 <= Normal(raw).sec < 0x8000_0000
  {
    NormalMicros(raw);
  }

  /** The clock set to t at tick n0 shows at tick n the time set, plus the ticks since, plus the slip;
      only a slip can take it below zero, where it is clamped. */
  lemma SetThenGet(t: TimeVal, n0: Word, n: Word, rate: Word)
    requires 0 < rate && 1_000_000 % rate == 0 && n0 <= n
    requires 0 <= t.sec && 0 <= t.usec < 1_000_000 && t.sec + n / rate - n0 / rate + 1 < 0x8000_0000
    ensures var u := TickMicros(rate);
            var r := TimeAt(ResetFor(t, n0, rate), n, rate);
            && r.Micros() == Max(0, t.Micros() + (n - n0) * u + Slip(n0 * u))
            && 0 <= r.usec < 1_000_000 && 0 <= r.sec < 0x8000_0000
  {
    SetThenGetAtAnyRate(t, n0, n, rate);
    TicksInMicros(n0, rate);
    TicksInMicros(n, rate);
    Since(n0, n, TickMicros(rate));
  }

  lemma Slipped(n: Word, rate: Word)
    requires 0 < rate
    ensures Elapsed32(n, rate).Micros() == Elapsed(n, rate).Micros() - Slip(n * TickMicros(rate))
  {
  }

  lemma Since(n0: int, n: int, u: int)
    ensures (n - n0) * u == n * u - n0 * u
  {
  }

  lemma QuotientsOrder(m: nat, n: nat, rate: nat)
    requires rate > 0 && m <= n
    ensures m / rate <= n / rate
  {
    var q, r := DivMod(m, rate);
    var q', r' := DivMod(n, rate);
    StepsOrder(q', q, rate);
    assert q' < q ==> (q' + 1) * rate <= q * rate;
  }

  /** 2^32 and a million share only a factor of 2^6. */
  lemma SlipZeroIff(x: int)
    ensures Slip(x) == 0 <==> x / 0x1_0000_0000 % 15625 == 0
  {
    var h := x / 0x1_0000_0000;
    assert x == h * 0x1_0000_0000 + Low(x);
    WrapsOfMillion(h);
    MillionShift(x, Low(x));
  }

  lemma MillionShift(x: int, y: int)
    ensures x % 1_000_000 == y % 1_000_000 <==> (x - y) % 1_000_000 == 0
  {
  }

  lemma WrapsOfMillion(h: int)
    ensures h * 0x1_0000_0000 % 1_000_000 == 0 <==> h % 15625 == 0
  {
    if h % 15625 == 0 {
      DivModIs(h * 0x1_0000_0000, 1_000_000, h / 15625 * 0x400_0000, 0);
    } else if h * 0x1_0000_0000 % 1_000_000 == 0 {
      var m := h * 0x1_0000_0000 / 1_000_000;
      DivModIs(h, 15625, 12659 * m - 54369991 * h, 0);
    }
  }

  /** A clock set correctly shows every later time exactly; one set when the product had overflowed by
      anything but a multiple of 15625 wraps never does, as long as it is past zero. */
  lemma ReadingExactIff(t: TimeVal, n0: Word, n: Word, rate: Word)
    requires 0 < rate && 1_000_000 % rate == 0 && n0 <= n
    requires 0 <= t.sec && 0 <= t.usec < 1_000_000 && t.sec + n / rate - n0 / rate + 1 < 0x8000_0000
    requires t != TimeVal(0, 0) || n0 < n
    ensures var u := TickMicros(rate);
            TimeAt(ResetFor(t, n0, rate), n, rate).Micros() == t.Micros() + (n - n0) * u
            <==> n0 * u / 0x1_0000_0000 % 15625 == 0
  {
    SetThenGet(t, n0, n, rate);
    PastZero(t, n - n0, rate);
    OnlySlip(t.Micros() + (n - n0) * TickMicros(rate), n0 * TickMicros(rate));
  }

  lemma PastZero(t: TimeVal, k: nat, rate: Word)
    requires 0 < rate && 1_000_000 % rate == 0 && 0 <= t.sec && 0 <= t.usec
    requires t != TimeVal(0, 0) || k > 0
    ensures t.Micros() + k * TickMicros(rate) > 0
  {
    var u, z := DivMod(1_000_000, rate);
    assert u > 0;
    if k > 0 {
      StepsOrder(0, k, u);
    }
    assert t != TimeVal(0, 0) ==> t.Micros() > 0;
  }

  lemma OnlySlip(due: int, x: int)
    requires due > 0
    ensures Max(0, due + Slip(x)) == due <==> x / 0x1_0000_0000 % 15625 == 0
  {
    SlipZeroIff(x);
  }

  /** A time in normal form is determined by its microseconds. */
  lemma SameMicros(t: TimeVal, t': TimeVal)
    requires 0 <= t.usec < 1_000_000 && 0 <= t'.usec < 1_000_000
    ensures t.Micros() == t'.Micros() <==> t == t'
  {
  }

  lemma ImmediateReading(t: TimeVal, n: Word, rate: Word)
    requires 0 < rate && 1_000_000 % rate == 0
    requires 0 <= t.sec < 0x7FFF_FFFF && 0 <= t.usec < 1_000_000 && t != TimeVal(0, 0)
    ensures TimeAt(ResetFor(t, n, rate), n, rate) == t <==> n * TickMicros(rate) / 0x1_0000_0000 % 15625 == 0
  {
    ReadingExactIff(t, n, n, rate);
    SetThenGet(t, n, n, rate);
    SameMicros(TimeAt(ResetFor(t, n, rate), n, rate), t);
  }

  /** At 100 ticks a second, a clock set after 72 minutes of running reads 33 milliseconds early. */
  lemma SlipsAfterAnHour()
    ensures ResetFor(TimeVal(1_000, 0), 432_000, 100) == TimeVal(-3_320, -32_704)
    ensures TimeAt(TimeVal(-3_320, -32_704), 432_000, 100) == TimeVal(999, 967_296)
  {
    DivModIs(1_000_000, 100, 10_000, 0);
    DivModIs(432_000, 100, 4_320, 0);
    assert Low(4_320_000_000) % 1_000_000 == 32_704;
    assert 4_320_000_000 % 1_000_000 == 0;
    DivModIs(TimeVal(1_000, -32_704).Micros(), 1_000_000, 999, 967_296);
  }

  /** Ticks turn into time without error at every rate that divides a million and at no other. */
  lemma RateExactIff(rate: Word)
    requires rate > 0
    ensures (forall n: Word :: Elapsed(n, rate).Micros() * rate == n * 1_000_000) <==> 1_000_000 % rate == 0
  {
    if 1_000_000 % rate == 0 {
      forall n: Word
        ensures Elapsed(n, rate).Micros() * rate == n * 1_000_000
      {
        DividingRate(n, rate);
      }
    } else {
      OneTick(rate);
      assert Elapsed(1, rate).Micros() * rate != 1 * 1_000_000;
    }
  }

  /** A tick is the most whole microseconds that fit into it rate times a second. */
  lemma TickLength(rate: Word)
    requires rate > 0
    ensures TickMicros(rate) * rate <= 1_000_000 < (TickMicros(rate) + 1) * rate
  {
    var u, rest := DivMod(1_000_000, rate);
    assert (u + 1) * rate == u * rate + rate;
  }

  /** From no time at all, each tick carries the microseconds on by its length, round a second, and the
      seconds are those whose ticks have all passed. */
  lemma TickAdvances(n: Word, rate: Word)
    requires 0 < rate && n + 1 < 0x1_0000_0000
    ensures Elapsed(0, rate) == TimeVal(0, 0)
    ensures 0 <= Elapsed(n, rate).usec < 1_000_000
    ensures Elapsed(n + 1, rate).usec == (Elapsed(n, rate).usec + TickMicros(rate)) % 1_000_000
    ensures Elapsed(n, rate).sec * rate <= n < (Elapsed(n, rate).sec + 1) * rate
  {
    var q, r := DivMod(n, rate);
    assert (q + 1) * rate == q * rate + rate;
    DivModIs(0, rate, 0, 0);
    var u := TickMicros(rate);
    assert (n + 1) * u == n * u + u;
    AddInRing(n * u, u);
  }

  lemma AddInRing(x: nat, u: nat)
    ensures (x % 1_000_000 + u) % 1_000_000 == (x + u) % 1_000_000
  {
  }

  /** After k whole seconds the clock shows them exactly when k times what the tick length leaves of a second
      is a whole number of seconds; otherwise it is ahead, by up to a second. */
  lemma WholeSeconds(k: nat, rate: Word)
    requires 0 < rate && k * rate < 0x1_0000_0000
    ensures Elapsed(k * rate, rate) == TimeVal(k, -(k * (1_000_000 % rate)) % 1_000_000)
    ensures Elapsed(k * rate, rate) == TimeVal(k, 0) <==> k * (1_000_000 % rate) % 1_000_000 == 0
  {
    var u, rest := DivMod(1_000_000, rate);
    DivModIs(k * rate, rate, k, 0);
    assert k * rate * u == k * (u * rate) == k * (1_000_000 - rest) == k * 1_000_000 - k * rest;
    LessSeconds(k, k * rest);
  }

  lemma LessSeconds(k: int, x: int)
    ensures (k * 1_000_000 - x) % 1_000_000 == -x % 1_000_000
    ensures -x % 1_000_000 == 0 <==> x % 1_000_000 == 0
  {
  }

  lemma DividingRate(n: Word, rate: Word)
    requires rate > 0 && 1_000_000 % rate == 0
    ensures Elapsed(n, rate).Micros() * rate == n * 1_000_000
  {
    TicksInMicros(n, rate);
    var u, rest := DivMod(1_000_000, rate);
    assert n * u * rate == n * (u * rate);
  }

  lemma OneTick(rate: Word)
    requires rate > 0 && 1_000_000 % rate != 0
    ensures Elapsed(1, rate).Micros() * rate < 1_000_000
  {
    var u, rest := DivMod(1_000_000, rate);
    assert rate > 1;
    DivModIs(1, rate, 0, 1);
    StepsOrder(u, 1_000_000, rate);
    DivModIs(u, 1_000_000, 0, u);
  }
}
