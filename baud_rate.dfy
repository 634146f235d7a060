/** The FT231X baud-rate encoder (SetBaudRate). The chip divides a 3 MHz
    clock by a divisor with three fractional bits, so a rate b needs the
    divisor 24,000,000 / b in eighths; two special divisor values select
    3 Mbaud and 2 Mbaud. C#'s `>>`, `&` and `|` are applied here to
    non-negative values and disjoint bit fields, where they equal `/`, `%`
    and `+`; no intermediate value exceeds 48,000,001, so 32-bit `int`
    arithmetic never overflows. */
module BaudRate {
  import opened Errors

  const MaxBaudRate := 3500000
  /** Lowest rate mapped to the 3 Mbaud special divisor. */
  const Band3M := 2500000
  /** Lowest rate mapped to the 2 Mbaud special divisor. */
  const Band2M := 1750000
  /** 24,000,000 << 1: twice the 3 MHz clock in eighths of a divisor step. */
  const TwiceClock := 48000000
  /** The divisor's integer part has 14 bits. */
  const MaxDivisor := 0x3FFF

  /** Integer part and eighths of the divisor, and the rate they produce. */
  datatype Approximation = Approximation(divisor: int, subdivisor: int, effective: int)

  /** The payload of the set-baud-rate request: the 16-bit value, the index
      and, for the caller, the rate the chip will run at. */
  datatype BaudSetting = BaudSetting(value: int, index: int, effective: int)

  /** The 16-bit value and the index of the set-baud-rate request. */
  datatype DivisorWord = DivisorWord(value: int, index: int)

  function Abs(x: int): int { if x < 0 then -x else x }

  /** `(n + 1) >> 1` applied to `TwiceClock / m`: TwiceClock / (2 m), rounded
      half up. It is both the rounded divisor (m = b) and the rounded
      effective rate (m = divisor in eighths). */
  function RoundedQuotient(m: int): int
    requires m > 0
  {
    (TwiceClock / m + 1) / 2
  }

  /** |1 - effective / b| < 0.031, cross-multiplied by 1000 b. */
  predicate WithinTolerance(effective: int, b: int)
  {
    1000 * Abs(effective - b) < 31 * b
  }

  /** The divisor and effective rate for rate `b`, before the tolerance
      check: rates above the maximum and rates needing a divisor wider than
      14 bits are rejected. */
  function ApproximateBaudRate(b: int): (r: Result<Approximation>)
    requires b > 0
    ensures b > MaxBaudRate <==> r == Err(UnsupportedOperationException(BaudRateTooHigh))
    ensures r.Err? ==> r.error in {UnsupportedOperationException(BaudRateTooHigh), UnsupportedOperationException(BaudRateTooLow)}
    ensures Band3M <= b <= MaxBaudRate ==> r == Ok(Approximation(0, 0, 3000000))
    ensures Band2M <= b < Band3M ==> r == Ok(Approximation(1, 0, 2000000))
    ensures r.Ok? ==> 0 <= r.value.divisor <= MaxDivisor && 0 <= r.value.subdivisor < 8 && r.value.effective > 0
  {
    if b > MaxBaudRate then Err(UnsupportedOperationException(BaudRateTooHigh))
    else if b >= Band3M then Ok(Approximation(0, 0, 3000000))
    else if b >= Band2M then Ok(Approximation(1, 0, 2000000))
    else
      QuotientBounds(b);
      var d := RoundedQuotient(b);
      var subdivisor := d % 8;
      var divisor := d / 8;
      if divisor > MaxDivisor then Err(UnsupportedOperationException(BaudRateTooLow))
      else
        var eighths := divisor * 8 + subdivisor;
        Ok(Approximation(divisor, subdivisor, RoundedQuotient(eighths)))
  }

  /** The chip's reading of the three sub-integer bits (the index bit, then
      bits 15 and 14 of the value) as eighths of a divisor step: 000 is 0,
      001 is 0.5, 010 is 0.25, 011 is 0.125, 100 is 0.375, 101 is 0.625,
      110 is 0.75 and 111 is 0.875. */
  function ChipEighths(high: int, index: int): int
  {
    var code := index * 4 + high;
    if code == 0 then 0
    else if code == 1 then 4
    else if code == 2 then 2
    else if code == 3 then 1
    else if code == 4 then 3
    else if code == 5 then 5
    else if code == 6 then 6
    else 7
  }

  /** The switch on the subdivisor: its encoding goes to bits 14 and 15 of
      the value and to the index. */
  function PackSubdivisor(divisor: int, subdivisor: int): (w: DivisorWord)
    requires 0 <= divisor <= MaxDivisor && 0 <= subdivisor < 8
    ensures 0 <= w.value < 0x10000 && w.value % 0x4000 == divisor
    ensures w.index == 0 || w.index == 1
    ensures ChipEighths(w.value / 0x4000, w.index) == subdivisor
  {
    if subdivisor == 0 then DivisorWord(divisor, 0)
    else if subdivisor == 4 then DivisorWord(divisor + 0x4000, 0)
    else if subdivisor == 2 then DivisorWord(divisor + 0x8000, 0)
    else if subdivisor == 1 then DivisorWord(divisor + 0xC000, 0)
    else if subdivisor == 3 then DivisorWord(divisor, 1)
    else if subdivisor == 5 then DivisorWord(divisor + 0x4000, 1)
    else if subdivisor == 6 then DivisorWord(divisor + 0x8000, 1)
    else DivisorWord(divisor + 0xC000, 1)
  }

  /** SetBaudRate up to the control transfer: the request payload for rate
      `b`, or the UnsupportedOperationException it raises. */
  function EncodeBaudRate(b: int): (r: Result<BaudSetting>)
    requires b > 0
    ensures b > MaxBaudRate ==> r == Err(UnsupportedOperationException(BaudRateTooHigh))
    ensures Band3M <= b <= MaxBaudRate ==> (r.Ok? <==> 2909797 <= b <= 3095975)
    ensures Band2M <= b < Band3M ==> (r.Ok? <==> 1939865 <= b <= 2063983)
    ensures r.Ok? ==> WithinTolerance(r.value.effective, b)
    ensures r.Ok? ==> 0 <= r.value.value < 0x10000 && (r.value.index == 0 || r.value.index == 1)
    ensures r.Err? ==> r.error.UnsupportedOperationException?
    ensures ApproximateBaudRate(b).Err? ==> r == Err(ApproximateBaudRate(b).error)
    ensures r.Ok? <==> ApproximateBaudRate(b).Ok? && WithinTolerance(ApproximateBaudRate(b).value.effective, b)
    ensures r == Err(UnsupportedOperationException(BaudRateDeviation))
      <==> ApproximateBaudRate(b).Ok? && !WithinTolerance(ApproximateBaudRate(b).value.effective, b)
    ensures Band3M <= b <= MaxBaudRate && r.Ok? ==> r.value == BaudSetting(0, 0, 3000000)
    ensures Band2M <= b < Band3M && r.Ok? ==> r.value == BaudSetting(1, 0, 2000000)
    ensures 184 <= b < Band2M && r.Ok? ==>
      var d := 8 * (r.value.value % 0x4000) + ChipEighths(r.value.value / 0x4000, r.value.index);
      && d > 0
      && -b < 2 * d * b - TwiceClock <= b
      && -d < 2 * r.value.effective * d - TwiceClock <= d
  {
    match ApproximateBaudRate(b)
    case Err(e) => Err(e)
    case Ok(a) =>
      if !WithinTolerance(a.effective, b) then Err(UnsupportedOperationException(BaudRateDeviation))
      else
        var w := PackSubdivisor(a.divisor, a.subdivisor);
        if 184 <= b < Band2M then
          // The chip reads back the divisor in eighths that the rate rounds to.
          GeneralBranchNearest(b);
          Ok(BaudSetting(w.value, w.index, a.effective))
        else
          Ok(BaudSetting(w.value, w.index, a.effective))
  }

  // ---------------------------------------------------------------------
  // Arithmetic facts about the general branch.

  /** m a <= m b when a <= b and m is not negative. */
  lemma MulMonotone(a: int, b: int, m: int)
    requires a <= b && m >= 0
    ensures a * m <= b * m
  {
    assert b * m - a * m == (b - a) * m;
  }

  /** a < b when a m < b m and m is positive. */
  lemma MulCancel(a: int, b: int, m: int)
    requires m > 0 && a * m < b * m
    ensures a < b
  {
    assert (b - a) * m == b * m - a * m;
  }

  /** Bounds on a quotient from bounds on the dividend. */
  lemma DivBounds(n: int, m: int, k: int)
    requires n >= 0 && m > 0
    ensures k * m <= n ==> k <= n / m
    ensures n < k * m ==> n / m < k
  {
    var q := n / m;
    assert n == q * m + n % m && 0 <= n % m < m;
    assert (q + 1) * m == q * m + m;
    if k * m <= n {
      MulCancel(k, q + 1, m);
    }
    if n < k * m {
      MulCancel(q, k, m);
    }
  }

  /** For a rate below the 2 Mbaud band the quotient is at least 27, so the
      rounded divisor is at least 14 and never zero. */
  lemma QuotientBounds(b: int)
    requires 0 < b < Band2M
    ensures 27 <= TwiceClock / b <= TwiceClock
    ensures 14 <= RoundedQuotient(b) <= TwiceClock
  {
    DivBounds(TwiceClock, b, 27);
    DivBounds(TwiceClock, b, TwiceClock + 1);
  }

  /** Round half up: the rounded quotient n of TwiceClock / (2 m) satisfies
      |2 n m - TwiceClock| <= m, that is, n is the integer nearest to
      24,000,000 / m, ties going up. */
  lemma RoundedQuotientNearest(m: int)
    requires m > 0
    ensures -m < 2 * RoundedQuotient(m) * m - TwiceClock <= m
  {
    var q, r := TwiceClock / m, TwiceClock % m;
    assert TwiceClock == m * q + r && 0 <= r < m;
    var n := RoundedQuotient(m);
    if 2 * n == q {
      assert 2 * n * m == q * m;
    } else {
      assert 2 * n == q + 1;
      assert 2 * n * m == q * m + m;
    }
  }

  /** The general branch in terms of what it computes: every rate from 184
      baud up to the 2 Mbaud band gets a divisor, 8 divisor + subdivisor is
      24,000,000 / b rounded half up, and the effective rate is
      24,000,000 / (8 divisor + subdivisor) rounded half up. */
  lemma GeneralBranchNearest(b: int)
    requires 184 <= b < Band2M
    ensures ApproximateBaudRate(b).Ok?
    ensures ApproximateBaudRate(b).Ok? ==>
      var a := ApproximateBaudRate(b).value;
      var d := 8 * a.divisor + a.subdivisor;
      && d > 0
      && -b < 2 * d * b - TwiceClock <= b
      && -d < 2 * a.effective * d - TwiceClock <= d
  {
    TooLowExactlyUpTo183(b);
    QuotientBounds(b);
    var d := RoundedQuotient(b);
    assert 8 * (d / 8) + d % 8 == d;
    RoundedQuotientNearest(b);
    RoundedQuotientNearest(d);
  }

  /** The rejection for a too-narrow divisor ("exceeds bit 13 at 183 baud"):
      below the 2 Mbaud band, a rate is rejected as too low exactly when it
      is 183 baud or less. */
  lemma TooLowExactlyUpTo183(b: int)
    requires 0 < b < Band2M
    ensures ApproximateBaudRate(b) == Err(UnsupportedOperationException(BaudRateTooLow)) <==> b <= 183
  {
    QuotientBounds(b);
    if b <= 183 {
      DivBounds(TwiceClock, b, 262295);
      assert RoundedQuotient(b) >= 131148;
    } else {
      DivBounds(TwiceClock, b, 260870);
      assert RoundedQuotient(b) <= 130435;
    }
  }

  /** 1000 (b + d) <= 62 b d for the divisors and rates of the accepted
      range: the bound that turns the rounding error into the tolerance. */
  lemma ToleranceMargin(b: int, d: int)
    requires b >= 184 && d >= 17
    requires d == 17 ==> b >= 315
    ensures 1000 * (b + d) <= 62 * b * d
  {
    assert 62 * b * d - 1000 * b == b * (62 * d - 1000);
    if d >= 18 {
      MulMonotone(184, b, 62 * d - 1000);
      assert b * (62 * d - 1000) == (62 * d - 1000) * b;
    } else {
      assert b * (62 * d - 1000) == 54 * b;
    }
  }

  /** 2 d |e - b| < b + d and 1000 (b + d) <= 62 b d give
      1000 |e - b| < 31 b. */
  lemma ToleranceFromError(b: int, d: int, e: int)
    requires b > 0 && d > 0
    requires -(b + d) < 2 * d * (e - b) < b + d
    requires 1000 * (b + d) <= 62 * b * d
    ensures WithinTolerance(e, b)
  {
    var x := Abs(e - b);
    assert 2 * d * (e - b) == (e - b) * (2 * d);
    assert x * (2 * d) < b + d;
    assert (1000 * x) * (2 * d) == 1000 * (x * (2 * d));
    assert (31 * b) * (2 * d) == 62 * b * d;
    MulCancel(1000 * x, 31 * b, 2 * d);
  }

  /** 2 d (e - b) as the difference of the two rounding errors. */
  lemma ErrorDifference(b: int, d: int, e: int)
    ensures 2 * d * (e - b) == (2 * e * d - TwiceClock) - (2 * d * b - TwiceClock)
  {
  }

  /** Every rate from 184 to 1,454,545 baud is accepted: the divisor fits in
      14 bits and the effective rate is within 3.1 %. */
  lemma AcceptedFrom184To1454545(b: int)
    requires 184 <= b <= 1454545
    ensures EncodeBaudRate(b).Ok?
  {
    TooLowExactlyUpTo183(b);
    DivBounds(TwiceClock, b, 33);
    var a := ApproximateBaudRate(b).value;
    var d := 8 * a.divisor + a.subdivisor;
    assert d == RoundedQuotient(b) >= 17;
    GeneralBranchNearest(b);
    var e := a.effective;
    ErrorDifference(b, d, e);
    if d == 17 {
      assert 2 * d * b == 34 * b;
    }
    ToleranceMargin(b, d);
    ToleranceFromError(b, d, e);
  }

  /** The comment at the tolerance check says a deviation rejection "can
      happen only > 1.5Mbaud"; 1,454,546 baud is rejected for deviation
      (divisor 2.0, effective 1,500,000 baud, 3.125 % off). */
  lemma DeviationBelow1500000()
    ensures EncodeBaudRate(1454546) == Err(UnsupportedOperationException(BaudRateDeviation))
  {
    assert TwiceClock / 1454546 == 32;
    assert RoundedQuotient(16) == 1500000;
  }

  /** Below the 2 Mbaud band, the encoder rejects a rate as too low
      exactly when it is 183 baud or less. */
  lemma EncodeTooLowExactlyUpTo183(b: int)
    requires 0 < b < Band2M
    ensures EncodeBaudRate(b) == Err(UnsupportedOperationException(BaudRateTooLow)) <==> b <= 183
  {
    TooLowExactlyUpTo183(b);
  }

  /** 1,500,000 baud, inside the range where the deviation check can
      reject: divisor 2.0, exactly 1,500,000 baud, accepted. */
  lemma Encode1500000()
    ensures EncodeBaudRate(1500000) == Ok(BaudSetting(2, 0, 1500000))
  {
    assert TwiceClock / 1500000 == 32;
    assert RoundedQuotient(16) == 1500000;
  }

  /** 9600 baud: divisor 312 and subdivisor 4 (312.5), packed as value
      0x4138 with index 0, exactly 9600 baud. */
  lemma Encode9600()
    ensures EncodeBaudRate(9600) == Ok(BaudSetting(0x4138, 0, 9600))
  {
    assert TwiceClock / 9600 == 5000;
    assert RoundedQuotient(2500) == 9600;
  }

  /** Distinct subdivisors give distinct (bits 14-15, index) pairs, and the
      divisor survives in the low 14 bits. */
  lemma PackInjective(divisor1: int, subdivisor1: int, divisor2: int, subdivisor2: int)
    requires 0 <= divisor1 <= MaxDivisor && 0 <= subdivisor1 < 8
    requires 0 <= divisor2 <= MaxDivisor && 0 <= subdivisor2 < 8
    ensures PackSubdivisor(divisor1, subdivisor1) == PackSubdivisor(divisor2, subdivisor2)
      <==> divisor1 == divisor2 && subdivisor1 == subdivisor2
  {
  }
}
