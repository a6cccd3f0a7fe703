/**
 The BMP280 temperature compensation in the kernel driver: s32 arithmetic with arithmetic right
 shifts. Dafny's division by a positive constant rounds down, as the shift does.
 */
module Compensation {

  /** The three calibration words as integers: those the driver stored, or those the chip means. */
  datatype Calibration = Calibration(t1: int, t2: int, t3: int)

  type Raw = r: int | 0 <= r < 0x10_0000

  const RAW_MAX: Raw := 0xF_FFFF

  // ---- the formula over the integers ----

  function Coarse(c: Calibration, raw: Raw): int { raw / 8 - 2 * c.t1 }

  function Fine(c: Calibration, raw: Raw): int { raw / 16 - c.t1 }

  function Square(x: int): (s: int)
    ensures s >= 0
  {
    x * x
  }

  function Var1(c: Calibration, raw: Raw): int { Coarse(c, raw) * c.t2 / 2048 }

  function Curvature(c: Calibration, raw: Raw): int { Square(Fine(c, raw)) / 4096 }

  function Var2(c: Calibration, raw: Raw): int { Curvature(c, raw) * c.t3 / 16384 }

  /** Hundredths of a degree Celsius. */
  function Temperature(c: Calibration, raw: Raw): int {
    ((Var1(c, raw) + Var2(c, raw)) * 5 + 128) / 256
  }

  // ---- the machine computation ----

  predicate Fits(x: int) { -0x8000_0000 <= x < 0x8000_0000 }

  function Wrap(x: int): (w: int)
    ensures Fits(w)
    ensures Fits(x) ==> w == x
  {
    (x + 0x8000_0000) % 0x1_0000_0000 - 0x8000_0000
  }

  function MachineVar1(c: Calibration, raw: Raw): int {
    Wrap(Wrap(raw / 8 - Wrap(2 * c.t1)) * c.t2) / 2048
  }

  function MachineVar2(c: Calibration, raw: Raw): int {
    var d := Wrap(raw / 16 - c.t1);
    Wrap(Wrap(d * d) / 4096 * c.t3) / 16384
  }

  /** read_temperature as s32 arithmetic computes it, wrapping at every operation. */
  function MachineTemperature(c: Calibration, raw: Raw): int {
    Wrap(Wrap(Wrap(MachineVar1(c, raw) + MachineVar2(c, raw)) * 5) + 128) / 256
  }

  /** No intermediate result leaves the s32 range at this reading. */
  predicate FitsAt(c: Calibration, raw: Raw) {
    && Fits(2 * c.t1)
    && Fits(Coarse(c, raw))
    && Fits(Coarse(c, raw) * c.t2)
    && Fits(Fine(c, raw))
    && Fits(Square(Fine(c, raw)))
    && Fits(Curvature(c, raw) * c.t3)
    && Fits(Var1(c, raw) + Var2(c, raw))
    && Fits((Var1(c, raw) + Var2(c, raw)) * 5)
    && Fits((Var1(c, raw) + Var2(c, raw)) * 5 + 128)
  }

  /** The lowest and the highest reading do not overflow: a check on the calibration alone. */
  predicate SafeCalibration(c: Calibration) {
    FitsAt(c, 0) && FitsAt(c, RAW_MAX)
  }

  lemma MachineIsExactWhereItFits(c: Calibration, raw: Raw)
    ensures FitsAt(c, raw) ==> MachineTemperature(c, raw) == Temperature(c, raw)
  {
    assert Square(Fine(c, raw)) == Fine(c, raw) * Fine(c, raw);
  }

  // ---- overflow is decided at the two ends of the range ----

  lemma ProductBetween(lo: int, x: int, hi: int, t: int)
    requires lo <= x <= hi
    requires Fits(lo * t) && Fits(hi * t)
    ensures Fits(x * t)
  {
    if t >= 0 {
      assert lo * t <= x * t <= hi * t;
    } else {
      assert lo * t >= x * t >= hi * t;
    }
  }

  lemma SquareBetween(lo: int, x: int, hi: int)
    requires lo <= x <= hi
    ensures Square(x) <= Square(lo) || Square(x) <= Square(hi)
  {
    if x >= 0 {
      assert x * x <= hi * hi;
    } else {
      assert x * x <= lo * lo;
    }
  }

  /** The last three operations cannot overflow once the products before them have not. */
  lemma SumFits(c: Calibration, raw: Raw)
    requires Fits(Coarse(c, raw) * c.t2) && Fits(Curvature(c, raw) * c.t3)
    ensures -0x10_0000 <= Var1(c, raw) < 0x10_0000
    ensures -0x2_0000 <= Var2(c, raw) < 0x2_0000
    ensures Fits((Var1(c, raw) + Var2(c, raw)) * 5 + 128) && Fits((Var1(c, raw) + Var2(c, raw)) * 5)
  {
  }

  lemma EndsBoundAll(c: Calibration, raw: Raw)
    ensures SafeCalibration(c) ==> FitsAt(c, raw)
  {
    if SafeCalibration(c) {
      ProductBetween(Coarse(c, 0), Coarse(c, raw), Coarse(c, RAW_MAX), c.t2);
      SquareBetween(Fine(c, 0), Fine(c, raw), Fine(c, RAW_MAX));
      var end := if Square(Fine(c, raw)) <= Square(Fine(c, 0)) then 0 else RAW_MAX;
      assert 0 <= Curvature(c, raw) <= Curvature(c, end);
      ProductBetween(0, Curvature(c, raw), Curvature(c, end), c.t3);
      SumFits(c, raw);
    }
  }

  /** No reading at all overflows exactly when the lowest and the highest do not. */
  lemma OverflowIsDecidedAtTheEnds(c: Calibration)
    ensures SafeCalibration(c) <==> forall raw: Raw :: FitsAt(c, raw)
  {
    if SafeCalibration(c) {
      forall raw: Raw ensures FitsAt(c, raw) {
        EndsBoundAll(c, raw);
      }
    }
  }

  /** For such a calibration the driver computes the integer formula at every reading. */
  lemma MachineComputesFormula(c: Calibration, raw: Raw)
    ensures SafeCalibration(c) ==> MachineTemperature(c, raw) == Temperature(c, raw)
  {
    EndsBoundAll(c, raw);
    MachineIsExactWhereItFits(c, raw);
  }

  /** One end of the range, from its two differences and its two products. */
  lemma EndFits(c: Calibration, raw: Raw)
    requires Fits(2 * c.t1) && Fits(Coarse(c, raw)) && Fits(Coarse(c, raw) * c.t2)
    requires -46340 <= Fine(c, raw) <= 46340 && Fits(Curvature(c, raw) * c.t3)
    ensures FitsAt(c, raw)
  {
    CurvatureUpTo(c, raw);
    SumFits(c, raw);
  }

  lemma CurvatureUpTo(c: Calibration, raw: Raw)
    requires -46340 <= Fine(c, raw) <= 46340
    ensures Fits(Square(Fine(c, raw))) && 0 <= Curvature(c, raw) <= 524266
  {
    var x := Fine(c, raw);
    SquareUpTo(if x < 0 then -x else x);
    assert Square(x) <= 2147395600;
  }

  lemma CoarseAtEnds(c: Calibration)
    ensures Coarse(c, 0) * c.t2 == -(2 * c.t1 * c.t2)
    ensures Coarse(c, RAW_MAX) * c.t2 == (131071 - 2 * c.t1) * c.t2
  {
  }

  lemma CurvatureAtEnds(c: Calibration)
    ensures Curvature(c, 0) == Square(c.t1) / 4096
    ensures Curvature(c, RAW_MAX) == Square(65535 - c.t1) / 4096
  {
    assert Square(-c.t1) == Square(c.t1);
  }

  /**
   The same condition in numbers, for all words the driver can have stored (and any T3): T1 within
   bounds, and the two products at each of the two ends. The T1 range is exact. A T3 of at most 4096
   adds nothing to it.
   */
  lemma SafeRange(c: Calibration)
    requires 0 <= c.t1 <= 0xFFFF && 0 <= c.t2 <= 0xFFFF
    ensures SafeCalibration(c) <==>
            && 19195 <= c.t1 <= 46340
            && 2 * c.t1 * c.t2 <= 0x8000_0000 && (131071 - 2 * c.t1) * c.t2 < 0x8000_0000
            && Fits(Square(c.t1) / 4096 * c.t3) && Fits(Square(65535 - c.t1) / 4096 * c.t3)
    ensures 19195 <= c.t1 <= 46340 && -4096 <= c.t3 <= 4096 ==>
              Fits(Square(c.t1) / 4096 * c.t3) && Fits(Square(65535 - c.t1) / 4096 * c.t3)
  {
    CoarseAtEnds(c);
    CurvatureAtEnds(c);
    T1Range(c.t1);
    CoarseNotBelow(c);
    if 19195 <= c.t1 <= 46340 {
      SmallT3Fits(c, 0);
      SmallT3Fits(c, RAW_MAX);
      if 2 * c.t1 * c.t2 <= 0x8000_0000 && (131071 - 2 * c.t1) * c.t2 < 0x8000_0000
         && Fits(Curvature(c, 0) * c.t3) && Fits(Curvature(c, RAW_MAX) * c.t3) {
        EndFits(c, 0);
        EndFits(c, RAW_MAX);
      }
    }
  }

  lemma SmallT3Fits(c: Calibration, raw: Raw)
    requires -46340 <= Fine(c, raw) <= 46340
    ensures -4096 <= c.t3 <= 4096 ==> Fits(Curvature(c, raw) * c.t3)
  {
    if -4096 <= c.t3 <= 4096 {
      CurvatureUpTo(c, raw);
      ProductBetween(0, Curvature(c, raw), 524266, c.t3);
    }
  }

  lemma CoarseNotBelow(c: Calibration)
    requires 0 <= c.t1 <= 0xFFFF && 0 <= c.t2
    ensures 2 * c.t1 * c.t2 >= 0 && (131071 - 2 * c.t1) * c.t2 >= 0
  {
  }

  lemma SquareUpTo(x: int)
    requires 0 <= x <= 46340
    ensures x * x <= 2147395600 && Square(-x) == x * x
  {
    SquareIsMonotone(x, 46340);
  }

  lemma SquareIsMonotone(x: int, y: int)
    requires 0 <= x <= y
    ensures x * x <= y * y
  {
    assert x * x <= x * y;
    assert x * y <= y * y;
  }

  lemma T1Range(t: int)
    requires 0 <= t <= 0xFFFF
    ensures (Fits(Square(-t)) && Fits(Square(65535 - t))) <==> 19195 <= t <= 46340
  {
    assert Square(-t) == t * t;
    if t > 46340 {
      SquareIsMonotone(46341, t);
    } else if t < 19195 {
      SquareIsMonotone(46341, 65535 - t);
    } else {
      SquareUpTo(t);
      SquareUpTo(65535 - t);
    }
  }

  // ---- monotonicity ----

  /** ceil(|T3| / 512): how much Var2 can move in one step of the reading, whatever T1 is. */
  function CurvatureStep(c: Calibration): nat {
    (Magnitude(c.t3) + 511) / 512
  }

  /** How far the square can move, in one step, the way that lowers Var2: from the low end for a positive T3, from
      the high end for a negative one. */
  function Reach(c: Calibration): int {
    if c.t3 >= 0 then 2 * c.t1 else 2 * (65535 - c.t1)
  }

  /** How much Var2 can fall in one step of the reading. */
  function WorstDrop(c: Calibration): int {
    (Magnitude(c.t3) * ((Reach(c) + 4095) / 4096) + 16383) / 16384
  }

  lemma WorstDropAtMost(c: Calibration)
    requires 0 <= c.t1 <= 0xFFFF
    ensures 0 <= WorstDrop(c) <= CurvatureStep(c)
  {
    var m, r := Magnitude(c.t3), (Reach(c) + 4095) / 4096;
    assert 0 <= r <= 32;
    ProductsOrdered(m, 0, m, r);
    ProductsOrdered(m, r, m, 32);
    DropOrdered(m * r, m);
  }

  lemma ProductsOrdered(a: nat, b: nat, a': nat, b': nat)
    requires a <= a' && b <= b'
    ensures a * b <= a' * b'
  {
    assert a * b <= a * b';
    assert a * b' <= a' * b';
  }

  lemma DropOrdered(p: int, m: nat)
    requires 0 <= p <= 32 * m
    ensures 0 <= (p + 16383) / 16384 <= (m + 511) / 512
  {
  }

  lemma QuotientStep(s: int, s': int, reach: int)
    ensures s' >= s - reach ==> s' / 4096 >= s / 4096 - (reach + 4095) / 4096
    ensures s' <= s + reach ==> s' / 4096 <= s / 4096 + (reach + 4095) / 4096
  {
  }

  lemma NextSquare(x: int)
    ensures Square(x + 1) == Square(x) + 2 * x + 1
  {
  }

  lemma CurvatureMoves(c: Calibration, x: int)
    requires 0 <= c.t1 <= 0xFFFF && -c.t1 <= x < 65535 - c.t1
    ensures var k := (Reach(c) + 4095) / 4096;
            if c.t3 >= 0 then Square(x + 1) / 4096 >= Square(x) / 4096 - k
            else Square(x + 1) / 4096 <= Square(x) / 4096 + k
  {
    NextSquare(x);
    QuotientStep(Square(x), Square(x + 1), Reach(c));
  }

  lemma FloorDrop(x: int, y: int, d: int)
    requires y >= x - d
    ensures y / 16384 >= x / 16384 - (d + 16383) / 16384
  {
  }

  lemma ScaledStep(q: int, q': int, t: int, k: int)
    requires if t >= 0 then q' >= q - k else q' <= q + k
    ensures q' * t / 16384 >= q * t / 16384 - (Magnitude(t) * k + 16383) / 16384
  {
    assert q' * t - q * t == (q' - q) * t;
    if t >= 0 {
      assert (q' - q) * t >= -k * t;
    } else {
      assert (q' - q) * t >= k * t;
    }
    FloorDrop(q * t, q' * t, Magnitude(t) * k);
  }

  lemma FloorRise(x: int, y: int, k: nat)
    requires y >= x + 2048 * k
    ensures y / 2048 >= x / 2048 + k
  {
  }

  lemma Var1Step(c: Calibration, raw: Raw, k: nat)
    requires raw < RAW_MAX && (raw + 1) / 8 == raw / 8 + 1
    requires c.t2 >= 2048 * k
    ensures Var1(c, raw + 1) >= Var1(c, raw) + k
  {
    var x := Coarse(c, raw);
    assert Coarse(c, raw + 1) == x + 1;
    assert (x + 1) * c.t2 == x * c.t2 + c.t2;
    FloorRise(x * c.t2, (x + 1) * c.t2, k);
  }

  lemma Var2Step(c: Calibration, raw: Raw)
    requires raw < RAW_MAX && 0 <= c.t1 <= 0xFFFF
    ensures Var2(c, raw + 1) >= Var2(c, raw) - WorstDrop(c)
  {
    var x, x' := Fine(c, raw), Fine(c, raw + 1);
    WorstDropAtMost(c);
    if x' != x {
      assert x' == x + 1;
      CurvatureMoves(c, x);
      ScaledStep(Square(x) / 4096, Square(x') / 4096, c.t3, (Reach(c) + 4095) / 4096);
    }
  }

  lemma FloorsKeepOrder(v: int, v': int)
    requires v <= v'
    ensures (v * 5 + 128) / 256 <= (v' * 5 + 128) / 256
  {
  }

  lemma NextEighth(raw: Raw)
    ensures (raw + 1) / 8 == raw / 8 ==> (raw + 1) / 16 == raw / 16
    ensures (raw + 1) / 8 != raw / 8 ==> (raw + 1) / 8 == raw / 8 + 1
  {
  }

  lemma OnlyEighthsMatter(c: Calibration, r: Raw, r': Raw)
    requires r / 8 == r' / 8 && r / 16 == r' / 16
    ensures Temperature(c, r) == Temperature(c, r')
  {
    assert Coarse(c, r) == Coarse(c, r') && Fine(c, r) == Fine(c, r');
  }

  lemma TemperatureStep(c: Calibration, raw: Raw)
    requires 0 <= c.t1 <= 0xFFFF && c.t2 >= 2048 * WorstDrop(c)
    requires raw < RAW_MAX
    ensures Temperature(c, raw) <= Temperature(c, raw + 1)
  {
    NextEighth(raw);
    if (raw + 1) / 8 == raw / 8 {
      OnlyEighthsMatter(c, raw, raw + 1);
    } else {
      WorstDropAtMost(c);
      Var1Step(c, raw, WorstDrop(c));
      Var2Step(c, raw);
      FloorsKeepOrder(Var1(c, raw) + Var2(c, raw), Var1(c, raw + 1) + Var2(c, raw + 1));
    }
  }

  /** A higher reading never yields a lower temperature, through all four floors. */
  lemma {:induction false} TemperatureIsMonotone(c: Calibration, lo: Raw, hi: Raw)
    requires 0 <= c.t1 <= 0xFFFF && c.t2 >= 2048 * WorstDrop(c)
    requires lo <= hi
    ensures Temperature(c, lo) <= Temperature(c, hi)
    decreases hi - lo
  {
    if lo < hi {
      TemperatureIsMonotone(c, lo, hi - 1);
      TemperatureStep(c, hi - 1);
    }
  }

  /** The driver's own result is monotone when, besides, nothing overflows. */
  lemma MachineIsMonotone(c: Calibration, lo: Raw, hi: Raw)
    requires 0 <= c.t1 <= 0xFFFF && c.t2 >= 2048 * WorstDrop(c)
    requires lo <= hi
    ensures SafeCalibration(c) ==> MachineTemperature(c, lo) <= MachineTemperature(c, hi)
  {
    MachineComputesFormula(c, lo);
    MachineComputesFormula(c, hi);
    TemperatureIsMonotone(c, lo, hi);
  }

  /** A slope that depends on T3 alone is enough for every T1. */
  lemma SteepEnough(c: Calibration)
    requires 0 <= c.t1 <= 0xFFFF && c.t2 >= 2048 * CurvatureStep(c)
    ensures c.t2 >= 2048 * WorstDrop(c)
  {
    WorstDropAtMost(c);
  }

  /**
   Some slope is needed. The temperature is 0 where the reading is 16 * T1, so for it not to fall the first
   term must outweigh the second at both ends of the range, to within what the last rounding hides.
   */
  lemma MonotoneNeedsSlope(c: Calibration)
    requires 0 <= c.t1 <= 0xFFFF
    ensures (forall lo: Raw, hi: Raw :: lo <= hi ==> Temperature(c, lo) <= Temperature(c, hi)) ==>
              Var1(c, 0) + Var2(c, 0) <= 25 && Var1(c, RAW_MAX) + Var2(c, RAW_MAX) >= -25
  {
    var zero: Raw := 16 * c.t1;
    assert Coarse(c, zero) == 0 && Fine(c, zero) == 0;
    assert Square(0) == 0;
    assert Temperature(c, zero) == 0;
    if forall lo: Raw, hi: Raw :: lo <= hi ==> Temperature(c, lo) <= Temperature(c, hi) {
      assert Temperature(c, 0) <= Temperature(c, zero) <= Temperature(c, RAW_MAX);
    }
  }

  /** With T2 = 0, for one, the curvature term alone makes it fall. */
  lemma WithoutSlopeItFalls()
    ensures var c := Calibration(30000, 0, 4096);
            Temperature(c, 0) == 1073 && Temperature(c, 480000) == 0
  {
    var c := Calibration(30000, 0, 4096);
    assert Square(Fine(c, 0)) == 900000000 && Square(Fine(c, 480000)) == 0;
  }

  // ---- distance from the exact formula ----

  function ExactVar1(c: Calibration, raw: Raw): real {
    (raw as real / 8.0 - 2.0 * c.t1 as real) * c.t2 as real / 2048.0
  }

  function ExactCurvature(c: Calibration, raw: Raw): real {
    var d := raw as real / 16.0 - c.t1 as real;
    d * d / 4096.0
  }

  function ExactVar2(c: Calibration, raw: Raw): real {
    ExactCurvature(c, raw) * c.t3 as real / 16384.0
  }

  /** The datasheet's floating-point formula, in hundredths of a degree. */
  function ExactTemperature(c: Calibration, raw: Raw): real {
    (ExactVar1(c, raw) + ExactVar2(c, raw)) * 5.0 / 256.0
  }

  function AbsReal(x: real): real { if x < 0.0 then -x else x }

  /** What the floors can cost: 7/8 of a step of raw >> 3 on T2, 31 units of curvature on T3, three roundings. */
  function ErrorBound(c: Calibration): real {
    (AbsReal(c.t2 as real) * 7.0 / 16384.0 + 1.0 + AbsReal(c.t3 as real) * 31.0 / 16384.0 + 1.0) * 5.0 / 256.0 + 0.5
  }

  lemma QuotientBelow(x: real, q: real, d: real)
    requires d > 0.0 && x < q * d
    ensures x / d < q
  {
    assert x / d * d == x;
  }

  lemma FloorIsClose(x: int, d: int)
    requires d > 0
    ensures (x / d) as real <= x as real / d as real < (x / d) as real + 1.0
  {
    var q := x / d;
    assert q * d <= x < (q + 1) * d;
    assert (q * d) as real == q as real * d as real;
    assert ((q + 1) * d) as real == (q as real + 1.0) * d as real;
    QuotientBelow(x as real, q as real + 1.0, d as real);
  }

  lemma ProductError(e: real, bound: real, t: real)
    requires AbsReal(e) <= bound
    ensures AbsReal(e * t) <= bound * AbsReal(t)
  {
    var a := AbsReal(t);
    assert AbsReal(e * t) == AbsReal(e) * a;
    assert AbsReal(e) * a <= bound * a;
  }

  lemma Var1Error(c: Calibration, raw: Raw)
    ensures AbsReal(ExactVar1(c, raw) - Var1(c, raw) as real) <= AbsReal(c.t2 as real) * 7.0 / 16384.0 + 1.0
  {
    var t := c.t2 as real;
    FloorIsClose(Coarse(c, raw) * c.t2, 2048);
    var e := raw as real / 8.0 - (raw / 8) as real;
    assert 0.0 <= e <= 0.875;
    ProductError(e, 0.875, t);
    assert (Coarse(c, raw) * c.t2) as real == Coarse(c, raw) as real * t;
    assert ExactVar1(c, raw) - (Coarse(c, raw) * c.t2) as real / 2048.0 == e * t / 2048.0;
  }

  lemma SquareGap(x: real, y: real)
    requires 0.0 <= x - y <= 0.9375 && AbsReal(x + y) <= 131072.0
    ensures AbsReal(x * x - y * y) <= 122880.0
  {
    assert x * x - y * y == (x - y) * (x + y);
    ProductError(x - y, 0.9375, x + y);
  }

  /** The integer square, seen as a real, and its floored quotient. */
  lemma FlooredSquare(n: int, y: real)
    requires y == n as real
    ensures (Square(n) / 4096) as real <= y * y / 4096.0 < (Square(n) / 4096) as real + 1.0
  {
    FloorIsClose(Square(n), 4096);
    assert (n * n) as real == y * y;
  }

  lemma CurvatureError(c: Calibration, raw: Raw)
    requires 0 <= c.t1 <= 0xFFFF
    ensures AbsReal(ExactCurvature(c, raw) - Curvature(c, raw) as real) <= 31.0
  {
    var x, y := raw as real / 16.0 - c.t1 as real, Fine(c, raw) as real;
    assert 0.0 <= x - y <= 0.9375;
    SquareGap(x, y);
    FlooredSquare(Fine(c, raw), y);
    assert ExactCurvature(c, raw) == x * x / 4096.0;
    GapOfQuotients(x * x, y * y, Curvature(c, raw) as real);
  }

  lemma GapOfQuotients(a: real, b: real, q: real)
    requires AbsReal(a - b) <= 122880.0 && q <= b / 4096.0 < q + 1.0
    ensures AbsReal(a / 4096.0 - q) <= 31.0
  {
  }

  lemma Var2Error(c: Calibration, raw: Raw)
    requires 0 <= c.t1 <= 0xFFFF
    ensures AbsReal(ExactVar2(c, raw) - Var2(c, raw) as real) <= AbsReal(c.t3 as real) * 31.0 / 16384.0 + 1.0
  {
    var t := c.t3 as real;
    CurvatureError(c, raw);
    var e := ExactCurvature(c, raw) - Curvature(c, raw) as real;
    ProductError(e, 31.0, t);
    FloorIsClose(Curvature(c, raw) * c.t3, 16384);
    assert (Curvature(c, raw) * c.t3) as real == Curvature(c, raw) as real * t;
    assert ExactVar2(c, raw) - (Curvature(c, raw) * c.t3) as real / 16384.0 == e * t / 16384.0;
  }

  /** The integer result stays within ErrorBound of the exact formula at every reading. */
  lemma TemperatureError(c: Calibration, raw: Raw)
    requires 0 <= c.t1 <= 0xFFFF
    ensures AbsReal(Temperature(c, raw) as real - ExactTemperature(c, raw)) <= ErrorBound(c)
  {
    Var1Error(c, raw);
    Var2Error(c, raw);
    var sum := Var1(c, raw) + Var2(c, raw);
    FloorIsClose(sum * 5 + 128, 256);
    assert (sum * 5 + 128) as real / 256.0 == sum as real * 5.0 / 256.0 + 0.5;
  }

  /**
   Where nothing overflows and the slope and the curvature are not too large, the arithmetic is within a
   hundredth of a degree of the exact formula on the same words. For words that are not negative on the chip
   those are the stored ones, so it is the driver that is.
   */
  lemma WithinOneHundredth(c: Calibration, raw: Raw)
    requires 0 <= c.t1 <= 0xFFFF
    requires 7 * Magnitude(c.t2) + 31 * Magnitude(c.t3) <= 386662
    ensures SafeCalibration(c) ==> AbsReal(MachineTemperature(c, raw) as real - ExactTemperature(c, raw)) < 1.0
    ensures SafeCalibration(c) && 0 <= c.t2 && 0 <= c.t3 ==>
              AbsReal(MachineTemperature(Stored(c), raw) as real - ExactTemperature(c, raw)) < 1.0
  {
    MachineComputesFormula(c, raw);
    TemperatureError(c, raw);
    BoundBelowOne(c);
  }

  function Magnitude(x: int): nat { if x < 0 then -x else x }

  lemma BoundBelowOne(c: Calibration)
    requires 7 * Magnitude(c.t2) + 31 * Magnitude(c.t3) <= 386662
    ensures ErrorBound(c) < 1.0
  {
    var x, y := Magnitude(c.t2), Magnitude(c.t3);
    assert x as real * 7.0 + y as real * 31.0 == (7 * x + 31 * y) as real;
  }

  // ---- words that are negative on the chip ----

  /** The chip's T2 and T3 are signed. What the driver keeps of them is the unsigned word, as read from the bus. */
  function Stored(c: Calibration): Calibration {
    Calibration(c.t1, if c.t2 < 0 then c.t2 + 0x1_0000 else c.t2, if c.t3 < 0 then c.t3 + 0x1_0000 else c.t3)
  }

  predicate ChipWords(c: Calibration) {
    0 <= c.t1 <= 0xFFFF && -0x8000 <= c.t2 < 0x8000 && -0x8000 <= c.t3 < 0x8000
  }

  /** Misreading the sign of T3 adds four times the curvature, whatever the words. */
  lemma SignOfT3(c: Calibration, raw: Raw)
    ensures Var2(c.(t3 := c.t3 + 0x1_0000), raw) == Var2(c, raw) + 4 * Curvature(c, raw)
  {
    assert Curvature(c.(t3 := c.t3 + 0x1_0000), raw) == Curvature(c, raw);
    assert Curvature(c, raw) * (c.t3 + 0x1_0000) == Curvature(c, raw) * c.t3 + 0x1_0000 * Curvature(c, raw);
  }

  /** Misreading the sign of T2 adds thirty-two times the coarse difference. */
  lemma SignOfT2(c: Calibration, raw: Raw)
    ensures Var1(c.(t2 := c.t2 + 0x1_0000), raw) == Var1(c, raw) + 32 * Coarse(c, raw)
  {
    assert Coarse(c.(t2 := c.t2 + 0x1_0000), raw) == Coarse(c, raw);
    assert Coarse(c, raw) * (c.t2 + 0x1_0000) == Coarse(c, raw) * c.t2 + 0x1_0000 * Coarse(c, raw);
  }

  /** How many times 2^32 wrapping takes off. */
  function Turns(x: int): int { (x + 0x8000_0000) / 0x1_0000_0000 }

  lemma WrapTakesTurns(x: int)
    ensures Wrap(x) == x - 0x1_0000_0000 * Turns(x)
  {
  }

  /** What the stored T2 adds to the first term: the misread sign, less what the product wraps by. */
  function MisreadT2(c: Calibration, raw: Raw): int {
    (if c.t2 < 0 then 32 * Coarse(c, raw) else 0) - 0x20_0000 * Turns(Coarse(c, raw) * Stored(c).t2)
  }

  /** What the stored T3 adds to the second term: the misread sign, less what the square and then the product
      wrap by. */
  function MisreadT3(c: Calibration, raw: Raw): int {
    var t3, k := Stored(c).t3, Turns(Square(Fine(c, raw)));
    (if c.t3 < 0 then 4 * Curvature(c, raw) else 0) - 64 * k * t3
    - 0x4_0000 * Turns((Curvature(c, raw) - 0x10_0000 * k) * t3)
  }

  lemma MachineVar1Stored(c: Calibration, raw: Raw)
    requires ChipWords(c)
    ensures MachineVar1(Stored(c), raw) == Var1(c, raw) + MisreadT2(c, raw)
    ensures -0x10_0000 <= MachineVar1(Stored(c), raw) < 0x10_0000
  {
    var w := Stored(c);
    var p := Coarse(c, raw) * w.t2;
    SignOfT2(c, raw);
    assert Coarse(w, raw) == Coarse(c, raw);
    assert Var1(w, raw) == p / 2048;
    assert MachineVar1(w, raw) == Wrap(p) / 2048;
    WrapTakesTurns(p);
    if c.t2 < 0 {
      assert Coarse(c, raw) * (c.t2 + 0x1_0000) / 2048 == Var1(c.(t2 := c.t2 + 0x1_0000), raw);
    }
  }

  lemma MachineVar2Stored(c: Calibration, raw: Raw)
    requires ChipWords(c)
    ensures MachineVar2(Stored(c), raw) == Var2(c, raw) + MisreadT3(c, raw)
    ensures -0x2_0000 <= MachineVar2(Stored(c), raw) < 0x2_0000
  {
    var w, q, k := Stored(c), Curvature(c, raw), Turns(Square(Fine(c, raw)));
    var p := (q - 0x10_0000 * k) * w.t3;
    WrapTakesTurns(Square(Fine(c, raw)));
    assert Fine(w, raw) * Fine(w, raw) == Square(Fine(c, raw));
    assert MachineVar2(w, raw) == Wrap(p) / 16384;
    WrapTakesTurns(p);
    WrappedSquareTimes(q, k, w.t3);
    SignOfT3(c, raw);
    if c.t3 < 0 {
      assert q * (c.t3 + 0x1_0000) / 16384 == Var2(c.(t3 := c.t3 + 0x1_0000), raw);
    }
  }

  lemma WrappedSquareTimes(q: int, k: int, t: int)
    ensures ((q - 0x10_0000 * k) * t - 0x1_0000_0000 * Turns((q - 0x10_0000 * k) * t)) / 16384 ==
            q * t / 16384 - 64 * k * t - 0x4_0000 * Turns((q - 0x10_0000 * k) * t)
  {
    assert (q - 0x10_0000 * k) * t == q * t - 0x10_0000 * (k * t);
    assert 64 * k * t == 64 * (k * t);
  }

  /** What is left of the last division: the room below the next hundredth. */
  function Remainder(c: Calibration, raw: Raw): int {
    ((Var1(c, raw) + Var2(c, raw)) * 5 + 128) % 256
  }

  /** How far the driver, from the words it stored, is off the formula on the words the chip means, to the hundredth. */
  lemma StoredWordsError(c: Calibration, raw: Raw)
    requires ChipWords(c)
    ensures MachineTemperature(Stored(c), raw) ==
            Temperature(c, raw) + (Remainder(c, raw) + 5 * (MisreadT2(c, raw) + MisreadT3(c, raw))) / 256
  {
    MachineVar1Stored(c, raw);
    MachineVar2Stored(c, raw);
  }

  /** So it gives the datasheet's temperature exactly when the misread part stays in that room. */
  lemma StoredWordsAreRightIff(c: Calibration, raw: Raw)
    requires ChipWords(c)
    ensures MachineTemperature(Stored(c), raw) == Temperature(c, raw) <==>
            0 <= Remainder(c, raw) + 5 * (MisreadT2(c, raw) + MisreadT3(c, raw)) < 256
  {
    StoredWordsError(c, raw);
  }

  /**
   A negative T3, where the stored word overflows nothing: right wherever raw / 16 is within 63 of T1,
   too high by 20 * curvature / 256 rounded up or down elsewhere, and certainly too high from 231 on.
   */
  lemma NegativeT3ReadsHigh(c: Calibration, raw: Raw)
    requires ChipWords(c) && 0 <= c.t2 && c.t3 < 0
    ensures FitsAt(Stored(c), raw) ==>
              && 0 <= MachineTemperature(Stored(c), raw) - Temperature(c, raw) - 20 * Curvature(c, raw) / 256 <= 1
              && (-63 <= Fine(c, raw) <= 63 ==> MachineTemperature(Stored(c), raw) == Temperature(c, raw))
              && (Fine(c, raw) <= -231 || 231 <= Fine(c, raw) ==>
                    MachineTemperature(Stored(c), raw) > Temperature(c, raw))
  {
    if FitsAt(Stored(c), raw) {
      MachineIsExactWhereItFits(Stored(c), raw);
      SignOfT3(c, raw);
      assert Var1(Stored(c), raw) == Var1(c, raw);
      RoundedShift((Var1(c, raw) + Var2(c, raw)) * 5 + 128, Curvature(c, raw));
      CurvatureNear(Fine(c, raw));
    }
  }

  lemma RoundedShift(x: int, q: nat)
    ensures 0 <= (x + 20 * q) / 256 - x / 256 - 20 * q / 256 <= 1
    ensures 13 <= q ==> (x + 20 * q) / 256 > x / 256
  {
  }

  lemma CurvatureNear(x: int)
    ensures -63 <= x <= 63 ==> Square(x) / 4096 == 0
    ensures x <= -231 || 231 <= x ==> Square(x) / 4096 >= 13
  {
    assert Square(x) == Square(Magnitude(x)) == Magnitude(x) * Magnitude(x);
    if Magnitude(x) <= 63 {
      SquareIsMonotone(Magnitude(x), 63);
    } else if 231 <= Magnitude(x) {
      SquareIsMonotone(231, Magnitude(x));
    }
  }

  /** The datasheet's worked example: its words mean 25.08 degrees at that reading; the driver makes it 29.83. */
  lemma DatasheetExampleIsMisread()
    ensures var c := Calibration(27504, 26435, -1000);
            Temperature(c, 519888) == 2508 && MachineTemperature(Stored(c), 519888) == 2983
  {
    var c := Calibration(27504, 26435, -1000);
    assert Coarse(c, 519888) == 9978 && Fine(c, 519888) == 4989;
    assert Var1(c, 519888) == 128793;
    assert Square(4989) == 24890121;
    assert Curvature(c, 519888) == 6076;
    assert Var2(c, 519888) == -371;
    assert Remainder(c, 519888) == 190;
    assert MisreadT2(c, 519888) == 0 && MisreadT3(c, 519888) == 24304;
    StoredWordsError(c, 519888);
  }

  /** The same chip at a higher reading: the stored product wraps, and 58.59 degrees are read as 33.50. */
  lemma WrappedProductReadsLow()
    ensures var c := Calibration(27504, 26435, -1000);
            Temperature(c, 627264) == 5859 && MachineTemperature(Stored(c), 627264) == 3350
  {
    var c := Calibration(27504, 26435, -1000);
    assert Coarse(c, 627264) == 23400 && Fine(c, 627264) == 11700;
    assert Var1(c, 627264) == 302040;
    assert Square(11700) == 136890000;
    assert Curvature(c, 627264) == 33420;
    assert Var2(c, 627264) == -2040;
    assert Remainder(c, 627264) == 224;
    assert MisreadT2(c, 627264) == 0 && MisreadT3(c, 627264) == -128464;
    StoredWordsError(c, 627264);
  }

  /** No chip with a negative T3 is safe from it: at the lowest or the highest reading something overflows. */
  lemma NegativeT3Overflows(c: Calibration)
    requires ChipWords(c) && c.t3 < 0
    ensures !SafeCalibration(Stored(c))
  {
    var w := Stored(c);
    SafeRange(w);
    if 19195 <= c.t1 {
      SquareIsMonotone(19195, c.t1);
      assert Square(c.t1) / 4096 >= 89953;
      ProductsOrdered(89953, 0x8000, Square(c.t1) / 4096, w.t3);
    }
  }

  /** Nor does its stored T2 reach the slope that rules out a fall for every T1. */
  lemma NegativeT3LacksSlope(c: Calibration)
    requires ChipWords(c) && c.t3 < 0
    ensures Stored(c).t2 < 2048 * CurvatureStep(Stored(c))
  {
  }
}
