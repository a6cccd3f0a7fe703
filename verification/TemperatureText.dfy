/** The driver's "%d.%d" rendering of hundredths of a degree, with C's truncating division. */
module TemperatureText {
  import opened Common
  import opened Decimal

  const BUFFER_SIZE: nat := 20

  /** C's / and % for a divisor of 100. */
  function Quotient(t: int): int { if t >= 0 then t / 100 else -(-t / 100) }

  function Remainder(t: int): int { if t >= 0 then t % 100 else -(-t % 100) }

  function PrintInt(n: int): string {
    if n >= 0 then ToDecimal(n) else "-" + ToDecimal(-n)
  }

  /** The text before the newline. */
  function Rendered(t: int): string {
    PrintInt(Quotient(t)) + "." + PrintInt(Remainder(t))
  }

  // ---- how a reader takes such a text ----

  /** The position of the first point, or the length. */
  function PointAt(s: string): (k: nat)
    ensures k <= |s|
  {
    if s == [] || s[0] == '.' then 0 else 1 + PointAt(s[1..])
  }

  /** Digits before the point, one or two digits after it, read as hundredths. */
  function ReadParts(whole: string, frac: string): Option<int> {
    if whole == [] || !AllDigits(whole) || !AllDigits(frac) then None
    else if |frac| == 1 then Some(100 * FromDecimal(whole) + 10 * FromDecimal(frac))
    else if |frac| == 2 then Some(100 * FromDecimal(whole) + FromDecimal(frac))
    else None
  }

  function ReadUnsigned(s: string): Option<int> {
    var k := PointAt(s);
    if k == |s| then None else ReadParts(s[..k], s[k + 1..])
  }

  function ReadHundredths(s: string): Option<int> {
    if s != [] && s[0] == '-' then
      match ReadUnsigned(s[1..])
      case Some(n) => Some(-n)
      case None => None
    else ReadUnsigned(s)
  }

  lemma {:induction false} PointAfterDigits(whole: string, frac: string)
    requires AllDigits(whole)
    ensures PointAt(whole + "." + frac) == |whole|
  {
    if whole != [] {
      assert (whole + "." + frac)[1..] == whole[1..] + "." + frac;
      PointAfterDigits(whole[1..], frac);
    }
  }

  lemma ReadSplit(whole: string, frac: string)
    requires AllDigits(whole)
    ensures ReadUnsigned(whole + "." + frac) == ReadParts(whole, frac)
  {
    var s := whole + "." + frac;
    PointAfterDigits(whole, frac);
    assert s[..|whole|] == whole;
    assert s[|whole| + 1..] == frac;
  }

  lemma {:induction false} TwoDigits(n: nat)
    requires n < 100
    ensures |ToDecimal(n)| == if n < 10 then 1 else 2
    ensures FromDecimal(ToDecimal(n)) == n
  {
    DecimalRoundTrip(n);
  }

  /** What a reader makes of a whole part and a remainder printed next to each other. */
  lemma {:induction false} ReadsAs(whole: nat, r: int)
    requires -100 < r < 100
    ensures ReadParts(ToDecimal(whole), PrintInt(r)) ==
            if r < 0 then None else Some(100 * whole + if r < 10 then 10 * r else r)
  {
    DecimalRoundTrip(whole);
    if r < 0 {
      assert !IsDigit(PrintInt(r)[0]);
    } else {
      TwoDigits(r);
    }
  }

  lemma QuotientRemainder(t: int)
    ensures var q, r := Quotient(t), Remainder(t);
            t == 100 * q + r && -100 < r < 100 && (if t >= 0 then q >= 0 && r >= 0 else q <= 0 && r <= 0)
  {
  }

  /**
   The rendering reads back as the temperature exactly when the hundredths are zero, or the temperature
   is positive with hundredths of at least 10. Otherwise it loses a leading zero (25.05 becomes 25.5) or
   puts a second sign after the point.
   */
  lemma RenderingIsFaithfulIff(t: int)
    ensures ReadHundredths(Rendered(t)) == Some(t) <==> Remainder(t) == 0 || (t > 0 && Remainder(t) >= 10)
  {
    QuotientRemainder(t);
    RenderedReads(t);
  }

  /** The sign goes with the whole part. */
  lemma SignedRead(digits: string, frac: string)
    requires AllDigits(digits) && digits != []
    ensures ReadHundredths(digits + "." + frac) == ReadParts(digits, frac)
    ensures ReadHundredths("-" + digits + "." + frac) ==
            match ReadParts(digits, frac)
            case Some(n) => Some(-n)
            case None => None
  {
    ReadSplit(digits, frac);
    assert (digits + "." + frac)[0] == digits[0] && IsDigit(digits[0]);
    assert ("-" + digits + "." + frac)[1..] == digits + "." + frac;
  }

  lemma RenderedReads(t: int)
    ensures var q, r := Quotient(t), Remainder(t);
            ReadHundredths(Rendered(t)) ==
            if r < 0 then None
            else
              var n := if r < 10 then 10 * r else r;
              Some(if q >= 0 then 100 * q + n else 100 * q - n)
  {
    var q, r := Quotient(t), Remainder(t);
    QuotientRemainder(t);
    var whole: nat := if q >= 0 then q else -q;
    SignedRead(ToDecimal(whole), PrintInt(r));
    ReadsAs(whole, r);
  }

  /** Below ten hundredths the zero is dropped, and the text reads as nine times those hundredths too much. */
  lemma DroppedZero(t: int)
    requires t > 0 && 0 < Remainder(t) < 10
    ensures ReadHundredths(Rendered(t)) == Some(t + 9 * Remainder(t))
  {
    QuotientRemainder(t);
    RenderedReads(t);
  }

  function Pow10(k: nat): nat { if k == 0 then 1 else 10 * Pow10(k - 1) }

  lemma {:induction false} DecimalLength(n: nat, k: nat)
    requires k > 0 && n < Pow10(k)
    ensures |ToDecimal(n)| <= k
  {
    if n >= 10 {
      DecimalLength(n / 10, k - 1);
    }
  }

  /** Text, newline and terminator fit the 20-byte buffer for every s32 temperature, so snprintf never truncates. */
  lemma RenderingFitsBuffer(t: int)
    requires -0x8000_0000 <= t < 0x8000_0000
    ensures |Rendered(t)| + 2 <= BUFFER_SIZE
  {
    assert Pow10(2) == 100 && Pow10(4) == 10000 && Pow10(6) == 1000000 && Pow10(8) == 100000000;
    var q, r := Quotient(t), Remainder(t);
    DecimalLength(if q >= 0 then q else -q, 8);
    DecimalLength(if r >= 0 then r else -r, 2);
  }
}
