/** Exact decimals: nanoseconds printed as seconds, parsed back as a rational, and
    converted at a credit rate. */
module Decimals {
  import opened Text

  const NANOSECONDS := 1_000_000_000
  const MAX_INT64 := 0x7FFF_FFFF_FFFF_FFFF
  const MIN_INT64 := -0x8000_0000_0000_0000

  predicate InInt64(x: int) {
    MIN_INT64 <= x <= MAX_INT64
  }

  /** An exact non-negative rational, as math/big keeps it but not reduced. */
  datatype Ratio = Ratio(num: nat, den: nat)

  predicate Proper(r: Ratio) {
    r.den > 0
  }

  function Pow10(n: nat): (p: nat)
    ensures p > 0
  {
    if n == 0 then 1 else 10 * Pow10(n - 1)
  }

  predicate Digits(s: string) {
    s != "" && forall i :: 0 <= i < |s| ==> '0' <= s[i] <= '9'
  }

  /** One or more digits, and optionally a point with one or more digits after it. */
  function ParseDecimal(s: string): Option<Ratio> {
    var fields := Split(s, '.');
    if |fields| == 1 && Digits(fields[0]) then Some(Ratio(DigitsValue(fields[0]), 1))
    else if |fields| == 2 && Digits(fields[0]) && Digits(fields[1]) then
      Some(Ratio(DigitsValue(fields[0] + fields[1]), Pow10(|fields[1]|)))
    else None
  }

  predicate IsDigit(c: char) {
    '0' <= c <= '9'
  }

  /** A decimal is accepted exactly when it is made of digits and at most one point, which is neither
      first nor last. */
  lemma ParsesExactly(s: string)
    ensures ParseDecimal(s).Some? <==>
              && s != "" && IsDigit(s[0]) && IsDigit(s[|s| - 1])
              && (forall i :: 0 <= i < |s| ==> IsDigit(s[i]) || s[i] == '.')
              && forall i, j :: 0 <= i < j < |s| ==> !(s[i] == '.' && s[j] == '.')
  {
    hide Pow10, DigitsValue;
    if k :| 0 <= k < |s| && s[k] == '.' {
      var whole, rest := s[..k], s[k + 1..];
      assert s == whole + ['.'] + rest;
      if '.' in whole {
        var j :| 0 <= j < |whole| && whole[j] == '.';
        assert s[j] == '.';
        TwoPoints(s, j, k);
      } else if '.' in rest {
        var j :| 0 <= j < |rest| && rest[j] == '.';
        assert s[k + 1 + j] == '.';
        TwoPoints(s, k, k + 1 + j);
      } else {
        OnePoint(s, whole, rest);
        PointInside(s, whole, rest);
        hide Split, IsDigit, Digits, ParseDecimal;
      }
    } else {
      SplitWithoutSeparator(s, '.');
    }
  }

  lemma OnePoint(s: string, whole: string, rest: string)
    requires s == whole + ['.'] + rest && '.' !in whole && '.' !in rest
    ensures ParseDecimal(s).Some? <==> Digits(whole) && Digits(rest)
    ensures forall i, j :: 0 <= i < j < |s| ==> !(s[i] == '.' && s[j] == '.')
  {
    hide Digits, Pow10, DigitsValue;
    SplitOfConcat(whole, rest, '.');
    SplitWithoutSeparator(whole, '.');
    SplitWithoutSeparator(rest, '.');
    assert forall i :: 0 <= i < |whole| ==> s[i] == whole[i];
    assert forall i :: 0 <= i < |rest| ==> s[|whole| + 1 + i] == rest[i];
  }

  lemma PointInside(s: string, whole: string, rest: string)
    requires s == whole + ['.'] + rest && '.' !in whole && '.' !in rest
    ensures Digits(whole) && Digits(rest) <==>
              && IsDigit(s[0]) && IsDigit(s[|s| - 1])
              && (forall i :: 0 <= i < |s| ==> IsDigit(s[i]) || s[i] == '.')
  {
    var k := |whole|;
    assert forall i :: 0 <= i < k ==> s[i] == whole[i];
    assert s[k] == '.' && forall i :: 0 <= i < |rest| ==> s[k + 1 + i] == rest[i];
    if IsDigit(s[0]) && IsDigit(s[|s| - 1]) && forall i :: 0 <= i < |s| ==> IsDigit(s[i]) || s[i] == '.' {
      assert whole != "" && rest != "";
      assert forall i :: 0 <= i < k ==> whole[i] in whole;
      assert forall i :: 0 <= i < |rest| ==> rest[i] in rest;
    }
  }

  lemma TwoPoints(s: string, j: nat, k: nat)
    requires j < k < |s| && s[j] == '.' && s[k] == '.'
    ensures ParseDecimal(s).None?
  {
    var a, b, c := s[..j], s[j + 1..k], s[k + 1..];
    assert s == a + ['.'] + (b + ['.'] + c);
    SplitOfConcat(a, b + ['.'] + c, '.');
    SplitOfConcat(b, c, '.');
  }

  /** And then it is the number its digits spell, over a power of ten for those after the point. */
  lemma ParsedValue(whole: string, fraction: string)
    requires Digits(whole)
    ensures ParseDecimal(whole) == Some(Ratio(DigitsValue(whole), 1))
    ensures Digits(fraction) ==> ParseDecimal(whole + "." + fraction) == Some(Ratio(DigitsValue(whole + fraction), Pow10(|fraction|)))
  {
    DigitsHaveNoPoint(whole);
    SplitWithoutSeparator(whole, '.');
    if Digits(fraction) {
      DigitsHaveNoPoint(fraction);
      SplitWithoutSeparator(fraction, '.');
      assert whole + "." + fraction == whole + ['.'] + fraction;
      SplitOfConcat(whole, fraction, '.');
    }
  }

  // Printing

  function Zeros(n: nat): (s: string)
    ensures |s| == n && forall i :: 0 <= i < n ==> s[i] == '0'
  {
    if n == 0 then "" else Zeros(n - 1) + "0"
  }

  /** The %0wd verb for a natural number. */
  function Padded(n: nat, width: nat): (s: string)
    ensures Digits(s)
  {
    var digits := FormatNat(n);
    if |digits| < width then Zeros(width - |digits|) + digits else digits
  }

  function TrimZeros(s: string): string {
    if s != "" && s[|s| - 1] == '0' then TrimZeros(s[..|s| - 1]) else s
  }

  function DecimalSeconds(nanoseconds: nat): string {
    var seconds, remainder := nanoseconds / NANOSECONDS, nanoseconds % NANOSECONDS;
    if remainder == 0 then FormatNat(seconds)
    else FormatNat(seconds) + "." + TrimZeros(Padded(remainder, 9))
  }

  // Values of digit strings

  lemma TenTimes(a: int, b: int)
    ensures 10 * (a * b) == (10 * a) * b
  {
  }

  lemma {:induction false} Pow10Adds(m: nat, n: nat)
    ensures Pow10(m + n) == Pow10(m) * Pow10(n)
  {
    if m > 0 {
      Pow10Adds(m - 1, n);
      TenTimes(Pow10(m - 1), Pow10(n));
    }
  }

  lemma AppendDigit(x: int, p: int, y: int, d: int)
    ensures (x * p + y) * 10 + d == x * (10 * p) + (y * 10 + d)
  {
  }

  /** A number with k zeros written after it. */
  function Shift(n: nat, k: nat): nat {
    if k == 0 then n else 10 * Shift(n, k - 1)
  }

  lemma {:induction false} ShiftMultiplies(n: nat, k: nat)
    ensures Shift(n, k) == n * Pow10(k)
  {
    if k > 0 {
      ShiftMultiplies(n, k - 1);
      AppendDigit(n, Pow10(k - 1), 0, 0);
    }
  }

  lemma {:induction false} ValueOfConcat(a: string, b: string)
    requires forall i :: 0 <= i < |a + b| ==> '0' <= (a + b)[i] <= '9'
    ensures forall i :: 0 <= i < |a| ==> '0' <= a[i] <= '9'
    ensures forall i :: 0 <= i < |b| ==> '0' <= b[i] <= '9'
    ensures DigitsValue(a + b) == Shift(DigitsValue(a), |b|) + DigitsValue(b)
    decreases |b|
  {
    assert forall i :: 0 <= i < |a| ==> (a + b)[i] == a[i];
    assert forall i :: 0 <= i < |b| ==> (a + b)[|a| + i] == b[i];
    if b == "" {
      assert a + b == a;
    } else {
      assert (a + b)[..|a + b| - 1] == a + b[..|b| - 1];
      ValueOfConcat(a, b[..|b| - 1]);
    }
  }

  lemma {:induction false} ZerosAreWorthless(n: nat)
    ensures DigitsValue(Zeros(n)) == 0
  {
    if n > 0 {
      ZerosAreWorthless(n - 1);
      assert Zeros(n)[..n - 1] == Zeros(n - 1);
    }
  }

  lemma {:induction false} FormatNatIsShort(n: nat, width: nat)
    requires n < Pow10(width) && width > 0
    ensures |FormatNat(n)| <= width
    decreases width
  {
    if n >= 10 {
      FormatNatIsShort(n / 10, width - 1);
    }
  }

  lemma PaddedHolds(n: nat, width: nat)
    requires n < Pow10(width) && width > 0
    ensures |Padded(n, width)| == width && DigitsValue(Padded(n, width)) == n
  {
    hide Pow10, DigitsValue, FormatNat;
    FormatNatIsShort(n, width);
    ValueOfFormat(n);
    var digits := FormatNat(n);
    if |digits| < width {
      ValueOfConcat(Zeros(width - |digits|), digits);
      ZerosAreWorthless(width - |digits|);
      ShiftMultiplies(0, |digits|);
    }
  }

  lemma {:induction false} TrimKeepsValue(s: string)
    requires forall i :: 0 <= i < |s| ==> '0' <= s[i] <= '9'
    ensures TrimZeros(s) <= s && (TrimZeros(s) != "" ==> TrimZeros(s)[|TrimZeros(s)| - 1] != '0')
    ensures DigitsValue(s) == DigitsValue(TrimZeros(s)) * Pow10(|s| - |TrimZeros(s)|)
    decreases |s|
  {
    if s != "" && s[|s| - 1] == '0' {
      var init := s[..|s| - 1];
      TrimKeepsValue(init);
      var t := TrimZeros(init);
      assert |s| - |t| == |init| - |t| + 1;
      AppendDigit(DigitsValue(t), Pow10(|init| - |t|), 0, 0);
    } else {
      assert Pow10(0) == 1;
    }
  }

  lemma DigitsHaveNoPoint(s: string)
    requires Digits(s)
    ensures '.' !in s && Split(s, '.') == [s]
  {
    SplitWithoutSeparator(s, '.');
  }

  // The round trip

  /** Scaling a fraction of k digits back up to nanoseconds. */
  lemma ScaledSum(seconds: nat, f: nat, remainder: nat, p: nat, q: nat)
    requires p * q == NANOSECONDS && f * q == remainder
    ensures (seconds * p + f) * NANOSECONDS == (seconds * NANOSECONDS + remainder) * p
  {
  }

  lemma BillionIsPow10()
    ensures Pow10(9) == NANOSECONDS
  {
  }

  /** A printed duration parses to exactly nanoseconds / 10^9, and any fraction it shows has
      one to nine digits and no trailing zero. */
  lemma DecimalSecondsIsExact(nanoseconds: nat)
    ensures ParseDecimal(DecimalSeconds(nanoseconds)).Some?
    ensures var r := ParseDecimal(DecimalSeconds(nanoseconds)).value;
            Proper(r) && r.num * NANOSECONDS == nanoseconds * r.den
    ensures var fields := Split(DecimalSeconds(nanoseconds), '.');
            && |fields| == (if nanoseconds % NANOSECONDS == 0 then 1 else 2)
            && (|fields| == 2 ==> 1 <= |fields[1]| <= 9 && fields[1][|fields[1]| - 1] != '0')
  {
    hide Pow10, DigitsValue, FormatNat, Padded, TrimZeros, Split;
    var seconds, remainder := nanoseconds / NANOSECONDS, nanoseconds % NANOSECONDS;
    var whole := FormatNat(seconds);
    ValueOfFormat(seconds);
    DigitsHaveNoPoint(whole);
    if remainder != 0 {
      BillionIsPow10();
      PaddedHolds(remainder, 9);
      var padded := Padded(remainder, 9);
      TrimKeepsValue(padded);
      var fraction := TrimZeros(padded);
      assert fraction != "";
      assert Digits(fraction);
      DigitsHaveNoPoint(fraction);
      SplitOfConcat(whole, fraction, '.');
      assert Split(DecimalSeconds(nanoseconds), '.') == [whole] + [fraction];
      ValueOfConcat(whole, fraction);
      ShiftMultiplies(seconds, |fraction|);
      Pow10Adds(|fraction|, 9 - |fraction|);
      ScaledSum(seconds, DigitsValue(fraction), remainder, Pow10(|fraction|), Pow10(9 - |fraction|));
    }
  }

  // Conversion

  /** CreditRate.Convert: only a whole amount that fits int64 is accepted. */
  function Convert(rate: Ratio, quantity: string): (r: Result<int>)
    requires Proper(rate)
  {
    match ParseDecimal(quantity)
    case None => Err("raw quantity must be an unsigned base-10 decimal")
    case Some(q) =>
      var num, den := q.num * rate.num, q.den * rate.den;
      if den == 0 || num % den != 0 || num / den > MAX_INT64 then
        Err("conversion must produce a whole int64 credit amount")
      else Ok(num / den)
  }

  lemma WholeQuotient(n: nat, d: nat, c: int)
    requires d > 0
    ensures n % d == 0 && n / d == c <==> n == c * d
  {
    var k := c - n / d;
    assert n == n / d * d + n % d;
    assert c * d == n / d * d + k * d;
    if n == c * d {
      SmallMultiple(k, d, n % d);
    }
  }

  lemma SmallMultiple(k: int, d: nat, r: nat)
    requires k * d == r < d
    ensures k == 0
  {
  }

  /** A debit is accepted exactly when rate times elapsed seconds is a whole number of credits
      that fits int64, and then it is that number. */
  lemma DebitIsRateTimesElapsed(rate: Ratio, nanoseconds: nat, credits: int)
    requires Proper(rate)
    ensures Convert(rate, DecimalSeconds(nanoseconds)) == Ok(credits) <==>
              credits * (NANOSECONDS * rate.den) == rate.num * nanoseconds && credits <= MAX_INT64
  {
    hide Convert, ParseDecimal, DecimalSeconds;
    DecimalSecondsIsExact(nanoseconds);
    var q := ParseDecimal(DecimalSeconds(nanoseconds)).value;
    ConvertDecides(rate, DecimalSeconds(nanoseconds), q, credits);
    CrossMultiplied(q, rate, nanoseconds, credits);
  }

  lemma ConvertDecides(rate: Ratio, quantity: string, q: Ratio, credits: int)
    requires Proper(rate) && ParseDecimal(quantity) == Some(q) && Proper(q)
    ensures Convert(rate, quantity) == Ok(credits) <==>
              q.num * rate.num == credits * (q.den * rate.den) && credits <= MAX_INT64
  {
    hide ParseDecimal;
    PositiveProduct(q.den, rate.den);
    WholeQuotient(q.num * rate.num, q.den * rate.den, credits);
  }

  lemma PositiveProduct(a: nat, b: nat)
    requires a > 0 && b > 0
    ensures a * b > 0
  {
  }

  lemma CancelFactor(a: int, b: int, c: nat)
    requires c > 0 && a * c == b * c
    ensures a == b
  {
    assert (a - b) * c == 0;
  }

  lemma CrossMultiplied(q: Ratio, rate: Ratio, nanoseconds: nat, credits: int)
    requires Proper(q) && q.num * NANOSECONDS == nanoseconds * q.den
    ensures q.num * rate.num == credits * (q.den * rate.den) <==>
              credits * (NANOSECONDS * rate.den) == rate.num * nanoseconds
  {
  }

  /** time.Time.Sub saturates at the largest duration. */
  function Elapsed(start: int, stop: int): int {
    if stop - start > MAX_INT64 then MAX_INT64
    else if stop - start < MIN_INT64 then MIN_INT64
    else stop - start
  }
}
