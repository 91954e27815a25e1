/** `scaledMeasurement`: exact thousandths of a decimal text, within Decimal(16,3). */
module Measurement {
  import opened Prelude
  import opened Text
  import opened Decimals

  const LIMIT: int := 9_999_999_999_999_999
  const MAX_LENGTH := 128
  const MAX_EXPONENT := 128

  function Signed(negative: bool, n: int): int {
    if negative then -n else n
  }

  /** `Number(exponent)` is modelled by the exponent's exact value: the two agree up to 128, and a
      larger exponent stays larger after rounding. */
  function ScaledMeasurement(value: Text): Option<int> {
    if |value| > MAX_LENGTH then None
    else match Match(value)
      case None => None
      case Some(parts) =>
        var fraction := parts.FractionDigits();
        var exponent := parts.Power();
        if exponent > MAX_EXPONENT || -exponent > MAX_EXPONENT then None
        else
          var coefficient := NumberOf(parts.whole + fraction);
          if coefficient == 0 then Some(0)
          else
            var scale := 3 + exponent - |fraction|;
            if scale >= 0 then
              if scale > 16 then None
              else
                var scaled := coefficient * Pow10(scale);
                if scaled > LIMIT then None else Some(Signed(parts.negative, scaled))
            else
              var divisor := Pow10(-scale);
              if coefficient % divisor != 0 then None
              else
                var scaled := coefficient / divisor;
                if scaled > LIMIT then None else Some(Signed(parts.negative, scaled))
  }

  /** The texts inside the length and exponent limits. */
  predicate WithinLimits(value: Text) {
    |value| <= MAX_LENGTH && Match(value).Some? && -MAX_EXPONENT <= Match(value).value.Power() <= MAX_EXPONENT
  }

  /** `n` is exactly the value of the numeral in thousandths, and fits. */
  predicate IsThousandths(n: int, parts: Numeral) {
    n as real == 1000.0 * parts.Denotes() && -LIMIT <= n <= LIMIT
  }

  /** The magnitude of the value in thousandths. */
  function Thousandths(parts: Numeral): real {
    NumberOf(parts.whole + parts.FractionDigits()) as real * Scale(3 + parts.Power() - |parts.FractionDigits()|)
  }

  lemma ThousandthsDenotes(parts: Numeral)
    ensures 1000.0 * parts.Denotes() == parts.Sign() * Thousandths(parts)
  {
    hide NumberOf, Pow10, Scale, Numeral.FractionDigits, Numeral.Power, Numeral.Sign, Numeral.Denotes;
    var f := parts.FractionDigits();
    DenotesCoefficient(parts);
    ScaleAdd(parts.Power() - |f|, 3);
    ScaleThree();
    Regroup1000(parts.Sign(), NumberOf(parts.whole + f) as real, Scale(parts.Power() - |f|));
  }

  lemma ScaleThree()
    ensures Scale(3) == 1000.0
  {
    assert Pow10(2) == 100;
  }

  lemma Regroup1000(s: real, c: real, q: real)
    ensures 1000.0 * (s * (c * q)) == s * (c * (q * 1000.0))
  {
    Associate(c, q, 1000.0);
    Associate(s, c * q, 1000.0);
  }

  /** A whole number scaled up beyond the bound cannot fit. */
  lemma TooLarge(coefficient: int, scale: int)
    requires coefficient > 0 && scale > 16
    ensures coefficient * Pow10(scale) > LIMIT
  {
    hide Pow10;
    Pow10Monotone(17, scale);
    SeventeenthPower();
    AtLeastOne(coefficient, Pow10(scale));
  }

  lemma AtLeastOne(c: int, p: int)
    requires c > 0 && p > 0
    ensures c * p >= p
  {
    assert (c - 1) * p >= 0;
  }

  lemma SeventeenthPower()
    ensures Pow10(17) == 100_000_000_000_000_000
  {
    assert Pow10(2) == 100;
    assert Pow10(5) == 100_000;
    Pow10Add(5, 5);
    Pow10Add(10, 5);
    Pow10Add(15, 2);
  }

  /** A quotient by a power of ten is whole exactly when the remainder is zero. */
  lemma WholeQuotient(coefficient: nat, divisor: nat, n: int)
    requires divisor > 0
    ensures (n as real == coefficient as real * (1.0 / divisor as real)) <==>
            (coefficient % divisor == 0 && n == coefficient / divisor)
  {
    var c, d := coefficient as real, divisor as real;
    assert c * (1.0 / d) == c / d;
    assert (n as real == c / d) <==> (n as real * d == c) by {
      assert (c / d) * d == c;
      if n as real * d == c {
        assert (n as real * d) / d == n as real;
      }
    }
    assert (n as real * d == c) <==> n * divisor == coefficient by {
      assert (n * divisor) as real == n as real * d;
    }
    assert coefficient == divisor * (coefficient / divisor) + coefficient % divisor;
    if n * divisor == coefficient {
      ExactQuotient(n, divisor);
    }
  }

  lemma ExactQuotient(n: int, divisor: nat)
    requires divisor > 0
    ensures (n * divisor) % divisor == 0 && (n * divisor) / divisor == n
  {
    var q, r := (n * divisor) / divisor, (n * divisor) % divisor;
    assert n * divisor == q * divisor + r;
    if q < n {
      AtLeastOne(n - q, divisor);
    } else if q > n {
      AtLeastOne(q - n, divisor);
    }
  }

  /** The magnitude branch of the code, against the magnitude of the value. */
  lemma MagnitudeIsExact(coefficient: nat, scale: int, m: int)
    ensures m as real == coefficient as real * Scale(scale) <==>
            if scale >= 0 then m == coefficient * Pow10(scale)
            else coefficient % Pow10(-scale) == 0 && m == coefficient / Pow10(-scale)
  {
    hide Pow10;
    if scale >= 0 {
      ProductReal(coefficient, Pow10(scale));
    } else {
      WholeQuotient(coefficient, Pow10(-scale), m);
    }
  }

  /** `m` is the magnitude the code computes from a coefficient and a scale, if it fits. */
  predicate FitsMagnitude(coefficient: nat, scale: int, m: int) {
    m <= LIMIT &&
    if scale >= 0 then m == coefficient * Pow10(scale)
    else coefficient % Pow10(-scale) == 0 && m == coefficient / Pow10(-scale)
  }

  lemma CodeMagnitude(value: Text, n: int)
    requires WithinLimits(value)
    ensures var parts := Match(value).value;
            var f := parts.FractionDigits();
            ScaledMeasurement(value) == Some(n) <==>
            FitsMagnitude(NumberOf(parts.whole + f), 3 + parts.Power() - |f|, Signed(parts.negative, n))
  {
    hide NumberOf, Pow10, Numeral.FractionDigits, Numeral.Power, Match;
    var parts := Match(value).value;
    var f := parts.FractionDigits();
    var coefficient := NumberOf(parts.whole + f);
    var scale := 3 + parts.Power() - |f|;
    if coefficient == 0 {
      ZeroMagnitude(scale, Signed(parts.negative, n));
    } else if scale > 16 {
      TooLarge(coefficient, scale);
    }
  }

  lemma ZeroMagnitude(scale: int, m: int)
    ensures FitsMagnitude(0, scale, m) <==> m == 0
  {
    if scale < 0 {
      ExactQuotient(0, Pow10(-scale));
    }
  }

  lemma ExactWithinLimits(value: Text, n: int)
    requires WithinLimits(value)
    ensures ScaledMeasurement(value) == Some(n) <==> IsThousandths(n, Match(value).value)
  {
    hide NumberOf, Pow10, Scale, Numeral.FractionDigits, Numeral.Power, Numeral.Denotes, Match, ScaledMeasurement;
    var parts := Match(value).value;
    var f := parts.FractionDigits();
    var coefficient := NumberOf(parts.whole + f);
    var scale := 3 + parts.Power() - |f|;
    var m := Signed(parts.negative, n);
    CodeMagnitude(value, n);
    ThousandthsDenotes(parts);
    MagnitudeIsExact(coefficient, scale, m);
    SignedReal(parts.negative, n, Thousandths(parts));
    if m as real == Thousandths(parts) {
      NonNegativeProduct(coefficient as real, Scale(scale));
    }
  }

  lemma NonNegativeProduct(x: real, y: real)
    requires x >= 0.0 && y >= 0.0
    ensures x * y >= 0.0
  {
  }

  lemma SignedReal(negative: bool, n: int, t: real)
    ensures n as real == (if negative then -1.0 else 1.0) * t <==> Signed(negative, n) as real == t
  {
  }

  /** For every text, the result is `n` exactly when the text is within the limits, denotes n/1000 and n
      fits: nothing is rounded or clamped, and no exact value within the limits is refused. */
  lemma ScaledMeasurementIsExact(value: Text, n: int)
    ensures ScaledMeasurement(value) == Some(n) <==> WithinLimits(value) && IsThousandths(n, Match(value).value)
  {
    hide IsThousandths, Match;
    if WithinLimits(value) {
      ExactWithinLimits(value, n);
    }
  }

  /** Two spellings of one value give one result. */
  lemma SpellingDoesNotMatter(a: Numeral, b: Numeral)
    requires a.WellFormed() && b.WellFormed() && a.Denotes() == b.Denotes()
    requires WithinLimits(a.Spell()) && WithinLimits(b.Spell())
    ensures ScaledMeasurement(a.Spell()) == ScaledMeasurement(b.Spell())
  {
    MatchIsComplete(a);
    MatchIsComplete(b);
    var ra, rb := ScaledMeasurement(a.Spell()), ScaledMeasurement(b.Spell());
    if ra.Some? {
      ScaledMeasurementIsExact(a.Spell(), ra.value);
      ScaledMeasurementIsExact(b.Spell(), ra.value);
    } else if rb.Some? {
      ScaledMeasurementIsExact(b.Spell(), rb.value);
      ScaledMeasurementIsExact(a.Spell(), rb.value);
    }
  }
}
