/** Decimal numerals as texts, and the exact numbers they denote. */
module Decimals {
  import opened Prelude
  import opened Text

  const LOWER_E: CodeUnit := 0x65
  const UPPER_E: CodeUnit := 0x45

  /** The exponent of a numeral: its mark (e or E), its sign if one is written, and its digits. */
  datatype Exponent = Exponent(upper: bool, sign: Option<CodeUnit>, digits: Text)

  /** The parts the pattern `^(-?)(\d+)(?:\.(\d+))?(?:[eE]([+-]?\d+))?$` picks out of a text. */
  datatype Numeral = Numeral(negative: bool, whole: Text, fraction: Option<Text>, exponent: Option<Exponent>)
  {
    predicate WellFormed() {
      && whole != [] && AllDigits(whole)
      && (fraction.Some? ==> fraction.value != [] && AllDigits(fraction.value))
      && (exponent.Some? ==>
            && exponent.value.digits != [] && AllDigits(exponent.value.digits)
            && (exponent.value.sign.Some? ==> exponent.value.sign.value in {PLUS, MINUS}))
    }

    function FractionDigits(): Text {
      if fraction.Some? then fraction.value else []
    }

    /** The value of the exponent, zero when none is written. */
    function Power(): int {
      match exponent
      case None => 0
      case Some(e) =>
        var n: int := NumberOf(e.digits);
        if e.sign == Some(MINUS) then -n else n
    }

    function Sign(): real {
      if negative then -1.0 else 1.0
    }

    /** The real number the numeral stands for. */
    function Denotes(): real {
      var f := FractionDigits();
      Sign() * (NumberOf(whole) as real + NumberOf(f) as real / Pow10(|f|) as real) * Scale(Power())
    }

    function Spell(): Text {
      (if negative then [MINUS] else []) + (whole + (SpellFraction(fraction) + SpellExponent(exponent)))
    }
  }

  function SpellExponent(exponent: Option<Exponent>): Text {
    match exponent
    case None => []
    case Some(e) =>
      [if e.upper then UPPER_E else LOWER_E] + (match e.sign case None => [] case Some(c) => [c]) + e.digits
  }

  function SpellFraction(fraction: Option<Text>): Text {
    match fraction case None => [] case Some(f) => [DOT] + f
  }

  // ----- powers of ten and digits -----

  function Pow10(n: nat): (p: nat)
    ensures p > 0
  {
    if n == 0 then 1 else 10 * Pow10(n - 1)
  }

  /** Ten to an integer power, as a real. */
  function Scale(e: int): (r: real)
    ensures r > 0.0
  {
    if e >= 0 then Pow10(e) as real else 1.0 / Pow10(-e) as real
  }

  function NumberOf(digits: Text): nat {
    if digits == [] then 0
    else 10 * NumberOf(digits[..|digits| - 1]) + DigitValue(digits[|digits| - 1])
  }

  function DigitValue(c: CodeUnit): nat {
    if IsDigit(c) then c - ZERO else 0
  }

  lemma {:induction false} Pow10Add(m: nat, n: nat)
    ensures Pow10(m + n) == Pow10(m) * Pow10(n)
  {
    if m > 0 {
      Pow10Add(m - 1, n);
    }
  }

  lemma {:induction false} Pow10Monotone(m: nat, n: nat)
    requires m <= n
    ensures Pow10(m) <= Pow10(n)
  {
    if m < n {
      Pow10Monotone(m, n - 1);
    }
  }

  lemma {:induction false} ScaleStep(e: int)
    ensures Scale(e + 1) == 10.0 * Scale(e)
  {
    if e < -1 {
      var p := Pow10(-e - 1) as real;
      assert Pow10(-e) as real == 10.0 * p;
      assert 1.0 / p == 10.0 * (1.0 / (10.0 * p));
    }
  }

  lemma Associate(x: real, y: real, z: real)
    ensures x * (y * z) == (x * y) * z
  {
  }

  lemma AssociateInt(x: int, y: int, z: int)
    ensures x * (y * z) == (x * y) * z
  {
  }

  lemma ProductReal(x: int, y: int)
    ensures (x * y) as real == x as real * y as real
  {
  }

  lemma TenTimes(x: real, y: real)
    ensures x * (10.0 * y) == 10.0 * (x * y)
  {
  }

  lemma {:induction false} ScaleAdd(a: int, n: nat)
    ensures Scale(a + n) == Scale(a) * Scale(n)
  {
    hide Scale;
    if n > 0 {
      ScaleAdd(a, n - 1);
      ScaleStep(a + (n - 1));
      ScaleStep(n - 1);
      TenTimes(Scale(a), Scale(n - 1));
    } else {
      ScaleZero();
    }
  }

  lemma ScaleZero()
    ensures Scale(0) == 1.0
  {
  }

  lemma {:induction false} NumberOfConcat(a: Text, b: Text)
    ensures NumberOf(a + b) == NumberOf(a) * Pow10(|b|) + NumberOf(b)
  {
    if b == [] {
      assert a + b == a;
    } else {
      var n := |b| - 1;
      NumberOfConcat(a, b[..n]);
      assert (a + b)[..|a + b| - 1] == a + b[..n];
      AssociateInt(10, NumberOf(a), Pow10(n));
      AssociateInt(NumberOf(a), 10, Pow10(n));
    }
  }

  lemma {:induction false} NumberOfBound(a: Text)
    ensures NumberOf(a) < Pow10(|a|)
  {
    if a != [] {
      NumberOfBound(a[..|a| - 1]);
    }
  }

  /** The value of a numeral is its digits, without the point, at a shifted power of ten. */
  lemma DenotesCoefficient(n: Numeral)
    ensures var f := n.FractionDigits();
            n.Denotes() == n.Sign() * (NumberOf(n.whole + f) as real * Scale(n.Power() - |f|))
  {
    hide NumberOf, Pow10, Scale, Numeral.FractionDigits, Numeral.Power, Numeral.Sign;
    var f := n.FractionDigits();
    var w, d, p := NumberOf(n.whole), NumberOf(f), Pow10(|f|);
    NumberOfConcat(n.whole, f);
    Fold(w, d, p);
    ScaleAdd(n.Power() - |f|, |f|);
    ScaleNat(|f|);
    Regroup(n.Sign(), w as real + d as real / p as real, p as real, Scale(n.Power() - |f|));
  }

  lemma ScaleNat(n: nat)
    ensures Scale(n) == Pow10(n) as real
  {
  }

  lemma Fold(w: int, d: int, p: nat)
    requires p > 0
    ensures (w * p + d) as real == (w as real + d as real / p as real) * p as real
  {
    var q := d as real / p as real;
    assert q * p as real == d as real;
    assert (w * p) as real == w as real * p as real;
    Distribute(w as real, q, p as real);
  }

  lemma Distribute(x: real, y: real, z: real)
    ensures (x + y) * z == x * z + y * z
  {
  }

  lemma Regroup(s: real, x: real, p: real, q: real)
    ensures s * x * (q * p) == s * (x * p * q)
  {
    Associate(s, x, q * p);
    Associate(x, p, q);
    assert p * q == q * p;
  }

  // ----- matching a text against the pattern -----

  /** The exponent part, when it reaches to the end of the text. */
  function MatchExponent(s: Text): Option<Option<Exponent>> {
    if s == [] then Some(None)
    else if s[0] != LOWER_E && s[0] != UPPER_E then None
    else
      var sign := if |s| > 1 && (s[1] == PLUS || s[1] == MINUS) then Some(s[1]) else None;
      var digits := s[if sign.Some? then 2 else 1..];
      if digits != [] && DigitRun(digits) == |digits| then Some(Some(Exponent(s[0] == UPPER_E, sign, digits)))
      else None
  }

  function MatchFraction(s: Text): (Option<Text>, Text) {
    if s != [] && s[0] == DOT && DigitRun(s[1..]) > 0 then
      (Some(s[1..][..DigitRun(s[1..])]), s[1..][DigitRun(s[1..])..])
    else (None, s)
  }

  /** The match of the whole pattern, if there is one. */
  function Match(text: Text): Option<Numeral> {
    var negative := text != [] && text[0] == MINUS;
    var s := if negative then text[1..] else text;
    var n := DigitRun(s);
    if n == 0 then None
    else
      var (fraction, rest) := MatchFraction(s[n..]);
      match MatchExponent(rest)
      case None => None
      case Some(exponent) => Some(Numeral(negative, s[..n], fraction, exponent))
  }

  lemma MatchedExponent(s: Text)
    requires MatchExponent(s).Some?
    ensures var n := Numeral(false, [ZERO], None, MatchExponent(s).value);
            n.WellFormed() && SpellExponent(n.exponent) == s
  {
    if s != [] {
      var skip := if |s| > 1 && (s[1] == PLUS || s[1] == MINUS) then 2 else 1;
      assert s[skip..][..|s[skip..]|] == s[skip..];
      assert s == s[..skip] + s[skip..];
    }
  }

  lemma MatchedFraction(s: Text)
    ensures var (fraction, rest) := MatchFraction(s);
            var n := Numeral(false, [ZERO], fraction, None);
            n.WellFormed() && SpellFraction(n.fraction) + rest == s
  {
  }

  /** A match accounts for the whole text. */
  lemma MatchIsSound(text: Text)
    requires Match(text).Some?
    ensures Match(text).value.WellFormed() && Match(text).value.Spell() == text
  {
    hide MatchFraction, MatchExponent, DigitRun, SpellFraction, SpellExponent;
    var s := if text != [] && text[0] == MINUS then text[1..] else text;
    var n := DigitRun(s);
    var (fraction, rest) := MatchFraction(s[n..]);
    MatchedFraction(s[n..]);
    MatchedExponent(rest);
    var m := Match(text).value;
    assert SpellFraction(m.fraction) + SpellExponent(m.exponent) == s[n..];
    assert s == s[..n] + s[n..];
    assert n > 0;
  }

  lemma ExponentMatches(n: Numeral)
    requires n.WellFormed()
    ensures MatchExponent(SpellExponent(n.exponent)) == Some(n.exponent)
    ensures SpellExponent(n.exponent) == [] || (!IsDigit(SpellExponent(n.exponent)[0]) && SpellExponent(n.exponent)[0] != DOT)
  {
    match n.exponent
    case None =>
    case Some(e) =>
      var s := SpellExponent(n.exponent);
      DigitRunAppend(e.digits, []);
      assert e.digits + [] == e.digits;
      assert s[if e.sign.Some? then 2 else 1..] == e.digits;
  }

  lemma FractionMatches(n: Numeral)
    requires n.WellFormed()
    ensures MatchFraction(SpellFraction(n.fraction) + SpellExponent(n.exponent)) == (n.fraction, SpellExponent(n.exponent))
    ensures var s := SpellFraction(n.fraction) + SpellExponent(n.exponent); s == [] || !IsDigit(s[0])
  {
    hide SpellExponent, MatchExponent;
    ExponentMatches(n);
    match n.fraction
    case None => assert SpellFraction(n.fraction) + SpellExponent(n.exponent) == SpellExponent(n.exponent);
    case Some(f) =>
      var s := SpellFraction(n.fraction) + SpellExponent(n.exponent);
      assert s[1..] == f + SpellExponent(n.exponent);
      DigitRunAppend(f, SpellExponent(n.exponent));
  }

  /** A match by the sign, the digits in front, and what the rest matches. */
  lemma MatchByParts(negative: bool, whole: Text, tail: Text, fraction: Option<Text>, exponent: Option<Exponent>)
    requires whole != [] && AllDigits(whole) && DigitRun(whole + tail) == |whole|
    requires MatchFraction(tail).0 == fraction && MatchExponent(MatchFraction(tail).1) == Some(exponent)
    ensures Match((if negative then [MINUS] else []) + (whole + tail)) == Some(Numeral(negative, whole, fraction, exponent))
  {
    hide MatchFraction, MatchExponent, DigitRun;
    var s := whole + tail;
    assert s[..|whole|] == whole && s[|whole|..] == tail;
    assert IsDigit(whole[0]) && s[0] == whole[0];
    if negative {
      assert ([MINUS] + s)[1..] == s;
    } else {
      assert [] + s == s;
    }
  }

  /** Every well-formed numeral is matched, by its own parts and no others. */
  lemma MatchIsComplete(n: Numeral)
    requires n.WellFormed()
    ensures Match(n.Spell()) == Some(n)
  {
    hide Match, MatchFraction, MatchExponent, SpellFraction, SpellExponent, DigitRun;
    var tail := SpellFraction(n.fraction) + SpellExponent(n.exponent);
    FractionMatches(n);
    ExponentMatches(n);
    DigitRunAppend(n.whole, tail);
    MatchByParts(n.negative, n.whole, tail, n.fraction, n.exponent);
  }

  // ----- printing -----

  /** The decimal digits of a natural number, as `BigInt.prototype.toString` prints them. */
  function DigitsOf(n: nat): (s: Text)
    ensures s != [] && AllDigits(s) && NumberOf(s) == n
  {
    if n < 10 then
      var d: CodeUnit := ZERO + n;
      assert [d][..0] == [];
      [d]
    else
      var front := DigitsOf(n / 10);
      var d: CodeUnit := ZERO + n % 10;
      assert (front + [d])[..|front|] == front;
      front + [d]
  }

  function Zeros(n: nat): (s: Text)
    ensures |s| == n && AllDigits(s)
  {
    seq(n, _ => ZERO)
  }

  lemma {:induction false} NumberOfZeros(n: nat, s: Text)
    ensures NumberOf(Zeros(n) + s) == NumberOf(s)
  {
    NumberOfConcat(Zeros(n), s);
    ZerosAreZero(n);
  }

  lemma {:induction false} ZerosAreZero(n: nat)
    ensures NumberOf(Zeros(n)) == 0
  {
    if n > 0 {
      ZerosAreZero(n - 1);
      assert Zeros(n)[..n - 1] == Zeros(n - 1);
    }
  }
}
