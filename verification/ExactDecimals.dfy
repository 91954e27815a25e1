/** The odometer's exact decimals: a big integer of units at a scale. */
module ExactDecimals {
  import opened Prelude
  import opened Text
  import opened Decimals

  datatype Exact = Exact(units: int, scale: nat)
  {
    /** The real number the units stand for. */
    function Denotes(): real {
      units as real / Pow10(scale) as real
    }
  }

  /** A JavaScript number, by the numeral `String` prints for it when it is finite. */
  datatype Number = NonFinite | Finite(numeral: Numeral)

  function Coefficient(n: Numeral): int {
    var c: int := NumberOf(n.whole + n.FractionDigits());
    if n.negative then -c else c
  }

  function Decimal(n: Numeral): Exact {
    var scale := |n.FractionDigits()| - n.Power();
    var units := Coefficient(n);
    if scale < 0 then Exact(units * Pow10(-scale), 0) else Exact(units, scale)
  }

  function Max(a: nat, b: nat): nat {
    if a >= b then a else b
  }

  /** Units at a scale finer by `more` digits. */
  function Raise(units: int, more: nat): int {
    units * Pow10(more)
  }

  function Subtract(left: Exact, right: Exact): Exact {
    var scale := Max(left.scale, right.scale);
    Exact(Raise(left.units, scale - left.scale) - Raise(right.units, scale - right.scale), scale)
  }

  /** The text `decimalValue` builds. */
  function DecimalText(value: Exact): Text {
    var magnitude: nat := if value.units < 0 then -value.units else value.units;
    var digits := PadStart(DigitsOf(magnitude), value.scale + 1);
    var sign: Text := if value.units < 0 then [MINUS] else [];
    if value.scale == 0 then sign + digits
    else sign + digits[..|digits| - value.scale] + [DOT] + digits[|digits| - value.scale..]
  }

  function PadStart(digits: Text, length: nat): (r: Text)
    requires AllDigits(digits)
    ensures |r| >= length && |r| >= |digits| && AllDigits(r) && NumberOf(r) == NumberOf(digits)
  {
    if |digits| >= length then digits
    else
      NumberOfZeros(length - |digits|, digits);
      Zeros(length - |digits|) + digits
  }

  predicate Exceeds(value: Exact, threshold: Numeral) {
    Subtract(value, Decimal(threshold)).units > 0
  }

  /** Reading a finite number is exact. */
  lemma DecimalIsExact(n: Numeral)
    ensures Decimal(n).Denotes() == n.Denotes()
  {
    hide NumberOf, Numeral.FractionDigits, Numeral.Power, Numeral.Denotes, Pow10;
    var f := n.FractionDigits();
    var scale := |f| - n.Power();
    var c: int := NumberOf(n.whole + f);
    DenotesCoefficient(n);
    if scale < 0 {
      ProductReal(Coefficient(n), Pow10(-scale));
      Pow10Zero();
      assert Scale(-scale) == Pow10(-scale) as real;
    } else {
      QuotientReal(Coefficient(n) as real, Pow10(scale));
      ScaleNegative(scale);
    }
    SignOut(n.Sign(), c as real, Scale(-scale));
  }

  lemma Pow10Zero()
    ensures Pow10(0) == 1
  {
  }

  lemma ScaleNegative(scale: int)
    requires scale >= 0
    ensures Scale(-scale) == 1.0 / Pow10(scale) as real
  {
  }

  lemma QuotientReal(x: real, p: nat)
    requires p > 0
    ensures x / p as real == x * (1.0 / p as real)
  {
  }

  lemma SignOut(s: real, c: real, q: real)
    ensures s * (c * q) == (s * c) * q
  {
  }

  /** Raising units to a larger scale keeps the number. */
  lemma Rescale(units: int, scale: nat, more: nat)
    ensures Raise(units, more) as real / Pow10(scale + more) as real == units as real / Pow10(scale) as real
  {
    hide Pow10;
    Pow10Add(scale, more);
    ProductReal(units, Pow10(more));
    ProductReal(Pow10(scale), Pow10(more));
    CancelFactor(units as real, Pow10(scale) as real, Pow10(more) as real);
  }

  lemma CancelFactor(u: real, p: real, m: real)
    requires p > 0.0 && m > 0.0 && p * m > 0.0
    ensures (u * m) / (p * m) == u / p
  {
    var q := u / p;
    assert q * p == u;
    assert q * (p * m) == u * m;
  }

  /** The difference is exact, at the finer of the two scales. */
  lemma SubtractIsExact(left: Exact, right: Exact)
    ensures Subtract(left, right).Denotes() == left.Denotes() - right.Denotes()
    ensures Subtract(left, right).scale == Max(left.scale, right.scale)
  {
    hide Pow10, Raise;
    var scale := Max(left.scale, right.scale);
    var a := Raise(left.units, scale - left.scale);
    var b := Raise(right.units, scale - right.scale);
    Rescale(left.units, left.scale, scale - left.scale);
    Rescale(right.units, right.scale, scale - right.scale);
    DifferenceOver(a, b, Pow10(scale));
  }

  lemma DifferenceOver(a: int, b: int, p: nat)
    requires p > 0
    ensures (a - b) as real / p as real == a as real / p as real - b as real / p as real
  {
  }

  lemma SignOfDenotes(value: Exact)
    ensures value.Denotes() > 0.0 <==> value.units > 0
    ensures value.Denotes() == 0.0 <==> value.units == 0
  {
    QuotientSign(value.units as real, Pow10(value.scale) as real);
  }

  lemma QuotientSign(u: real, p: real)
    requires p > 0.0
    ensures u / p > 0.0 <==> u > 0.0
    ensures u / p == 0.0 <==> u == 0.0
  {
    assert (u / p) * p == u;
  }

  /** The comparison with a threshold is the comparison of the numbers: no rounding near it. */
  lemma ExceedsIsExact(value: Exact, threshold: Numeral)
    ensures Exceeds(value, threshold) <==> value.Denotes() > threshold.Denotes()
  {
    hide Numeral.Denotes, Exact.Denotes;
    DecimalIsExact(threshold);
    SubtractIsExact(value, Decimal(threshold));
    SignOfDenotes(Subtract(value, Decimal(threshold)));
  }

  /** The parts of the printed text. */
  function Printed(value: Exact): Numeral {
    var magnitude: nat := if value.units < 0 then -value.units else value.units;
    var digits := PadStart(DigitsOf(magnitude), value.scale + 1);
    var cut := |digits| - value.scale;
    Numeral(value.units < 0, digits[..cut], if value.scale == 0 then None else Some(digits[cut..]), None)
  }

  /** Reading the printed text back gives the same units and the same scale. */
  lemma DecimalTextRoundTrip(value: Exact)
    ensures Match(DecimalText(value)) == Some(Printed(value))
    ensures Decimal(Printed(value)) == value
  {
    hide DigitsOf, PadStart, Match, NumberOf;
    var magnitude: nat := if value.units < 0 then -value.units else value.units;
    var digits := PadStart(DigitsOf(magnitude), value.scale + 1);
    var p := Printed(value);
    var cut := |digits| - value.scale;
    assert digits[..cut] + digits[cut..] == digits;
    assert p.WellFormed();
    assert p.whole + p.FractionDigits() == digits;
    MatchIsComplete(p);
    assert SpellExponent(None) == [];
    assert p.Spell() == DecimalText(value);
  }

  // ----- a chain of readings -----

  /** One trip's readings along a chain. */
  datatype Leg = Leg(startKm: Numeral, endKm: Numeral)

  function Distance(leg: Leg): Exact {
    Subtract(Decimal(leg.endKm), Decimal(leg.startKm))
  }

  function Gap(previous: Leg, leg: Leg): Exact {
    Subtract(Decimal(leg.startKm), Decimal(previous.endKm))
  }

  /** All distances of a chain and all gaps between neighbours, added up. */
  function Travelled(chain: seq<Leg>): real
    requires chain != []
  {
    var last := |chain| - 1;
    if last == 0 then Distance(chain[0]).Denotes()
    else
      Travelled(chain[..last]) + Gap(chain[last - 1], chain[last]).Denotes() + Distance(chain[last]).Denotes()
  }

  /** Distances and gaps lose nothing: together they are the last reading minus the first. */
  lemma {:induction false} ChainTelescopes(chain: seq<Leg>)
    requires chain != []
    ensures Travelled(chain) == chain[|chain| - 1].endKm.Denotes() - chain[0].startKm.Denotes()
  {
    hide Numeral.Denotes, Exact.Denotes, Decimal, Subtract;
    var last := |chain| - 1;
    DecimalIsExact(chain[last].endKm);
    DecimalIsExact(chain[last].startKm);
    SubtractIsExact(Decimal(chain[last].endKm), Decimal(chain[last].startKm));
    if last > 0 {
      ChainTelescopes(chain[..last]);
      DecimalIsExact(chain[last - 1].endKm);
      SubtractIsExact(Decimal(chain[last].startKm), Decimal(chain[last - 1].endKm));
    }
  }
}
