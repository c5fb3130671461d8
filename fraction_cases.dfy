/** The literal scenarios of test_Fraction.cpp, plus two further cases that
    Fraction.hpp shows (a negative denominator at construction, and `<` on two
    negatives). Each method builds the fractions, applies the operator, and
    states the rendered text or the comparison outcomes. The rendering
    scenarios take one test line each; the comparison scenarios group two or
    three adjacent test lines. */
module FractionCases {
  import opened Fractions

  /** Pins a valid fraction to the canonical pair `n/d` of its value. */
  lemma Pin(x: Fraction, n: int, d: int)
    requires x.Valid() && Canonical(n, d) && SameValue(x.numerator, x.denominator, n, d)
    ensures x.numerator == n && x.denominator == d
  {
    CanonicalUnique(x.numerator, x.denominator, n, d);
  }

  /** test_Fraction.cpp line 14: 1/3 is stored as given and renders as `Fraction(1, 3)`. */
  method ConstructThird() returns (s: string)
    ensures s == "Fraction(1, 3)"
  {
    var x := new Fraction(1, 3);
    s := x.ToString();
  }

  /** test_Fraction.cpp line 15: 2/6 is reduced to lowest terms and renders as `Fraction(1, 3)`. */
  method ConstructUnreduced() returns (s: string)
    ensures s == "Fraction(1, 3)"
  {
    var x := new Fraction(2, 6);
    Pin(x, 1, 3);
    s := x.ToString();
  }

  /** test_Fraction.cpp line 16: -1/-3 loses both signs and renders as `Fraction(1, 3)`. */
  method ConstructBothNegative() returns (s: string)
    ensures s == "Fraction(1, 3)"
  {
    var x := new Fraction(-1, -3);
    Pin(x, 1, 3);
    s := x.ToString();
  }

  /** test_Fraction.cpp line 20: 1/3 + 1/3 renders as `Fraction(2, 3)`. */
  method AddThirdToThird() returns (s: string)
    ensures s == "Fraction(2, 3)"
  {
    var x := new Fraction(1, 3);
    var y := new Fraction(1, 3);
    assert x.numerator == 1 && x.denominator == 3;
    assert y.numerator == 1 && y.denominator == 3;
    var r := x.Add(y);
    assert SameValue(r.numerator, r.denominator, 6, 9);
    Pin(r, 2, 3);
    s := r.ToString();
  }

  /** test_Fraction.cpp line 21: 1/3 + (-1/3) renders as the canonical zero `Fraction(0, 1)`. */
  method AddNegativeThird() returns (s: string)
    ensures s == "Fraction(0, 1)"
  {
    var x := new Fraction(1, 3);
    var y := new Fraction(-1, 3);
    assert x.numerator == 1 && x.denominator == 3;
    assert y.numerator == -1 && y.denominator == 3;
    var r := x.Add(y);
    assert SameValue(r.numerator, r.denominator, 0, 9);
    Pin(r, 0, 1);
    s := r.ToString();
  }

  /** test_Fraction.cpp line 22: 1/3 + 2/3 reduces to `Fraction(1, 1)`. */
  method AddTwoThirds() returns (s: string)
    ensures s == "Fraction(1, 1)"
  {
    var x := new Fraction(1, 3);
    var y := new Fraction(2, 3);
    assert x.numerator == 1 && x.denominator == 3;
    assert y.numerator == 2 && y.denominator == 3;
    var r := x.Add(y);
    assert SameValue(r.numerator, r.denominator, 9, 9);
    Pin(r, 1, 1);
    s := r.ToString();
  }

  /** test_Fraction.cpp line 23: 1/3 + 5/3 reduces to `Fraction(2, 1)`. */
  method AddFiveThirds() returns (s: string)
    ensures s == "Fraction(2, 1)"
  {
    var x := new Fraction(1, 3);
    var y := new Fraction(5, 3);
    assert x.numerator == 1 && x.denominator == 3;
    assert y.numerator == 5 && y.denominator == 3;
    var r := x.Add(y);
    assert SameValue(r.numerator, r.denominator, 18, 9);
    Pin(r, 2, 1);
    s := r.ToString();
  }

  /** test_Fraction.cpp line 26: 1/3 - 1/3 renders as `Fraction(0, 1)`. */
  method SubtractThirdFromItself() returns (s: string)
    ensures s == "Fraction(0, 1)"
  {
    var x := new Fraction(1, 3);
    var y := new Fraction(1, 3);
    assert x.numerator == 1 && x.denominator == 3;
    assert y.numerator == 1 && y.denominator == 3;
    var r := x.Subtract(y);
    assert SameValue(r.numerator, r.denominator, 0, 9);
    Pin(r, 0, 1);
    s := r.ToString();
  }

  /** test_Fraction.cpp line 27: 1/3 - (-1/3) renders as `Fraction(2, 3)`. */
  method SubtractNegativeThird() returns (s: string)
    ensures s == "Fraction(2, 3)"
  {
    var x := new Fraction(1, 3);
    var y := new Fraction(-1, 3);
    assert x.numerator == 1 && x.denominator == 3;
    assert y.numerator == -1 && y.denominator == 3;
    var r := x.Subtract(y);
    assert SameValue(r.numerator, r.denominator, 6, 9);
    Pin(r, 2, 3);
    s := r.ToString();
  }

  /** test_Fraction.cpp line 28: 1/3 - 2/3 renders as `Fraction(-1, 3)`. */
  method SubtractTwoThirds() returns (s: string)
    ensures s == "Fraction(-1, 3)"
  {
    var x := new Fraction(1, 3);
    var y := new Fraction(2, 3);
    assert x.numerator == 1 && x.denominator == 3;
    assert y.numerator == 2 && y.denominator == 3;
    var r := x.Subtract(y);
    assert SameValue(r.numerator, r.denominator, -3, 9);
    Pin(r, -1, 3);
    s := r.ToString();
  }

  /** test_Fraction.cpp line 29: -1/3 - 5/3 renders as `Fraction(-2, 1)`. */
  method SubtractFiveThirdsFromNegative() returns (s: string)
    ensures s == "Fraction(-2, 1)"
  {
    var x := new Fraction(-1, 3);
    var y := new Fraction(5, 3);
    assert x.numerator == -1 && x.denominator == 3;
    assert y.numerator == 5 && y.denominator == 3;
    var r := x.Subtract(y);
    assert SameValue(r.numerator, r.denominator, -18, 9);
    Pin(r, -2, 1);
    s := r.ToString();
  }

  /** test_Fraction.cpp line 32: 0/-3 * 1/3 takes the zero-receiver shortcut and renders as `Fraction(0, 1)`. */
  method MultiplyZeroByThird() returns (s: string)
    ensures s == "Fraction(0, 1)"
  {
    var x := new Fraction(0, -3);
    var y := new Fraction(1, 3);
    Pin(x, 0, 1);
    assert y.numerator == 1 && y.denominator == 3;
    var r := x.Multiply(y);
    s := r.ToString();
  }

  /** test_Fraction.cpp line 33: 1/3 * 0/3 takes the zero-operand shortcut and renders as `Fraction(0, 1)`. */
  method MultiplyThirdByZero() returns (s: string)
    ensures s == "Fraction(0, 1)"
  {
    var x := new Fraction(1, 3);
    var y := new Fraction(0, 3);
    assert x.numerator == 1 && x.denominator == 3;
    Pin(y, 0, 1);
    var r := x.Multiply(y);
    s := r.ToString();
  }

  /** test_Fraction.cpp line 34: 1/3 * 1/3 renders as `Fraction(1, 9)`. */
  method MultiplyThirdByThird() returns (s: string)
    ensures s == "Fraction(1, 9)"
  {
    var x := new Fraction(1, 3);
    var y := new Fraction(1, 3);
    assert x.numerator == 1 && x.denominator == 3;
    assert y.numerator == 1 && y.denominator == 3;
    var r := x.Multiply(y);
    assert SameValue(r.numerator, r.denominator, 1, 9);
    Pin(r, 1, 9);
    s := r.ToString();
  }

  /** test_Fraction.cpp line 35: 1/3 * (-1/3) renders as `Fraction(-1, 9)`. */
  method MultiplyThirdByNegativeThird() returns (s: string)
    ensures s == "Fraction(-1, 9)"
  {
    var x := new Fraction(1, 3);
    var y := new Fraction(-1, 3);
    assert x.numerator == 1 && x.denominator == 3;
    assert y.numerator == -1 && y.denominator == 3;
    var r := x.Multiply(y);
    assert SameValue(r.numerator, r.denominator, -1, 9);
    Pin(r, -1, 9);
    s := r.ToString();
  }

  /** test_Fraction.cpp line 36: 2/6 * 3/6 renders as `Fraction(1, 6)`. */
  method MultiplyUnreduced() returns (s: string)
    ensures s == "Fraction(1, 6)"
  {
    var x := new Fraction(2, 6);
    var y := new Fraction(3, 6);
    Pin(x, 1, 3);
    Pin(y, 1, 2);
    var r := x.Multiply(y);
    assert SameValue(r.numerator, r.denominator, 1, 6);
    Pin(r, 1, 6);
    s := r.ToString();
  }

  /** test_Fraction.cpp line 39: 0/-3 / 1/3 renders as `Fraction(0, 1)`. */
  method DivideZeroByThird() returns (s: string)
    ensures s == "Fraction(0, 1)"
  {
    var x := new Fraction(0, -3);
    var y := new Fraction(1, 3);
    Pin(x, 0, 1);
    assert y.numerator == 1 && y.denominator == 3;
    var r := x.Divide(y);
    assert SameValue(r.numerator, r.denominator, 0, 1);
    Pin(r, 0, 1);
    s := r.ToString();
  }

  /** test_Fraction.cpp line 40: 1/3 / 3/3 renders as `Fraction(1, 3)`. */
  method DivideThirdByOne() returns (s: string)
    ensures s == "Fraction(1, 3)"
  {
    var x := new Fraction(1, 3);
    var y := new Fraction(3, 3);
    assert x.numerator == 1 && x.denominator == 3;
    Pin(y, 1, 1);
    var r := x.Divide(y);
    assert SameValue(r.numerator, r.denominator, 1, 3);
    Pin(r, 1, 3);
    s := r.ToString();
  }

  /** test_Fraction.cpp line 41: 1/3 / (-1/3) renders as `Fraction(-1, 1)`: the inverse moves the sign to the numerator. */
  method DivideThirdByNegativeThird() returns (s: string)
    ensures s == "Fraction(-1, 1)"
  {
    var x := new Fraction(1, 3);
    var y := new Fraction(-1, 3);
    assert x.numerator == 1 && x.denominator == 3;
    assert y.numerator == -1 && y.denominator == 3;
    var r := x.Divide(y);
    assert SameValue(r.numerator, r.denominator, 3, -3);
    Pin(r, -1, 1);
    s := r.ToString();
  }

  /** test_Fraction.cpp line 42: -1/3 / 1/3 renders as `Fraction(-1, 1)`. */
  method DivideNegativeThirdByThird() returns (s: string)
    ensures s == "Fraction(-1, 1)"
  {
    var x := new Fraction(-1, 3);
    var y := new Fraction(1, 3);
    assert x.numerator == -1 && x.denominator == 3;
    assert y.numerator == 1 && y.denominator == 3;
    var r := x.Divide(y);
    assert SameValue(r.numerator, r.denominator, -3, 3);
    Pin(r, -1, 1);
    s := r.ToString();
  }

  /** test_Fraction.cpp line 43: 1/3 / 1/3 renders as `Fraction(1, 1)`. */
  method DivideThirdByItself() returns (s: string)
    ensures s == "Fraction(1, 1)"
  {
    var x := new Fraction(1, 3);
    var y := new Fraction(1, 3);
    assert x.numerator == 1 && x.denominator == 3;
    assert y.numerator == 1 && y.denominator == 3;
    var r := x.Divide(y);
    assert SameValue(r.numerator, r.denominator, 3, 3);
    Pin(r, 1, 1);
    s := r.ToString();
  }

  /** test_Fraction.cpp line 44: 1/3 / 3/1 renders as `Fraction(1, 9)`. */
  method DivideThirdByThree() returns (s: string)
    ensures s == "Fraction(1, 9)"
  {
    var x := new Fraction(1, 3);
    var y := new Fraction(3, 1);
    assert x.numerator == 1 && x.denominator == 3;
    assert y.numerator == 3 && y.denominator == 1;
    var r := x.Divide(y);
    assert SameValue(r.numerator, r.denominator, 1, 9);
    Pin(r, 1, 9);
    s := r.ToString();
  }

  /** Normalisation moves the sign of a negative denominator to the
      numerator: 1/-3 renders as `Fraction(-1, 3)`. */
  method ConstructNegativeDenominator() returns (s: string)
    ensures s == "Fraction(-1, 3)"
  {
    var x := new Fraction(1, -3);
    Pin(x, -1, 3);
    s := x.ToString();
  }

  /** test_Fraction.cpp lines 47-49: the three `<` comparisons hold. */
  method LessCases() returns (l1: bool, l2: bool, l3: bool)
    ensures l1 && l2 && l3
  {
    var minusTen := new Fraction(-10, 1);
    var third := new Fraction(1, 3);
    var minusFifth := new Fraction(-1, 5);
    var fifth := new Fraction(1, 5);
    l1, l2, l3 := minusTen.Less(third), minusFifth.Less(third), fifth.Less(third);
  }

  /** test_Fraction.cpp lines 50-51: a value equals itself and its form
      with both signs negated. */
  method EqualsCases() returns (e1: bool, e2: bool)
    ensures e1 && e2
  {
    var third := new Fraction(1, 3);
    var other := new Fraction(1, 3);
    var third' := new Fraction(-1, -3);
    Pin(third', 1, 3);
    e1, e2 := third.Equals(other), third.Equals(third');
  }

  /** test_Fraction.cpp lines 52-53: a negative denominator and an unreduced
      form compare equal to the canonical value. */
  method NormalizedEqualsCases() returns (e3: bool, e4: bool)
    ensures e3 && e4
  {
    var third := new Fraction(1, 3);
    var minusThird := new Fraction(-1, 3);
    var minusThird' := new Fraction(1, -3);
    var third' := new Fraction(2, 6);
    Pin(minusThird', -1, 3);
    Pin(third', 1, 3);
    e3, e4 := minusThird.Equals(minusThird'), third.Equals(third');
  }

  /** test_Fraction.cpp lines 54-56: the three `>` comparisons hold. */
  method GreaterCases() returns (g1: bool, g2: bool, g3: bool)
    ensures g1 && g2 && g3
  {
    var minusTen := new Fraction(-10, 1);
    var third := new Fraction(1, 3);
    var minusFifth := new Fraction(-1, 5);
    var fifth := new Fraction(1, 5);
    g1, g2, g3 := third.Greater(fifth), third.Greater(minusFifth), third.Greater(minusTen);
  }

  /** The defect of `<` for two negative operands: -1/2 is below -1/3 as a
      rational, yet `<` answers false and `>` answers true; the corrected
      comparison answers true. */
  method NegativeOrderDefect() returns (less: bool, greater: bool, corrected: bool)
    ensures !less && greater && corrected
  {
    var minusHalf := new Fraction(-1, 2);
    var minusThird := new Fraction(-1, 3);
    less := minusHalf.Less(minusThird);
    greater := minusHalf.Greater(minusThird);
    corrected := minusHalf.LessCorrected(minusThird);
  }
}
