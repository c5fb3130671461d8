/** The exact rational-number value type `interview::Fraction<T>` (Fraction.hpp),
    with `T` taken as the unbounded integers.

    A fraction stores a numerator and a denominator, and every operation keeps
    the object invariant `Valid()`: the denominator is positive and coprime to
    the numerator, so zero is stored as 0/1 and each rational has exactly one
    stored form (`CanonicalUnique`). Every construction and every general-case
    in-place operation ends in `Normalize`; the zero shortcuts of `+=` and
    `*=` return early, keeping the receiver, copying the other operand's pair
    or storing 0/1, each of which is already canonical. Arithmetic results
    are specified against rational arithmetic by cross-multiplication
    (`SameValue`). */
module Fractions {
  import opened Numbers
  import opened Decimal

  /** `n/d` is in lowest terms with a positive denominator. */
  predicate Canonical(n: int, d: int) {
    d > 0 && Gcd(Abs(n), d) == 1
  }

  /** `a/b` and `c/d` denote the same rational (for non-zero `b` and `d`). */
  predicate SameValue(a: int, b: int, c: int, d: int) {
    a * d == c * b
  }

  /** `a/b` is smaller than `c/d` as a rational (for positive `b` and `d`). */
  predicate Below(a: int, b: int, c: int, d: int) {
    a * d < c * b
  }

  /** The only canonical zero is 0/1. */
  lemma CanonicalZero(d: int)
    ensures Canonical(0, d) <==> d == 1
  {
    if d > 0 {
      assert Gcd(0, d) == Gcd(d, 0);
    }
  }

  /** Each rational has exactly one canonical form: two canonical pairs that
      denote the same rational are the same pair. */
  lemma CanonicalUnique(a: int, b: int, c: int, d: int)
    ensures Canonical(a, b) && Canonical(c, d) && SameValue(a, b, c, d) ==> a == c && b == d
  {
    if Canonical(a, b) && Canonical(c, d) && SameValue(a, b, c, d) {
      DividesMultiple(b, c);
      Gauss(a, b, d);
      DividesMultiple(d, a);
      Gauss(c, d, b);
      DividesBounded(b, d);
      DividesBounded(d, b);
      MulCancel(d, a, c);
    }
  }

  /** Equality of rationals passes through a middle value with a positive
      denominator: `N/D == m/l` and `m/l == e/f` give `N/D == e/f`. */
  lemma SameValueThrough(n: int, d: int, m: int, l: int, e: int, f: int)
    requires l > 0
    requires SameValue(n, d, m, l) && SameValue(m, l, e, f)
    ensures SameValue(n, d, e, f)
  {
    assert l * (n * f) == (n * l) * f;
    assert (n * l) * f == (m * d) * f;
    assert (m * d) * f == (m * f) * d;
    assert (m * f) * d == (e * l) * d;
    assert (e * l) * d == l * (e * d);
    MulCancel(l, n * f, e * d);
  }

  /** Over a common denominator `l == sa * b == sc * d`, the scaled numerators
      add up to the rational sum `a/b + c/d`. */
  lemma CommonDenominatorSum(a: int, b: int, c: int, d: int, l: int, sa: int, sc: int)
    requires l == sa * b && l == sc * d
    ensures SameValue(a * sa + c * sc, l, a * d + c * b, b * d)
  {
  }

  /** Normalisation's last step: dividing a pair with positive denominator by
      the gcd of its magnitudes yields a canonical pair of the same value. */
  lemma ReduceByGcd(n: int, d: int)
    requires d > 0
    ensures Gcd(Abs(n), d) > 0
    ensures Canonical(n / Gcd(Abs(n), d), d / Gcd(Abs(n), d))
    ensures SameValue(n / Gcd(Abs(n), d), d / Gcd(Abs(n), d), n, d)
  {
    var g := Gcd(Abs(n), d);
    QuotientsCoprime(Abs(n), d);
    ExactQuotient(n, g);
    ExactQuotient(d, g);
    ScaledPair(n / g, d / g, g);
  }

  /** A pair and its multiple by a positive factor denote the same value. */
  lemma ScaledPair(n: int, d: int, g: int)
    requires g > 0
    ensures SameValue(n, d, g * n, g * d)
  {
  }

  /** Swapping a canonical non-zero pair and moving the sign to the top gives
      a canonical pair of the reciprocal value. */
  lemma SwappedCanonical(n: int, d: int)
    requires Canonical(n, d) && n != 0
    ensures Canonical(if n < 0 then -d else d, Abs(n))
    ensures SameValue(d, n, if n < 0 then -d else d, Abs(n))
  {
    var m: int, e: int := Abs(n), if n < 0 then -d else d;
    var c := Bezout(m, d);
    assert c.1 * d + c.0 * m == 1;
    BezoutCoprime(d, m, c.1, c.0);
    assert Abs(e) == d;
    if n < 0 {
      assert d * m == -(d * n);
      assert e * n == -(d * n);
    }
  }

  /** A canonical pair of value zero is 0/1. */
  lemma ZeroValue(n: int, d: int, e: int, f: int)
    requires Canonical(n, d) && f > 0 && SameValue(n, d, e, f)
    ensures e == 0 ==> n == 0 && d == 1
  {
    if e == 0 {
      MulCancel(f, n, 0);
      CanonicalZero(d);
    }
  }

  /** Adding the negation `-c/d` is subtracting `c/d`; the difference of two
      equal values normalises to 0/1. */
  lemma DifferenceValue(n: int, m: int, a: int, b: int, c: int, d: int)
    requires Canonical(n, m) && b > 0 && d > 0
    requires SameValue(n, m, a * d + (-c) * b, b * d)
    ensures SameValue(n, m, a * d - c * b, b * d)
    ensures SameValue(a, b, c, d) ==> n == 0 && m == 1
  {
    assert a * d + (-c) * b == a * d - c * b;
    MulPositive(b, d);
    ZeroValue(n, m, a * d - c * b, b * d);
  }

  /** Multiplying by the normalised inverse of `c/d` is dividing by `c/d`. */
  lemma QuotientValue(n: int, m: int, a: int, b: int, c: int, d: int)
    requires c != 0
    requires SameValue(n, m, a * (if c < 0 then -d else d), b * Abs(c))
    ensures SameValue(n, m, a * d, b * c)
  {
  }

  /** A negative value is below a non-negative one (positive denominators). */
  lemma SignsOrder(a: int, b: int, c: int, d: int)
    ensures b > 0 && d > 0 && a < 0 <= c ==> Below(a, b, c, d)
  {
    if b > 0 && d > 0 && a < 0 <= c {
      MulStrict(d, a, 0);
      MulNonNegative(c, b);
    }
  }

  class Fraction {
    var numerator: int
    var denominator: int

    /** The class invariant that `normalize()` establishes. */
    ghost predicate Valid()
      reads this
    {
      Canonical(numerator, denominator)
    }

    /** `Fraction(numerator, denominator)`: the denominator must be non-zero;
        the stored pair is the canonical form of `n/d`. */
    constructor (n: int, d: int)
      requires d != 0
      ensures Valid()
      ensures SameValue(numerator, denominator, n, d)
      ensures Canonical(n, d) ==> numerator == n && denominator == d
    {
      numerator := n;
      denominator := d;
      new;
      Normalize();
    }

    /** The copy `Fraction<T> lhs = *this` that the binary operators start from. */
    constructor Copy(f: Fraction)
      requires f.Valid()
      ensures Valid()
      ensures numerator == f.numerator && denominator == f.denominator
    {
      numerator := f.numerator;
      denominator := f.denominator;
    }

    /** Brings the stored pair to canonical form: zero becomes 0/1, the sign
        moves to the numerator, and both parts are divided by their gcd.
        The represented rational is unchanged, and a canonical pair is left
        as it is. */
    method Normalize()
      requires denominator != 0
      modifies this
      ensures Valid()
      ensures SameValue(numerator, denominator, old(numerator), old(denominator))
      ensures Canonical(old(numerator), old(denominator)) ==>
                numerator == old(numerator) && denominator == old(denominator)
    {
      ghost var n0, d0 := numerator, denominator;
      if IsZero() {
        denominator := 1;
        CanonicalZero(1);
        CanonicalZero(d0);
        return;
      }
      if denominator < 0 {
        denominator := -denominator;
        numerator := -numerator;
      }
      assert SameValue(numerator, denominator, n0, d0);
      ghost var n1, d1 := numerator, denominator;
      var div := Gcd(Abs(numerator), denominator);
      ReduceByGcd(numerator, denominator);
      numerator := numerator / div;
      denominator := denominator / div;
      SameValueThrough(numerator, denominator, n1, d1, n0, d0);
      CanonicalUnique(numerator, denominator, n0, d0);
    }

    /** `isZero()`: on a valid fraction, true exactly for the stored 0/1. */
    function IsZero(): (r: bool)
      reads this
      ensures Valid() ==> (r <==> numerator == 0 && denominator == 1)
    {
      CanonicalZero(denominator);
      numerator == 0
    }

    /** `isNegative()`: true exactly when the pair is below 0/1 in the
        cross-multiplied order. That order is the order of values when the
        denominator is positive, which `Valid()` guarantees. */
    function IsNegative(): (r: bool)
      reads this
      ensures r <==> Below(numerator, denominator, 0, 1)
    {
      numerator < 0
    }

    /** Unary `-`: a fresh fraction with the numerator's sign flipped and the
        same denominator (already canonical, so the re-normalisation of the
        constructor leaves it as it is). */
    method Negate() returns (r: Fraction)
      requires Valid()
      ensures fresh(r) && r.Valid()
      ensures r.numerator == -numerator && r.denominator == denominator
    {
      r := new Fraction(-numerator, denominator);
    }

    /** `inv()`: defined only for a non-zero fraction; a fresh fraction
        `denominator/numerator`, normalised so that the sign sits on the new
        numerator. */
    method Inverse() returns (r: Fraction)
      requires Valid() && numerator != 0
      ensures fresh(r) && r.Valid()
      ensures r.denominator == Abs(numerator)
      ensures r.numerator == if numerator < 0 then -denominator else denominator
    {
      r := new Fraction(denominator, numerator);
      var n' := if numerator < 0 then -denominator else denominator;
      SwappedCanonical(numerator, denominator);
      assert r.numerator * numerator == denominator * r.denominator;
      assert r.numerator * Abs(numerator) == n' * r.denominator by {
        if numerator < 0 {
          assert r.numerator * Abs(numerator) == -(r.numerator * numerator);
        }
      }
      CanonicalUnique(r.numerator, r.denominator, n', Abs(numerator));
    }

    /** `+=`: the receiver becomes the rational sum, through the common
        denominator `lcm(b, d)`; adding zero changes nothing and a zero
        receiver takes over the other operand's pair. */
    method AddAssign(other: Fraction)
      requires Valid() && other.Valid()
      modifies this
      ensures Valid()
      ensures SameValue(numerator, denominator,
                        old(numerator) * old(other.denominator) + old(other.numerator) * old(denominator),
                        old(denominator) * old(other.denominator))
      ensures old(other.numerator) == 0 ==>
                numerator == old(numerator) && denominator == old(denominator)
      ensures old(numerator) == 0 ==>
                numerator == old(other.numerator) && denominator == old(other.denominator)
    {
      ghost var a, b, c, d := numerator, denominator, other.numerator, other.denominator;
      if other.IsZero() {
        assert c == 0 && d == 1;
        assert IsZero() ==> b == 1;
        return;
      }
      if IsZero() {
        assert a == 0 && b == 1;
        numerator := other.numerator;
        denominator := other.denominator;
        return;
      }
      var newDenominator := Lcm(denominator, other.denominator);
      LcmCommonMultiple(denominator, other.denominator);
      var scalarThis := newDenominator / denominator;
      var scalarOther := newDenominator / other.denominator;
      // the source's "negative denominator encountered" check
      assert scalarThis > 0 && scalarOther > 0;
      numerator := numerator * scalarThis + other.numerator * scalarOther;
      denominator := newDenominator;
      CommonDenominatorSum(a, b, c, d, newDenominator, scalarThis, scalarOther);
      ghost var m := numerator;
      Normalize();
      SameValueThrough(numerator, denominator, m, newDenominator, a * d + c * b, b * d);
    }

    /** Binary `+`: a fresh fraction holding the sum; neither operand changes. */
    method Add(rhs: Fraction) returns (sum: Fraction)
      requires Valid() && rhs.Valid()
      ensures fresh(sum) && sum.Valid()
      ensures SameValue(sum.numerator, sum.denominator,
                        numerator * rhs.denominator + rhs.numerator * denominator,
                        denominator * rhs.denominator)
      ensures rhs.numerator == 0 ==> sum.numerator == numerator && sum.denominator == denominator
      ensures numerator == 0 ==> sum.numerator == rhs.numerator && sum.denominator == rhs.denominator
    {
      sum := new Fraction.Copy(this);
      sum.AddAssign(rhs);
    }

    /** `-=`: adds the negation of the other operand, so the receiver becomes
        the rational difference; subtracting an equal value leaves 0/1. */
    method SubtractAssign(other: Fraction)
      requires Valid() && other.Valid()
      modifies this
      ensures Valid()
      ensures SameValue(numerator, denominator,
                        old(numerator) * old(other.denominator) - old(other.numerator) * old(denominator),
                        old(denominator) * old(other.denominator))
      ensures SameValue(old(numerator), old(denominator), old(other.numerator), old(other.denominator)) ==>
                numerator == 0 && denominator == 1
    {
      ghost var a, b, c, d := numerator, denominator, other.numerator, other.denominator;
      var negativeOther := other.Negate();
      AddAssign(negativeOther);
      DifferenceValue(numerator, denominator, a, b, c, d);
    }

    /** Binary `-`: a fresh fraction holding the difference; neither operand
        changes. */
    method Subtract(rhs: Fraction) returns (difference: Fraction)
      requires Valid() && rhs.Valid()
      ensures fresh(difference) && difference.Valid()
      ensures SameValue(difference.numerator, difference.denominator,
                        numerator * rhs.denominator - rhs.numerator * denominator,
                        denominator * rhs.denominator)
      ensures SameValue(numerator, denominator, rhs.numerator, rhs.denominator) ==>
                difference.numerator == 0 && difference.denominator == 1
    {
      difference := new Fraction.Copy(this);
      difference.SubtractAssign(rhs);
    }

    /** `*=`: the receiver becomes the rational product; a zero on either side
        gives exactly 0/1. */
    method MultiplyAssign(other: Fraction)
      requires Valid() && other.Valid()
      modifies this
      ensures Valid()
      ensures SameValue(numerator, denominator,
                        old(numerator) * old(other.numerator),
                        old(denominator) * old(other.denominator))
      ensures old(numerator) == 0 || old(other.numerator) == 0 ==>
                numerator == 0 && denominator == 1
    {
      ghost var b, d := denominator, other.denominator;
      if IsZero() {
        return;
      }
      if other.IsZero() {
        numerator := 0;
        denominator := 1;
        return;
      }
      numerator := numerator * other.numerator;
      denominator := denominator * other.denominator;
      MulPositive(b, d);
      Normalize();
    }

    /** Binary `*`: a fresh fraction holding the product; neither operand
        changes. */
    method Multiply(rhs: Fraction) returns (product: Fraction)
      requires Valid() && rhs.Valid()
      ensures fresh(product) && product.Valid()
      ensures SameValue(product.numerator, product.denominator,
                        numerator * rhs.numerator, denominator * rhs.denominator)
      ensures numerator == 0 || rhs.numerator == 0 ==>
                product.numerator == 0 && product.denominator == 1
    {
      product := new Fraction.Copy(this);
      product.MultiplyAssign(rhs);
    }

    /** `/=`: multiplies by the other operand's inverse, which must exist (the
        divisor is non-zero even when the receiver is zero); the receiver
        becomes the rational quotient. */
    method DivideAssign(other: Fraction)
      requires Valid() && other.Valid() && other.numerator != 0
      modifies this
      ensures Valid()
      ensures SameValue(numerator, denominator,
                        old(numerator) * old(other.denominator),
                        old(denominator) * old(other.numerator))
    {
      ghost var a, b, c, d := numerator, denominator, other.numerator, other.denominator;
      var inverse := other.Inverse();
      MultiplyAssign(inverse);
      QuotientValue(numerator, denominator, a, b, c, d);
    }

    /** Binary `/`: a fresh fraction holding the quotient; neither operand
        changes. */
    method Divide(rhs: Fraction) returns (quotient: Fraction)
      requires Valid() && rhs.Valid() && rhs.numerator != 0
      ensures fresh(quotient) && quotient.Valid()
      ensures SameValue(quotient.numerator, quotient.denominator,
                        numerator * rhs.denominator, denominator * rhs.numerator)
    {
      quotient := new Fraction.Copy(this);
      quotient.DivideAssign(rhs);
    }

    /** `==`: both zero, or the same stored pair. On valid fractions this is
        exactly equality of the represented rationals. */
    function Equals(other: Fraction): (r: bool)
      reads this, other
      ensures Valid() && other.Valid() ==>
                (r <==> SameValue(numerator, denominator, other.numerator, other.denominator))
      ensures Valid() && other.Valid() ==>
                (r <==> numerator == other.numerator && denominator == other.denominator)
    {
      CanonicalUnique(numerator, denominator, other.numerator, other.denominator);
      (IsZero() && other.IsZero()) || (numerator == other.numerator && denominator == other.denominator)
    }

    /** `!=`: the negation of `==`. */
    function NotEquals(other: Fraction): (r: bool)
      reads this, other
      ensures Valid() && other.Valid() ==>
                (r <==> !SameValue(numerator, denominator, other.numerator, other.denominator))
    {
      !Equals(other)
    }

    /** `<` as written: a negative operand is smaller than a non-negative one;
        for two non-negative operands the cross-multiplication gives the
        rational order, but for two negative operands the comparison is
        reversed. */
    function Less(other: Fraction): (r: bool)
      reads this, other
      ensures Valid() && other.Valid() && !(IsNegative() && other.IsNegative()) ==>
                (r <==> Below(numerator, denominator, other.numerator, other.denominator))
      ensures Valid() && other.Valid() && IsNegative() && other.IsNegative() ==>
                (r <==> Below(other.numerator, other.denominator, numerator, denominator))
    {
      SignsOrder(numerator, denominator, other.numerator, other.denominator);
      SignsOrder(other.numerator, other.denominator, numerator, denominator);
      if IsNegative() != other.IsNegative() then
        IsNegative()
      else if IsNegative() then
        numerator * other.denominator > other.numerator * denominator
      else
        numerator * other.denominator < other.numerator * denominator
    }

    /** `>`: neither `<` nor `==`. On valid fractions it is `<` with the
        operands swapped. */
    function Greater(other: Fraction): (r: bool)
      reads this, other
      ensures Valid() && other.Valid() ==> (r <==> other.Less(this))
    {
      !(Less(other) || Equals(other))
    }

    /** `<` with the comparison for two negative operands corrected to the
        same cross-multiplication as for non-negative ones: the rational
        order on all valid fractions. */
    function LessCorrected(other: Fraction): (r: bool)
      reads this, other
      ensures Valid() && other.Valid() ==>
                (r <==> Below(numerator, denominator, other.numerator, other.denominator))
    {
      SignsOrder(numerator, denominator, other.numerator, other.denominator);
      SignsOrder(other.numerator, other.denominator, numerator, denominator);
      if IsNegative() != other.IsNegative() then
        IsNegative()
      else
        numerator * other.denominator < other.numerator * denominator
    }

    /** `>` built as in the source, `!(< || ==)`, over the corrected `<`:
        the converse of the rational order. */
    function GreaterCorrected(other: Fraction): (r: bool)
      reads this, other
      ensures Valid() && other.Valid() ==>
                (r <==> Below(other.numerator, other.denominator, numerator, denominator))
    {
      !(LessCorrected(other) || Equals(other))
    }

    /** `toString()`: the text `Fraction(N, D)` of the stored pair. */
    function ToString(): (s: string)
      reads this
      ensures |s| > 13 && s[..9] == "Fraction(" && s[|s| - 1] == ')'
    {
      "Fraction(" + IntToString(numerator) + ", " + IntToString(denominator) + ")"
    }
  }

  /** Exactly one of `x < y`, `x == y` and `y < x` holds between two valid
      fractions, for `<` as written. (Since `>` is `!(< || ==)`, the same
      then holds for `<`, `==` and `>` by definition.) */
  lemma Trichotomy(x: Fraction, y: Fraction)
    requires x.Valid() && y.Valid()
    ensures x.Less(y) || x.Equals(y) || y.Less(x)
    ensures !(x.Less(y) && x.Equals(y))
    ensures !(y.Less(x) && x.Equals(y))
    ensures !(x.Less(y) && y.Less(x))
  {
  }

  /** `<` as written is still a strict total order on valid fractions
      (negatives first, in reverse rational order, then the non-negatives in
      rational order): irreflexive, transitive, and total up to `==`. */
  lemma LessStrictTotalOrder(x: Fraction, y: Fraction, z: Fraction)
    requires x.Valid() && y.Valid() && z.Valid()
    ensures !x.Less(x)
    ensures x.Less(y) && y.Less(z) ==> x.Less(z)
    ensures x.Less(y) || x.Equals(y) || y.Less(x)
  {
  }

  /** On every pair of negative fractions with different values, `<` as
      written disagrees with the rational order. */
  lemma LessReversedAmongNegatives(x: Fraction, y: Fraction)
    requires x.Valid() && y.Valid()
    requires x.numerator < 0 && y.numerator < 0
    requires !x.Equals(y)
    ensures x.Less(y) != x.LessCorrected(y)
  {
  }

  /** `toString()` loses nothing: two fractions render alike exactly when
      they store the same pair. */
  lemma ToStringDetermines(x: Fraction, y: Fraction)
    ensures x.ToString() == y.ToString() <==>
              x.numerator == y.numerator && x.denominator == y.denominator
  {
    if x.ToString() == y.ToString() {
      ToStringParts(x);
      ToStringParts(y);
      SplitAtSeparator(IntToString(x.numerator), IntToString(x.denominator),
                       IntToString(y.numerator), IntToString(y.denominator));
      IntToStringInjective(x.numerator, y.numerator);
      IntToStringInjective(x.denominator, y.denominator);
    }
  }

  /** What follows the prefix `Fraction(` in the text of a fraction. */
  lemma ToStringParts(x: Fraction)
    ensures x.ToString()[9..] == IntToString(x.numerator) + ", " + IntToString(x.denominator) + ")"
  {
    var t := IntToString(x.numerator) + ", " + IntToString(x.denominator) + ")";
    assert x.ToString() == "Fraction(" + t;
  }

  /** `a + ", " + b + ")"` splits uniquely when `a` holds no comma. */
  lemma SplitAtSeparator(a: string, b: string, a': string, b': string)
    requires forall i :: 0 <= i < |a| ==> a[i] != ','
    requires forall i :: 0 <= i < |a'| ==> a'[i] != ','
    requires a + ", " + b + ")" == a' + ", " + b' + ")"
    ensures a == a' && b == b'
  {
    var t := a + ", " + b + ")";
    var t' := a' + ", " + b' + ")";
    assert t[|a|] == ',' && t'[|a'|] == ',';
    assert |a| == |a'|;
    assert a == t[..|a|] && a' == t'[..|a'|];
    assert b + ")" == t[|a| + 2..] && b' + ")" == t'[|a'| + 2..];
    assert b == (b + ")")[..|b|] && b' == (b' + ")")[..|b'|];
  }
}
