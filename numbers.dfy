/** Integer helpers that the fraction type relies on: magnitude, divisibility,
    the greatest common divisor and least common multiple as `std::gcd` and
    `std::lcm` compute them (on magnitudes), and the facts about them that
    normalisation and addition need. */
module Numbers {

  /** Magnitude of an integer. */
  function Abs(x: int): (r: nat)
    ensures r == x || r == -x
  {
    if x < 0 then -x else x
  }

  /** `k` is a positive divisor of `n`. */
  predicate Divides(k: int, n: int) {
    k > 0 && n % k == 0
  }

  /** Greatest common divisor of two magnitudes, by Euclid's algorithm;
      `Gcd(0, 0) == 0`, as for `std::gcd`. */
  function Gcd(a: nat, b: nat): (g: nat)
    ensures g == 0 <==> a == 0 && b == 0
    decreases b
  {
    if b == 0 then a else Gcd(b, a % b)
  }

  /** Least common multiple of two magnitudes, as `std::lcm` computes it
      (zero when either argument is zero). */
  function Lcm(a: nat, b: nat): (l: nat)
    ensures l == 0 <==> a == 0 || b == 0
  {
    if a == 0 || b == 0 then 0
    else
      GcdDivides(a, b);
      DividesBounded(Gcd(a, b), a);
      a / Gcd(a, b) * b
  }

  /** Bezout coefficients `(x, y)` with `x * a + y * b == Gcd(a, b)`,
      by the extended Euclidean algorithm. */
  function Bezout(a: nat, b: nat): (c: (int, int))
    ensures c.0 * a + c.1 * b == Gcd(a, b)
    decreases b
  {
    if b == 0 then (1, 0)
    else
      var c' := Bezout(b, a % b);
      var q := a / b;
      assert a == q * b + a % b;
      assert c'.1 * a == c'.1 * q * b + c'.1 * (a % b);
      (c'.1, c'.0 - q * c'.1)
  }

  /** Exact division: a multiple of a positive `k` divided by `k`. */
  lemma MulDivExact(k: int, j: int)
    requires k > 0
    ensures (k * j) / k == j && (k * j) % k == 0
  {
    var q, r := (k * j) / k, (k * j) % k;
    assert k * j == k * q + r && 0 <= r < k;
    assert k * (j - q) == r;
    assert j - q >= 1 ==> k * (j - q) >= k * 1;
    assert j - q <= -1 ==> k * (j - q) <= k * -1;
  }

  /** A positive divisor of `n` gives back `n` when multiplied by the quotient. */
  lemma DividesQuotient(k: int, n: int)
    requires Divides(k, n)
    ensures n == k * (n / k)
  {
  }

  /** Exact division of a signed number by a divisor of its magnitude: the
      quotient has the magnitude `Abs(n) / g`, so truncating division (C++)
      and Euclidean division (Dafny) agree here. */
  lemma ExactQuotient(n: int, g: int)
    requires Divides(g, Abs(n))
    ensures Divides(g, n) && n == g * (n / g) && Abs(n / g) == Abs(n) / g
  {
    var q := Abs(n) / g;
    DividesQuotient(g, Abs(n));
    if n < 0 {
      assert n == g * -q;
      MulDivExact(g, -q);
    }
  }

  /** Every multiple of `k` is divisible by `k`. */
  lemma DividesMultiple(k: int, j: int)
    requires k > 0
    ensures Divides(k, k * j) && Divides(k, j * k)
  {
    MulDivExact(k, j);
    assert j * k == k * j;
  }

  /** Divisibility is closed under integer linear combinations. */
  lemma DividesLinear(k: int, m: int, n: int, x: int, y: int)
    requires Divides(k, m) && Divides(k, n)
    ensures Divides(k, x * m + y * n)
  {
    var p, q := m / k, n / k;
    DividesQuotient(k, m);
    DividesQuotient(k, n);
    assert x * m == k * (x * p) by {
      assert x * m == x * (k * p);
    }
    assert y * n == k * (y * q) by {
      assert y * n == y * (k * q);
    }
    assert x * m + y * n == k * (x * p + y * q);
    DividesMultiple(k, x * p + y * q);
  }

  /** A positive divisor of a positive number is no larger than it. */
  lemma DividesBounded(k: int, n: int)
    requires Divides(k, n) && n > 0
    ensures k <= n
  {
    DividesQuotient(k, n);
    var q := n / k;
    assert q <= 0 ==> k * q <= 0;
    assert q >= 1 ==> k * q >= k * 1;
  }

  /** `Gcd` is a common divisor of its arguments, positive unless both are zero. */
  lemma {:induction false} GcdDivides(a: nat, b: nat)
    requires a > 0 || b > 0
    ensures Gcd(a, b) > 0 && Divides(Gcd(a, b), a) && Divides(Gcd(a, b), b)
    decreases b
  {
    if b == 0 {
      MulDivExact(a, 1);
      MulDivExact(a, 0);
    } else {
      GcdDivides(b, a % b);
      var g := Gcd(b, a % b);
      assert a == (a / b) * b + 1 * (a % b);
      DividesLinear(g, b, a % b, a / b, 1);
    }
  }

  /** Every common divisor of `a` and `b` divides `Gcd(a, b)`: it is the
      greatest of them. */
  lemma CommonDivisorDividesGcd(k: int, a: nat, b: nat)
    requires Divides(k, a) && Divides(k, b)
    ensures Divides(k, Gcd(a, b))
  {
    var c := Bezout(a, b);
    DividesLinear(k, a, b, c.0, c.1);
  }

  /** A unit linear combination forces the two numbers to be coprime. */
  lemma BezoutCoprime(a: nat, b: nat, x: int, y: int)
    requires a > 0 || b > 0
    requires x * a + y * b == 1
    ensures Gcd(a, b) == 1
  {
    GcdDivides(a, b);
    var h := Gcd(a, b);
    DividesLinear(h, a, b, x, y);
    DividesBounded(h, 1);
  }

  /** Dividing both numbers by their gcd leaves them coprime; this is the
      step that makes normalisation reach lowest terms. */
  lemma {:induction false} QuotientsCoprime(a: nat, b: nat)
    requires b > 0
    ensures Gcd(a, b) > 0
    ensures Divides(Gcd(a, b), a) && Divides(Gcd(a, b), b)
    ensures Gcd(a / Gcd(a, b), b / Gcd(a, b)) == 1
  {
    GcdDivides(a, b);
    var g := Gcd(a, b);
    var a', b' := a / g, b / g;
    DividesQuotient(g, a);
    DividesQuotient(g, b);
    var c := Bezout(a, b);
    var x, y := c.0, c.1;
    assert x * a == g * (x * a') by {
      assert x * a == x * (g * a');
    }
    assert y * b == g * (y * b') by {
      assert y * b == y * (g * b');
    }
    assert g * (x * a' + y * b') == g * 1;
    MulCancel(g, x * a' + y * b', 1);
    MulStrict(g, 0, b');
    BezoutCoprime(a', b', x, y);
  }

  /** Euclid's lemma: a divisor of a product that is coprime to one factor
      divides the other factor. */
  lemma Gauss(a: int, b: int, d: int)
    requires b > 0 && Gcd(Abs(a), b) == 1 && Divides(b, a * d)
    ensures Divides(b, d)
  {
    var c := Bezout(Abs(a), b);
    var x := if a < 0 then -c.0 else c.0;
    assert x * a == c.0 * Abs(a);
    GaussWith(a, b, d, x, c.1);
  }

  /** Euclid's lemma with the unit combination `x * a + y * b == 1` given. */
  lemma GaussWith(a: int, b: int, d: int, x: int, y: int)
    requires b > 0 && x * a + y * b == 1 && Divides(b, a * d)
    ensures Divides(b, d)
  {
    LinearScale(x * a, y * b, d);
    assert (x * a) * d == x * (a * d);
    assert (y * b) * d == (y * d) * b;
    DividesMultiple(b, 1);
    DividesLinear(b, a * d, b, x, y * d);
  }

  /** `std::lcm` of two positive numbers is a positive common multiple, and
      the scale factors `Lcm / a` and `Lcm / b` are positive and exact. */
  lemma LcmCommonMultiple(a: nat, b: nat)
    requires a > 0 && b > 0
    ensures Lcm(a, b) > 0
    ensures Divides(a, Lcm(a, b)) && Divides(b, Lcm(a, b))
    ensures Lcm(a, b) / a > 0 && Lcm(a, b) / a * a == Lcm(a, b)
    ensures Lcm(a, b) / b > 0 && Lcm(a, b) / b * b == Lcm(a, b)
  {
    GcdDivides(a, b);
    var g := Gcd(a, b);
    var p, q := a / g, b / g;
    DividesQuotient(g, a);
    DividesQuotient(g, b);
    assert p <= 0 ==> g * p <= 0;
    assert q <= 0 ==> g * q <= 0;
    var l := p * b;
    assert l == Lcm(a, b);
    assert l == a * q by {
      assert p * b == p * (g * q);
      assert a * q == (g * p) * q;
    }
    MulDivExact(b, p);
    assert b * p == l;
    MulDivExact(a, q);
    assert a * q == l;
    assert l / a == q && l / b == p;
  }

  /** Scaling a sum that equals one. */
  lemma LinearScale(u: int, v: int, d: int)
    requires u + v == 1
    ensures d == u * d + v * d
  {
  }

  /** The product of two positive numbers is positive. */
  lemma MulPositive(k: int, m: int)
    requires k > 0 && m > 0
    ensures k * m > 0
  {
  }

  /** The product of two non-negative numbers is non-negative. */
  lemma MulNonNegative(k: int, m: int)
    requires k >= 0 && m >= 0
    ensures k * m >= 0
  {
  }

  /** Multiplying by a positive factor preserves and reflects strict order. */
  lemma MulStrict(k: int, x: int, y: int)
    requires k > 0
    ensures x < y <==> k * x < k * y
  {
    assert k * y - k * x == k * (y - x);
    if x < y {
      MulPositive(k, y - x);
    } else {
      MulNonNegative(k, x - y);
    }
  }

  /** Cancelling a positive factor from both sides of an equation. */
  lemma MulCancel(k: int, x: int, y: int)
    requires k > 0 && k * x == k * y
    ensures x == y
  {
    MulStrict(k, x, y);
    MulStrict(k, y, x);
  }
}
