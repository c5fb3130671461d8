# Fraction: an exact rational-number value type

This project models `interview::Fraction<T>` (Fraction.hpp), a value type for exact
rational arithmetic. A fraction stores a numerator and a denominator. Every
construction and every general-case in-place operator ends by calling
`normalize()`. The zero shortcuts of `+=` and `*=` (Fraction.hpp:41-48, 97-104)
return early instead: they keep the receiver, copy the other operand's pair, or
store 0/1, each of which is already canonical. Either
way, one representation invariant holds:

- the denominator is positive;
- the numerator and denominator are coprime;
- zero is stored as `0/1`.

On top of that invariant the type offers these operations:

- the in-place operators `+= -= *= /=`;
- the copying operators `+ - * /`;
- negation and inverse;
- the comparisons `== != < >`;
- the text form `Fraction(N, D)`.

The template parameter `T` is modelled as Dafny's unbounded `int`.

The project has four modules:

- `Numbers` (numbers.dfy): magnitude, divisibility, `Gcd` and `Lcm` as
  `std::gcd`/`std::lcm` compute them (on magnitudes), Bezout coefficients, and
  Euclid's lemma.
- `Decimal` (decimal.dfy): the decimal text of an integer as a stream writes it,
  plus functions that read the text back.
- `Fractions` (fraction.dfy): the class `Fraction` and the lemmas about it.
  - Its fields are `numerator` and `denominator`.
  - `Valid()` is the invariant; `Canonical(n, d)` states it for a pair.
  - The in-place operators are methods with `modifies this`.
  - The copying operators are methods that return a fresh object and modify nothing.
  - The comparisons, `IsZero`, `IsNegative` and `ToString` are functions.
- `FractionCases` (fraction_cases.dfy): the literal scenarios of test_Fraction.cpp,
  stated as postconditions.

Results are specified against rational arithmetic by cross-multiplication.
`SameValue(a, b, c, d)` means `a * d == c * b`, and `Below(a, b, c, d)` means
`a * d < c * b`. With the invariant, `CanonicalUnique` shows that each rational has
exactly one stored form. So each postcondition that combines `Valid()` with
`SameValue` determines the resulting pair exactly.

The source's two `assert`s are requirements on the caller, so they become
`requires` clauses:

- a zero denominator at construction;
- the inverse of zero, which `/=` reaches when the divisor is zero.

The in-place methods state their results in terms of `old` values and accept
`other == this`, so self-operations such as `x += x` are covered.

The assertion in `+=` that both scale factors are positive is proved as an
`assert` inside `AddAssign`.

## Model

| member | source | states |
|---|---|---|
| `Numbers.Gcd` | Fraction.hpp:237 | `std::gcd` on magnitudes by Euclid's algorithm; zero exactly when both arguments are zero (`Gcd(0, 0) == 0`, as for `std::gcd`) |
| `Numbers.GcdDivides` | Fraction.hpp:237 | the gcd of two magnitudes (not both zero) is positive and divides both |
| `Numbers.CommonDivisorDividesGcd` | Fraction.hpp:237 | every common divisor divides the gcd, so it is the greatest one |
| `Numbers.Bezout` | Fraction.hpp:237 | coefficients x, y with x*a + y*b == Gcd(a, b) |
| `Numbers.QuotientsCoprime` | Fraction.hpp:237-239 | after dividing both numbers by their gcd, the quotients are coprime |
| `Numbers.ExactQuotient` | Fraction.hpp:238-239 | dividing by a divisor of the magnitude is exact, so truncating and Euclidean division agree |
| `Numbers.Gauss` | Fraction.hpp:224-240 | a divisor of a product that is coprime to one factor divides the other factor |
| `Numbers.LcmCommonMultiple` | Fraction.hpp:49-52 | lcm of two positive denominators is a positive common multiple; both scale factors are positive and exact |
| `Numbers.Lcm` | Fraction.hpp:49 | `std::lcm` on magnitudes; zero exactly when either argument is zero, positive otherwise |
| `Fractions.CanonicalZero` | Fraction.hpp:229-231 | the only canonical pair with numerator 0 is 0/1 |
| `Fractions.CanonicalUnique` | Fraction.hpp:224-240 | two canonical pairs that denote the same rational are equal, so the normal form is unique |
| `Fractions.ReduceByGcd` | Fraction.hpp:237-239 | dividing a pair with positive denominator by the gcd of its magnitudes gives a canonical pair of the same value |
| `Fractions.SwappedCanonical` | Fraction.hpp:209-213 | swapping a non-zero canonical pair and moving the sign to the top gives the canonical reciprocal |
| `Fractions.CommonDenominatorSum` | Fraction.hpp:49-55 | numerators scaled to the common denominator add up to the rational sum a/b + c/d |
| `Fractions.DifferenceValue` | Fraction.hpp:74-79 | adding the negated operand yields the rational difference a/b - c/d, and subtracting an equal value yields exactly 0/1 |
| `Fractions.QuotientValue` | Fraction.hpp:125-129 | multiplying by the reciprocal (sign moved to the top) yields the rational quotient (a*d)/(b*c) |
| `Fractions.Fraction.constructor` | Fraction.hpp:26-34 | requires a non-zero denominator; the result is valid, denotes n/d, and an already-canonical pair is kept as given |
| `Fractions.Fraction.Copy` | Fraction.hpp:66 | the copy that the binary operators start from has the same pair |
| `Fractions.Fraction.Normalize` | Fraction.hpp:227-240 | establishes the invariant, keeps the rational value, and leaves a canonical pair unchanged (idempotent) |
| `Fractions.Fraction.IsZero` | Fraction.hpp:215-218 | on a valid fraction, true exactly for the stored 0/1 |
| `Fractions.Fraction.IsNegative` | Fraction.hpp:220-223 | true exactly when the pair is below 0/1 in the cross-multiplied order, which is the order of values for the positive denominators `Valid()` guarantees |
| `Fractions.Fraction.Negate` | Fraction.hpp:204-207 | a fresh valid fraction with the numerator negated and the same denominator |
| `Fractions.Fraction.Inverse` | Fraction.hpp:209-213 | requires a non-zero numerator; a fresh valid fraction whose denominator is the magnitude of the old numerator and whose numerator is the old denominator carrying the old sign |
| `Fractions.Fraction.AddAssign` | Fraction.hpp:39-58 | the receiver becomes the valid rational sum; adding zero changes nothing; a zero receiver takes over the other pair |
| `Fractions.Fraction.Add` | Fraction.hpp:64-69 | a fresh valid fraction holding the sum, with neither operand modified; zero on either side gives the other operand |
| `Fractions.Fraction.SubtractAssign` | Fraction.hpp:74-79 | the receiver becomes the valid rational difference; subtracting an equal value gives exactly 0/1 |
| `Fractions.Fraction.Subtract` | Fraction.hpp:85-90 | a fresh valid fraction holding the difference, with neither operand modified; x - x is 0/1 |
| `Fractions.Fraction.MultiplyAssign` | Fraction.hpp:95-109 | the receiver becomes the valid rational product; a zero on either side gives exactly 0/1 |
| `Fractions.Fraction.Multiply` | Fraction.hpp:115-120 | a fresh valid fraction holding the product, with neither operand modified; zero on either side gives 0/1 |
| `Fractions.Fraction.DivideAssign` | Fraction.hpp:125-129 | requires a non-zero divisor, even for a zero receiver; the receiver becomes the valid rational quotient (a*d)/(b*c) |
| `Fractions.Fraction.Divide` | Fraction.hpp:135-140 | a fresh valid fraction holding the quotient, with neither operand modified |
| `Fractions.Fraction.Equals` | Fraction.hpp:145-151 | on valid fractions, true iff they denote the same rational, and iff the stored pairs are equal |
| `Fractions.Fraction.NotEquals` | Fraction.hpp:156-159 | on valid fractions, true iff they denote different rationals |
| `Fractions.Fraction.Less` | Fraction.hpp:165-175 | on valid fractions, agrees with the rational order unless both are negative; for two negatives it gives the reverse order |
| `Fractions.Fraction.Greater` | Fraction.hpp:180-183 | on valid fractions, it is `<` with the operands swapped |
| `Fractions.Fraction.LessCorrected` | Fraction.hpp:165-175 | the fixed `<`: on valid fractions, exactly the rational order |
| `Fractions.Fraction.GreaterCorrected` | Fraction.hpp:180-183 | `!(< or ==)` over the fixed `<`: exactly the converse rational order |
| `Fractions.Fraction.ToString` | Fraction.hpp:188-193 | the text starts with `Fraction(` and ends with `)` |
| `Fractions.Trichotomy` | Fraction.hpp:165-183 | exactly one of `x < y`, `x == y` and `y < x` holds between two valid fractions, for `<` as written (with `>` defined as `!(< or ==)`, the same follows for `<`, `==`, `>`) |
| `Fractions.LessStrictTotalOrder` | Fraction.hpp:165-175 | `<` as written is irreflexive, transitive and total up to `==` |
| `Fractions.LessReversedAmongNegatives` | Fraction.hpp:172-173 | for any two negative fractions with different values, `<` as written disagrees with the rational order |
| `Fractions.ToStringDetermines` | Fraction.hpp:188-193 | two fractions have the same text exactly when they store the same pair |
| `Decimal.NatToString` | Fraction.hpp:191 | the decimal text of a natural number is a non-empty string of digits without leading zeros: only zero starts with `0` |
| `Decimal.IntToString` | Fraction.hpp:191 | the stream's integer output: non-empty, comma-free, and starting with `-` exactly for negative numbers |
| `Decimal.ParseIntToString` | Fraction.hpp:191 | reading back the decimal text of an integer gives the integer |
| `FractionCases.ConstructThird` | test_Fraction.cpp:14 | 1/3 is kept and renders as `Fraction(1, 3)`, as the test expects |
| `FractionCases.ConstructUnreduced` | test_Fraction.cpp:15 | 2/6 is reduced and renders as `Fraction(1, 3)`, as the test expects |
| `FractionCases.ConstructBothNegative` | test_Fraction.cpp:16 | -1/-3 loses both signs and renders as `Fraction(1, 3)`, as the test expects |
| `FractionCases.AddThirdToThird` | test_Fraction.cpp:20 | 1/3 + 1/3 renders as `Fraction(2, 3)`, as the test expects |
| `FractionCases.AddNegativeThird` | test_Fraction.cpp:21 | 1/3 + (-1/3) renders as the canonical zero `Fraction(0, 1)`, as the test expects |
| `FractionCases.AddTwoThirds` | test_Fraction.cpp:22 | 1/3 + 2/3 renders as `Fraction(1, 1)`, as the test expects |
| `FractionCases.AddFiveThirds` | test_Fraction.cpp:23 | 1/3 + 5/3 renders as `Fraction(2, 1)`, as the test expects |
| `FractionCases.SubtractThirdFromItself` | test_Fraction.cpp:26 | 1/3 - 1/3 renders as `Fraction(0, 1)`, as the test expects |
| `FractionCases.SubtractNegativeThird` | test_Fraction.cpp:27 | 1/3 - (-1/3) renders as `Fraction(2, 3)`, as the test expects |
| `FractionCases.SubtractTwoThirds` | test_Fraction.cpp:28 | 1/3 - 2/3 renders as `Fraction(-1, 3)`, as the test expects |
| `FractionCases.SubtractFiveThirdsFromNegative` | test_Fraction.cpp:29 | -1/3 - 5/3 renders as `Fraction(-2, 1)`, as the test expects |
| `FractionCases.MultiplyZeroByThird` | test_Fraction.cpp:32 | 0/-3 * 1/3 renders as `Fraction(0, 1)`, as the test expects |
| `FractionCases.MultiplyThirdByZero` | test_Fraction.cpp:33 | 1/3 * 0/3 renders as `Fraction(0, 1)`, as the test expects |
| `FractionCases.MultiplyThirdByThird` | test_Fraction.cpp:34 | 1/3 * 1/3 renders as `Fraction(1, 9)`, as the test expects |
| `FractionCases.MultiplyThirdByNegativeThird` | test_Fraction.cpp:35 | 1/3 * (-1/3) renders as `Fraction(-1, 9)`, as the test expects |
| `FractionCases.MultiplyUnreduced` | test_Fraction.cpp:36 | 2/6 * 3/6 renders as `Fraction(1, 6)`, as the test expects |
| `FractionCases.DivideZeroByThird` | test_Fraction.cpp:39 | 0/-3 / 1/3 renders as `Fraction(0, 1)`, as the test expects |
| `FractionCases.DivideThirdByOne` | test_Fraction.cpp:40 | 1/3 / 3/3 renders as `Fraction(1, 3)`, as the test expects |
| `FractionCases.DivideThirdByNegativeThird` | test_Fraction.cpp:41 | 1/3 / (-1/3) renders as `Fraction(-1, 1)`, as the test expects |
| `FractionCases.DivideNegativeThirdByThird` | test_Fraction.cpp:42 | -1/3 / 1/3 renders as `Fraction(-1, 1)`, as the test expects |
| `FractionCases.DivideThirdByItself` | test_Fraction.cpp:43 | 1/3 / 1/3 renders as `Fraction(1, 1)`, as the test expects |
| `FractionCases.DivideThirdByThree` | test_Fraction.cpp:44 | 1/3 / 3/1 renders as `Fraction(1, 9)`, as the test expects |
| `FractionCases.ConstructNegativeDenominator` | Fraction.hpp:233-236 | 1/-3 moves the sign to the numerator and renders as `Fraction(-1, 3)` |
| `FractionCases.LessCases` | test_Fraction.cpp:47-49 | -10/1 < 1/3, -1/5 < 1/3 and 1/5 < 1/3 all hold for `<` as written |
| `FractionCases.EqualsCases` | test_Fraction.cpp:50-51 | 1/3 == 1/3 and 1/3 == -1/-3 hold |
| `FractionCases.NormalizedEqualsCases` | test_Fraction.cpp:52-53 | -1/3 == 1/-3 and 1/3 == 2/6 hold |
| `FractionCases.GreaterCases` | test_Fraction.cpp:54-56 | 1/3 > 1/5, 1/3 > -1/5 and 1/3 > -10/1 all hold for `>` as written |
| `FractionCases.NegativeOrderDefect` | Fraction.hpp:172-173 | -1/2 `<` -1/3 is false and -1/2 `>` -1/3 is true, but the corrected `<` is true |

## Findings

| source | as written | input that shows it | evidently intended | confidence | as-written member | corrected member |
|---|---|---|---|---|---|---|
| Fraction.hpp:172-173 | when both operands are negative, `<` tests `a*d > c*b`, which reverses the order | -1/2 < -1/3 gives false and -1/2 > -1/3 gives true (`FractionCases.NegativeOrderDefect`); every pair of distinct negatives is affected (`Fractions.LessReversedAmongNegatives`) | `a*d < c*b` for operands of the same sign, i.e. the rational order | high; not executed | `Fractions.Fraction.Less` | `Fractions.Fraction.LessCorrected` |

The model follows the code. `Less` and `Greater` (which is built from `Less`) keep
the reversed comparison. The scenarios in FractionCases use them, and all of those
scenarios hold as the test expects. `LessCorrected` and `GreaterCorrected` are the
same functions with line 173 changed to `<`, and they are proved equal to the
rational order. `LessStrictTotalOrder` shows that the order as written is still a
strict total order, only not the rational one, so `Trichotomy` holds either way.

## Left out

- `display()` (Fraction.hpp:197-200) writes to standard output. That is console I/O.
- The `std::stringstream` mechanics of `toString` are not modelled. Only the
  resulting text `Fraction(N, D)` is, with `Decimal.IntToString` as the stream's
  integer formatting.
- Fixed-width overflow of `T` is not modelled. All arithmetic is on unbounded
  integers. This affects the scaling at Fraction.hpp:54, the products at 105-106 and
  the cross-multiplications at 173-174, which could overflow a machine integer.
- `Fraction<long>` versus `Fraction<int>` (test_Fraction.cpp:58-60) are not
  modelled. With a single integer type there is one instantiation.
  `Fractions.ToStringDetermines` still shows that equal texts mean equal pairs.
- The `assert`s are modelled as `requires` clauses:
  - a zero denominator (Fraction.hpp:28);
  - the inverse of zero (Fraction.hpp:211).

  A build with `NDEBUG` drops these asserts, and the model does not describe what
  such a build does with a zero denominator.
- The scale-factor `assert` in `+=` (Fraction.hpp:52) is not a caller requirement.
  It is proved as an `assert` inside `Fractions.Fraction.AddAssign`.
- `operator=` and the implicit copy are not modelled as separate operations.
  `Fractions.Fraction.Copy` models the copy `Fraction<T> lhs = *this` inside the
  binary operators.
- The test driver `main` in test_Fraction.cpp is not modelled. Its literal cases
  are the methods of `FractionCases`.
