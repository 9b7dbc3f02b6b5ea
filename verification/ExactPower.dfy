/** Exact square roots, powers and shifts of rationals, with the size ceilings that guard them. */
module ExactPower {
  import opened Wrappers
  import opened NumberTheory

  datatype Rat = Rat(num: int, den: int)

  function Abs(n: int): nat {
    if n < 0 then -n else n
  }

  // Every fraction is kept in lowest terms with a positive denominator.
  predicate Lowest(r: Rat) {
    r.den > 0 && Coprime(Abs(r.num), r.den)
  }

  predicate SameValue(r: Rat, s: Rat) {
    r.num * s.den == s.num * r.den
  }

  function Square(r: Rat): Rat {
    Rat(r.num * r.num, r.den * r.den)
  }

  // ---------------------------------------------------------------- square roots

  function ISqrt(n: nat): nat {
    if n == 0 then 0
    else
      var r := ISqrt(n - 1);
      if (r + 1) * (r + 1) <= n then r + 1 else r
  }

  lemma {:induction false} ISqrtBounds(n: nat)
    ensures ISqrt(n) * ISqrt(n) <= n < (ISqrt(n) + 1) * (ISqrt(n) + 1)
  {
    if n > 0 {
      ISqrtBounds(n - 1);
      NextSquare(ISqrt(n - 1));
    }
  }

  lemma NextSquare(r: nat)
    ensures (r + 1) * (r + 1) < (r + 2) * (r + 2)
  {
  }

  lemma SquareGrows(a: nat, b: nat)
    requires a < b
    ensures a * a < b * b
  {
    assert a * a <= a * b;
    assert b * b - a * b == b * (b - a);
  }

  lemma RootOfSquare(r: nat)
    ensures ISqrt(r * r) == r
  {
    var s := ISqrt(r * r);
    ISqrtBounds(r * r);
    if s < r && s + 1 < r { SquareGrows(s + 1, r); }
    if r < s { SquareGrows(r, s); }
  }

  function ExactSqrt(a: Rat): Option<Rat> {
    if a.num < 0 || a.den < 0 then None
    else
      var n, d := ISqrt(a.num), ISqrt(a.den);
      if n * n == a.num && d * d == a.den then Some(Rat(n, d)) else None
  }

  // Coprime squares have coprime roots.
  lemma RootsAreCoprime(n: nat, d: nat)
    requires d > 0 && Coprime(n * n, d * d)
    ensures Coprime(n, d)
  {
    var g := Gcd(n, d);
    GcdDivides(n, d);
    DividesScaled(g, n, n);
    DividesScaled(g, d, d);
    CommonDivisor(n * n, d * d, g);
  }

  // If some p/q squares to n/d, both in lowest terms, then n is p squared and d is q squared.
  lemma SquaresInLowestTerms(n: nat, d: nat, p: nat, q: nat)
    requires d > 0 && q > 0 && Coprime(n, d) && Coprime(p, q)
    requires (p * p) * d == n * (q * q)
    ensures n == p * p && d == q * q
  {
    var pp, qq := p * p, q * q;
    assert qq > 0;
    CoprimeSquares(p, q);
    CoprimeSymmetric(pp, qq);
    DividesBy(qq, pp * d, n);
    Gauss(qq, pp, d);
    CoprimeSymmetric(n, d);
    DividesBy(d, n * qq, pp);
    Gauss(d, n, qq);
    DividesBound(qq, d);
    DividesBound(d, qq);
    assert d * pp == d * n;
    Cancel(d, pp, n);
  }

  lemma CancelSquares(g: nat, p: nat, q: nat, n: nat, d: nat)
    requires g > 0 && ((p * g) * (p * g)) * d == n * ((q * g) * (q * g))
    ensures (p * p) * d == n * (q * q)
  {
    var gg := g * g;
    assert gg > 0;
    SwapInner(p, g, p, g);
    SwapInner(q, g, q, g);
    assert (p * g) * (p * g) == (p * p) * gg;
    assert (q * g) * (q * g) == (q * q) * gg;
    assert ((p * p) * gg) * d == gg * ((p * p) * d);
    assert n * ((q * q) * gg) == gg * (n * (q * q));
    Cancel(gg, (p * p) * d, n * (q * q));
  }

  // The exact square root is complete as well as sound: it is found exactly when some rational
  // squares to the argument, and what is found does, in lowest terms.
  lemma SqrtIsComplete(a: Rat)
    requires Lowest(a)
    ensures ExactSqrt(a).Some? <==> exists r: Rat :: r.den > 0 && SameValue(Square(r), a)
    ensures ExactSqrt(a).Some? ==>
      var r := ExactSqrt(a).value;
      Lowest(r) && r.num >= 0 && r.num * r.num == a.num && r.den * r.den == a.den
  {
    if ExactSqrt(a).Some? {
      var r := ExactSqrt(a).value;
      assert r.den != 0;
      RootsAreCoprime(r.num, r.den);
      assert SameValue(Square(r), a);
    }
    if exists r: Rat :: r.den > 0 && SameValue(Square(r), a) {
      var r: Rat :| r.den > 0 && SameValue(Square(r), a);
      RationalRoot(a, r);
    }
  }

  lemma RationalRoot(a: Rat, r: Rat)
    requires Lowest(a) && r.den > 0 && SameValue(Square(r), a)
    ensures ExactSqrt(a).Some?
  {
    var m := Abs(r.num);
    assert m * m == r.num * r.num;
    assert (m * m) * a.den == a.num * (r.den * r.den);
    NonNegativeQuotient(a.num, r.den * r.den, (m * m) * a.den);
    var g, p, q := Reduced(m, r.den);
    CancelSquares(g, p, q, a.num, a.den);
    SquaresInLowestTerms(a.num, a.den, p, q);
    RootOfSquare(p);
    RootOfSquare(q);
  }

  lemma NonNegativeQuotient(a: int, b: int, c: int)
    requires b > 0 && c >= 0 && a * b == c
    ensures a >= 0
  {
    assert a <= -1 ==> a * b <= -1 * b;
  }

  // ---------------------------------------------------------------- bit lengths

  function BitLength(n: nat): nat {
    if n == 0 then 0 else 1 + BitLength(n / 2)
  }

  lemma {:induction false} BitLengthBounds(n: nat)
    ensures n < Pow(2, BitLength(n))
    ensures n > 0 ==> Pow(2, BitLength(n) - 1) <= n
  {
    if n > 0 {
      BitLengthBounds(n / 2);
    }
  }

  lemma {:induction false} PowOfTwoGrows(j: nat, k: nat)
    requires j <= k
    ensures Pow(2, j) <= Pow(2, k)
    decreases k
  {
    if j < k {
      PowOfTwoGrows(j, k - 1);
      PowPositive(2, k - 1);
    }
  }

  lemma BitLengthFits(n: nat, m: nat)
    requires n < Pow(2, m)
    ensures BitLength(n) <= m
  {
    BitLengthBounds(n);
    if n > 0 { PowOfTwoIfGrows(m, BitLength(n) - 1); }
  }

  lemma PowOfTwoIfGrows(j: nat, k: nat)
    ensures j <= k ==> Pow(2, j) <= Pow(2, k)
  {
    if j <= k { PowOfTwoGrows(j, k); }
  }

  lemma MulLess(a: nat, b: nat, c: nat, d: nat)
    requires a < b && c <= d && d > 0
    ensures a * c < b * d
  {
    assert a * c <= a * d;
    assert b * d - a * d == (b - a) * d;
  }

  lemma {:induction false} PowBelow(n: nat, bits: nat, k: nat)
    requires n < Pow(2, bits) && k > 0
    ensures 0 <= Pow(n, k) < Pow(2, bits * k)
  {
    assert bits * k == bits + bits * (k - 1);
    PowAdd(2, bits, bits * (k - 1));
    if k == 1 {
      assert Pow(n, 1) == n * Pow(n, 0);
    } else {
      PowBelow(n, bits, k - 1);
      PowPositive(2, bits * (k - 1));
      MulLess(n, Pow(2, bits), Pow(n, k - 1), Pow(2, bits * (k - 1)));
    }
  }

  // The bit length of a power is at most the exponent times that of the base.
  lemma PowBits(n: nat, k: nat)
    requires k > 0
    ensures Pow(n, k) >= 0 && BitLength(Pow(n, k)) <= BitLength(n) * k
  {
    BitLengthBounds(n);
    PowBelow(n, BitLength(n), k);
    BitLengthFits(Pow(n, k), BitLength(n) * k);
  }

  lemma {:induction false} ShiftedBits(n: nat, s: nat)
    requires n > 0
    ensures n * Pow(2, s) > 0 && BitLength(n * Pow(2, s)) == BitLength(n) + s
  {
    if s == 0 {
      assert n * Pow(2, 0) == n;
    } else {
      ShiftedBits(n, s - 1);
      DoubledPow(n, s);
      DoubledBits(n * Pow(2, s - 1));
    }
  }

  lemma DoubledPow(n: int, s: nat)
    requires s > 0
    ensures n * Pow(2, s) == 2 * (n * Pow(2, s - 1))
  {
    var p := Pow(2, s - 1);
    assert Pow(2, s) == 2 * p;
    assert n * (2 * p) == 2 * (n * p);
  }

  lemma DoubledBits(m: nat)
    requires m > 0
    ensures BitLength(2 * m) == 1 + BitLength(m)
  {
    assert (2 * m) / 2 == m;
  }

  // ---------------------------------------------------------------- powers

  const MAX_POW_EXPONENT := 10_000
  const MAX_POW_RESULT_BITS := 50_000

  datatype Outcome =
    | Exact(value: Rat)
    | CeilingExceeded      // refused before it is computed
    | DivisionByZero
    | NotAnInteger
    | NegativeShift
    | FloatPath            // no exact answer: binary64, disclosed as approximate

  // Fraction ** int; `None` is a zero base with a negative exponent.
  function PowInt(a: Rat, k: int): Option<Rat> {
    if k >= 0 then Some(Rat(Pow(a.num, k), Pow(a.den, k)))
    else if a.num > 0 then Some(Rat(Pow(a.den, -k), Pow(a.num, -k)))
    else if a.num == 0 then None
    else Some(Rat(Pow(-a.den, -k), Pow(-a.num, -k)))
  }

  function Max(a: nat, b: nat): nat {
    if a >= b then a else b
  }

  function PredictedBits(a: Rat, k: int): nat {
    Max(BitLength(Abs(a.num)), BitLength(Abs(a.den))) * Abs(k)
  }

  function PowIntegral(a: Rat, k: int): Outcome {
    if Abs(k) > MAX_POW_EXPONENT then CeilingExceeded
    else if a.num != 0 && PredictedBits(a, k) > MAX_POW_RESULT_BITS then CeilingExceeded
    else
      match PowInt(a, k)
      case None => DivisionByZero
      case Some(r) => Exact(r)
  }

  function PowExact(a: Rat, b: Rat): Outcome {
    if Abs(b.num) > MAX_POW_EXPONENT * b.den then CeilingExceeded
    else if b.den == 1 then PowIntegral(a, b.num)
    else if b.den == 2 && ExactSqrt(a).Some? then PowIntegral(ExactSqrt(a).value, b.num)
    else FloatPath
  }

  // The ceiling is a true bound: a computed power with a nonzero exponent has numerator and
  // denominator within the bit limit, and exponent 0 gives 1.
  lemma PowerFits(a: Rat, k: int)
    requires Lowest(a) && PowIntegral(a, k).Exact?
    ensures var r := PowIntegral(a, k).value;
      if k == 0 then r == Rat(1, 1)
      else BitLength(Abs(r.num)) <= MAX_POW_RESULT_BITS && BitLength(Abs(r.den)) <= MAX_POW_RESULT_BITS
  {
    var r := PowIntegral(a, k).value;
    if k != 0 {
      AbsOfPow(a.num, Abs(k));
      AbsOfPow(a.den, Abs(k));
      AbsOfPow(-a.num, Abs(k));
      AbsOfPow(-a.den, Abs(k));
      FactorFits(a, k, a.num);
      FactorFits(a, k, a.den);
    }
  }

  lemma {:induction false} AbsOfPow(n: int, k: nat)
    ensures Abs(Pow(n, k)) == Pow(Abs(n), k)
  {
    if k > 0 {
      AbsOfPow(n, k - 1);
      AbsOfProduct(n, Pow(n, k - 1));
    }
  }

  lemma AbsOfProduct(a: int, b: int)
    ensures Abs(a * b) == Abs(a) * Abs(b)
  {
    assert a >= 0 && b >= 0 ==> a * b >= 0;
    assert a >= 0 && b <= 0 ==> a * b <= 0;
    assert a <= 0 && b >= 0 ==> a * b <= 0;
    assert a <= 0 && b <= 0 ==> a * b >= 0;
  }

  lemma FactorFits(a: Rat, k: int, x: int)
    requires Lowest(a) && PowIntegral(a, k).Exact? && k != 0 && (x == a.num || x == a.den)
    ensures Pow(Abs(x), Abs(k)) >= 0 && BitLength(Pow(Abs(x), Abs(k))) <= MAX_POW_RESULT_BITS
  {
    PowBits(Abs(x), Abs(k));
    if a.num != 0 {
      MulMonotone(BitLength(Abs(x)), Max(BitLength(Abs(a.num)), BitLength(Abs(a.den))), Abs(k));
    } else {
      CoprimeToZero(a.den);
      assert BitLength(0) == 0 && BitLength(1) == 1 + BitLength(0);
      MulMonotone(BitLength(Abs(x)), 1, Abs(k));
    }
  }

  lemma MulMonotone(a: nat, b: nat, c: nat)
    requires a <= b
    ensures a * c <= b * c
  {
  }

  lemma CoprimeToZero(d: nat)
    requires Coprime(0, d) && d > 0
    ensures d == 1
  {
    assert Gcd(0, d) == Gcd(d, 0) == d;
  }

  // ---------------------------------------------------------------- what a power is

  function Times(a: Rat, b: Rat): Rat {
    Rat(a.num * b.num, a.den * b.den)
  }

  // a multiplied by itself, n factors in all.
  function Repeat(a: Rat, n: nat): Rat {
    if n == 0 then Rat(1, 1) else Times(Repeat(a, n - 1), a)
  }

  lemma {:induction false} RepeatIsPow(a: Rat, n: nat)
    ensures Repeat(a, n) == Rat(Pow(a.num, n), Pow(a.den, n))
  {
    if n > 0 { RepeatIsPow(a, n - 1); }
  }

  lemma CoprimePowers(a: nat, b: nat, k: nat)
    requires Coprime(a, b) && a > 0 && b > 0
    ensures Pow(a, k) > 0 && Pow(b, k) > 0 && Coprime(Pow(a, k), Pow(b, k))
  {
    PowPositive(a, k);
    CoprimePow(a, b, k);
    CoprimeSymmetric(a, Pow(b, k));
    CoprimePow(Pow(b, k), a, k);
    CoprimeSymmetric(Pow(b, k), Pow(a, k));
  }

  // A computed power is in lowest terms and, for an exponent that is not negative, the base
  // multiplied by itself; for a negative one it is what makes 1 of that product.
  lemma PowerIsRepeated(a: Rat, k: int)
    requires Lowest(a) && PowIntegral(a, k).Exact?
    ensures var r := PowIntegral(a, k).value;
      && Lowest(r)
      && (k >= 0 ==> SameValue(r, Repeat(a, k)))
      && (k < 0 ==> SameValue(Times(r, Repeat(a, -k)), Rat(1, 1)))
  {
    var n := Abs(k);
    RepeatIsPow(a, n);
    AbsOfPow(a.num, n);
    if a.num == 0 {
      ZeroPower(a, k);
    } else {
      CoprimePowers(Abs(a.num), a.den, n);
      if k < 0 { InversePower(a, n); }
    }
  }

  lemma ZeroPower(a: Rat, k: int)
    requires Lowest(a) && a.num == 0 && PowIntegral(a, k).Exact?
    ensures k >= 0 && Lowest(PowIntegral(a, k).value)
  {
    CoprimeToZero(a.den);
    CoprimeByBezout(0, 1, 0, 1);
    PowOne(k);
    if k == 0 { CoprimeByBezout(1, 1, 1, 0); } else { assert Pow(0, k) == 0 * Pow(0, k - 1); }
  }

  lemma {:induction false} PowOne(k: nat)
    ensures Pow(1, k) == 1
  {
    if k > 0 { PowOne(k - 1); }
  }

  lemma InversePower(a: Rat, n: nat)
    requires Lowest(a) && a.num != 0 && n > 0 && PowIntegral(a, -(n as int)).Exact?
    requires Pow(Abs(a.num), n) > 0 && Pow(a.den, n) > 0 && Coprime(Pow(Abs(a.num), n), Pow(a.den, n))
    ensures var r := PowIntegral(a, -(n as int)).value;
      Lowest(r) && SameValue(Times(r, Rat(Pow(a.num, n), Pow(a.den, n))), Rat(1, 1))
  {
    CoprimeSymmetric(Pow(Abs(a.num), n), Pow(a.den, n));
    if a.num < 0 {
      AbsOfPow(-a.den, n);
      PowProduct(-a.den, a.num, n);
      PowProduct(-a.num, a.den, n);
      assert -a.den * a.num == -a.num * a.den;
    }
  }

  // The laws of exponents: 1 at 0, the base at 1, and one factor more at each step, negative
  // exponents included.
  lemma PowerLaws(a: Rat, k: int)
    requires Lowest(a)
    ensures PowIntegral(a, 0) == Exact(Rat(1, 1))
    ensures PowIntegral(a, 1).Exact? ==> PowIntegral(a, 1) == Exact(a)
    ensures PowIntegral(a, k).Exact? && PowIntegral(a, k + 1).Exact? ==>
              SameValue(PowIntegral(a, k + 1).value, Times(PowIntegral(a, k).value, a))
  {
    assert Pow(a.num, 1) == a.num * Pow(a.num, 0) && Pow(a.den, 1) == a.den * Pow(a.den, 0);
    if PowIntegral(a, k).Exact? && PowIntegral(a, k + 1).Exact? {
      if k >= 0 {
        assert Pow(a.num, k + 1) == a.num * Pow(a.num, k) && Pow(a.den, k + 1) == a.den * Pow(a.den, k);
      } else if a.num > 0 {
        CrossStep(a.num, a.den, Pow(a.num, -k - 1), Pow(a.den, -k - 1));
      } else {
        CrossStep(-a.num, -a.den, Pow(-a.num, -k - 1), Pow(-a.den, -k - 1));
        NegatedCross(a.num, a.den, Pow(-a.num, -k - 1), Pow(-a.den, -k - 1));
      }
    }
  }

  lemma CrossStep(n: int, d: int, p: int, q: int)
    ensures q * ((n * p) * d) == ((d * q) * n) * p
  {
    Regroup(n, p, d);
    assert (n * p) * d == (d * n) * p;
    assert (d * q) * n == q * (d * n);
    Regroup(q, d * n, p);
  }

  lemma NegatedCross(n: int, d: int, p: int, q: int)
    requires q * ((-n * p) * -d) == ((-d * q) * -n) * p
    ensures q * ((-n * p) * d) == ((-d * q) * n) * p
  {
    assert (-n * p) * -d == -((-n * p) * d);
    assert (-d * q) * -n == -((-d * q) * n);
    assert q * -((-n * p) * d) == -(q * ((-n * p) * d));
    assert -((-d * q) * n) * p == -(((-d * q) * n) * p);
  }

  // Zero to a negative power is the one division by zero, and a power is refused only when the
  // exponent or the predicted length is beyond its limit.
  lemma PowerFails(a: Rat, k: int)
    ensures PowIntegral(a, k).DivisionByZero? <==> a.num == 0 && k < 0 && Abs(k) <= MAX_POW_EXPONENT
    ensures PowIntegral(a, k).CeilingExceeded? ==>
              Abs(k) > MAX_POW_EXPONENT
              || BitLength(Abs(a.num)) * Abs(k) > MAX_POW_RESULT_BITS
              || BitLength(Abs(a.den)) * Abs(k) > MAX_POW_RESULT_BITS
    ensures PowIntegral(a, k).Exact? || PowIntegral(a, k).DivisionByZero? || PowIntegral(a, k).CeilingExceeded?
  {
  }

  // An integral power is in lowest terms and is the base multiplied by itself, or what makes 1 of
  // that product.
  lemma IntegralPower(a: Rat, b: Rat)
    requires Lowest(a) && b.den == 1 && PowExact(a, b).Exact?
    ensures var v := PowExact(a, b).value;
      && Lowest(v)
      && (b.num >= 0 ==> SameValue(v, Repeat(a, b.num)))
      && (b.num < 0 ==> SameValue(Times(v, Repeat(a, -b.num)), Rat(1, 1)))
  {
    PowerIsRepeated(a, b.num);
  }

  // A power divides by zero exactly for base 0 and a negative exponent, be it integral or a half.
  lemma ZeroToNegative(a: Rat, b: Rat)
    requires Lowest(a) && Lowest(b)
    ensures PowExact(a, b).DivisionByZero? <==>
              a.num == 0 && b.num < 0 && b.den <= 2 && Abs(b.num) <= MAX_POW_EXPONENT
  {
    SqrtIsComplete(a);
    if a.num == 0 {
      assert a.den == 1 by { CoprimeToZero(a.den); }
      assert SameValue(Square(Rat(0, 1)), a);
    }
  }

  // A half-integer power taken on the exact path is not negative, and its square is the base
  // multiplied by itself, or what makes 1 of that product.
  lemma HalfPowerSquares(a: Rat, b: Rat)
    requires Lowest(a) && b.den == 2 && PowExact(a, b).Exact?
    ensures var v := PowExact(a, b).value;
      && Lowest(v) && v.num >= 0
      && (b.num >= 0 ==> SameValue(Square(v), Repeat(a, b.num)))
      && (b.num < 0 ==> SameValue(Times(Square(v), Repeat(a, -b.num)), Rat(1, 1)))
  {
    SqrtIsComplete(a);
    var r, n := ExactSqrt(a).value, Abs(b.num);
    PowerIsRepeated(r, b.num);
    RepeatIsPow(a, n);
    PowProduct(r.num, r.num, n);
    PowProduct(r.den, r.den, n);
    if r.num > 0 { PowPositive(r.num, n); }
    PowPositive(r.den, n);
    if r.num == 0 && b.num > 0 { assert Pow(0, n) == 0 * Pow(0, n - 1); }
  }

  // A fractional power takes the float path exactly when it is not a half, or no rational squares
  // to the base.
  lemma FloatPathIff(a: Rat, b: Rat)
    requires Lowest(a) && Lowest(b) && Abs(b.num) <= MAX_POW_EXPONENT * b.den
    ensures PowExact(a, b).FloatPath? <==>
              b.den > 2 || (b.den == 2 && !exists r: Rat :: r.den > 0 && SameValue(Square(r), a))
  {
    SqrtIsComplete(a);
  }

  // ---------------------------------------------------------------- shifts

  function ShiftLeft(a: Rat, b: Rat): Outcome {
    if a.den != 1 || b.den != 1 then NotAnInteger
    else if b.num < 0 then NegativeShift
    else if a.num != 0 && BitLength(Abs(a.num)) + b.num > MAX_POW_RESULT_BITS then CeilingExceeded
    else Exact(Rat(a.num * Pow(2, b.num), 1))
  }

  function ShiftRight(a: Rat, b: Rat): Outcome {
    if a.den != 1 || b.den != 1 then NotAnInteger
    else if b.num < 0 then NegativeShift
    else PowPositive(2, b.num); Exact(Rat(a.num / Pow(2, b.num), 1))
  }

  // The prediction is exact: a left shift of a nonzero integer is refused exactly when its result
  // would exceed the bit limit, and otherwise has precisely the predicted length.
  lemma ShiftPredictionIsExact(a: Rat, b: Rat)
    requires a.den == 1 && b.den == 1 && b.num >= 0 && a.num != 0
    ensures BitLength(Abs(a.num * Pow(2, b.num))) == BitLength(Abs(a.num)) + b.num
    ensures ShiftLeft(a, b).CeilingExceeded? <==> BitLength(Abs(a.num * Pow(2, b.num))) > MAX_POW_RESULT_BITS
    ensures ShiftLeft(a, b).CeilingExceeded? || ShiftLeft(a, b) == Exact(Rat(a.num * Pow(2, b.num), 1))
  {
    ShiftedBits(Abs(a.num), b.num);
    PowPositive(2, b.num);
    AbsOfProduct(a.num, Pow(2, b.num));
  }

  // Shifting zero gives zero, whatever the count.
  lemma ShiftOfZero(b: Rat)
    requires b.den == 1 && b.num >= 0
    ensures ShiftLeft(Rat(0, 1), b) == Exact(Rat(0, 1))
  {
  }

  // A right shift is the largest integer whose shift back does not exceed the operand.
  lemma RightShiftFloors(a: Rat, b: Rat)
    requires a.den == 1 && b.den == 1 && b.num >= 0
    ensures ShiftRight(a, b).Exact? && ShiftRight(a, b).value.den == 1
    ensures var r := ShiftRight(a, b).value.num; r * Pow(2, b.num) <= a.num < (r + 1) * Pow(2, b.num)
  {
    PowPositive(2, b.num);
    var p := Pow(2, b.num);
    var r, m := a.num / p, a.num % p;
    assert a.num == r * p + m && 0 <= m < p;
    Distribute(r, 1, p);
  }

  // Both shifts need integers, and a count that is not negative, in that order.
  lemma ShiftsFail(a: Rat, b: Rat)
    ensures ShiftLeft(a, b).NotAnInteger? <==> a.den != 1 || b.den != 1
    ensures ShiftRight(a, b).NotAnInteger? <==> a.den != 1 || b.den != 1
    ensures a.den == 1 && b.den == 1 ==> (ShiftLeft(a, b).NegativeShift? <==> b.num < 0)
    ensures a.den == 1 && b.den == 1 ==> (ShiftRight(a, b).NegativeShift? <==> b.num < 0)
  {
  }

  // A right shift undoes a left shift, for negative numbers as well.
  lemma ShiftsRoundTrip(a: Rat, b: Rat)
    requires ShiftLeft(a, b).Exact?
    ensures ShiftRight(ShiftLeft(a, b).value, b) == Exact(a)
  {
    PowPositive(2, b.num);
    QuotientRemainder(a.num, 0, Pow(2, b.num));
  }
}
