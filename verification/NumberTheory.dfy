/** Divisibility, greatest common divisors and powers, as far as exact arithmetic needs them. */
module NumberTheory {

  predicate Product(k: int, d: int, n: int) {
    n == k * d
  }

  ghost predicate Divides(d: int, n: int) {
    exists k :: Product(k, d, n)
  }

  lemma DividesBy(d: int, n: int, k: int)
    requires n == k * d
    ensures Divides(d, n)
  {
    assert Product(k, d, n);
  }

  lemma Quotient(d: int, n: int) returns (k: int)
    requires Divides(d, n)
    ensures n == k * d
  {
    k :| Product(k, d, n);
  }

  lemma DividesScaled(d: int, n: int, c: int)
    requires Divides(d, n)
    ensures Divides(d, c * n) && Divides(d, n * c)
  {
    var k := Quotient(d, n);
    assert c * n == (c * k) * d;
    DividesBy(d, c * n, c * k);
    assert n * c == c * n;
  }

  lemma DividesSum(d: int, a: int, b: int)
    requires Divides(d, a) && Divides(d, b)
    ensures Divides(d, a + b) && Divides(d, a - b)
  {
    var k := Quotient(d, a);
    var l := Quotient(d, b);
    assert a + b == (k + l) * d && a - b == (k - l) * d;
    DividesBy(d, a + b, k + l);
    DividesBy(d, a - b, k - l);
  }

  lemma DividesTransitive(a: int, b: int, c: int)
    requires Divides(a, b) && Divides(b, c)
    ensures Divides(a, c)
  {
    var k := Quotient(a, b);
    var l := Quotient(b, c);
    assert c == (l * k) * a;
    DividesBy(a, c, l * k);
  }

  lemma DividesBound(d: int, n: int)
    requires Divides(d, n) && n > 0 && d > 0
    ensures d <= n
  {
    var k := Quotient(d, n);
    assert k <= 0 ==> k * d <= 0;
    assert k >= 1 ==> (k - 1) * d >= 0;
  }

  // ---------------------------------------------------------------- rearranging products

  lemma Distribute(a: int, b: int, c: int)
    ensures (a + b) * c == a * c + b * c
  {
  }

  lemma Regroup(a: int, b: int, c: int)
    ensures a * (b * c) == (a * b) * c == b * (a * c) == c * (a * b)
  {
  }

  lemma MulPositive(a: int, b: int)
    requires a > 0 && b > 0
    ensures a * b > 0
  {
  }

  lemma MulLeft(a: int, b: int, c: int)
    requires a <= b && c >= 0
    ensures a * c <= b * c
  {
  }

  // ---------------------------------------------------------------- gcd

  function Gcd(a: nat, b: nat): nat
    decreases b
  {
    if b == 0 then a else Gcd(b, a % b)
  }

  lemma DivMod(a: nat, b: nat)
    requires b > 0
    ensures a == (a / b) * b + a % b
  {
  }

  // Quotient and remainder are what division finds.
  lemma QuotientRemainder(x: int, y: int, d: int)
    requires 0 <= y < d
    ensures (x * d + y) / d == x && (x * d + y) % d == y
  {
    var n := x * d + y;
    var q, r := n / d, n % d;
    assert n == q * d + r && 0 <= r < d;
    assert (x - q) * d == r - y;
    assert x - q >= 1 ==> (x - q) * d >= d;
    assert x - q <= -1 ==> (x - q) * d <= -d;
  }

  lemma {:induction false} GcdDivides(a: nat, b: nat)
    ensures Divides(Gcd(a, b), a) && Divides(Gcd(a, b), b)
    ensures a > 0 || b > 0 ==> Gcd(a, b) > 0
    decreases b
  {
    if b == 0 {
      DividesBy(a, a, 1);
      DividesBy(a, 0, 0);
    } else {
      GcdDivides(b, a % b);
      DivMod(a, b);
      var g := Gcd(a, b);
      DividesScaled(g, b, a / b);
      DividesSum(g, (a / b) * b, a % b);
    }
  }

  lemma {:induction false} Bezout(a: nat, b: nat) returns (x: int, y: int)
    ensures a * x + b * y == Gcd(a, b)
    decreases b
  {
    if b == 0 {
      x, y := 1, 0;
    } else {
      var u, v := Bezout(b, a % b);
      DivMod(a, b);
      var q := a / b;
      x, y := v, u - q * v;
      assert b * y == b * u - (q * b) * v;
      assert (a % b) * v == a * v - (q * b) * v;
    }
  }

  predicate Coprime(a: nat, b: nat) {
    Gcd(a, b) == 1
  }

  // A common divisor of coprime numbers is a unit, and conversely.
  lemma CommonDivisor(a: nat, b: nat, d: nat)
    requires Coprime(a, b) && Divides(d, a) && Divides(d, b) && d > 0
    ensures d == 1
  {
    var x, y := Bezout(a, b);
    DividesScaled(d, a, x);
    DividesScaled(d, b, y);
    DividesSum(d, a * x, b * y);
    DividesBound(d, 1);
  }

  lemma CoprimeByBezout(a: nat, b: nat, x: int, y: int)
    requires a * x + b * y == 1
    ensures Coprime(a, b)
  {
    var g := Gcd(a, b);
    GcdDivides(a, b);
    DividesScaled(g, a, x);
    DividesScaled(g, b, y);
    DividesSum(g, a * x, b * y);
    assert a == 0 && b == 0 ==> a * x + b * y == 0;
    DividesBound(g, 1);
  }

  lemma CoprimeSymmetric(a: nat, b: nat)
    requires Coprime(a, b)
    ensures Coprime(b, a)
  {
    var x, y := Bezout(a, b);
    CoprimeByBezout(b, a, y, x);
  }

  lemma Gauss(a: nat, b: nat, c: int)
    requires Coprime(a, b) && Divides(a, b * c)
    ensures Divides(a, c)
  {
    var x, y := Bezout(a, b);
    var k := Quotient(a, b * c);
    assert c == (a * x + b * y) * c == a * x * c + (b * c) * y;
    assert a * x * c == (x * c) * a && (b * c) * y == (k * y) * a;
    assert c == (x * c + k * y) * a;
    DividesBy(a, c, x * c + k * y);
  }

  lemma CoprimeProduct(a: nat, b: nat, c: nat)
    requires Coprime(a, b) && Coprime(a, c)
    ensures Coprime(a, b * c)
  {
    var g := Gcd(a, b * c);
    GcdDivides(a, b * c);
    var x, y := Bezout(a, b);
    var k := Quotient(g, a);
    assert g * (k * x) == (k * g) * x;
    CoprimeByBezout(g, b, k * x, y);
    Gauss(g, b, c);
    assert g == 0 ==> a == 0 && c == 0;
    CommonDivisor(a, c, g);
  }

  lemma CoprimeSquares(a: nat, b: nat)
    requires Coprime(a, b)
    ensures Coprime(a * a, b * b)
  {
    CoprimeProduct(a, b, b);
    CoprimeSymmetric(a, b * b);
    CoprimeProduct(b * b, a, a);
    CoprimeSymmetric(b * b, a * a);
  }

  // Dividing out the gcd leaves coprime numbers.
  lemma Reduced(a: nat, b: nat) returns (g: nat, p: nat, q: nat)
    requires b > 0
    ensures g == Gcd(a, b) > 0 && a == p * g && b == q * g && q > 0 && Coprime(p, q)
  {
    g := Gcd(a, b);
    GcdDivides(a, b);
    var k := Quotient(g, a);
    var l := Quotient(g, b);
    NonNegativeFactor(k, g, a);
    NonNegativeFactor(l, g, b);
    p, q := k, l;
    assert q != 0;
    var x, y := Bezout(a, b);
    assert p * g * x + q * g * y == g * (p * x + q * y);
    Cancel(g, p * x + q * y, 1);
    CoprimeByBezout(p, q, x, y);
  }

  lemma NonNegativeFactor(k: int, g: int, n: int)
    requires n == k * g && g > 0 && n >= 0
    ensures k >= 0
  {
    assert k <= -1 ==> k * g <= -1 * g;
  }

  lemma Cancel(c: int, a: int, b: int)
    requires c != 0 && c * a == c * b
    ensures a == b
  {
    assert c * (a - b) == 0;
  }

  // ---------------------------------------------------------------- powers

  function Pow(b: int, k: nat): int {
    if k == 0 then 1 else b * Pow(b, k - 1)
  }

  lemma {:induction false} PowPositive(b: int, k: nat)
    requires b > 0
    ensures Pow(b, k) > 0
  {
    if k > 0 { PowPositive(b, k - 1); }
  }

  lemma {:induction false} PowAdd(b: int, j: nat, k: nat)
    ensures Pow(b, j + k) == Pow(b, j) * Pow(b, k)
  {
    if j > 0 {
      PowAdd(b, j - 1, k);
      assert b * (Pow(b, j - 1) * Pow(b, k)) == (b * Pow(b, j - 1)) * Pow(b, k);
    }
  }

  lemma SwapInner(a: int, b: int, x: int, y: int)
    ensures (a * b) * (x * y) == (a * x) * (b * y)
  {
    assert (a * b) * (x * y) == a * (b * (x * y));
    assert b * (x * y) == x * (b * y);
    assert a * (x * (b * y)) == (a * x) * (b * y);
  }

  lemma {:induction false} PowProduct(a: int, b: int, k: nat)
    ensures Pow(a * b, k) == Pow(a, k) * Pow(b, k)
  {
    if k > 0 {
      PowProduct(a, b, k - 1);
      SwapInner(a, b, Pow(a, k - 1), Pow(b, k - 1));
    }
  }

  lemma {:induction false} CoprimePow(a: nat, b: nat, k: nat)
    requires Coprime(a, b) && b > 0
    ensures Pow(b, k) > 0 && Coprime(a, Pow(b, k))
  {
    PowPositive(b, k);
    if k == 0 {
      CoprimeByBezout(a, 1, 0, 1);
    } else {
      CoprimePow(a, b, k - 1);
      CoprimeProduct(a, b, Pow(b, k - 1));
    }
  }

  lemma DividesLargerPow(d: int, b: int, j: nat, k: nat)
    requires Divides(d, Pow(b, j)) && j <= k
    ensures Divides(d, Pow(b, k))
  {
    PowAdd(b, j, k - j);
    DividesScaled(d, Pow(b, j), Pow(b, k - j));
  }
}
