/**
  Radix conversion of a number with an optional fraction, between bases 2 and 36.

  The input is the text after trimming and lower-casing.
 */
module Radix {
  import opened Wrappers
  import opened NumberTheory

  // ---------------------------------------------------------------- digits and text

  function DigitOf(c: char): Option<nat> {
    if '0' <= c <= '9' then Some((c - '0') as nat)
    else if 'a' <= c <= 'z' then Some((c - 'a') as nat + 10)
    else None
  }

  function CharOf(d: nat): char
    requires d < 36
  {
    if d < 10 then '0' + d as char else 'a' + (d - 10) as char
  }

  const DIGITS := "0123456789abcdefghijklmnopqrstuvwxyz"

  // The digits in their order.
  lemma DigitsInOrder(c: char, d: nat)
    ensures DigitOf(c) == Some(d) <==> d < 36 && DIGITS[d] == c
    ensures d < 36 ==> CharOf(d) == DIGITS[d]
  {
  }

  lemma DigitRoundTrip(d: nat)
    requires d < 36
    ensures DigitOf(CharOf(d)) == Some(d) && CharOf(d) != '.' && CharOf(d) != '-'
  {
  }

  predicate DigitsBelow(ds: seq<nat>, base: nat) {
    forall i :: 0 <= i < |ds| ==> ds[i] < base
  }

  // The value of a digit sequence, most significant first.
  function Value(ds: seq<nat>, base: nat): nat {
    if ds == [] then 0 else Value(ds[..|ds| - 1], base) * base + ds[|ds| - 1]
  }

  // A number in some base; `whole` and `frac` are its digits.
  datatype Number = Number(neg: bool, whole: seq<nat>, frac: seq<nat>)

  function ParseDigits(s: string, base: nat): Option<seq<nat>> {
    if s == "" then Some([])
    else
      var rest := ParseDigits(s[..|s| - 1], base);
      var d := DigitOf(s[|s| - 1]);
      if rest.None? || d.None? || d.value >= base then None else Some(rest.value + [d.value])
  }

  // The index of the first point, or the length.
  function PointAt(s: string): (p: nat)
    ensures p <= |s|
  {
    if s == "" || s[0] == '.' then 0 else 1 + PointAt(s[1..])
  }

  function Unsigned(s: string): string {
    if s != "" && s[0] == '-' then s[1..] else s
  }

  function WholePart(s: string): string {
    s[..PointAt(s)]
  }

  function FracPart(s: string): string {
    if PointAt(s) < |s| then s[PointAt(s) + 1..] else ""
  }

  // `None` is an invalid digit.
  function Parse(s: string, base: nat): Option<Number> {
    var u := Unsigned(s);
    var whole, frac := ParseDigits(WholePart(u), base), ParseDigits(FracPart(u), base);
    if whole.None? || frac.None? then None else Some(Number(u != s, whole.value, frac.value))
  }

  // The magnitude of a number is Numerator / Denominator.
  function Numerator(n: Number, base: nat): int {
    Value(n.whole, base) * Pow(base, |n.frac|) + Value(n.frac, base)
  }

  function Denominator(n: Number, base: nat): int {
    Pow(base, |n.frac|)
  }

  datatype Converted = Converted(number: Number, nonTerminating: bool)

  function Chars(ds: seq<nat>): string
    requires DigitsBelow(ds, 36)
  {
    seq(|ds|, i requires 0 <= i < |ds| => CharOf(ds[i]))
  }

  // The printed result; an ellipsis marks a fraction that does not end.
  function Text(c: Converted): string
    requires DigitsBelow(c.number.whole, 36) && DigitsBelow(c.number.frac, 36)
  {
    (if c.number.neg then "-" else "") + Chars(c.number.whole)
    + if c.number.frac == [] then "" else "." + Chars(c.number.frac) + if c.nonTerminating then "…" else ""
  }

  // A fraction that does not end is printed like one that does, with an ellipsis after it.
  lemma EllipsisEnds(n: Number)
    requires DigitsBelow(n.whole, 36) && DigitsBelow(n.frac, 36) && n.frac != []
    ensures Text(Converted(n, true)) == Text(Converted(n, false)) + "…"
  {
    var sign := if n.neg then "-" else "";
    var a, b := sign + Chars(n.whole), "." + Chars(n.frac);
    assert b + "" == b && a + (b + "…") == (a + b) + "…";
  }

  // ---------------------------------------------------------------- reading

  lemma {:induction false} ParsedDigitsFit(s: string, base: nat)
    requires ParseDigits(s, base).Some?
    ensures |ParseDigits(s, base).value| == |s| && DigitsBelow(ParseDigits(s, base).value, base)
  {
    if s != "" { ParsedDigitsFit(s[..|s| - 1], base); }
  }

  // One part of the input: its digits accumulated, and the matching power of the base.
  method ReadPart(s: string, base: nat) returns (ok: bool, value: nat, scale: int)
    ensures ok <==> ParseDigits(s, base).Some?
    ensures ok ==> value == Value(ParseDigits(s, base).value, base) && scale == Pow(base, |s|)
  {
    ok, value, scale := true, 0, 1;
    var i := 0;
    assert s[..0] == "" && ParseDigits("", base) == Some([]) && Value([], base) == 0 && Pow(base, 0) == 1;
    hide ParseDigits, Value, Pow, DigitOf;
    while i < |s|
      invariant i <= |s| && ParseDigits(s[..i], base).Some?
      invariant value == Value(ParseDigits(s[..i], base).value, base) && scale == Pow(base, i)
    {
      assert s[..i + 1][..i] == s[..i];
      var d := DigitOf(s[i]);
      if d.None? || d.value >= base {
        ParseOneMore(s[..i], s[i], base);
        assert s[..i + 1] == s[..i] + [s[i]];
        PrefixFails(s, base, i + 1);
        return false, 0, 0;
      }
      ghost var before := ParseDigits(s[..i], base).value;
      ParseOneMore(s[..i], s[i], base);
      assert s[..i + 1] == s[..i] + [s[i]];
      ValueAppend(before, d.value, base);
      NextPow(base, i);
      value := value * base + d.value;
      scale := scale * base;
      i := i + 1;
    }
    assert s[..i] == s;
  }

  lemma ParseOneMore(s: string, c: char, base: nat)
    ensures ParseDigits(s + [c], base)
         == var rest, d := ParseDigits(s, base), DigitOf(c);
            if rest.None? || d.None? || d.value >= base then None else Some(rest.value + [d.value])
  {
    assert (s + [c])[..|s|] == s;
  }

  lemma {:induction false} PrefixFails(s: string, base: nat, n: nat)
    requires n <= |s| && ParseDigits(s[..n], base).None?
    ensures ParseDigits(s, base).None?
    decreases |s|
  {
    if n < |s| {
      assert s[..|s| - 1][..n] == s[..n];
      PrefixFails(s[..|s| - 1], base, n);
    } else {
      assert s[..n] == s;
    }
  }

  // ---------------------------------------------------------------- the integer part

  lemma ValueAppend(ds: seq<nat>, d: nat, base: nat)
    ensures Value(ds + [d], base) == Value(ds, base) * base + d
  {
    assert (ds + [d])[..|ds|] == ds;
  }

  lemma {:induction false} ValuePrepend(d: nat, ds: seq<nat>, base: nat)
    ensures Value([d] + ds, base) == d * Pow(base, |ds|) + Value(ds, base)
  {
    if ds == [] {
      assert [d] + ds == [] + [d];
      ValueAppend([], d, base);
    } else {
      var init, last := ds[..|ds| - 1], ds[|ds| - 1];
      ValuePrepend(d, init, base);
      assert [d] + ds == ([d] + init) + [last] && ds == init + [last];
      ValueAppend([d] + init, last, base);
      ValueAppend(init, last, base);
      Distribute(d * Pow(base, |init|), Value(init, base), base);
      Regroup(d, Pow(base, |init|), base);
      assert Pow(base, |ds|) == base * Pow(base, |init|);
    }
  }

  method IntegerDigits(w: nat, tb: nat) returns (ds: seq<nat>)
    requires tb >= 2
    ensures Value(ds, tb) == w && DigitsBelow(ds, tb) && ds != []
    ensures ds[0] == 0 ==> ds == [0]
  {
    if w == 0 {
      ds := [0];
      ValueAppend([], 0, tb);
      assert [] + [0] == ds;
      return;
    }
    var whole := w;
    ds := [];
    assert Value(ds, tb) == 0 && Pow(tb, 0) == 1;
    hide Value, Pow;
    while whole > 0
      invariant 0 <= whole && w == whole * Pow(tb, |ds|) + Value(ds, tb)
      invariant DigitsBelow(ds, tb) && (whole == 0 ==> ds != [] && ds[0] != 0)
      decreases whole
    {
      var d, q := whole % tb, whole / tb;
      ValuePrepend(d, ds, tb);
      DigitStep(whole, q, d, tb, |ds|);
      ds := [d] + ds;
      whole := q;
    }
    assert whole * Pow(tb, |ds|) == 0;
  }

  lemma DigitStep(whole: nat, q: nat, d: nat, tb: nat, k: nat)
    requires tb >= 2 && whole > 0 && q == whole / tb && d == whole % tb
    ensures whole * Pow(tb, k) == q * Pow(tb, k + 1) + d * Pow(tb, k)
    ensures q < whole && d < tb && (q == 0 ==> d != 0)
  {
    var p := Pow(tb, k);
    DivMod(whole, tb);
    Distribute(q * tb, d, p);
    Regroup(q, tb, p);
    assert q >= whole ==> q * tb >= 2 * q;
  }

  // ---------------------------------------------------------------- does the fraction end?

  // Strip from the denominator the factors that it shares with the base.
  method Terminates(rd: nat, tb: nat) returns (ends: bool)
    requires rd > 0 && tb >= 2
    ensures ends <==> exists k: nat :: Divides(rd, Pow(tb, k))
  {
    var check := rd;
    ghost var k: nat, other: int := 0, 1;
    DividesBy(rd, rd, 1);
    DividesBy(rd, rd * Pow(tb, 0), 1);
    while check > 1
      invariant check > 0 && Divides(check, rd) && Divides(rd, check * Pow(tb, k))
      decreases check
    {
      var d := Gcd(check, tb);
      GcdDivides(check, tb);
      if d == 1 {
        forall j: nat ensures !Divides(rd, Pow(tb, j)) {
          StuckNeverDivides(check, rd, tb, j);
        }
        return false;
      }
      ghost var q := StripStep(check, d, rd, tb, k);
      check := check / d;
      k := k + 1;
    }
    ends := true;
    assert check * Pow(tb, k) == Pow(tb, k);
  }

  lemma StuckNeverDivides(check: nat, rd: nat, tb: nat, j: nat)
    requires check > 1 && Divides(check, rd) && Coprime(check, tb) && tb >= 2
    ensures !Divides(rd, Pow(tb, j))
  {
    CoprimePow(check, tb, j);
    if Divides(rd, Pow(tb, j)) {
      DividesTransitive(check, rd, Pow(tb, j));
      DividesBy(check, check, 1);
      CommonDivisor(check, Pow(tb, j), check);
    }
  }

  lemma StripStep(check: nat, d: nat, rd: nat, tb: nat, k: nat) returns (q: nat)
    requires check > 1 && d > 1 && Divides(d, check) && Divides(d, tb)
    requires Divides(check, rd) && Divides(rd, check * Pow(tb, k))
    ensures q == check / d && 0 < q < check && Divides(q, rd) && Divides(rd, q * Pow(tb, k + 1))
  {
    var c := Quotient(d, check);
    NonNegativeFactor(c, d, check);
    q := c;
    QuotientRemainder(q, 0, d);
    MulLeft(2, d, q);
    DividesBy(q, check, d);
    DividesTransitive(q, check, rd);
    StripScales(check, d, q, tb, k);
    DividesTransitive(rd, check * Pow(tb, k), q * Pow(tb, k + 1));
  }

  // check * tb^k divides q * tb^(k+1), since check is q * d and d divides tb.
  lemma StripScales(check: nat, d: nat, q: nat, tb: nat, k: nat)
    requires check == q * d && Divides(d, tb)
    ensures Divides(check * Pow(tb, k), q * Pow(tb, k + 1))
  {
    var t := Quotient(d, tb);
    var p := Pow(tb, k);
    assert q * Pow(tb, k + 1) == q * ((t * d) * p);
    Regroup(t, d, p);
    Regroup(q, t, d * p);
    Regroup(q, d, p);
    DividesBy(check * p, q * Pow(tb, k + 1), t);
  }

  // ---------------------------------------------------------------- the fraction

  // After the digits `ds`, the remainder is `r`: rn / rd = 0.ds + (r / rd) / tb^|ds|.
  ghost predicate Expands(rn: nat, rd: nat, tb: nat, ds: seq<nat>, r: nat) {
    && rn * Pow(tb, |ds|) == Value(ds, tb) * rd + r
    && r < rd && DigitsBelow(ds, tb)
  }

  lemma ExpandStart(rn: nat, rd: nat, tb: nat)
    requires rn < rd
    ensures Expands(rn, rd, tb, [], rn)
  {
  }

  lemma ExpandStep(rn: nat, rd: nat, tb: nat, ds: seq<nat>, r: nat, d: nat, r': nat)
    requires rd > 0 && tb >= 2 && Expands(rn, rd, tb, ds, r) && r * tb == d * rd + r' && r' < rd
    ensures Expands(rn, rd, tb, ds + [d], r')
  {
    DigitFits(r, rd, tb, d, r');
    var p, v := Pow(tb, |ds|), Value(ds, tb);
    LongDivision(rn, p, v, rd, r, tb, d, r');
    NextPow(tb, |ds|);
    ValueAppend(ds, d, tb);
    hide Value, Pow;
    assert |ds + [d]| == |ds| + 1;
  }

  lemma NextPow(b: int, k: nat)
    ensures Pow(b, k + 1) == b * Pow(b, k)
  {
  }

  lemma LongDivision(rn: int, p: int, v: int, rd: int, r: int, tb: int, d: int, r': int)
    requires rn * p == v * rd + r && r * tb == d * rd + r'
    ensures rn * (tb * p) == (v * tb + d) * rd + r'
  {
    Regroup(rn, tb, p);
    Distribute(v * rd, r, tb);
    Regroup(tb, v, rd);
    Distribute(v * tb, d, rd);
  }

  lemma DigitFits(r: nat, rd: nat, tb: nat, d: nat, r': nat)
    requires r < rd && tb > 0 && r * tb == d * rd + r'
    ensures d < tb
  {
    MulPositive(rd - r, tb);
    Distribute(rd - r, r, tb);
    assert d >= tb ==> d * rd >= tb * rd;
  }

  // One more digit of the long division.
  method NextDigit(rn: nat, rd: nat, tb: nat, ds: seq<nat>, r: nat) returns (ds': seq<nat>, r': nat)
    requires rd > 0 && tb >= 2 && Expands(rn, rd, tb, ds, r)
    ensures Expands(rn, rd, tb, ds', r') && |ds'| == |ds| + 1 && ds < ds'
  {
    hide Expands;
    var scaled := r * tb;
    var d := scaled / rd;
    DivMod(scaled, rd);
    r' := scaled % rd;
    ExpandStep(rn, rd, tb, ds, r, d, r');
    ds' := ds + [d];
  }

  // The remainder is zero exactly when the power of the base clears the denominator.
  lemma RemainderZero(rn: nat, rd: nat, tb: nat, ds: seq<nat>, r: nat)
    requires rd > 0 && Coprime(rn, rd) && Expands(rn, rd, tb, ds, r)
    ensures r == 0 <==> Divides(rd, Pow(tb, |ds|))
  {
    var p := Pow(tb, |ds|);
    if r == 0 {
      DividesBy(rd, rn * p, Value(ds, tb));
      CoprimeSymmetric(rn, rd);
      Gauss(rd, rn, p);
    } else {
      if Divides(rd, p) {
        DividesScaled(rd, p, rn);
        DividesBy(rd, Value(ds, tb) * rd, Value(ds, tb));
        DividesSum(rd, rn * p, Value(ds, tb) * rd);
        DividesBound(rd, r);
      }
    }
  }

  // What is left of num / den after k digits of long division.
  function Rest(num: int, den: int, tb: nat, k: nat): int {
    if den > 0 then num * Pow(tb, k) % den else 0
  }

  lemma RestIs(rn: nat, rd: nat, tb: nat, ds: seq<nat>, r: nat)
    requires rd > 0 && Expands(rn, rd, tb, ds, r)
    ensures Rest(rn, rd, tb, |ds|) == r
  {
    QuotientRemainder(Value(ds, tb), r, rd);
  }

  // n digits in, no remainder has come back before the last, and the last one has, unless there was
  // no room to wait for it.
  ghost predicate Cycles(num: int, den: int, tb: nat, n: nat) {
    && (forall i: nat, j: nat :: i < j < n ==> Rest(num, den, tb, i) != Rest(num, den, tb, j))
    && (n == 64 || exists i: nat :: i < n && Rest(num, den, tb, i) == Rest(num, den, tb, n))
  }

  // A fraction that does not end: 64 digits, or as many as it takes for a remainder to come back.
  method RepeatingDigits(rn: nat, rd: nat, tb: nat) returns (ds: seq<nat>, r: nat)
    requires rd > 0 && tb >= 2 && rn < rd && Coprime(rn, rd) && rn > 0
    requires forall k: nat :: !Divides(rd, Pow(tb, k))
    ensures Expands(rn, rd, tb, ds, r) && r > 0 && 0 < |ds| <= 64 && Cycles(rn, rd, tb, |ds|)
  {
    hide Expands, Divides, Rest;
    ds, r := [], rn;
    var seen: map<nat, nat> := map[];
    ExpandStart(rn, rd, tb);
    while r != 0 && |ds| < 64
      invariant Expands(rn, rd, tb, ds, r) && |ds| <= 64 && r > 0
      invariant forall k: nat :: k < |ds| ==> Rest(rn, rd, tb, k) in seen
      invariant forall x :: x in seen ==> seen[x] < |ds| && Rest(rn, rd, tb, seen[x]) == x
      invariant forall i: nat, j: nat :: i < j < |ds| ==> Rest(rn, rd, tb, i) != Rest(rn, rd, tb, j)
      decreases 64 - |ds|
    {
      RestIs(rn, rd, tb, ds, r);
      if r in seen { break; }
      seen := seen[r := |ds|];
      ds, r := NextDigit(rn, rd, tb, ds, r);
      RemainderZero(rn, rd, tb, ds, r);
    }
  }

  // A fraction that ends: its digits and no more, and no more than 100 of them.
  method TerminatingDigits(rn: nat, rd: nat, tb: nat) returns (ds: seq<nat>, r: nat)
    requires rd > 0 && tb >= 2 && rn < rd && Coprime(rn, rd)
    ensures Expands(rn, rd, tb, ds, r) && |ds| <= 100 && (r != 0 ==> |ds| == 100)
    ensures r == 0 <==> Divides(rd, Pow(tb, 100))
    ensures forall k: nat :: k < |ds| ==> !Divides(rd, Pow(tb, k))
  {
    hide Expands, Divides;
    ds, r := [], rn;
    ExpandStart(rn, rd, tb);
    var guard := 0;
    while r != 0 && guard < 100
      invariant Expands(rn, rd, tb, ds, r) && |ds| == guard <= 100
      invariant forall k: nat :: k < |ds| ==> !Divides(rd, Pow(tb, k))
      decreases 100 - guard
    {
      RemainderZero(rn, rd, tb, ds, r);
      ds, r := NextDigit(rn, rd, tb, ds, r);
      guard := guard + 1;
    }
    RemainderZero(rn, rd, tb, ds, r);
    if r == 0 { DividesLargerPow(rd, tb, |ds|, 100); }
  }

  // ---------------------------------------------------------------- conversion

  datatype Result = BadBase | BadDigit | Ok(value: Converted)

  // The value num / den has a finite expansion of k digits in base tb.
  ghost predicate EndsIn(num: int, den: int, tb: nat, k: nat) {
    Divides(den, num * Pow(tb, k))
  }

  // The printed value is at most num / den and less than one unit in the last place below it; it is
  // equal exactly when 100 fraction digits suffice, and flagged exactly when no number does. No digit
  // is wasted and none is missing.
  ghost predicate Faithful(num: int, den: int, c: Converted, tb: nat) {
    var printed, scale := Numerator(c.number, tb), Denominator(c.number, tb);
    && DigitsBelow(c.number.whole, tb) && DigitsBelow(c.number.frac, tb)
    && printed * den <= num * scale < (printed + 1) * den
    && (printed * den == num * scale <==> EndsIn(num, den, tb, 100))
    && (c.nonTerminating <==> forall k: nat :: !EndsIn(num, den, tb, k))
    && |c.number.frac| <= (if c.nonTerminating then 64 else 100)
    && c.number.whole != [] && (c.number.whole[0] == 0 ==> c.number.whole == [0])
    && WellCut(num, den, c, tb)
  }

  // Every fraction digit is needed: there is no shorter expansion, and an exact one does not end in
  // zero. One that is cut has 100 digits, and one that never ends goes on until it repeats.
  ghost predicate WellCut(num: int, den: int, c: Converted, tb: nat) {
    var frac := c.number.frac;
    && (forall k: nat :: k < |frac| ==> !EndsIn(num, den, tb, k))
    && (EndsIn(num, den, tb, 100) && frac != [] ==> frac[|frac| - 1] != 0)
    && (!c.nonTerminating && !EndsIn(num, den, tb, 100) ==> |frac| == 100)
    && (c.nonTerminating ==> frac != [] && Cycles(num, den, tb, |frac|))
  }

  // Finite expansions of num / den are those of its reduced fraction part.
  lemma EndsInReduced(num: nat, den: nat, g: nat, rn: nat, rd: nat, tb: nat, k: nat)
    requires den > 0 && g > 0 && num % den == rn * g && den == rd * g && rd > 0 && Coprime(rn, rd)
    ensures EndsIn(num, den, tb, k) <==> Divides(rd, Pow(tb, k))
  {
    var p, w := Pow(tb, k), num / den;
    SplitProduct(num, den, w, rn, g, p);
    DividesBy(den, (w * p) * den, w * p);
    if EndsIn(num, den, tb, k) {
      DividesSum(den, num * p, (w * p) * den);
      assert Divides(den, g * (rn * p));
      CancelFactor(g, rd, rn * p);
      CoprimeSymmetric(rn, rd);
      Gauss(rd, rn, p);
    }
    if Divides(rd, p) {
      var q := Quotient(rd, p);
      Regroup(rn, q, rd);
      Regroup(g, rn * q, rd);
      assert g * (rn * p) == (rn * q) * den;
      DividesBy(den, g * (rn * p), rn * q);
      DividesSum(den, (w * p) * den, g * (rn * p));
    }
  }

  lemma SplitProduct(num: nat, den: nat, w: nat, rn: nat, g: nat, p: int)
    requires den > 0 && w == num / den && num % den == rn * g
    ensures num * p == (w * p) * den + g * (rn * p)
  {
    DivMod(num, den);
    Distribute(w * den, rn * g, p);
    Regroup(w, den, p);
    Regroup(den, w, p);
    Regroup(rn, g, p);
  }

  lemma CancelFactor(g: nat, rd: nat, x: int)
    requires g > 0 && Divides(rd * g, g * x)
    ensures Divides(rd, x)
  {
    var q := Quotient(rd * g, g * x);
    Regroup(q, rd, g);
    Cancel(g, x, q * rd);
    DividesBy(rd, x, q);
  }

  // From the expansion of the reduced fraction to the printed value.
  lemma PrintedValue(num: nat, den: nat, g: nat, rn: nat, rd: nat, tb: nat, whole: seq<nat>, ds: seq<nat>, r: nat,
                     neg: bool)
    requires den > 0 && g > 0 && num % den == rn * g && den == rd * g && tb >= 2
    requires Value(whole, tb) == num / den && Expands(rn, rd, tb, ds, r)
    ensures var n := Number(neg, whole, ds);
      var printed, scale := Numerator(n, tb), Denominator(n, tb);
      num * scale == printed * den + r * g && 0 <= r * g < den
  {
    var p, w, v := Pow(tb, |ds|), num / den, Value(ds, tb);
    SplitProduct(num, den, w, rn, g, p);
    Recombine(num * p, w * p, g, rn * p, v, rd, r);
  }

  lemma Recombine(x: int, wp: int, g: int, y: int, v: int, rd: int, r: int)
    requires x == wp * (rd * g) + g * y && y == v * rd + r && 0 <= r < rd && g > 0
    ensures x == (wp + v) * (rd * g) + r * g && 0 <= r * g < rd * g
  {
    Distribute(v * rd, r, g);
    Regroup(v, rd, g);
    Distribute(wp, v, rd * g);
    MulPositive(rd - r, g);
    Distribute(rd - r, r, g);
  }

  method RadixConvert(s: string, fb: int, tb: int) returns (r: Result)
    ensures r.BadBase? <==> !(2 <= fb <= 36 && 2 <= tb <= 36)
    ensures !r.BadBase? ==> (r.BadDigit? <==> Parse(s, fb).None?)
    ensures r.Ok? ==>
      var n := Parse(s, fb).value;
      r.value.number.neg == n.neg && Faithful(Numerator(n, fb), Denominator(n, fb), r.value, tb)
  {
    hide ParseDigits, Value, Pow, Faithful;
    if !(2 <= fb <= 36 && 2 <= tb <= 36) { return BadBase; }
    var u := Unsigned(s);
    var okW, whole, _ := ReadPart(WholePart(u), fb);
    var okF, frac, den := ReadPart(FracPart(u), fb);
    if !okW || !okF { return BadDigit; }
    ghost var n := Parse(s, fb).value;
    ParsedDigitsFit(FracPart(u), fb);
    PowPositive(fb, |n.frac|);
    var num := whole * den + frac;
    var c := ConvertFraction(num, den, tb, u != s);
    return Ok(c);
  }

  method ConvertFraction(num: nat, den: nat, tb: nat, neg: bool) returns (c: Converted)
    requires den > 0 && tb >= 2
    ensures c.number.neg == neg && Faithful(num, den, c, tb)
  {
    hide Expands, Divides, EndsIn, Value, Pow, Gcd, Numerator, Denominator;
    var whole := IntegerDigits(num / den, tb);
    var rem := num % den;
    ghost var g, p, q := Reduced(rem, den);
    var d := Gcd(rem, den);
    ReducedQuotients(rem, den, d, p, q);
    var rn, rd := rem / d, den / d;
    var ends := Terminates(rd, tb);
    ProperFraction(rem, den, g, rn, rd);
    var ds, r;
    if ends {
      ds, r := TerminatingDigits(rn, rd, tb);
    } else {
      ZeroEnds(rn, rd, tb);
      ds, r := RepeatingDigits(rn, rd, tb);
    }
    c := Converted(Number(neg, whole, ds), !ends);
    ExpansionBrackets(num, den, g, rn, rd, tb, c.number, r);
    EndsAreThoseOfReduced(num, den, g, rn, rd, tb);
    assert !ends ==> !Divides(rd, Pow(tb, 100));
    assert r == 0 <==> EndsIn(num, den, tb, 100);
    if ends {
      LastDigit(rn, rd, tb, ds, r);
    } else {
      CyclesScale(num, den, g, rn, rd, tb, |ds|);
      assert forall k: nat :: !EndsIn(num, den, tb, k);
    }
    assert WellCut(num, den, c, tb);
  }

  // An expansion that is complete, and was not one digit earlier, does not end in zero.
  lemma LastDigit(rn: nat, rd: nat, tb: nat, ds: seq<nat>, r: nat)
    requires rd > 0 && tb >= 2 && Coprime(rn, rd) && Expands(rn, rd, tb, ds, r)
    requires forall k: nat :: k < |ds| ==> !Divides(rd, Pow(tb, k))
    ensures r == 0 && ds != [] ==> ds[|ds| - 1] != 0
  {
    if r == 0 && ds != [] && ds[|ds| - 1] == 0 {
      var n := |ds| - 1;
      var v, p := Value(ds[..n], tb), Pow(tb, n);
      assert Pow(tb, |ds|) == tb * p && Value(ds, tb) == v * tb;
      Regroup(rn, tb, p);
      Regroup(v, tb, rd);
      Cancel(tb, rn * p, v * rd);
      DividesBy(rd, rn * p, v);
      CoprimeSymmetric(rn, rd);
      Gauss(rd, rn, p);
    }
  }

  lemma RestScales(num: nat, den: nat, g: nat, rn: nat, rd: nat, tb: nat, k: nat)
    requires den > 0 && g > 0 && num % den == rn * g && den == rd * g && rd > 0
    ensures Rest(num, den, tb, k) == g * Rest(rn, rd, tb, k)
  {
    PowSign(tb, k);
    var p, w := Pow(tb, k), num / den;
    SplitProduct(num, den, w, rn, g, p);
    NonNegativeProduct(rn, p);
    var q, r := rn * p / rd, rn * p % rd;
    DivMod(rn * p, rd);
    Recombine(num * p, w * p, g, rn * p, q, rd, r);
    assert num * p == (w * p + q) * den + r * g;
    QuotientRemainder(w * p + q, r * g, den);
  }

  lemma {:induction false} PowSign(b: nat, k: nat)
    ensures Pow(b, k) >= 0
  {
    if k > 0 {
      PowSign(b, k - 1);
      NonNegativeProduct(b, Pow(b, k - 1));
    }
  }

  lemma NonNegativeProduct(a: int, b: int)
    requires a >= 0 && b >= 0
    ensures a * b >= 0
  {
  }

  lemma CyclesScale(num: nat, den: nat, g: nat, rn: nat, rd: nat, tb: nat, n: nat)
    requires den > 0 && g > 0 && num % den == rn * g && den == rd * g && rd > 0
    requires Cycles(rn, rd, tb, n)
    ensures Cycles(num, den, tb, n)
  {
    hide Rest;
    forall i: nat, j: nat | i < j < n ensures Rest(num, den, tb, i) != Rest(num, den, tb, j) {
      RestScales(num, den, g, rn, rd, tb, i);
      RestScales(num, den, g, rn, rd, tb, j);
      var x, y := Rest(rn, rd, tb, i), Rest(rn, rd, tb, j);
      if g * x == g * y { Cancel(g, x, y); }
    }
    if n != 64 {
      var i: nat :| i < n && Rest(rn, rd, tb, i) == Rest(rn, rd, tb, n);
      RestScales(num, den, g, rn, rd, tb, i);
      RestScales(num, den, g, rn, rd, tb, n);
    }
  }

  lemma ProperFraction(rem: nat, den: nat, g: nat, rn: nat, rd: nat)
    requires rem < den && rem == rn * g && den == rd * g
    ensures rn < rd
  {
    assert rn >= rd ==> rn * g >= rd * g;
  }

  // The printed value brackets the input from below, with nothing left over exactly when r is zero.
  ghost predicate Brackets(num: int, den: int, n: Number, tb: nat, exact: bool) {
    var printed, scale := Numerator(n, tb), Denominator(n, tb);
    printed * den <= num * scale < (printed + 1) * den && (printed * den == num * scale <==> exact)
  }

  lemma ExpansionBrackets(num: nat, den: nat, g: nat, rn: nat, rd: nat, tb: nat, n: Number, r: nat)
    requires den > 0 && g > 0 && num % den == rn * g && den == rd * g && tb >= 2
    requires Value(n.whole, tb) == num / den && Expands(rn, rd, tb, n.frac, r)
    ensures Brackets(num, den, n, tb, r == 0) && DigitsBelow(n.frac, tb)
  {
    PrintedValue(num, den, g, rn, rd, tb, n.whole, n.frac, r, n.neg);
    Bracketed(num * Denominator(n, tb), Numerator(n, tb), den, r, g);
  }

  lemma EndsAreThoseOfReduced(num: nat, den: nat, g: nat, rn: nat, rd: nat, tb: nat)
    requires den > 0 && g > 0 && num % den == rn * g && den == rd * g && rd > 0 && Coprime(rn, rd)
    ensures forall k: nat :: EndsIn(num, den, tb, k) <==> Divides(rd, Pow(tb, k))
    ensures (forall k: nat :: !EndsIn(num, den, tb, k)) <==> forall k: nat :: !Divides(rd, Pow(tb, k))
  {
    forall k: nat ensures EndsIn(num, den, tb, k) <==> Divides(rd, Pow(tb, k)) {
      EndsInReduced(num, den, g, rn, rd, tb, k);
    }
    if k: nat :| Divides(rd, Pow(tb, k)) { assert EndsIn(num, den, tb, k); }
  }

  lemma Bracketed(x: int, printed: int, den: int, r: int, g: int)
    requires x == printed * den + r * g && 0 <= r && g > 0 && r * g < den
    ensures printed * den <= x < (printed + 1) * den
    ensures printed * den == x <==> r == 0
  {
    Distribute(printed, 1, den);
    if r > 0 { MulPositive(r, g); }
  }

  lemma ReducedQuotients(a: nat, b: nat, g: nat, p: nat, q: nat)
    requires g > 0 && a == p * g && b == q * g
    ensures a / g == p && b / g == q
  {
    QuotientRemainder(p, 0, g);
    QuotientRemainder(q, 0, g);
  }

  // A zero fraction part ends at once.
  lemma ZeroEnds(rn: nat, rd: nat, tb: nat)
    requires rd > 0 && Coprime(rn, rd) && forall k: nat :: !Divides(rd, Pow(tb, k))
    ensures rn > 0
  {
    if rn == 0 {
      assert Gcd(0, rd) == Gcd(rd, 0) == rd;
      DividesBy(rd, Pow(tb, 0), 1);
    }
  }

  // ---------------------------------------------------------------- reading the result back

  lemma {:induction false} ParseChars(ds: seq<nat>, base: nat)
    requires DigitsBelow(ds, base) && base <= 36
    ensures ParseDigits(Chars(ds), base) == Some(ds)
  {
    if ds != [] {
      var init, last := ds[..|ds| - 1], ds[|ds| - 1];
      ParseChars(init, base);
      DigitRoundTrip(last);
      assert Chars(ds)[..|ds| - 1] == Chars(init) && ds == init + [last];
    }
  }

  lemma {:induction false} PointAfterChars(ds: seq<nat>, rest: string)
    requires DigitsBelow(ds, 36)
    ensures PointAt(Chars(ds) + rest) == |ds| + PointAt(rest)
  {
    var s := Chars(ds) + rest;
    if ds == [] {
      assert s == rest;
    } else {
      DigitRoundTrip(ds[0]);
      assert s[0] == CharOf(ds[0]) && s[1..] == Chars(ds[1..]) + rest;
      PointAfterChars(ds[1..], rest);
    }
  }

  // Round trip: what is printed without an ellipsis, read with the same parser, is the number that
  // was converted; by `Faithful` its value is then the input's exactly when 100 digits suffice.
  lemma ReadBack(c: Converted, tb: nat)
    requires 2 <= tb <= 36 && !c.nonTerminating && c.number.whole != []
    requires DigitsBelow(c.number.whole, tb) && DigitsBelow(c.number.frac, tb)
    ensures Parse(Text(c), tb) == Some(c.number)
  {
    hide Chars, PointAt, Magnitude, Text, ParseDigits;
    var n := c.number;
    MagnitudeParts(n);
    ParseChars(n.whole, tb);
    ParseChars(n.frac, tb);
    TextIsSigned(c);
  }

  lemma TextIsSigned(c: Converted)
    requires DigitsBelow(c.number.whole, 36) && DigitsBelow(c.number.frac, 36)
    requires !c.nonTerminating && c.number.whole != []
    ensures Unsigned(Text(c)) == Magnitude(c.number) && (c.number.neg <==> Unsigned(Text(c)) != Text(c))
  {
    hide PointAt, ParseDigits;
    var u := Magnitude(c.number);
    DigitRoundTrip(c.number.whole[0]);
    assert u[0] == CharOf(c.number.whole[0]);
    assert c.number.frac != [] ==> "." + Chars(c.number.frac) + "" == "." + Chars(c.number.frac);
    if c.number.neg {
      assert Text(c) == "-" + u;
      assert ("-" + u)[1..] == u;
    } else {
      assert Text(c) == u;
    }
  }

  // The text of a number without its sign.
  function Magnitude(n: Number): string
    requires DigitsBelow(n.whole, 36) && DigitsBelow(n.frac, 36)
  {
    Chars(n.whole) + if n.frac == [] then "" else "." + Chars(n.frac)
  }

  lemma MagnitudeParts(n: Number)
    requires DigitsBelow(n.whole, 36) && DigitsBelow(n.frac, 36)
    ensures WholePart(Magnitude(n)) == Chars(n.whole) && FracPart(Magnitude(n)) == Chars(n.frac)
  {
    var head, tail := Chars(n.whole), if n.frac == [] then "" else "." + Chars(n.frac);
    PointAfterChars(n.whole, tail);
    assert PointAt(tail) == 0 && |head| == |n.whole| && (n.frac == [] ==> Chars(n.frac) == "");
    hide Chars, PointAt;
    assert Magnitude(n) == head + tail;
    assert (head + tail)[..|head|] == head && (n.frac != [] ==> (head + tail)[|head| + 1..] == Chars(n.frac));
  }

  // ---------------------------------------------------------------- a cut that is not announced

  // A negative power of two has as many decimal digits as its exponent says, and no fewer.
  lemma PowerEndsIn(n: nat, k: nat)
    ensures EndsIn(1, Pow(2, n), 10, k) <==> k >= n
  {
    PowProduct(2, 5, k);
    var two, five := Pow(2, k), Pow(5, k);
    if k >= n {
      DividesBy(Pow(2, n), Pow(2, n), 1);
      DividesLargerPow(Pow(2, n), 2, n, k);
      DividesScaled(Pow(2, n), two, five);
    } else {
      PowPositive(2, k);
      CoprimeByBezout(2, 5, -2, 1);
      CoprimePow(2, 5, k);
      OddPart(two, five);
      DividesBy(Pow(2, k + 1), Pow(2, k + 1), 1);
      DividesLargerPow(Pow(2, k + 1), 2, k + 1, n);
      if Divides(Pow(2, n), 1 * Pow(10, k)) { DividesTransitive(Pow(2, k + 1), Pow(2, n), 1 * Pow(10, k)); }
    }
  }

  function Zeros(n: nat): string { seq(n, _ => '0') }

  // 0.00...01 in base 2, with n zeros after the point.
  function SmallText(n: nat): string { "0." + (Zeros(n) + "1") }

  lemma {:induction false} ParseZeros(n: nat)
    ensures ParseDigits(Zeros(n), 2).Some? && |ParseDigits(Zeros(n), 2).value| == n
    ensures Value(ParseDigits(Zeros(n), 2).value, 2) == 0
  {
    if n > 0 {
      ParseZeros(n - 1);
      ParseOneMore(Zeros(n - 1), '0', 2);
      ValueAppend(ParseDigits(Zeros(n - 1), 2).value, 0, 2);
      hide ParseDigits, Value;
      assert Zeros(n) == Zeros(n - 1) + ['0'];
    }
  }

  lemma SmallTextParses(n: nat)
    ensures Parse(SmallText(n), 2).Some?
    ensures var x := Parse(SmallText(n), 2).value;
      !x.neg && Numerator(x, 2) == 1 && Denominator(x, 2) == Pow(2, n + 1)
  {
    SmallTextParts(n);
    ParseZero();
    ParseZeros(n);
    ParseOneMore(Zeros(n), '1', 2);
    var zeros := ParseDigits(Zeros(n), 2).value;
    ValueAppend(zeros, 1, 2);
    hide ParseDigits, Value, PointAt, WholePart, FracPart, Pow;
    var x := Parse(SmallText(n), 2).value;
    assert x == Number(false, [0], zeros + [1]);
    assert Numerator(x, 2) == 0 * Pow(2, n + 1) + 1;
  }

  lemma ParseZero()
    ensures ParseDigits("0", 2) == Some([0]) && Value([0], 2) == 0
  {
    ParseOneMore("", '0', 2);
    ValueAppend([], 0, 2);
    assert "" + ['0'] == "0" && [] + [0] == [0];
  }

  lemma SmallTextParts(n: nat)
    ensures var s := SmallText(n); Unsigned(s) == s && WholePart(s) == "0" && FracPart(s) == Zeros(n) + ['1']
  {
    var s := SmallText(n);
    assert s[0] == '0' && s[1..][0] == '.';
    assert PointAt(s[1..]) == 0 && PointAt(s) == 1;
  }

  // From 100 zeros on, the decimal expansion needs more digits than are printed: the result falls
  // short of the input, and nothing is flagged.
  method UnannouncedCut(n: nat) returns (r: Result)
    requires n >= 100
    ensures r.Ok? && !r.value.nonTerminating
    ensures Numerator(r.value.number, 10) * Pow(2, n + 1) < Denominator(r.value.number, 10)
  {
    hide Parse, Faithful, Pow, Numerator, Denominator;
    SmallTextParses(n);
    r := RadixConvert(SmallText(n), 2, 10);
    FallsShort(n, r.value);
  }

  lemma FallsShort(n: nat, c: Converted)
    requires n >= 100 && Faithful(1, Pow(2, n + 1), c, 10)
    ensures !c.nonTerminating && Numerator(c.number, 10) * Pow(2, n + 1) < Denominator(c.number, 10)
  {
    PowerEndsIn(n + 1, 100);
    PowerEndsIn(n + 1, n + 1);
    hide EndsIn, Pow, Numerator, Denominator;
  }

  lemma OddPart(two: int, five: nat)
    requires two > 0 && Coprime(2, five)
    ensures !Divides(2 * two, two * five)
  {
    if Divides(2 * two, two * five) {
      var q := Quotient(2 * two, two * five);
      Regroup(q, 2, two);
      Cancel(two, five, 2 * q);
      DividesBy(2, five, q);
      DividesBy(2, 2, 1);
      CommonDivisor(2, five, 2);
    }
  }
}
