/** Shifts and rotations at a fixed width, against multiplication, floor division and single bits. */
module FixedWidth {
  import opened NumberTheory

  datatype Shift = Shl | Shr | Sar | Rol | Ror

  datatype Shifted =
    | BadWidth
    | NegativeCount
    | Value(unsigned: nat, signed: int, overflow: bool)

  function TwoTo(k: nat): (p: nat)
    ensures p > 0
  {
    PowPositive(2, k);
    Pow(2, k)
  }

  // Python's `|` on non-negative numbers, bit by bit.
  function Or(x: nat, y: nat): nat
    decreases x + y
  {
    if x == 0 then y
    else if y == 0 then x
    else 2 * Or(x / 2, y / 2) + if x % 2 == 1 || y % 2 == 1 then 1 else 0
  }

  // Bit i, counted from the least significant.
  function Bit(v: nat, i: nat): nat {
    if i == 0 then v % 2 else Bit(v / 2, i - 1)
  }

  function Signed(v: nat, w: nat): int
    requires w > 0
  {
    if v >= TwoTo(w - 1) then v - TwoTo(w) else v
  }

  function Left(a: nat, k: nat): nat { a * TwoTo(k) }

  function Right(a: nat, k: nat): nat { a / TwoTo(k) }

  // The k low bits.
  function Low(a: int, k: nat): nat { a % TwoTo(k) }

  // Rotations by a count below the width.
  function TurnLeft(a: nat, k: nat, w: nat): nat
    requires k < w
  {
    if k == 0 then a else Low(Or(Left(a, k), Right(a, w - k)), w)
  }

  function TurnRight(a: nat, k: nat, w: nat): nat
    requires k < w
  {
    if k == 0 then a else Low(Or(Right(a, k), Left(a, w - k)), w)
  }

  function ShiftArithmetic(a: nat, b: nat, w: nat): int
    requires w > 0
  {
    var sa := Signed(a, w);
    if b < w then Floor(sa, b) else if sa < 0 then -1 else 0
  }

  // Python's `>>`, which floors.
  function Floor(v: int, k: nat): int { v / TwoTo(k) }

  // `Shown` masks a result to the width.
  function Shown(v: int, w: nat, overflow: bool): Shifted
    requires w > 0
  {
    var u := Low(v, w);
    Value(u, Signed(u, w), overflow)
  }

  function BitOp(n: int, op: Shift, b: int, w: int): Shifted {
    if w !in {8, 16, 32, 64} then BadWidth
    else if b < 0 then NegativeCount
    else
      var a := Low(n, w);
      match op
      case Shl => if b >= w then Shown(0, w, true) else Shown(Left(a, b), w, Left(a, b) > TwoTo(w) - 1)
      case Shr => if b >= w then Value(0, 0, false) else Shown(Right(a, b), w, false)
      case Sar => Shown(Low(ShiftArithmetic(a, b, w), w), w, false)
      case Rol => Shown(TurnLeft(a, b % w, w), w, false)
      case Ror => Shown(TurnRight(a, b % w, w), w, false)
  }

  // ---------------------------------------------------------------- quotients and powers of two

  lemma TwoToSum(j: nat, k: nat)
    ensures TwoTo(j + k) == TwoTo(j) * TwoTo(k)
  {
    PowAdd(2, j, k);
  }

  lemma {:induction false} TwoToGrows(j: nat, k: nat)
    requires j <= k
    ensures TwoTo(j) <= TwoTo(k)
  {
    if j < k { TwoToGrows(j, k - 1); }
  }

  // The halves of a number cut at bit j.
  lemma Halves(a: nat, j: nat, k: nat)
    requires a < TwoTo(j + k)
    ensures a == Left(Right(a, j), j) + Low(a, j) && Right(a, j) < TwoTo(k) && Low(a, j) < TwoTo(j)
  {
    TwoToSum(j, k);
    var d, hi := TwoTo(j), Right(a, j);
    DivMod(a, d);
    if hi >= TwoTo(k) { MulLeft(TwoTo(k), hi, d); }
  }

  // Two halves put together fit, and come apart again.
  lemma Joined(x: nat, k: nat, y: nat, j: nat)
    requires y < TwoTo(k) && x < TwoTo(j)
    ensures Left(x, k) + y < TwoTo(k + j) && Right(Left(x, k) + y, k) == x && Low(Left(x, k) + y, k) == y
  {
    TwoToSum(k, j);
    MulLeft(x + 1, TwoTo(j), TwoTo(k));
    Distribute(x, 1, TwoTo(k));
    QuotientRemainder(x, y, TwoTo(k));
  }

  lemma LowOfSmall(a: int, k: nat)
    ensures Low(a, k) < TwoTo(k) && (0 <= a < TwoTo(k) ==> Low(a, k) == a)
  {
    if 0 <= a < TwoTo(k) { QuotientRemainder(0, a, TwoTo(k)); }
  }

  // Only the low half of a number survives a shift by the size of its high half.
  lemma LowOfShifted(hi: nat, lo: nat, y: nat, k: nat, w: nat)
    requires k < w && Left(lo, k) + y < TwoTo(w)
    ensures Low(Left(Left(hi, w - k) + lo, k) + y, w) == Left(lo, k) + y
  {
    TwoToSum(w - k, k);
    Distribute(hi * TwoTo(w - k), lo, TwoTo(k));
    Regroup(hi, TwoTo(w - k), TwoTo(k));
    QuotientRemainder(hi, Left(lo, k) + y, TwoTo(w));
  }

  // ---------------------------------------------------------------- bitwise or

  lemma {:induction false} OrCommutes(x: nat, y: nat)
    ensures Or(x, y) == Or(y, x)
    decreases x + y
  {
    if x > 0 && y > 0 { OrCommutes(x / 2, y / 2); }
  }

  lemma DoubledTwoTo(x: nat, k: nat)
    requires k > 0
    ensures Left(x, k) == 2 * Left(x, k - 1)
  {
    assert TwoTo(k) == 2 * TwoTo(k - 1);
    assert x * (2 * TwoTo(k - 1)) == 2 * (x * TwoTo(k - 1));
  }

  // Where the operands share no bits, `|` is addition.
  lemma {:induction false} OrIsSum(x: nat, k: nat, y: nat)
    requires y < TwoTo(k)
    ensures Or(Left(x, k), y) == Left(x, k) + y
    decreases k
  {
    if k == 0 {
      assert TwoTo(0) == 1 && y == 0;
    } else {
      var u := Left(x, k - 1);
      DoubledTwoTo(x, k);
      assert TwoTo(k) == 2 * TwoTo(k - 1);
      OrIsSum(x, k - 1, y / 2);
      assert (2 * u) / 2 == u && (2 * u) % 2 == 0;
    }
  }

  lemma {:induction false} BitOfJoined(x: nat, k: nat, y: nat, i: nat)
    requires y < TwoTo(k)
    ensures Bit(Left(x, k) + y, i) == if i < k then Bit(y, i) else Bit(x, i - k)
    decreases k
  {
    if k == 0 {
      assert TwoTo(0) == 1 && y == 0;
    } else {
      var u := Left(x, k - 1);
      DoubledTwoTo(x, k);
      assert TwoTo(k) == 2 * TwoTo(k - 1);
      assert (2 * u + y) / 2 == u + y / 2 && (2 * u + y) % 2 == y % 2;
      if i > 0 { BitOfJoined(x, k - 1, y / 2, i - 1); }
    }
  }

  // ---------------------------------------------------------------- rotation

  // A rotation by k swaps the low w - k bits with the high k bits.
  lemma TurnSwaps(a: nat, k: nat, w: nat)
    requires 0 < k < w && a < TwoTo(w)
    ensures var hi, lo := Right(a, w - k), Low(a, w - k);
      && TurnLeft(a, k, w) == Left(lo, k) + hi < TwoTo(w) && hi < TwoTo(k) && lo < TwoTo(w - k)
      && a == Left(hi, w - k) + lo
  {
    hide Left, Right, Low, Or;
    var hi, lo := Right(a, w - k), Low(a, w - k);
    Halves(a, w - k, k);
    OrIsSum(a, k, hi);
    Joined(lo, k, hi, w - k);
    LowOfShifted(hi, lo, hi, k, w);
  }

  lemma RightIsLeft(a: nat, k: nat, w: nat)
    requires 0 < k < w
    ensures TurnRight(a, k, w) == TurnLeft(a, w - k, w)
  {
    OrCommutes(Right(a, k), Left(a, w - k));
  }

  // Rotating right undoes rotating left.
  lemma TurnsRoundTrip(a: nat, k: nat, w: nat)
    requires k < w && a < TwoTo(w)
    ensures TurnLeft(a, k, w) < TwoTo(w) && TurnRight(TurnLeft(a, k, w), k, w) == a
  {
    hide Left, Right, Low, Or;
    if k != 0 {
      var r := TurnLeft(a, k, w);
      TurnSwaps(a, k, w);
      RightIsLeft(r, k, w);
      TurnSwaps(r, w - k, w);
      Joined(Low(a, w - k), k, Right(a, w - k), w - k);
    }
  }

  // Bit i of the argument is bit i + k of the rotation, wrapping around at the width.
  lemma TurnMovesBits(a: nat, k: nat, w: nat, i: nat)
    requires k < w && a < TwoTo(w) && i < w
    ensures Bit(TurnLeft(a, k, w), if i + k < w then i + k else i + k - w) == Bit(a, i)
  {
    hide Left, Right, Low, Or, Bit;
    if k != 0 {
      var hi, lo := Right(a, w - k), Low(a, w - k);
      TurnSwaps(a, k, w);
      BitOfJoined(hi, w - k, lo, i);
      BitOfJoined(lo, k, hi, if i + k < w then i + k else i + k - w);
    }
  }

  lemma Wrapped(i: nat, b: nat, w: nat)
    requires i < w
    ensures (i + b) % w == if i + b % w < w then i + b % w else i + b % w - w
  {
    var q, k := b / w, b % w;
    DivMod(b, w);
    if i + k < w {
      QuotientRemainder(q, i + k, w);
    } else {
      Distribute(q, 1, w);
      QuotientRemainder(q + 1, i + k - w, w);
    }
  }

  // The rotations as reported, for every count: right undoes left, and bit i moves to bit i + b
  // modulo the width.
  lemma RotateRightUndoesLeft(n: int, b: int, w: int)
    requires w in {8, 16, 32, 64} && b >= 0
    ensures var left := BitOp(n, Rol, b, w);
      && left.Value? && BitOp(left.unsigned, Ror, b, w) == left.(unsigned := Low(n, w), signed := Signed(Low(n, w), w))
      && forall i: nat :: i < w ==> Bit(left.unsigned, (i + b) % w) == Bit(Low(n, w), i)
  {
    hide Left, Right, Low, Or, Bit, TurnLeft, TurnRight, Signed;
    var a, k := Low(n, w), b % w;
    LowOfSmall(n, w);
    TurnsRoundTrip(a, k, w);
    LowOfSmall(a, w);
    LowOfSmall(TurnLeft(a, k, w), w);
    forall i: nat | i < w ensures Bit(TurnLeft(a, k, w), (i + b) % w) == Bit(a, i) {
      TurnMovesBits(a, k, w, i);
      Wrapped(i, b, w);
    }
  }

  // ---------------------------------------------------------------- shifts

  // A left shift is multiplication modulo the width, for every count. It is flagged when bits are
  // dropped, and also when zero is shifted by the whole width or more, where none are.
  lemma LeftShiftMultiplies(n: int, b: int, w: int)
    requires w in {8, 16, 32, 64} && b >= 0
    ensures var a, r := Low(n, w), BitOp(n, Shl, b, w);
      && r.Value? && r.unsigned == Low(Left(a, b), w)
      && (r.overflow <==> Left(a, b) >= TwoTo(w) || (a == 0 && b >= w))
  {
    hide Signed;
    var a := Low(n, w);
    if b >= w { FarLeft(a, b, w); }
  }

  lemma FarLeft(a: nat, b: nat, w: nat)
    requires b >= w
    ensures Low(Left(a, b), w) == 0 == Low(0, w) && (a > 0 ==> Left(a, b) >= TwoTo(w))
  {
    TwoToSum(b - w, w);
    Regroup(a, TwoTo(b - w), TwoTo(w));
    QuotientRemainder(a * TwoTo(b - w), 0, TwoTo(w));
    QuotientRemainder(0, 0, TwoTo(w));
    TwoToGrows(w, b);
    if a > 0 { MulLeft(1, a, TwoTo(b)); }
  }

  // A logical right shift is division, for every count.
  lemma RightShiftDivides(n: int, b: int, w: int)
    requires w in {8, 16, 32, 64} && b >= 0
    ensures var r := BitOp(n, Shr, b, w);
      r.Value? && r.unsigned == Right(Low(n, w), b) && !r.overflow
  {
    hide Left, Right, Low, Signed;
    var a := Low(n, w);
    LowOfSmall(n, w);
    RightShrinks(a, b, w);
    LowOfSmall(Right(a, b), w);
  }

  lemma RightShrinks(a: nat, b: nat, w: nat)
    requires a < TwoTo(w)
    ensures Right(a, b) <= a && (b >= w ==> Right(a, b) == 0)
  {
    var q, d := a / TwoTo(b), TwoTo(b);
    DivMod(a, d);
    MulLeft(1, d, q);
    if b >= w {
      TwoToGrows(w, b);
      QuotientRemainder(0, a, d);
    }
  }

  // Reading back as signed a number that fits in the width.
  lemma SignedReadsBack(v: int, w: nat)
    requires w > 0 && -(TwoTo(w - 1) as int) <= v < TwoTo(w - 1)
    ensures Signed(Low(v, w), w) == v
  {
    assert TwoTo(w) == 2 * TwoTo(w - 1);
    if v >= 0 {
      QuotientRemainder(0, v, TwoTo(w));
    } else {
      QuotientRemainder(-1, v + TwoTo(w), TwoTo(w));
    }
  }

  lemma SignedBounds(a: nat, w: nat)
    requires w > 0 && a < TwoTo(w)
    ensures -(TwoTo(w - 1) as int) <= Signed(a, w) < TwoTo(w - 1)
  {
    assert TwoTo(w) == 2 * TwoTo(w - 1);
  }

  lemma FloorBounds(v: int, d: int, m: int)
    requires d > 0 && -m <= v < m
    ensures -m <= v / d < m && (d >= m ==> v / d == if v < 0 then -1 else 0)
  {
    var q, r := v / d, v % d;
    DivModInt(v, d);
    if q >= 0 { MulLeft(1, d, q); } else { MulLeft(1, d, -q - 1); }
    if q >= 1 { MulLeft(1, q, d); }
    if q <= -2 { MulLeft(2, -q, d); }
    Negated(q, d);
  }

  lemma DivModInt(v: int, d: int)
    requires d > 0
    ensures v == (v / d) * d + v % d && 0 <= v % d < d
  {
  }

  lemma Negated(q: int, d: int)
    ensures (-q) * d == -(q * d) && (-q - 1) * d == -(q * d) - d && d * (-q - 1) == (-q - 1) * d && d * q == q * d
  {
  }

  // An arithmetic right shift is floor division of the signed reading, for every count.
  lemma ArithmeticShiftFloors(n: int, b: int, w: int)
    requires w in {8, 16, 32, 64} && b >= 0
    ensures var r := BitOp(n, Sar, b, w);
      r.Value? && r.signed == Floor(Signed(Low(n, w), w), b)
  {
    var a := Low(n, w);
    var sa, r := Signed(a, w), ShiftArithmetic(a, b, w);
    LowOfSmall(n, w);
    SignedBounds(a, w);
    FloorBounds(sa, TwoTo(b), TwoTo(w - 1));
    if b >= w { TwoToGrows(w - 1, b); }
    hide Low, Signed, TwoTo;
    SignedReadsBack(r, w);
    LowOfSmall(r, w);
    LowOfSmall(Low(r, w), w);
  }

  // Every operation refuses other widths and negative counts, and only those; its result fits in the
  // width, its two readings are congruent, and only a left shift is ever flagged.
  lemma ReadingsAgree(n: int, op: Shift, b: int, w: int)
    ensures BitOp(n, op, b, w).BadWidth? <==> w !in {8, 16, 32, 64}
    ensures BitOp(n, op, b, w).NegativeCount? <==> w in {8, 16, 32, 64} && b < 0
    ensures BitOp(n, op, b, w).Value? ==>
              var r := BitOp(n, op, b, w);
              && r.unsigned < TwoTo(w) && -(TwoTo(w - 1) as int) <= r.signed < TwoTo(w - 1)
              && (r.signed == r.unsigned || r.signed == r.unsigned - TwoTo(w))
              && (op != Shl ==> !r.overflow)
  {
    if w in {8, 16, 32, 64} && b >= 0 {
      var r := BitOp(n, op, b, w);
      assert TwoTo(w) == 2 * TwoTo(w - 1);
      if op == Shr && b >= w {
        assert r == Value(0, 0, false);
      } else {
        var v := ShownOf(n, op, b, w);
        var flag :| r == Shown(v, w, flag);
        LowOfSmall(v, w);
        SignedBounds(Low(v, w), w);
        assert r.unsigned == Low(v, w) && r.signed == Signed(Low(v, w), w);
      }
    }
  }

  // What an operation shows.
  lemma ShownOf(n: int, op: Shift, b: int, w: int) returns (v: int)
    requires w in {8, 16, 32, 64} && b >= 0 && !(op == Shr && b >= w)
    ensures exists flag :: BitOp(n, op, b, w) == Shown(v, w, flag)
    ensures op != Shl ==> BitOp(n, op, b, w) == Shown(v, w, false)
  {
    hide Signed, Or, TurnLeft, TurnRight, ShiftArithmetic;
    var a := Low(n, w);
    match op
    case Shl =>
      v := if b >= w then 0 else Left(a, b);
      var flag := b >= w || Left(a, b) > TwoTo(w) - 1;
      assert BitOp(n, op, b, w) == Shown(v, w, flag);
    case Shr =>
      v := Right(a, b);
      assert BitOp(n, op, b, w) == Shown(v, w, false);
    case Sar =>
      v := Low(ShiftArithmetic(a, b, w), w);
      assert BitOp(n, op, b, w) == Shown(v, w, false);
    case Rol =>
      v := TurnLeft(a, b % w, w);
      assert BitOp(n, op, b, w) == Shown(v, w, false);
    case Ror =>
      v := TurnRight(a, b % w, w);
      assert BitOp(n, op, b, w) == Shown(v, w, false);
  }
}
