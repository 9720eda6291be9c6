/** Rounding a rational result toward zero, once or at the operand: what
    integer op= rational computes against what the operators promise. */
module Rounding {
  import opened Words
  import opened Integers

  /** Rounding toward zero. */
  ghost function Truncate(x: real): int {
    if x < 0.0 then -(-x).Floor else x.Floor
  }

  ghost function Size(x: real): real {
    if x < 0.0 then -x else x
  }

  lemma TruncateIs(x: real, n: int)
    ensures Truncate(x) == n <==>
      (n == 0 && -1.0 < x < 1.0) ||
      (n > 0 && n as real <= x < n as real + 1.0) ||
      (n < 0 && n as real - 1.0 < x <= n as real)
  {
  }

  /** The part of y that rounding drops is less than one and of the sign of y. */
  lemma Dropped(y: real)
    ensures var f := y - Truncate(y) as real;
      -1.0 < f < 1.0 && (f > 0.0 ==> y > 0.0 && Truncate(y) >= 0) && (f < 0.0 ==> y < 0.0 && Truncate(y) <= 0)
  {
    TruncateIs(y, Truncate(y));
  }

  lemma SumRoundsOnce(x: int, y: real)
    ensures var s := x + Truncate(y);
      Truncate(x as real + y) == s <==> y == Truncate(y) as real || s == 0 || (s > 0 <==> y > 0.0)
  {
    Dropped(y);
    TruncateIs(x as real + y, x + Truncate(y));
  }

  lemma DifferenceRoundsOnce(x: int, y: real)
    ensures var s := x - Truncate(y);
      Truncate(x as real - y) == s <==> y == Truncate(y) as real || s == 0 || (s > 0 <==> y < 0.0)
  {
    Dropped(y);
    TruncateIs(x as real - y, x - Truncate(y));
  }

  lemma SameSide(x: int, t: int, f: real)
    requires (f > 0.0 ==> t >= 0) && (f < 0.0 ==> t <= 0)
    ensures x * t > 0 ==> x as real * f >= 0.0
    ensures x * t < 0 ==> x as real * f <= 0.0
  {
    if x > 0 {
      if t > 0 {
        Positive(x, t);
        assert x as real * f >= 0.0;
      } else if t < 0 {
        Positive(x, -t);
        assert x * -t == -(x * t);
        assert x as real * f <= 0.0;
      }
    } else if x < 0 {
      if t > 0 {
        Positive(-x, t);
        assert -x * t == -(x * t);
        assert x as real * f <= 0.0;
      } else if t < 0 {
        Positive(-x, -t);
        assert -x * -t == x * t;
        assert x as real * f >= 0.0;
      }
    }
  }

  lemma Positive(a: int, b: int)
    requires a > 0 && b > 0
    ensures a * b > 0
  {
  }

  lemma RealProduct(x: int, t: int)
    ensures (x * t) as real == x as real * t as real
  {
  }

  lemma Distribute(u: real, v: real, w: real)
    ensures u * (v + w) == u * v + u * w
  {
  }

  lemma ProductRoundsOnce(x: int, y: real)
    ensures var t := Truncate(y);
      Truncate(x as real * y) == x * t <==> -1.0 < x as real * (y - t as real) < 1.0
  {
    var t := Truncate(y);
    var f := y - t as real;
    Dropped(y);
    SameSide(x, t, f);
    RealProduct(x, t);
    Distribute(x as real, t as real, f);
    assert y == t as real + f;
    TruncateIs(x as real * y, x * t);
  }

  // ---------- quotients ----------

  lemma PositiveReal(u: real, b: real)
    requires u > 0.0 && b > 0.0
    ensures u * b > 0.0
  {
  }

  lemma SignTimes(u: real, b: real)
    requires b > 0.0
    ensures u * b >= 0.0 <==> u >= 0.0
    ensures u * b > 0.0 <==> u > 0.0
  {
    if u > 0.0 {
      PositiveReal(u, b);
    } else if u < 0.0 {
      PositiveReal(-u, b);
      assert -u * b == -(u * b);
    }
  }

  lemma Compare(u: real, v: real, b: real)
    requires b > 0.0
    ensures u <= v <==> u * b <= v * b
    ensures u < v <==> u * b < v * b
  {
    SignTimes(v - u, b);
    assert (v - u) * b == v * b - u * b;
  }

  lemma DivideBack(a: real, b: real) returns (z: real)
    requires b != 0.0
    ensures z == a / b && z * b == a
  {
    z := a / b;
  }

  lemma NotNegative(u: real, v: real)
    requires u >= 0.0 && v >= 0.0
    ensures u * v >= 0.0
  {
  }

  /** a = q·t + r; n stands for the number after q. */
  lemma RealDivision(a: real, q: real, n: real, t: real, r: real, e: real, b: real)
    requires a == q * t + r && 0.0 <= q && 0.0 <= r < t && 0.0 <= e && b == t + e && n == q + 1.0
    ensures q * b <= a <==> q * e <= r
    ensures a < n * b
  {
    Distribute(q, t, e);
    NotNegative(q, e);
    assert n * b == q * b + b;
  }

  lemma RealQuotient(a: real, q: real, n: real, t: real, r: real, e: real, b: real, z: real)
    requires a == q * t + r && 0.0 <= q && 0.0 <= r < t && 0.0 <= e && b == t + e && n == q + 1.0
    requires z * b == a
    ensures q <= z < n <==> q * e <= r
  {
    RealDivision(a, q, n, t, r, e, b);
    Compare(q, z, b);
    Compare(z, n, b);
  }

  lemma FloorIs(z: real, q: int)
    ensures z.Floor == q <==> q as real <= z < q as real + 1.0
  {
  }

  /** Dividing by t + e instead of t gives the same whole part exactly when the
      quotient times e stays within the remainder. */
  lemma WholeQuotient(a: nat, t: nat, e: real, b: real)
    requires t > 0 && 0.0 <= e && b == t as real + e
    ensures b > 0.0
    ensures (a as real / b).Floor == a / t <==> (a / t) as real * e <= (a % t) as real
  {
    var q, r := a / t, a % t;
    WholeAsReal(a, t, q, r);
    var n := q as real + 1.0;
    var z := DivideBack(a as real, b);
    RealQuotient(a as real, q as real, n, t as real, r as real, e, b, z);
    FloorIs(z, q);
  }

  lemma WholeAsReal(a: nat, t: nat, q: nat, r: nat)
    requires a == q * t + r
    ensures a as real == q as real * t as real + r as real
  {
    RealProduct(q, t);
  }

  /** The quotient of magnitudes, with the sign of the operands. */
  lemma SignedQuotient(x: int, y: real)
    requires y != 0.0
    ensures var m := (Abs(x) as real / Size(y)).Floor;
      Truncate(x as real / y) == if (x < 0) == (y < 0.0) then m else -m
  {
    var ax, ay := Abs(x) as real, Size(y);
    var z := DivideBack(ax, ay);
    SignTimes(z, ay);
    var w := if (x < 0) == (y < 0.0) then z else -z;
    assert w * y == x as real;
    QuotientIs(x as real, y, w);
  }

  lemma QuotientIs(x: real, y: real, w: real)
    requires y != 0.0 && w * y == x
    ensures x / y == w
  {
  }

  lemma SplitSize(y: real)
    requires Truncate(y) != 0
    ensures y != 0.0 && (y < 0.0 <==> Truncate(y) < 0)
    ensures Size(y) == Abs(Truncate(y)) as real + Size(y - Truncate(y) as real)
  {
    Dropped(y);
  }

  ghost predicate DroppedWithinRemainder(x: int, t: int, dropped: real) {
    t != 0 && (Abs(x) / Abs(t)) as real * Size(dropped) <= (Abs(x) % Abs(t)) as real
  }

  /** Both quotients have the sign of x over y; what is left to compare are
      their magnitudes. */
  lemma CompareMagnitudes(x: int, y: real)
    requires y != 0.0 && Truncate(y) != 0 && (y < 0.0 <==> Truncate(y) < 0)
    ensures Truncate(x as real / y) == TQuot(x, Truncate(y)) <==>
      (Abs(x) as real / Size(y)).Floor == Abs(x) / Abs(Truncate(y))
  {
    SignedQuotient(x, y);
    SameSign((x < 0) == (y < 0.0), (Abs(x) as real / Size(y)).Floor, Abs(x) / Abs(Truncate(y)));
  }

  lemma WithinExactly(x: int, t: int, dropped: real, b: real)
    requires t != 0 && b == Abs(t) as real + Size(dropped)
    ensures b > 0.0
    ensures (Abs(x) as real / b).Floor == Abs(x) / Abs(t) <==> DroppedWithinRemainder(x, t, dropped)
  {
    WholeQuotient(Abs(x), Abs(t), Size(dropped), b);
  }

  lemma QuotientRoundsOnce(x: int, y: real)
    requires Truncate(y) != 0
    ensures y != 0.0
    ensures Truncate(x as real / y) == TQuot(x, Truncate(y)) <==>
      DroppedWithinRemainder(x, Truncate(y), y - Truncate(y) as real)
  {
    SplitSize(y);
    CompareMagnitudes(x, y);
    WithinExactly(x, Truncate(y), y - Truncate(y) as real, Size(y));
  }

  lemma SameSign(same: bool, m: int, q: int)
    ensures (if same then m else -m) == (if same then q else -q) <==> m == q
  {
  }

  // ---------- every operator ----------

  predicate Arithmetic(op: Op) {
    op.Plus? || op.Minus? || op.Times? || op.Div?
  }

  ghost function Exact(op: Op, x: int, y: real): real
    requires Arithmetic(op) && (op.Div? ==> y != 0.0)
  {
    match op
    case Plus => x as real + y
    case Minus => x as real - y
    case Times => x as real * y
    case Div => x as real / y
  }

  /** When rounding the operand does no harm, in terms of the rounded operand
      and what rounding dropped: nothing was dropped, or the result is zero, or
      it lies on the side that the dropped part pushes away from zero; the
      dropped part times the other factor stays below one; or the divisor is
      not rounded to zero and the dropped part times the quotient stays within
      the remainder. */
  ghost predicate RoundsOnce(op: Op, x: int, y: real)
    requires Arithmetic(op)
  {
    var t := Truncate(y);
    var dropped := y - t as real;
    match op
    case Plus => dropped == 0.0 || x + t == 0 || (x + t > 0 <==> y > 0.0)
    case Minus => dropped == 0.0 || x - t == 0 || (x - t > 0 <==> y < 0.0)
    case Times => -1.0 < x as real * dropped < 1.0
    case Div => (y <= -1.0 || 1.0 <= y) && DroppedWithinRemainder(x, t, dropped)
  }

  /** Exactly the operands between -1 and 1 are rounded to zero. */
  lemma RoundsToZero(y: real)
    ensures Truncate(y) == 0 <==> -1.0 < y < 1.0
  {
    TruncateIs(y, 0);
  }

  lemma LargeDivisor(x: int, y: real)
    requires y <= -1.0 || 1.0 <= y
    ensures Truncate(y) != 0
    ensures Truncate(x as real / y) == TQuot(x, Truncate(y)) <==>
      DroppedWithinRemainder(x, Truncate(y), y - Truncate(y) as real)
  {
    RoundsToZero(y);
    QuotientRoundsOnce(x, y);
  }

  lemma DivisionRoundsOnce(x: int, y: real)
    requires y != 0.0
    ensures Truncate(y) != 0 && Truncate(x as real / y) == TQuot(x, Truncate(y)) <==>
      (y <= -1.0 || 1.0 <= y) && DroppedWithinRemainder(x, Truncate(y), y - Truncate(y) as real)
  {
    if y <= -1.0 || 1.0 <= y {
      LargeDivisor(x, y);
    } else {
      RoundsToZero(y);
    }
  }

  /** For every operator and operand for which there is an exact result: with
      the operand rounded first, the operation is defined and gives the exact
      result rounded, if and only if RoundsOnce holds. */
  lemma RoundsOnceExactly(op: Op, x: int, y: real)
    requires Arithmetic(op) && (op.Div? ==> y != 0.0)
    ensures Defined(op, Truncate(y)) && Truncate(Exact(op, x, y)) == Apply(op, x, Truncate(y)) <==>
      RoundsOnce(op, x, y)
  {
    match op
    case Plus => SumRoundsOnce(x, y);
    case Minus => DifferenceRoundsOnce(x, y);
    case Times => ProductRoundsOnce(x, y);
    case Div => DivisionRoundsOnce(x, y);
  }

  /** An operand for each operator on which rounding first gives another result
      than rounding last; and a division that rounding first turns into one by
      zero. */
  lemma RoundingTwiceDiffers()
    ensures Truncate(0.5) == 0 && Truncate(1.5) == 1
    ensures Truncate(Exact(Plus, -1, 0.5)) == 0 && Apply(Plus, -1, 0) == -1
    ensures Truncate(Exact(Minus, 1, 0.5)) == 0 && Apply(Minus, 1, 0) == 1
    ensures Truncate(Exact(Times, 2, 0.5)) == 1 && Apply(Times, 2, 0) == 0
    ensures Truncate(Exact(Div, 3, 1.5)) == 2 && Apply(Div, 3, 1) == 3
    ensures Truncate(Exact(Div, 1, 0.5)) == 2 && !Defined(Div, Truncate(0.5))
  {
    TruncateIs(0.5, 0);
    TruncateIs(1.5, 1);
    QuotientIs(3.0, 1.5, 2.0);
    QuotientIs(1.0, 0.5, 2.0);
    TruncateIs(2.0, 2);
  }
}
