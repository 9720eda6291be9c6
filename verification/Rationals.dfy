/** Exact rationals as GMP keeps them: a numerator and a denominator in
    lowest terms.  The mathematical value is a `real`; canonical form is stated
    through common divisors, independently of any gcd algorithm. */
module Rationals {
  import opened Words

  predicate Divides(k: int, n: int) {
    k != 0 && n % k == 0
  }

  ghost predicate Coprime(n: int, d: int) {
    forall k | 1 < k :: !(Divides(k, n) && Divides(k, d))
  }

  /** The form every mpq function expects of its operands and leaves in its result. */
  ghost predicate Canonical(n: int, d: int) {
    0 < d && Coprime(n, d)
  }

  /** The number denoted by n/d (0 where the source would have divided by zero). */
  ghost function Val(n: int, d: int): real {
    if d == 0 then 0.0 else n as real / d as real
  }

  // ---------- divisibility ----------

  lemma PositiveFactor(a: int, b: int)
    requires 0 < a && 0 < a * b
    ensures 0 < b
  {
  }

  lemma AtLeast(a: int, b: int)
    requires 0 < a && 0 < b
    ensures a <= a * b
  {
    assert a * b == a + a * (b - 1);
  }

  /** The only multiple of k in 0 .. |k| is zero. */
  lemma MultipleBelow(k: int, t: int)
    requires k != 0 && 0 <= k * t < Abs(k)
    ensures k * t == 0
  {
    if 0 < k * t {
      if 0 < k {
        PositiveFactor(k, t);
        AtLeast(k, t);
      } else {
        assert (-k) * (-t) == k * t;
        PositiveFactor(-k, -t);
        AtLeast(-k, -t);
      }
    }
  }

  lemma DividesWitness(k: int, n: int, q: int)
    requires k != 0 && n == k * q
    ensures Divides(k, n)
  {
    var m, r := n / k, n % k;
    assert n == k * m + r;
    assert r == k * (q - m);
    MultipleBelow(k, q - m);
  }

  lemma DividesQuotient(k: int, n: int)
    requires Divides(k, n)
    ensures n == k * (n / k)
  {
  }

  lemma DividesLinear(k: int, a: int, x: int, b: int, y: int)
    requires Divides(k, a) && Divides(k, b)
    ensures Divides(k, a * x + b * y)
  {
    var p, q := a / k, b / k;
    calc {
      a * x + b * y;
      (k * p) * x + (k * q) * y;
      k * (p * x + q * y);
    }
    DividesWitness(k, a * x + b * y, p * x + q * y);
  }

  // ---------- the extended Euclidean algorithm ----------

  datatype Bezout = Bezout(g: nat, x: int, y: int)

  /** A common divisor that is an integer combination of its arguments,
      hence the greatest one. */
  function ExtGcd(a: nat, b: nat): (r: Bezout)
    requires 0 < a || 0 < b
    ensures 0 < r.g && Divides(r.g, a) && Divides(r.g, b)
    ensures a * r.x + b * r.y == r.g
    decreases b
  {
    if b == 0 then Bezout(a, 1, 0)
    else
      var s := ExtGcd(b, a % b);
      ExtGcdStep(a, b, s);
      Bezout(s.g, s.y, s.x - (a / b) * s.y)
  }

  lemma ExtGcdStep(a: nat, b: nat, s: Bezout)
    requires 0 < b && 0 < s.g && Divides(s.g, b) && Divides(s.g, a % b)
    requires b * s.x + (a % b) * s.y == s.g
    ensures Divides(s.g, a)
    ensures a * s.y + b * (s.x - (a / b) * s.y) == s.g
  {
    var q := a / b;
    assert a == b * q + a % b;
    DividesLinear(s.g, b, q, a % b, 1);
    calc {
      a * s.y + b * (s.x - q * s.y);
      (b * q + a % b) * s.y + b * s.x - b * (q * s.y);
      { assert (b * q) * s.y == b * (q * s.y); }
      (a % b) * s.y + b * s.x;
    }
  }

  lemma DividesAbs(k: int, n: int)
    requires k != 0
    ensures Divides(k, n) <==> Divides(k, Abs(n))
  {
    if Divides(k, n) {
      DividesWitness(k, -n, -(n / k));
    }
    if Divides(k, -n) {
      DividesWitness(k, n, -((-n) / k));
    }
  }

  // ---------- reduction to lowest terms ----------

  datatype Fraction = Fraction(num: int, den: int)

  /** Lowest terms with a positive denominator: what mpq_canonicalize, and the
      out-of-line mpq functions, leave behind. */
  function Reduce(n: int, d: int): (f: Fraction)
    requires d != 0
    ensures Canonical(f.num, f.den) && Val(f.num, f.den) == Val(n, d)
  {
    var r := ExtGcd(Abs(n), Abs(d));
    var s: int := if d < 0 then -1 else 1;
    Factors(n, d, r.g, s);
    LowestTerms(n, d, r, s, s * (n / r.g), s * (d / r.g));
    Fraction(s * (n / r.g), s * (d / r.g))
  }

  lemma Factors(n: int, d: int, g: nat, s: int)
    requires d != 0 && 0 < g && Divides(g, Abs(n)) && Divides(g, Abs(d))
    requires s == if d < 0 then -1 else 1
    ensures n == (s * g) * (s * (n / g)) && d == (s * g) * (s * (d / g))
    ensures 0 < s * (d / g)
  {
    DividesAbs(g, n);
    DividesAbs(g, d);
    DividesQuotient(g, n);
    DividesQuotient(g, d);
    SignedFactor(n, g, s, n / g);
    SignedFactor(d, g, s, d / g);
    assert g * (s * (d / g)) == s * d;
    PositiveFactor(g, s * (d / g));
  }

  lemma SignedFactor(n: int, g: int, s: int, p: int)
    requires s == 1 || s == -1
    requires n == g * p
    ensures n == (s * g) * (s * p)
    ensures g * (s * p) == s * n
  {
  }

  lemma LowestTerms(n: int, d: int, r: Bezout, s: int, p: int, q: int)
    requires 0 < r.g && (s == 1 || s == -1) && 0 < q
    requires Abs(n) * r.x + Abs(d) * r.y == r.g
    requires n == (s * r.g) * p && d == (s * r.g) * q
    ensures Canonical(p, q) && Val(p, q) == Val(n, d)
  {
    forall k | 1 < k ensures !(Divides(k, p) && Divides(k, q)) {
      CommonFactor(n, d, r, s, p, q, k);
    }
    assert s * r.g != 0;
    ValScale(p, q, s * r.g);
  }

  /** A factor left over after dividing by the greatest common divisor is 1. */
  lemma CommonFactor(n: int, d: int, r: Bezout, s: int, p: int, q: int, k: int)
    requires 1 < k && 0 < r.g && (s == 1 || s == -1)
    requires Abs(n) * r.x + Abs(d) * r.y == r.g
    requires n == (s * r.g) * p && d == (s * r.g) * q
    ensures !(Divides(k, p) && Divides(k, q))
  {
    var m := k * r.g;
    AtLeast(r.g, k - 1);
    if Divides(k, p) && Divides(k, q) {
      ScaledDivides(n, s, r.g, p, k);
      ScaledDivides(d, s, r.g, q, k);
      DividesLinear(m, Abs(n), r.x, Abs(d), r.y);
    }
    assert m == r.g + r.g * (k - 1);
    SmallModulus(r.g, m);
  }

  lemma SmallModulus(g: int, m: int)
    requires 0 < g < m
    ensures !Divides(m, g)
  {
  }

  lemma ScaledDivides(n: int, s: int, g: int, p: int, k: int)
    requires 1 < k && 0 < g && n == (s * g) * p && Divides(k, p)
    ensures k * g != 0 && Divides(k * g, Abs(n))
  {
    AtLeast(g, k);
    DividesQuotient(k, p);
    Regroup(n, s, g, p, k, p / k);
    DividesWitness(k * g, n, s * (p / k));
    DividesAbs(k * g, n);
  }

  lemma Regroup(n: int, s: int, g: int, p: int, k: int, i: int)
    requires n == (s * g) * p && p == k * i
    ensures n == (k * g) * (s * i)
  {
  }

  // ---------- values as reals ----------

  lemma MulReal(a: int, b: int)
    ensures (a * b) as real == a as real * b as real
  {
  }

  lemma ValTimesDen(n: int, d: int)
    requires d != 0
    ensures Val(n, d) * d as real == n as real
  {
  }

  lemma ValIs(n: int, d: int, x: real)
    requires d != 0 && x * d as real == n as real
    ensures Val(n, d) == x
  {
  }

  lemma ValScale(p: int, q: int, c: int)
    requires q != 0 && c != 0
    ensures c * q != 0 && Val(c * p, c * q) == Val(p, q)
  {
    var x := Val(p, q);
    ValTimesDen(p, q);
    MulReal(c, q);
    MulReal(c, p);
    calc { x * (c * q) as real; x * (c as real * q as real); c as real * (x * q as real); (c * p) as real; }
    ValIs(c * p, c * q, x);
  }

  lemma ValNegate(n: int, d: int)
    requires d != 0
    ensures Val(-n, d) == -Val(n, d)
  {
    ValTimesDen(n, d);
    ValIs(-n, d, -Val(n, d));
  }

  lemma ValAdd(a: int, b: int, c: int, d: int)
    requires b != 0 && d != 0
    ensures b * d != 0 && Val(a * d + c * b, b * d) == Val(a, b) + Val(c, d)
  {
    var x, y := Val(a, b), Val(c, d);
    var rb, rd := b as real, d as real;
    ValTimesDen(a, b);
    ValTimesDen(c, d);
    MulReal(b, d);
    MulReal(a, d);
    MulReal(c, b);
    calc { (x + y) * (b * d) as real; x * rb * rd + y * rd * rb; (a * d + c * b) as real; }
    ValIs(a * d + c * b, b * d, x + y);
  }

  lemma ValSub(a: int, b: int, c: int, d: int)
    requires b != 0 && d != 0
    ensures b * d != 0 && Val(a * d - c * b, b * d) == Val(a, b) - Val(c, d)
  {
    ValAdd(a, b, -c, d);
    ValNegate(c, d);
    assert a * d + (-c) * b == a * d - c * b;
  }

  lemma ValMul(a: int, b: int, c: int, d: int)
    requires b != 0 && d != 0
    ensures b * d != 0 && Val(a * c, b * d) == Val(a, b) * Val(c, d)
  {
    var x, y := Val(a, b), Val(c, d);
    var rb, rd := b as real, d as real;
    ValTimesDen(a, b);
    ValTimesDen(c, d);
    MulReal(b, d);
    MulReal(a, c);
    calc { (x * y) * (b * d) as real; (x * rb) * (y * rd); (a * c) as real; }
    ValIs(a * c, b * d, x * y);
  }

  lemma ValDiv(a: int, b: int, c: int, d: int)
    requires b != 0 && d != 0 && c != 0
    ensures b * c != 0 && Val(c, d) != 0.0 && Val(a * d, b * c) == Val(a, b) / Val(c, d)
  {
    var x, y := Val(a, b), Val(c, d);
    var rb, rc, rd := b as real, c as real, d as real;
    ValTimesDen(a, b);
    ValTimesDen(c, d);
    MulReal(b, c);
    MulReal(a, d);
    var z := x / y;
    assert z * y == x;
    calc { z * (b * c) as real; z * (rb * (y * rd)); (z * y) * rb * rd; a as real * rd; (a * d) as real; }
    ValIs(a * d, b * c, z);
  }

  lemma ValInt(n: int)
    ensures Val(n, 1) == n as real && Canonical(n, 1)
  {
    forall k | 1 < k ensures !Divides(k, 1) {
      assert 1 % k == 1;
    }
  }

  lemma DividesSummand(k: int, n: int, d: int, l: int)
    ensures Divides(k, n + d * l) && Divides(k, d) ==> Divides(k, n)
  {
    if Divides(k, n + d * l) && Divides(k, d) {
      DividesLinear(k, n + d * l, 1, d, -l);
      assert (n + d * l) * 1 + d * (-l) == n;
    }
  }

  /** Adding a multiple of the denominator to the numerator needs no reduction:
      the sum is exact and already in lowest terms. */
  lemma AddIntegerMultiple(n: int, d: int, l: int)
    requires Canonical(n, d)
    ensures Canonical(n + d * l, d)
    ensures Val(n + d * l, d) == Val(n, d) + l as real
  {
    forall k | 1 < k ensures !(Divides(k, n + d * l) && Divides(k, d)) {
      DividesSummand(k, n, d, l);
    }
    ValTimesDen(n, d);
    MulReal(d, l);
    ValIs(n + d * l, d, Val(n, d) + l as real);
  }

  lemma NegateCanonical(n: int, d: int)
    requires Canonical(n, d)
    ensures Canonical(-n, d) && Val(-n, d) == -Val(n, d)
  {
    forall k | 1 < k && Divides(k, -n) ensures Divides(k, n) {
      DividesWitness(k, n, -((-n) / k));
    }
    ValNegate(n, d);
  }

  // ---------- canonical form is unique ----------

  lemma CoprimeBezout(n: int, d: int) returns (x: int, y: int)
    requires 0 < d && Coprime(n, d)
    ensures n * x + d * y == 1
  {
    var r := ExtGcd(Abs(n), d);
    DividesAbs(r.g, n);
    assert Divides(r.g, n) && Divides(r.g, d);
    assert r.g == 1;
    x := if n < 0 then -r.x else r.x;
    y := r.y;
    assert Abs(n) * r.x == n * x;
  }

  /** If n/d is in lowest terms then d divides every denominator of the same number. */
  lemma DenominatorDivides(n: int, d: int, p: int, q: int)
    requires Canonical(n, d) && n * q == p * d
    ensures Divides(d, q)
  {
    var x, y := CoprimeBezout(n, d);
    calc {
      q;
      (n * x + d * y) * q;
      (n * q) * x + d * (y * q);
      (p * d) * x + d * (y * q);
      d * (p * x + y * q);
    }
    DividesWitness(d, q, p * x + y * q);
  }

  lemma ValEqual(a: int, b: int, c: int, d: int)
    requires b != 0 && d != 0
    ensures Val(a, b) == Val(c, d) <==> a * d == c * b
  {
    ValSub(a, b, c, d);
    ValTimesDen(a * d - c * b, b * d);
    if a * d == c * b {
      ValIs(0, b * d, 0.0);
    }
  }

  /** Equal canonical rationals have equal fields, so comparing fields
      (mpq_equal) decides equality of the numbers, and a result known by value
      and canonical form is known limb for limb. */
  lemma {:induction false} CanonicalUnique(n: int, d: int, p: int, q: int)
    requires Canonical(n, d) && Canonical(p, q)
    ensures Val(n, d) == Val(p, q) <==> n == p && d == q
  {
    if Val(n, d) == Val(p, q) {
      ValEqual(n, d, p, q);
      DenominatorDivides(n, d, p, q);
      DenominatorDivides(p, q, n, d);
      MutualDivision(d, q);
      SameNumerator(n, p, d);
    }
  }

  lemma MutualDivision(d: int, q: int)
    requires 0 < d && 0 < q && Divides(d, q) && Divides(q, d)
    ensures d == q
  {
    DividesQuotient(d, q);
    PositiveFactor(d, q / d);
    AtLeast(d, q / d);
    DividesQuotient(q, d);
    PositiveFactor(q, d / q);
    AtLeast(q, d / q);
  }

  lemma SameNumerator(n: int, p: int, d: int)
    requires 0 < d && n * d == p * d
    ensures n == p
  {
    assert (n - p) * d == 0;
  }
}
