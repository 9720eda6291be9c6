/** mpq variables and the mpq overloads of the function objects of gmpxx.h.
    A rational variable is a pair of integer cells, which get_num() and
    get_den() also hand out as integer variables, so an integer operand may be
    the numerator or the denominator of the destination. */
module Fractions {
  import opened Words
  import opened Rationals
  import opened Integers
  import Rounding

  datatype Mpq = Mpq(num: Mpz, den: Mpz)

  /** Two rational variables are the same variable or share no cell. */
  predicate Apart(q: Mpq, r: Mpq) {
    q == r || (q.num != r.num && q.num != r.den && q.den != r.num && q.den != r.den)
  }

  predicate Proper(q: Mpq) {
    q.num != q.den
  }

  ghost predicate Canon(q: Mpq)
    reads q.num, q.den
  {
    Canonical(q.num.v, q.den.v)
  }

  /** The rational number a variable holds. */
  ghost function Number(q: Mpq): real
    reads q.num, q.den
  {
    Val(q.num.v, q.den.v)
  }

  datatype QOp = QPlus | QMinus | QTimes | QDiv

  ghost predicate QDefined(op: QOp, y: real) {
    op.QDiv? ==> y != 0.0
  }

  ghost function QApply(op: QOp, x: real, y: real): real
    requires QDefined(op, y)
  {
    match op
    case QPlus => x + y
    case QMinus => x - y
    case QTimes => x * y
    case QDiv => x / y
  }

  /** Temporaries: fresh cells, outside any set the caller names. */
  method NewMpz(ghost avoid: set<Mpz>) returns (z: Mpz)
    ensures fresh(z) && z !in avoid && unchanged(avoid)
  {
    z := new Mpz(0);
  }

  method NewMpq(n: int, d: int, ghost avoid: set<Mpz>) returns (q: Mpq)
    ensures fresh(q.num) && fresh(q.den) && Proper(q)
    ensures q.num !in avoid && q.den !in avoid && unchanged(avoid)
    ensures q.num.v == n && q.den.v == d
  {
    var num := new Mpz(n);
    var den := new Mpz(d);
    q := Mpq(num, den);
  }

  method SetQQ(q: Mpq, r: Mpq)
    requires Proper(q) && Apart(q, r)
    modifies q.num, q.den
    ensures q.num.v == old(r.num.v) && q.den.v == old(r.den.v)
  {
    q.num.v := r.num.v;
    q.den.v := r.den.v;
  }

  lemma NumberZero(n: int, d: int)
    requires d != 0
    ensures Val(n, d) == 0.0 <==> n == 0
  {
    ValTimesDen(n, d);
  }

  /** a/b op c/d in lowest terms: the result of mpq_add, mpq_sub, mpq_mul and
      mpq_div. */
  function QArith(op: QOp, a: int, b: int, c: int, d: int): (f: Fraction)
    requires b != 0 && d != 0 && (op.QDiv? ==> c != 0)
    ensures Canonical(f.num, f.den)
    ensures QDefined(op, Val(c, d)) && Val(f.num, f.den) == QApply(op, Val(a, b), Val(c, d))
  {
    NumberZero(c, d);
    match op
    case QPlus => ValAdd(a, b, c, d); Reduce(a * d + c * b, b * d)
    case QMinus => ValSub(a, b, c, d); Reduce(a * d - c * b, b * d)
    case QTimes => ValMul(a, b, c, d); Reduce(a * c, b * d)
    case QDiv => ValDiv(a, b, c, d); Reduce(a * d, b * c)
  }

  method EvalQQ(op: QOp, q: Mpq, r: Mpq, s: Mpq)
    requires Proper(q) && Apart(q, r) && Apart(q, s) && Canon(r) && Canon(s)
    requires QDefined(op, Number(s))
    modifies q.num, q.den
    ensures Canon(q) && Number(q) == QApply(op, old(Number(r)), old(Number(s)))
  {
    NumberZero(s.num.v, s.den.v);
    var f := QArith(op, r.num.v, r.den.v, s.num.v, s.den.v);
    q.num.v := f.num;
    q.den.v := f.den;
  }

  method NegQ(q: Mpq, r: Mpq)
    requires Proper(q) && Apart(q, r) && Canon(r)
    modifies q.num, q.den
    ensures Canon(q) && Number(q) == -old(Number(r))
    ensures q.num.v == -old(r.num.v) && q.den.v == old(r.den.v)
  {
    NegateCanonical(r.num.v, r.den.v);
    if q != r {
      SetQQ(q, r);
    }
    q.num.v := -q.num.v;
  }

  method AbsQ(q: Mpq, r: Mpq)
    requires Proper(q) && Apart(q, r) && Canon(r)
    modifies q.num, q.den
    ensures Canon(q) && Number(q) == old(if Number(r) < 0.0 then -Number(r) else Number(r))
  {
    NegateCanonical(r.num.v, r.den.v);
    ValTimesDen(r.num.v, r.den.v);
    assert Number(r) < 0.0 <==> r.num.v < 0 by {
      SignOfVal(r.num.v, r.den.v);
    }
    if q != r {
      SetQQ(q, r);
    }
    q.num.v := Abs(q.num.v);
  }

  lemma SignOfVal(n: int, d: int)
    requires 0 < d
    ensures Val(n, d) < 0.0 <==> n < 0
  {
    var x := Val(n, d);
    ValTimesDen(n, d);
    if x < 0.0 {
      assert x * d as real < 0.0;
    } else {
      assert x * d as real >= 0.0;
    }
  }

  // ---------- rational plus or minus an integer variable ----------

  /** The sum keeps the denominator: num + den * z, in lowest terms as it is.
      The integer may be a cell of either rational. */
  method PlusQZ(q: Mpq, r: Mpq, z: Mpz)
    requires Proper(q) && Apart(q, r) && Canon(r)
    modifies q.num, q.den
    ensures Canon(q) && Number(q) == old(Number(r)) + old(z.v) as real
    ensures q.den.v == old(r.den.v)
  {
    AddIntegerMultiple(r.num.v, r.den.v, z.v);
    if q == r {
      q.num.v := q.num.v + q.den.v * z.v;
    } else {
      q.num.v := r.den.v * z.v;
      q.num.v := q.num.v + r.num.v;
      q.den.v := r.den.v;
    }
  }

  method MinusQZ(q: Mpq, r: Mpq, z: Mpz)
    requires Proper(q) && Apart(q, r) && Canon(r)
    modifies q.num, q.den
    ensures Canon(q) && Number(q) == old(Number(r)) - old(z.v) as real
    ensures q.den.v == old(r.den.v)
  {
    SubIntegerMultiple(r.num.v, r.den.v, z.v);
    if q == r {
      q.num.v := q.num.v - q.den.v * z.v;
    } else {
      q.num.v := r.den.v * z.v;
      q.num.v := r.num.v - q.num.v;
      q.den.v := r.den.v;
    }
  }

  lemma SubIntegerMultiple(n: int, d: int, l: int)
    requires Canonical(n, d)
    ensures Canonical(n - d * l, d)
    ensures Val(n - d * l, d) == Val(n, d) - l as real
  {
    AddIntegerMultiple(n, d, -l);
    assert n + d * (-l) == n - d * l;
  }

  /** integer minus rational, by negation. */
  method MinusZQ(q: Mpq, z: Mpz, r: Mpq)
    requires Proper(q) && Apart(q, r) && Canon(r)
    modifies q.num, q.den
    ensures Canon(q) && Number(q) == old(z.v) as real - old(Number(r))
    ensures q.den.v == old(r.den.v)
  {
    MinusQZ(q, r, z);
    NegQ(q, q);
  }

  // ---------- rational plus or minus a machine word ----------

  method PlusQU(q: Mpq, r: Mpq, l: ULong, known: bool)
    requires Proper(q) && Apart(q, r) && Canon(r)
    modifies q.num, q.den
    ensures Canon(q) && Number(q) == old(Number(r)) + l as real
    ensures q.den.v == old(r.den.v)
  {
    AddIntegerMultiple(r.num.v, r.den.v, l);
    if known && l == 0 {
      if q != r {
        SetQQ(q, r);
      }
    } else if q == r {
      q.num.v := q.num.v + q.den.v * l;
    } else {
      q.num.v := r.den.v * l;
      q.num.v := q.num.v + r.num.v;
      q.den.v := r.den.v;
    }
  }

  method MinusQU(q: Mpq, r: Mpq, l: ULong, known: bool)
    requires Proper(q) && Apart(q, r) && Canon(r)
    modifies q.num, q.den
    ensures Canon(q) && Number(q) == old(Number(r)) - l as real
    ensures q.den.v == old(r.den.v)
  {
    SubIntegerMultiple(r.num.v, r.den.v, l);
    if known && l == 0 {
      if q != r {
        SetQQ(q, r);
      }
    } else if q == r {
      q.num.v := q.num.v - q.den.v * l;
    } else {
      q.num.v := r.den.v * l;
      q.num.v := r.num.v - q.num.v;
      q.den.v := r.den.v;
    }
  }

  method PlusQW(q: Mpq, r: Mpq, l: Word)
    requires Proper(q) && Apart(q, r) && Canon(r)
    modifies q.num, q.den
    ensures Canon(q) && Number(q) == old(Number(r)) + l.Int() as real
    ensures q.den.v == old(r.den.v)
  {
    match l
    case U(u, k) => PlusQU(q, r, u, k);
    case S(s, k, _) =>
      if s >= 0 {
        PlusQU(q, r, ToULong(s), k);
      } else {
        MinusQU(q, r, AbsUI(s), k);
      }
  }

  method MinusQW(q: Mpq, r: Mpq, l: Word)
    requires Proper(q) && Apart(q, r) && Canon(r)
    modifies q.num, q.den
    ensures Canon(q) && Number(q) == old(Number(r)) - l.Int() as real
    ensures q.den.v == old(r.den.v)
  {
    match l
    case U(u, k) => MinusQU(q, r, u, k);
    case S(s, k, _) =>
      if s >= 0 {
        MinusQU(q, r, ToULong(s), k);
      } else {
        PlusQU(q, r, AbsUI(s), k);
      }
  }

  /** ++ and --: add or subtract the denominator. */
  method Increment(q: Mpq)
    requires Proper(q) && Canon(q)
    modifies q.num
    ensures Canon(q) && Number(q) == old(Number(q)) + 1.0
  {
    AddIntegerMultiple(q.num.v, q.den.v, 1);
    q.num.v := q.num.v + q.den.v;
  }

  method Decrement(q: Mpq)
    requires Proper(q) && Canon(q)
    modifies q.num
    ensures Canon(q) && Number(q) == old(Number(q)) - 1.0
  {
    SubIntegerMultiple(q.num.v, q.den.v, 1);
    q.num.v := q.num.v - q.den.v;
  }

  // ---------- shifts, products and quotients with a word ----------

  /** Multiplication and division by a power of two, one bit at a time. */
  ghost function Doubled(x: real, n: nat): real {
    if n == 0 then x else 2.0 * Doubled(x, n - 1)
  }

  ghost function Halved(x: real, n: nat): real {
    if n == 0 then x else Halved(x, n - 1) / 2.0
  }

  lemma {:induction false} DoubledHalved(x: real, n: nat)
    ensures 0 < Pow2(n)
    ensures Doubled(x, n) == x * Pow2(n) as real
    ensures Halved(x, n) == x / Pow2(n) as real
  {
    Pow2Positive(n);
    if n != 0 {
      DoubledHalved(x, n - 1);
      var p := Pow2(n - 1) as real;
      assert Pow2(n) as real == 2.0 * p;
      var y := x / p;
      assert (y / 2.0) * (2.0 * p) == x;
      Rounding.QuotientIs(x, 2.0 * p, y / 2.0);
    }
  }

  /** Shifting by n bits is scaling by a word that is the n-th power of two. */
  lemma ScaledByWord(x: real, l: ULong, n: nat)
    requires l == Pow2(n)
    ensures l != 0
    ensures Doubled(x, n) == x * l as real
    ensures Halved(x, n) == x / l as real
  {
    DoubledHalved(x, n);
  }

  lemma ValPow2(a: int, b: int, n: nat)
    requires b != 0
    ensures 0 < Pow2(n) && b * Pow2(n) != 0
    ensures Val(a * Pow2(n), b) == Doubled(Val(a, b), n)
    ensures Val(a, b * Pow2(n)) == Halved(Val(a, b), n)
  {
    DoubledHalved(Val(a, b), n);
    var p := Pow2(n);
    ValInt(p);
    ValMul(a, b, p, 1);
    ValDiv(a, b, p, 1);
  }

  method LShiftQ(q: Mpq, r: Mpq, n: nat, known: bool)
    requires Proper(q) && Apart(q, r) && Canon(r)
    modifies q.num, q.den
    ensures Canon(q) && Number(q) == Doubled(old(Number(r)), n)
  {
    if known && n == 0 {
      if q != r {
        SetQQ(q, r);
      }
    } else {
      ValPow2(r.num.v, r.den.v, n);
      var f := Reduce(r.num.v * Pow2(n), r.den.v);
      q.num.v := f.num;
      q.den.v := f.den;
    }
  }

  method RShiftQ(q: Mpq, r: Mpq, n: nat, known: bool)
    requires Proper(q) && Apart(q, r) && Canon(r)
    modifies q.num, q.den
    ensures Canon(q) && Number(q) == Halved(old(Number(r)), n)
  {
    ValPow2(r.num.v, r.den.v, n);
    if known && n == 0 {
      if q != r {
        SetQQ(q, r);
      }
    } else {
      var f := Reduce(r.num.v, r.den.v * Pow2(n));
      q.num.v := f.num;
      q.den.v := f.den;
    }
  }

  /** r times l or r divided by l, through a temporary rational l/1. */
  method ByTemporary(op: QOp, q: Mpq, r: Mpq, l: int)
    requires Proper(q) && Apart(q, r) && Canon(r) && (op.QDiv? ==> l != 0)
    modifies q.num, q.den
    ensures Canon(q) && Number(q) == QApply(op, old(Number(r)), l as real)
  {
    ValInt(l);
    var temp := NewMpq(l, 1, {});
    EvalQQ(op, q, r, temp);
  }

  /** mpq_set_ui (q, 0, 1). */
  method SetZero(q: Mpq)
    requires Proper(q)
    modifies q.num, q.den
    ensures Canon(q) && Number(q) == 0.0
  {
    ValInt(0);
    q.num.v := 0;
    q.den.v := 1;
  }

  lemma TimesZero(x: real, l: int)
    requires l == 0
    ensures x * l as real == 0.0
  {
  }

  /** A known word that passes the bit test: zero, or a shift. */
  method TimesKnown(q: Mpq, r: Mpq, l: ULong, known: bool)
    requires Proper(q) && Apart(q, r) && Canon(r) && PowerOfTwoTest(l)
    modifies q.num, q.den
    ensures Canon(q) && Number(q) == old(Number(r)) * l as real
  {
    if l == 0 {
      TimesZero(Number(r), l);
      SetZero(q);
    } else {
      PowerOfTwoShift(l);
      ShiftUp(q, r, l, Ctz(l), known);
    }
  }

  method TimesTemporary(q: Mpq, r: Mpq, l: ULong)
    requires Proper(q) && Apart(q, r) && Canon(r)
    modifies q.num, q.den
    ensures Canon(q) && Number(q) == old(Number(r)) * l as real
  {
    ByTemporary(QTimes, q, r, l);
  }

  /** The fast paths: the word is the n-th power of two. */
  method ShiftUp(q: Mpq, r: Mpq, l: ULong, n: nat, known: bool)
    requires Proper(q) && Apart(q, r) && Canon(r) && l == Pow2(n)
    modifies q.num, q.den
    ensures Canon(q) && Number(q) == old(Number(r)) * l as real
  {
    ghost var x := Number(r);
    LShiftQ(q, r, n, known);
    ScaledByWord(x, l, n);
  }

  method ShiftDown(q: Mpq, r: Mpq, l: ULong, n: nat, known: bool)
    requires Proper(q) && Apart(q, r) && Canon(r) && l == Pow2(n)
    modifies q.num, q.den
    ensures l != 0 && Canon(q) && Number(q) == old(Number(r)) / l as real
  {
    ghost var x := Number(r);
    RShiftQ(q, r, n, known);
    ScaledByWord(x, l, n);
  }

  method TimesQU(q: Mpq, r: Mpq, l: ULong, known: bool)
    requires Proper(q) && Apart(q, r) && Canon(r)
    modifies q.num, q.den
    ensures Canon(q) && Number(q) == old(Number(r)) * l as real
  {
    if known && PowerOfTwoTest(l) {
      TimesKnown(q, r, l, known);
    } else {
      TimesTemporary(q, r, l);
    }
  }

  method DivQU(q: Mpq, r: Mpq, l: ULong, known: bool)
    requires Proper(q) && Apart(q, r) && Canon(r) && l != 0
    modifies q.num, q.den
    ensures Canon(q) && Number(q) == old(Number(r)) / l as real
  {
    if known && PowerOfTwoTest(l) && l != 0 {
      PowerOfTwoShift(l);
      ShiftDown(q, r, l, Ctz(l), known);
    } else {
      ByTemporary(QDiv, q, r, l);
    }
  }

  lemma NegatedFactor(x: real, s: int)
    ensures -(x * (0 - s) as real) == x * s as real
    ensures s != 0 ==> -(x / (0 - s) as real) == x / s as real
  {
    if s != 0 {
      var y := x / (0 - s) as real;
      assert y * (0 - s) as real == x;
      assert (-y) * s as real == x;
    }
  }

  /** The branch for a sign known not to be positive. */
  method TimesNegated(q: Mpq, r: Mpq, s: Long, known: bool)
    requires Proper(q) && Apart(q, r) && Canon(r) && s <= 0
    modifies q.num, q.den
    ensures Canon(q) && Number(q) == old(Number(r)) * s as real
  {
    NegatedFactor(Number(r), s);
    TimesQU(q, r, AbsUI(s), known);
    NegQ(q, q);
  }

  method TimesQW(q: Mpq, r: Mpq, l: Word)
    requires Proper(q) && Apart(q, r) && Canon(r)
    modifies q.num, q.den
    ensures Canon(q) && Number(q) == old(Number(r)) * l.Int() as real
  {
    match l
    case U(u, k) => TimesQU(q, r, u, k);
    case S(s, k, g) =>
      if g && s >= 0 {
        assert ToULong(s) == s;
        TimesQU(q, r, ToULong(s), k);
      } else if g && s <= 0 {
        TimesNegated(q, r, s, k);
      } else {
        ByTemporary(QTimes, q, r, s);
      }
  }

  method DivNegated(q: Mpq, r: Mpq, s: Long, known: bool)
    requires Proper(q) && Apart(q, r) && Canon(r) && s < 0
    modifies q.num, q.den
    ensures Canon(q) && Number(q) == old(Number(r)) / s as real
  {
    NegatedFactor(Number(r), s);
    DivQU(q, r, AbsUI(s), known);
    NegQ(q, q);
  }

  method DivQW(q: Mpq, r: Mpq, l: Word)
    requires Proper(q) && Apart(q, r) && Canon(r) && l.Int() != 0
    modifies q.num, q.den
    ensures Canon(q) && Number(q) == old(Number(r)) / l.Int() as real
  {
    match l
    case U(u, k) => DivQU(q, r, u, k);
    case S(s, k, g) =>
      if g && s >= 0 {
        assert ToULong(s) == s;
        DivQU(q, r, ToULong(s), k);
      } else if g && s <= 0 {
        DivNegated(q, r, s, k);
      } else {
        ByTemporary(QDiv, q, r, s);
      }
  }

  // ---------- overload resolution ----------

  method EvalQW(op: QOp, q: Mpq, r: Mpq, l: Word)
    requires Proper(q) && Apart(q, r) && Canon(r) && (op.QDiv? ==> l.Int() != 0)
    modifies q.num, q.den
    ensures Canon(q) && Number(q) == QApply(op, old(Number(r)), l.Int() as real)
  {
    match op
    case QPlus => PlusQW(q, r, l);
    case QMinus => MinusQW(q, r, l);
    case QTimes => TimesQW(q, r, l);
    case QDiv => DivQW(q, r, l);
  }

  method EvalWQ(op: QOp, q: Mpq, l: Word, r: Mpq)
    requires Proper(q) && Apart(q, r) && Canon(r) && QDefined(op, Number(r))
    modifies q.num, q.den
    ensures Canon(q) && Number(q) == QApply(op, l.Int() as real, old(Number(r)))
  {
    match op {
      case QPlus => PlusQW(q, r, l);
      case QMinus =>
        MinusQW(q, r, l);
        NegQ(q, q);
      case QTimes => TimesQW(q, r, l);
      case QDiv =>
        ValInt(l.Int());
        var temp := NewMpq(l.Int(), 1, {});
        EvalQQ(QDiv, q, temp, r);
    }
  }

  /** The direct mixed overloads exist for addition and subtraction only. */
  method EvalQZ(op: QOp, q: Mpq, r: Mpq, z: Mpz)
    requires op.QPlus? || op.QMinus?
    requires Proper(q) && Apart(q, r) && Canon(r)
    modifies q.num, q.den
    ensures Canon(q) && Number(q) == QApply(op, old(Number(r)), old(z.v) as real)
  {
    if op.QPlus? {
      PlusQZ(q, r, z);
    } else {
      MinusQZ(q, r, z);
    }
  }

  method EvalZQ(op: QOp, q: Mpq, z: Mpz, r: Mpq)
    requires op.QPlus? || op.QMinus?
    requires Proper(q) && Apart(q, r) && Canon(r)
    modifies q.num, q.den
    ensures Canon(q) && Number(q) == QApply(op, old(z.v) as real, old(Number(r)))
  {
    if op.QPlus? {
      PlusQZ(q, r, z);
    } else {
      MinusZQ(q, z, r);
    }
  }
}
