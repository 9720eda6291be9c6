/** The expression templates of gmpxx.h.  An expression is a tree built from
    variables and machine words; eval writes its value straight into the
    destination and each specialization decides whether a temporary is needed,
    because the destination may occur anywhere in the tree. */
module Expressions {
  import opened Words
  import opened Rationals
  import opened Integers
  import opened Fractions
  import opened Rounding

  datatype UnaryOp = Identity | Negate | Complement | Absolute

  /** Trees of type __gmp_expr<mpz_t, ...>. */
  datatype ZExpr =
    | ZVar(z: Mpz)
    | ZUnary(uop: UnaryOp, arg: ZExpr)
    | ZBinary(op: Op, left: ZExpr, right: ZExpr)
    | ZWithWord(op: Op, left: ZExpr, word: Word)
    | WordWithZ(op: Op, word: Word, right: ZExpr)
    | ZShl(left: ZExpr, bits: nat, known: bool)
    | ZShr(left: ZExpr, bits: nat, known: bool)

  /** Trees of type __gmp_expr<mpq_t, ...>; a binary node may mix types. */
  datatype QExpr =
    | QVar(q: Mpq)
    | QUnary(uop: UnaryOp, arg: QExpr)
    | QBinary(qop: QOp, left: QExpr, right: QExpr)
    | QWithZ(qop: QOp, left: QExpr, zright: ZExpr)
    | ZWithQ(qop: QOp, zleft: ZExpr, right: QExpr)
    | QWithWord(qop: QOp, left: QExpr, word: Word)
    | WordWithQ(qop: QOp, word: Word, right: QExpr)
    | QShl(left: QExpr, bits: nat, known: bool)
    | QShr(left: QExpr, bits: nat, known: bool)

  // ---------- what a tree means ----------

  /** The integer variables a tree reads. */
  ghost function ZCells(e: ZExpr): set<Mpz> {
    match e
    case ZVar(z) => {z}
    case ZUnary(_, a) => ZCells(a)
    case ZBinary(_, a, b) => ZCells(a) + ZCells(b)
    case ZWithWord(_, a, _) => ZCells(a)
    case WordWithZ(_, _, b) => ZCells(b)
    case ZShl(a, _, _) => ZCells(a)
    case ZShr(a, _, _) => ZCells(a)
  }

  function ZApplyUnary(op: UnaryOp, a: int): int {
    match op
    case Identity => a
    case Negate => -a
    case Complement => -a - 1
    case Absolute => Abs(a)
  }

  /** What each unary operator means. */
  ghost predicate UnaryMeaning(op: UnaryOp, a: int, r: int) {
    match op
    case Identity => r == a
    case Negate => a + r == 0
    case Complement => forall n: nat :: BitAt(r, n) != BitAt(a, n)
    case Absolute => 0 <= r && (r == a || a + r == 0)
  }

  /** A unary operator gives the one integer with its meaning. */
  lemma UnaryExact(op: UnaryOp, a: int, r: int)
    ensures r == ZApplyUnary(op, a) <==> UnaryMeaning(op, a, r)
  {
    if op.Complement? {
      forall n: nat
        ensures BitAt(-a - 1, n) != BitAt(a, n)
      {
        ComplementBits(a, n);
      }
      if UnaryMeaning(op, a, r) {
        BitsDetermine(r, -a - 1);
      }
    }
  }

  /** No division by zero, and no native overflow, anywhere in the tree. */
  ghost predicate ZSafe(e: ZExpr)
    reads ZCells(e)
    decreases e, 0
  {
    match e
    case ZVar(_) => true
    case ZUnary(_, a) => ZSafe(a)
    case ZBinary(op, a, b) => ZSafe(a) && ZSafe(b) && Defined(op, ZValue(b))
    case ZWithWord(op, a, l) => ZSafe(a) && Defined(op, l.Int())
    case WordWithZ(op, l, b) => ZSafe(b) && WordDefined(op, l, ZValue(b))
    case ZShl(a, _, _) => ZSafe(a)
    case ZShr(a, _, _) => ZSafe(a)
  }

  /** The mathematical value of a tree in the current store. */
  ghost function ZValue(e: ZExpr): int
    requires ZSafe(e)
    reads ZCells(e)
    decreases e, 1
  {
    match e
    case ZVar(z) => z.v
    case ZUnary(op, a) => ZApplyUnary(op, ZValue(a))
    case ZBinary(op, a, b) => Apply(op, ZValue(a), ZValue(b))
    case ZWithWord(op, a, l) => Apply(op, ZValue(a), l.Int())
    case WordWithZ(op, l, b) => Apply(op, l.Int(), ZValue(b))
    case ZShl(a, n, _) => ZValue(a) * Pow2(n)
    case ZShr(a, n, _) => FloorShift(ZValue(a), n)
  }

  /** The cells a rational tree reads. */
  ghost function QCells(e: QExpr): set<Mpz> {
    match e
    case QVar(q) => {q.num, q.den}
    case QUnary(_, a) => QCells(a)
    case QBinary(_, a, b) => QCells(a) + QCells(b)
    case QWithZ(_, a, b) => QCells(a) + ZCells(b)
    case ZWithQ(_, a, b) => ZCells(a) + QCells(b)
    case QWithWord(_, a, _) => QCells(a)
    case WordWithQ(_, _, b) => QCells(b)
    case QShl(a, _, _) => QCells(a)
    case QShr(a, _, _) => QCells(a)
  }

  ghost function QApplyUnary(op: UnaryOp, a: real): real
    requires !op.Complement?
  {
    match op
    case Identity => a
    case Negate => -a
    case Absolute => if a < 0.0 then -a else a
  }

  /** No zero divisor anywhere, and every rational variable in lowest terms. */
  ghost predicate QSafe(e: QExpr)
    reads QCells(e)
    decreases e, 0
  {
    match e
    case QVar(q) => Canon(q)
    case QUnary(op, a) => QSafe(a) && !op.Complement?
    case QBinary(op, a, b) => QSafe(a) && QSafe(b) && QDefined(op, QValue(b))
    case QWithZ(op, a, b) => QSafe(a) && ZSafe(b) && QDefined(op, ZValue(b) as real)
    case ZWithQ(op, a, b) => ZSafe(a) && QSafe(b) && QDefined(op, QValue(b))
    case QWithWord(op, a, l) => QSafe(a) && QDefined(op, l.Int() as real)
    case WordWithQ(op, l, b) => QSafe(b) && QDefined(op, QValue(b))
    case QShl(a, _, _) => QSafe(a)
    case QShr(a, _, _) => QSafe(a)
  }

  ghost function QValue(e: QExpr): real
    requires QSafe(e)
    reads QCells(e)
    decreases e, 1
  {
    match e
    case QVar(q) => Number(q)
    case QUnary(op, a) => QApplyUnary(op, QValue(a))
    case QBinary(op, a, b) => QApply(op, QValue(a), QValue(b))
    case QWithZ(op, a, b) => QApply(op, QValue(a), ZValue(b) as real)
    case ZWithQ(op, a, b) => QApply(op, ZValue(a) as real, QValue(b))
    case QWithWord(op, a, l) => QApply(op, QValue(a), l.Int() as real)
    case WordWithQ(op, l, b) => QApply(op, l.Int() as real, QValue(b))
    case QShl(a, n, _) => Doubled(QValue(a), n)
    case QShr(a, n, _) => Halved(QValue(a), n)
  }

  // ---------- integer trees ----------

  method UnaryZ(op: UnaryOp, z: Mpz, w: Mpz)
    modifies z
    ensures z.v == ZApplyUnary(op, old(w.v))
    ensures UnaryMeaning(op, old(w.v), z.v)
  {
    UnaryExact(op, w.v, ZApplyUnary(op, w.v));
    z.v := ZApplyUnary(op, w.v);
  }

  /** __gmp_expr<mpz_t, ...>::eval, and mpz_set for a plain variable.  The
      destination may be any variable of the tree; no other cell is written. */
  method EvalZ(e: ZExpr, p: Mpz)
    requires ZSafe(e)
    modifies p
    ensures p.v == old(ZValue(e))
    decreases e, 0
  {
    match e
    case ZVar(z) =>
      p.v := z.v;
    case ZUnary(op, a) =>
      if a.ZVar? {
        UnaryZ(op, p, a.z);
      } else {
        EvalZ(a, p);
        UnaryZ(op, p, p);
      }
    case ZBinary(op, a, b) =>
      assert ZSafe(a) && ZSafe(b);
      if a.ZVar? && b.ZVar? {
        EvalZZ(op, p, a.z, b.z);
      } else if a.ZVar? {
        if p != a.z {
          EvalZ(b, p);
          EvalZZ(op, p, a.z, p);
        } else {
          var temp := TempZ(b, ZCells(a) + ZCells(b));
          EvalZZ(op, p, a.z, temp);
        }
      } else if b.ZVar? {
        if p != b.z {
          EvalZ(a, p);
          EvalZZ(op, p, p, b.z);
        } else {
          var temp := TempZ(a, ZCells(a) + ZCells(b));
          EvalZZ(op, p, temp, b.z);
        }
      } else {
        var temp2 := TempZ(b, ZCells(a) + ZCells(b));
        EvalZ(a, p);
        EvalZZ(op, p, p, temp2);
      }
    case ZWithWord(op, a, l) =>
      if a.ZVar? {
        EvalZW(op, p, a.z, l);
      } else {
        EvalZ(a, p);
        EvalZW(op, p, p, l);
      }
    case WordWithZ(op, l, b) =>
      if b.ZVar? {
        EvalWZ(op, p, l, b.z);
      } else {
        EvalZ(b, p);
        EvalWZ(op, p, l, p);
      }
    case ZShl(a, n, k) =>
      if a.ZVar? {
        LShift(p, a.z, n, k);
      } else {
        EvalZ(a, p);
        LShift(p, p, n, k);
      }
    case ZShr(a, n, k) =>
      if a.ZVar? {
        RShift(p, a.z, n, k);
      } else {
        EvalZ(a, p);
        RShift(p, p, n, k);
      }
  }

  /** __gmp_temp<mpz_t>: a fresh variable holding the value of a tree. */
  method TempZ(e: ZExpr, ghost avoid: set<Mpz>) returns (temp: Mpz)
    requires ZSafe(e)
    ensures fresh(temp) && temp !in avoid && unchanged(avoid)
    ensures temp.v == old(ZValue(e))
    decreases e, 1
  {
    assert ZSafe(e);
    temp := NewMpz(avoid + ZCells(e));
    EvalZ(e, temp);
  }

  // ---------- rational trees ----------

  /** Every rational variable of the tree is the destination or shares no cell
      with it.  Integer variables are not restricted. */
  ghost predicate Writable(p: Mpq, e: QExpr) {
    match e
    case QVar(q) => Proper(p) && Apart(p, q)
    case QUnary(_, a) => Writable(p, a)
    case QBinary(_, a, b) => Writable(p, a) && Writable(p, b)
    case QWithZ(_, a, _) => Writable(p, a)
    case ZWithQ(_, _, b) => Writable(p, b)
    case QWithWord(_, a, _) => Writable(p, a)
    case WordWithQ(_, _, b) => Writable(p, b)
    case QShl(a, _, _) => Writable(p, a)
    case QShr(a, _, _) => Writable(p, a)
  }

  lemma {:induction false} FreshWritable(p: Mpq, e: QExpr)
    requires Proper(p) && p.num !in QCells(e) && p.den !in QCells(e)
    ensures Writable(p, e)
  {
    match e
    case QVar(_) =>
    case QUnary(_, a) => FreshWritable(p, a);
    case QBinary(_, a, b) => FreshWritable(p, a); FreshWritable(p, b);
    case QWithZ(_, a, _) => FreshWritable(p, a);
    case ZWithQ(_, _, b) => FreshWritable(p, b);
    case QWithWord(_, a, _) => FreshWritable(p, a);
    case WordWithQ(_, _, b) => FreshWritable(p, b);
    case QShl(a, _, _) => FreshWritable(p, a);
    case QShr(a, _, _) => FreshWritable(p, a);
  }

  /** __gmp_set_expr(mpq_ptr, mpz expression): evaluate into the numerator. */
  method SetQFromZ(p: Mpq, e: ZExpr)
    requires Proper(p) && ZSafe(e)
    modifies p.num, p.den
    ensures Canon(p) && Number(p) == old(ZValue(e)) as real
  {
    EvalZ(e, p.num);
    p.den.v := 1;
    ValInt(p.num.v);
  }

  method UnaryQ(op: UnaryOp, q: Mpq, r: Mpq)
    requires Proper(q) && Apart(q, r) && Canon(r) && !op.Complement?
    modifies q.num, q.den
    ensures Canon(q) && Number(q) == QApplyUnary(op, old(Number(r)))
  {
    match op
    case Identity => SetQQ(q, r);
    case Negate => NegQ(q, r);
    case Absolute => AbsQ(q, r);
  }

  /** __gmp_expr<mpq_t, ...>::eval.  The destination may be any rational of
      the tree, and integer variables of the tree may be its numerator or
      denominator; no other cell is written. */
  method EvalQ(e: QExpr, p: Mpq)
    requires QSafe(e) && Proper(p) && Writable(p, e)
    modifies p.num, p.den
    ensures Canon(p) && Number(p) == old(QValue(e))
    decreases e, 1
  {
    match e
    case QVar(r) =>
      SetQQ(p, r);
    case QUnary(op, a) =>
      if a.QVar? {
        UnaryQ(op, p, a.q);
      } else {
        EvalQ(a, p);
        UnaryQ(op, p, p);
      }
    case QBinary(op, a, b) =>
      EvalQBinary(e, p);
    case QWithZ(op, a, b) =>
      EvalQWithZ(e, p);
    case ZWithQ(op, a, b) =>
      EvalZWithQ(e, p);
    case QWithWord(_, _, _) =>
      EvalQWord(e, p);
    case WordWithQ(_, _, _) =>
      EvalQWord(e, p);
    case QShl(_, _, _) =>
      EvalQShl(e, p);
    case QShr(_, _, _) =>
      EvalQShr(e, p);
  }

  /** One operand a machine word. */
  method EvalQWord(e: QExpr, p: Mpq)
    requires (e.QWithWord? || e.WordWithQ?) && QSafe(e) && Proper(p) && Writable(p, e)
    modifies p.num, p.den
    ensures Canon(p) && Number(p) == old(QValue(e))
    decreases e, 0
  {
    match e
    case QWithWord(op, a, l) =>
      if a.QVar? {
        EvalQW(op, p, a.q, l);
      } else {
        EvalQ(a, p);
        EvalQW(op, p, p, l);
      }
    case WordWithQ(op, l, b) =>
      if b.QVar? {
        EvalWQ(op, p, l, b.q);
      } else {
        EvalQ(b, p);
        EvalWQ(op, p, l, p);
      }
  }

  method EvalQShl(e: QExpr, p: Mpq)
    requires e.QShl? && QSafe(e) && Proper(p) && Writable(p, e)
    modifies p.num, p.den
    ensures Canon(p) && Number(p) == old(QValue(e))
    decreases e, 0
  {
    var a := e.left;
    if a.QVar? {
      LShiftQ(p, a.q, e.bits, e.known);
    } else {
      EvalQ(a, p);
      LShiftQ(p, p, e.bits, e.known);
    }
  }

  method EvalQShr(e: QExpr, p: Mpq)
    requires e.QShr? && QSafe(e) && Proper(p) && Writable(p, e)
    modifies p.num, p.den
    ensures Canon(p) && Number(p) == old(QValue(e))
    decreases e, 0
  {
    var a := e.left;
    if a.QVar? {
      RShiftQ(p, a.q, e.bits, e.known);
    } else {
      EvalQ(a, p);
      RShiftQ(p, p, e.bits, e.known);
    }
  }

  /** __gmp_temp<mpq_t>: a fresh rational holding the value of a tree. */
  method TempQ(e: QExpr, ghost avoid: set<Mpz>) returns (temp: Mpq)
    requires QSafe(e)
    ensures fresh(temp.num) && fresh(temp.den) && Proper(temp)
    ensures temp.num !in avoid && temp.den !in avoid && unchanged(avoid)
    ensures Canon(temp) && Number(temp) == old(QValue(e))
    decreases e, 2
  {
    assert QSafe(e);
    temp := NewMpq(0, 1, avoid + QCells(e));
    FreshWritable(temp, e);
    EvalQ(e, temp);
  }

  /** The same, for an integer tree in a rational context. */
  method TempQFromZ(e: ZExpr, ghost avoid: set<Mpz>) returns (temp: Mpq)
    requires ZSafe(e)
    ensures fresh(temp.num) && fresh(temp.den) && Proper(temp)
    ensures temp.num !in avoid && temp.den !in avoid && unchanged(avoid)
    ensures Canon(temp) && Number(temp) == old(ZValue(e)) as real
  {
    assert ZSafe(e);
    temp := NewMpq(0, 1, avoid + ZCells(e));
    SetQFromZ(temp, e);
  }

  /** Both operands rational. */
  method EvalQBinary(e: QExpr, p: Mpq)
    requires e.QBinary? && QSafe(e) && Proper(p) && Writable(p, e)
    modifies p.num, p.den
    ensures Canon(p) && Number(p) == old(QValue(e))
    decreases e, 0
  {
    var op, a, b := e.qop, e.left, e.right;
    assert QSafe(a) && QSafe(b);
    if a.QVar? && b.QVar? {
      EvalQQ(op, p, a.q, b.q);
    } else if a.QVar? {
      if p != a.q {
        EvalQ(b, p);
        EvalQQ(op, p, a.q, p);
      } else {
        var temp := TempQ(b, QCells(a) + QCells(b));
        EvalQQ(op, p, a.q, temp);
      }
    } else if b.QVar? {
      if p != b.q {
        EvalQ(a, p);
        EvalQQ(op, p, p, b.q);
      } else {
        var temp := TempQ(a, QCells(a) + QCells(b));
        EvalQQ(op, p, temp, b.q);
      }
    } else {
      var temp2 := TempQ(b, QCells(a) + QCells(b));
      EvalQ(a, p);
      EvalQQ(op, p, p, temp2);
    }
  }

  /** Rational on the left, integer on the right: __GMPZQ_DEFINE_EXPR for plus
      and minus, the generic mixed specializations for the rest. */
  method EvalQWithZ(e: QExpr, p: Mpq)
    requires e.QWithZ? && QSafe(e) && Proper(p) && Writable(p, e)
    modifies p.num, p.den
    ensures Canon(p) && Number(p) == old(QValue(e))
    decreases e, 0
  {
    var op, a, b := e.qop, e.left, e.zright;
    assert QSafe(a) && ZSafe(b);
    if op.QPlus? || op.QMinus? {
      if a.QVar? && b.ZVar? {
        EvalQZ(op, p, a.q, b.z);
      } else if a.QVar? {
        var temp := TempZ(b, QCells(a) + ZCells(b));
        EvalQZ(op, p, a.q, temp);
      } else if b.ZVar? {
        var temp := TempQ(a, QCells(a) + ZCells(b));
        EvalQZ(op, p, temp, b.z);
      } else {
        var temp2 := TempZ(b, QCells(a) + ZCells(b));
        EvalQ(a, p);
        EvalQZ(op, p, p, temp2);
      }
    } else if a.QVar? {
      if p != a.q {
        SetQFromZ(p, b);
        EvalQQ(op, p, a.q, p);
      } else {
        var temp := TempQFromZ(b, QCells(a) + ZCells(b));
        EvalQQ(op, p, a.q, temp);
      }
    } else {
      var temp2 := TempQFromZ(b, QCells(a) + ZCells(b));
      EvalQ(a, p);
      EvalQQ(op, p, p, temp2);
    }
  }

  method EvalZWithQ(e: QExpr, p: Mpq)
    requires e.ZWithQ? && QSafe(e) && Proper(p) && Writable(p, e)
    modifies p.num, p.den
    ensures Canon(p) && Number(p) == old(QValue(e))
    decreases e, 0
  {
    var op, a, b := e.qop, e.zleft, e.right;
    assert ZSafe(a) && QSafe(b);
    if op.QPlus? || op.QMinus? {
      if a.ZVar? && b.QVar? {
        EvalZQ(op, p, a.z, b.q);
      } else if a.ZVar? {
        var temp := TempQ(b, ZCells(a) + QCells(b));
        EvalZQ(op, p, a.z, temp);
      } else if b.QVar? {
        var temp := TempZ(a, ZCells(a) + QCells(b));
        EvalZQ(op, p, temp, b.q);
      } else {
        var temp1 := TempZ(a, ZCells(a) + QCells(b));
        EvalQ(b, p);
        EvalZQ(op, p, temp1, p);
      }
    } else if b.QVar? {
      if p != b.q {
        SetQFromZ(p, a);
        EvalQQ(op, p, p, b.q);
      } else {
        var temp := TempQFromZ(a, ZCells(a) + QCells(b));
        EvalQQ(op, p, temp, b.q);
      }
    } else {
      var temp1 := TempQFromZ(a, ZCells(a) + QCells(b));
      EvalQ(b, p);
      EvalQQ(op, p, temp1, p);
    }
  }

  // ---------- conversion and compound assignment ----------

  lemma UnitInterval(t: real, d: real)
    requires 0.0 <= t * d < d
    ensures 0.0 <= t < 1.0
  {
  }

  lemma FloorOfFraction(n: nat, d: nat)
    requires 0 < d
    ensures 0.0 <= Val(n, d) && Val(n, d).Floor == n / d
  {
    var q, r := n / d, n % d;
    FractionalPart(r, d);
    WholePart(n, d, q, r);
    FloorIs(Val(n, d), q);
  }

  lemma FractionalPart(r: nat, d: nat)
    requires r < d
    ensures 0.0 <= Val(r, d) < 1.0
  {
    ValTimesDen(r, d);
    UnitInterval(Val(r, d), d as real);
  }

  lemma WholePart(n: nat, d: nat, q: nat, r: nat)
    requires 0 < d && n == q * d + r
    ensures Val(n, d) == q as real + Val(r, d)
  {
    ValTimesDen(r, d);
    MulReal(q, d);
    ValIs(n, d, q as real + Val(r, d));
  }

  lemma TruncatedFraction(n: int, d: int)
    requires 0 < d
    ensures Truncate(Val(n, d)) == TQuot(n, d)
  {
    if n < 0 {
      ValNegate(n, d);
      FloorOfFraction(-n, d);
      SignOfVal(n, d);
    } else {
      FloorOfFraction(n, d);
    }
  }

  /** __gmp_set_expr(mpz_ptr, mpq expression): through a temporary, rounding
      toward zero. */
  method SetZFromQ(z: Mpz, e: QExpr)
    requires QSafe(e)
    modifies z
    ensures z.v == Truncate(old(QValue(e)))
  {
    var temp := TempQ(e, {});
    TruncatedFraction(temp.num.v, temp.den.v);
    z.v := TQuot(temp.num.v, temp.den.v);
  }

  /** x op= e: the destination is the left operand, and may occur in e. */
  method CompoundZ(op: Op, x: Mpz, e: ZExpr)
    requires ZSafe(e) && Defined(op, ZValue(e))
    modifies x
    ensures x.v == Apply(op, old(x.v), old(ZValue(e)))
  {
    EvalZ(ZBinary(op, ZVar(x), e), x);
  }

  method CompoundQ(op: QOp, x: Mpq, e: QExpr)
    requires Canon(x) && Proper(x) && QSafe(e) && Writable(x, e) && QDefined(op, QValue(e))
    modifies x.num, x.den
    ensures Canon(x) && Number(x) == QApply(op, old(Number(x)), old(QValue(e)))
  {
    EvalQ(QBinary(op, QVar(x), e), x);
  }

  /** integer op= rational tree: the tree is rounded to an integer before the
      operation, and a divisor rounded to zero raises the division error of the
      integer functions. The outcome is the exact result rounded under RoundsOnce
      only. */
  method CompoundZFromQ(op: Op, x: Mpz, e: QExpr) returns (raised: bool)
    requires QSafe(e)
    modifies x
    ensures raised <==> !Defined(op, Truncate(old(QValue(e))))
    ensures x.v == if raised then old(x.v) else Apply(op, old(x.v), Truncate(old(QValue(e))))
    ensures Arithmetic(op) && (op.Div? ==> old(QValue(e)) != 0.0) ==>
      (!raised && x.v == Truncate(Exact(op, old(x.v), old(QValue(e)))) <==> RoundsOnce(op, old(x.v), old(QValue(e))))
  {
    if Arithmetic(op) && (op.Div? ==> QValue(e) != 0.0) {
      RoundsOnceExactly(op, x.v, QValue(e));
    }
    var temp := NewMpz({x} + QCells(e));
    SetZFromQ(temp, e);
    if (op.Div? || op.Mod?) && temp.v == 0 {
      return true;
    }
    EvalZZ(op, x, x, temp);
    raised := false;
  }
}
