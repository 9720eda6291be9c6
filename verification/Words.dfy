/** Machine words of the 32-bit build (gmp.h: GMP_LIMB_BITS 32), the C
    operators on them, and truncated division of mathematical integers. */
module Words {

  const WORD: nat := 0x1_0000_0000

  type ULong = x: int | 0 <= x < WORD
  type Long = x: int | -0x8000_0000 <= x < 0x8000_0000

  /** static_cast<unsigned long>(l). */
  function ToULong(l: Long): ULong {
    l % WORD
  }

  /** Unary minus on unsigned long, which wraps. */
  function NegULong(u: ULong): ULong {
    (0 - u) % WORD
  }

  /** __gmpxx_abs_ui: exact for every long, LONG_MIN included. */
  function AbsUI(l: Long): (u: ULong)
    ensures u as int == (if l < 0 then 0 - l else l)
  {
    if l >= 0 then ToULong(l) else NegULong(ToULong(l))
  }

  lemma UnsignedCast(l: Long)
    ensures 0 <= l ==> ToULong(l) == l
    ensures l < 0 ==> NegULong(ToULong(l)) == 0 - l
  {
  }

  // ---------- truncated division ----------

  function Abs(n: int): nat {
    if n < 0 then -n else n
  }

  function Sgn(n: int): int {
    if n < 0 then -1 else if n == 0 then 0 else 1
  }

  function WithSign(negative: bool, m: int): int {
    if negative then 0 - m else m
  }

  /** C and GMP (tdiv) division: the quotient is rounded toward zero. */
  function TQuot(a: int, b: int): int
    requires b != 0
  {
    WithSign((a < 0) != (b < 0), Abs(a) / Abs(b))
  }

  function TRem(a: int, b: int): int
    requires b != 0
  {
    WithSign(a < 0, Abs(a) % Abs(b))
  }

  /** What "truncated division" promises, without saying how. */
  predicate TruncatedDivision(a: int, b: int, q: int, r: int) {
    a == q * b + r && Abs(r) < Abs(b) && (r == 0 || Sgn(r) == Sgn(a))
  }

  lemma TQuotTRem(a: int, b: int)
    requires b != 0
    ensures TruncatedDivision(a, b, TQuot(a, b), TRem(a, b))
  {
    var q, r := Abs(a) / Abs(b), Abs(a) % Abs(b);
    assert Abs(a) == q * Abs(b) + r;
    NegatedFactors(q, b);
  }

  lemma NegatedFactors(q: int, b: int)
    ensures q * (0 - b) == 0 - q * b && (0 - q) * b == 0 - q * b
  {
  }

  /** There is only one truncated division, so any result with these
      properties is the one TQuot and TRem compute. */
  lemma {:induction false} TruncatedDivisionUnique(a: int, b: int, q: int, r: int)
    requires b != 0
    ensures TruncatedDivision(a, b, q, r) <==> q == TQuot(a, b) && r == TRem(a, b)
  {
    TQuotTRem(a, b);
    if TruncatedDivision(a, b, q, r) {
      var p, s := TQuot(a, b), TRem(a, b);
      assert (q - p) * b == q * b - p * b;
      SmallMultiple(q - p, b);
    }
  }

  lemma SmallMultiple(t: int, b: int)
    ensures t != 0 ==> Abs(b) <= Abs(t * b)
  {
    if t > 0 {
      AbsMultiple(t, b);
    } else if t < 0 {
      AbsMultiple(-t, b);
      assert (-t) * b == -(t * b);
    }
  }

  lemma AbsMultiple(t: nat, b: int)
    requires 0 < t
    ensures Abs(b) <= Abs(t * b)
  {
    assert t * b == b + (t - 1) * b;
    if 0 <= b {
      assert 0 <= (t - 1) * b;
    } else {
      assert 0 <= (t - 1) * (-b) == -((t - 1) * b);
    }
  }

  // ---------- native division ----------

  const LONG_MIN: Long := -0x8000_0000

  predicate IsLong(n: int) {
    -0x8000_0000 <= n < 0x8000_0000
  }

  /** Section 6.5.5 of C11: a / b and a % b have a result when b is not zero and
      the quotient is representable. */
  predicate NativeDefined(a: Long, b: Long) {
    b != 0 && IsLong(TQuot(a, b))
  }

  function NativeDiv(a: Long, b: Long): (q: Long)
    requires NativeDefined(a, b)
  {
    TQuot(a, b)
  }

  function NativeRem(a: Long, b: Long): (r: Long)
    requires NativeDefined(a, b)
  {
    TQuotTRem(a, b);
    TRem(a, b)
  }

  lemma NaturalQuotient(a: nat, b: nat)
    requires 0 < b
    ensures 0 <= a / b && 0 <= a % b < b
  {
  }

  lemma NaturalProduct(x: nat, y: nat)
    ensures 0 <= x * y
  {
  }

  lemma AtLeastTwice(q: nat, b: nat)
    requires 2 <= b
    ensures 2 * q <= q * b
  {
    NaturalProduct(q, b - 2);
    assert q * b == 2 * q + q * (b - 2);
  }

  lemma QuotientTimes(a: nat, b: nat)
    requires 1 <= b
    ensures (a / b) * b <= a
  {
    assert a == (a / b) * b + a % b;
  }

  lemma QuotientSize(a: nat, b: nat)
    requires 1 <= b
    ensures b == 1 ==> a / b == a
    ensures b != 1 ==> 2 * (a / b) <= a
  {
    if b != 1 {
      QuotientTimes(a, b);
      AtLeastTwice(a / b, b);
    }
  }

  /** The one pair of a long and a nonzero integer whose quotient is no long. */
  lemma QuotientIsLong(l: Long, w: int)
    requires w != 0
    ensures IsLong(TQuot(l, w)) <==> !(l == LONG_MIN && w == -1)
  {
    NaturalQuotient(Abs(l), Abs(w));
    QuotientSize(Abs(l), Abs(w));
    LongRange((l < 0) != (w < 0), Abs(l), Abs(l) / Abs(w), Abs(w));
  }

  lemma LongRange(negative: bool, a: nat, m: int, b: nat)
    requires 1 <= b && 0 <= m && a <= 0x8000_0000 && (b == 1 ==> m == a) && (b != 1 ==> 2 * m <= a)
    ensures IsLong(WithSign(negative, m)) <==> !(a == 0x8000_0000 && b == 1 && !negative)
  {
  }

  /** Native division of LONG_MIN by -1 has no result. */
  lemma NativeOverflow()
    ensures TQuot(LONG_MIN, -1) == 0x8000_0000 && !NativeDefined(LONG_MIN, -1)
  {
  }

  lemma TQuotNegDivisor(a: int, b: int)
    requires b != 0
    ensures TQuot(a, -b) == -TQuot(a, b) && TRem(a, -b) == TRem(a, b)
  {
  }

  /** A dividend smaller than the divisor: quotient 0, remainder the dividend. */
  lemma TQuotSmall(a: int, b: int)
    requires Abs(a) < Abs(b)
    ensures TQuot(a, b) == 0 && TRem(a, b) == a
  {
    SmallQuotient(Abs(a), Abs(b));
  }

  lemma SmallQuotient(a: nat, b: nat)
    requires a < b
    ensures a / b == 0 && a % b == a
  {
    var q := a / b;
    assert a == q * b + a % b;
    SmallMultiple(q, b);
  }

  /** Dividing an unsigned word: natural division by the magnitude when the
      divisor fits a word, nothing to divide when it does not. */
  lemma UnsignedDividend(l: ULong, v: int)
    requires v != 0
    ensures Abs(v) < WORD ==> Abs(v) % WORD == Abs(v)
    ensures TQuot(l, v) == if Abs(v) < WORD then WithSign(v < 0, l / Abs(v)) else 0
    ensures TRem(l, v) == if Abs(v) < WORD then l % Abs(v) else l
  {
    if Abs(v) < WORD {
    } else {
      TQuotSmall(l, v);
    }
  }

  /** Dividing a signed word by an integer that is no signed word. */
  lemma SignedDividend(l: Long, v: int)
    requires !IsLong(v)
    ensures TQuot(l, v) == if Abs(v) == AbsUI(l) then -1 else 0
    ensures TRem(l, v) == if Abs(v) == AbsUI(l) then 0 else l
  {
    if Abs(v) == AbsUI(l) {
      assert l == LONG_MIN && v == 0x8000_0000;
    } else {
      TQuotSmall(l, v);
    }
  }

  // ---------- powers of two ----------

  function Pow2(n: nat): nat {
    if n == 0 then 1 else 2 * Pow2(n - 1)
  }

  lemma {:induction false} Pow2Positive(n: nat)
    ensures 0 < Pow2(n)
  {
    if n != 0 {
      Pow2Positive(n - 1);
    }
  }

  /** Bitwise & on unsigned words. */
  function BitAnd(a: nat, b: nat): nat {
    if a == 0 || b == 0 then 0
    else 2 * BitAnd(a / 2, b / 2) + (if a % 2 == 1 && b % 2 == 1 then 1 else 0)
  }

  /** __builtin_ctzl: the number of trailing zero bits of a nonzero word. */
  function Ctz(l: nat): nat
    requires l != 0
  {
    if l % 2 == 1 then 0 else 1 + Ctz(l / 2)
  }

  /** l - 1 on unsigned long, which wraps at 0. */
  function Dec(l: ULong): ULong {
    if l == 0 then WORD - 1 else l - 1
  }

  /** (l & (l - 1)) == 0. */
  predicate PowerOfTwoTest(l: ULong) {
    BitAnd(l, Dec(l)) == 0
  }

  lemma {:induction false} BitAndSelf(a: nat)
    ensures BitAnd(a, a) == a
  {
    if a != 0 {
      BitAndSelf(a / 2);
    }
  }

  /** On nonzero words the bit test accepts exactly the powers of two, and ctz
      is then the exponent. */
  lemma {:induction false} PowerOfTwoBits(l: nat)
    requires l != 0
    ensures BitAnd(l, l - 1) == 0 <==> l == Pow2(Ctz(l))
  {
    Pow2Positive(Ctz(l));
    if l % 2 == 1 {
      BitAndSelf(l / 2);
      if l != 1 {
        assert (l - 1) / 2 == l / 2;
      }
    } else {
      PowerOfTwoBits(l / 2);
      assert (l - 1) / 2 == l / 2 - 1 && (l - 1) % 2 == 1;
      Pow2Positive(Ctz(l / 2));
    }
  }

  lemma PowerOfTwoShift(l: ULong)
    requires l != 0
    ensures PowerOfTwoTest(l) <==> l == Pow2(Ctz(l))
  {
    PowerOfTwoBits(l);
  }

  /** mpz_tdiv_q_2exp: shift the magnitude right and keep the sign. */
  function TruncShift(w: int, n: nat): int {
    Pow2Positive(n);
    WithSign(w < 0, Abs(w) / Pow2(n))
  }

  /** mpz_fdiv_q_2exp: the quotient is rounded toward minus infinity. */
  function FloorShift(w: int, n: nat): int {
    Pow2Positive(n);
    w / Pow2(n)
  }

  /** The power-of-two fast path of division agrees with general truncated
      division for dividends of either sign ... */
  lemma TruncShiftDivides(w: int, l: ULong)
    requires l != 0 && PowerOfTwoTest(l)
    ensures TruncShift(w, Ctz(l)) == TQuot(w, l)
  {
    PowerOfTwoShift(l);
  }

  /** ... while the flooring shift behind operator>> agrees exactly when the
      dividend is nonnegative or a multiple of the divisor. */
  lemma FloorShiftDivides(w: int, n: nat)
    ensures 0 < Pow2(n)
    ensures FloorShift(w, n) == TQuot(w, Pow2(n)) <==> 0 <= w || w % Pow2(n) == 0
  {
    Pow2Positive(n);
    if w < 0 {
      FloorShiftNegative(0 - w, Pow2(n));
    } else {
      TruncOfNonnegative(w, Pow2(n));
    }
  }

  /** The flooring shift is the greatest integer whose multiple by the power
      of two does not exceed the operand. */
  lemma FloorShiftFloors(w: int, n: nat)
    ensures FloorShift(w, n) * Pow2(n) <= w < (FloorShift(w, n) + 1) * Pow2(n)
  {
    Pow2Positive(n);
    QuotientBrackets(w, Pow2(n));
  }

  lemma QuotientBrackets(w: int, p: nat)
    requires 0 < p
    ensures (w / p) * p <= w < (w / p + 1) * p
  {
    assert w == (w / p) * p + w % p;
    assert (w / p + 1) * p == (w / p) * p + p;
  }

  lemma TruncOfNonnegative(w: nat, p: nat)
    requires 0 < p
    ensures TQuot(w, p) == w / p
  {
  }

  lemma FloorShiftNegative(m: nat, p: nat)
    requires 0 < m && 0 < p
    ensures (0 - m) / p == TQuot(0 - m, p) <==> (0 - m) % p == 0
  {
    FloorOfNegative(m, p);
    assert TQuot(0 - m, p) == 0 - m / p;
  }

  lemma FloorOfNegative(m: nat, p: nat)
    requires 0 < p
    ensures (0 - m) / p == (if m % p == 0 then -(m / p) else -(m / p) - 1)
    ensures (0 - m) % p == 0 <==> m % p == 0
  {
    var q, r := m / p, m % p;
    assert m == q * p + r;
    if r == 0 {
      assert 0 - m == (-q) * p;
      DivisionUnique(0 - m, p, -q, 0);
    } else {
      assert 0 - m == (-q - 1) * p + (p - r);
      DivisionUnique(0 - m, p, -q - 1, p - r);
    }
  }

  lemma DivisionUnique(a: int, p: nat, q: int, r: int)
    requires 0 <= r < p && a == q * p + r
    ensures a / p == q && a % p == r
  {
    assert (q - a / p) * p == a % p - r;
    SmallMultiple(q - a / p, p);
  }

  // ---------- bitwise operations on integers ----------

  datatype BitOp = BitsAnd | BitsIor | BitsXor

  function Bit(f: BitOp, x: bool, y: bool): bool {
    match f
    case BitsAnd => x && y
    case BitsIor => x || y
    case BitsXor => x != y
  }

  /** mpz_and, mpz_ior and mpz_xor: bit by bit on two's complement of unlimited
      width, in which 0 and -1 repeat one bit forever. */
  function Bitwise(f: BitOp, a: int, b: int): int
    decreases Abs(a) + Abs(b)
  {
    if -1 <= a <= 0 && -1 <= b <= 0 then (if Bit(f, a == -1, b == -1) then -1 else 0)
    else 2 * Bitwise(f, a / 2, b / 2) + (if Bit(f, a % 2 == 1, b % 2 == 1) then 1 else 0)
  }

  lemma {:induction false} BitwiseSymmetric(f: BitOp, a: int, b: int)
    ensures Bitwise(f, a, b) == Bitwise(f, b, a)
    decreases Abs(a) + Abs(b)
  {
    if !(-1 <= a <= 0 && -1 <= b <= 0) {
      BitwiseSymmetric(f, a / 2, b / 2);
    }
  }

  /** Bit n of an integer in two's complement of unlimited width. */
  predicate BitAt(a: int, n: nat)
    decreases n
  {
    if n == 0 then a % 2 == 1 else BitAt(a / 2, n - 1)
  }

  lemma {:induction false} BitwiseBits(f: BitOp, a: int, b: int, n: nat)
    ensures BitAt(Bitwise(f, a, b), n) == Bit(f, BitAt(a, n), BitAt(b, n))
    decreases n
  {
    BitwiseHalves(f, a, b);
    if n != 0 {
      BitwiseBits(f, a / 2, b / 2, n - 1);
    }
  }

  lemma BitwiseHalves(f: BitOp, a: int, b: int)
    ensures Bitwise(f, a, b) / 2 == Bitwise(f, a / 2, b / 2)
    ensures (Bitwise(f, a, b) % 2 == 1) == Bit(f, a % 2 == 1, b % 2 == 1)
  {
    if -1 <= a <= 0 && -1 <= b <= 0 {
      assert a / 2 == a && b / 2 == b;
    }
  }

  lemma {:induction false} BitsDetermine(a: int, b: int)
    requires forall n: nat :: BitAt(a, n) == BitAt(b, n)
    ensures a == b
    decreases Abs(a) + Abs(b)
  {
    assert BitAt(a, 0) == BitAt(b, 0);
    if !(-1 <= a <= 0 && -1 <= b <= 0) {
      forall n: nat
        ensures BitAt(a / 2, n) == BitAt(b / 2, n)
      {
        assert BitAt(a, n + 1) == BitAt(b, n + 1);
      }
      BitsDetermine(a / 2, b / 2);
    }
  }

  /** -a - 1 is the integer with every bit of a turned over. */
  lemma {:induction false} ComplementBits(a: int, n: nat)
    ensures BitAt(-a - 1, n) <==> !BitAt(a, n)
    decreases n
  {
    assert (-a - 1) / 2 == -(a / 2) - 1;
    if n != 0 {
      ComplementBits(a / 2, n - 1);
    }
  }

  ghost predicate BitByBit(f: BitOp, a: int, b: int, c: int) {
    forall n: nat :: BitAt(c, n) == Bit(f, BitAt(a, n), BitAt(b, n))
  }

  /** The one integer whose every bit is the operation on the operands' bits. */
  lemma BitwiseExact(f: BitOp, a: int, b: int, c: int)
    ensures c == Bitwise(f, a, b) <==> BitByBit(f, a, b, c)
  {
    var d := Bitwise(f, a, b);
    forall n: nat
      ensures BitAt(d, n) == Bit(f, BitAt(a, n), BitAt(b, n))
    {
      BitwiseBits(f, a, b, n);
    }
    if BitByBit(f, a, b, c) {
      forall n: nat
        ensures BitAt(c, n) == BitAt(d, n)
      {
        assert BitAt(c, n) == Bit(f, BitAt(a, n), BitAt(b, n));
      }
      BitsDetermine(c, d);
    }
  }
}
