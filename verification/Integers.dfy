/** mpz variables and the mpz overloads of the function objects of gmpxx.h.
    A variable is a heap cell; a pointer parameter may be the same cell as
    another one.  The out-of-line mpz functions are single assignments: they
    read all their operands before they write. */
module Integers {
  import opened Words

  class Mpz {
    var v: int

    constructor (v: int)
      ensures this.v == v
    {
      this.v := v;
    }
  }

  datatype Op = Plus | Minus | Times | Div | Mod | And | Ior | Xor

  predicate Defined(op: Op, b: int) {
    op.Div? || op.Mod? ==> b != 0
  }

  /** The mathematical operation. */
  function Apply(op: Op, a: int, b: int): int
    requires Defined(op, b)
  {
    match op
    case Plus => a + b
    case Minus => a - b
    case Times => a * b
    case Div => TQuot(a, b)
    case Mod => TRem(a, b)
    case And => Bitwise(BitsAnd, a, b)
    case Ior => Bitwise(BitsIor, a, b)
    case Xor => Bitwise(BitsXor, a, b)
  }

  /** Each bitwise operator is its own connective on every bit. */
  lemma ApplyBits(a: int, b: int, n: nat)
    ensures BitAt(Apply(And, a, b), n) <==> BitAt(a, n) && BitAt(b, n)
    ensures BitAt(Apply(Ior, a, b), n) <==> BitAt(a, n) || BitAt(b, n)
    ensures BitAt(Apply(Xor, a, b), n) <==> BitAt(a, n) != BitAt(b, n)
  {
    BitwiseBits(BitsAnd, a, b, n);
    BitwiseBits(BitsIor, a, b, n);
    BitwiseBits(BitsXor, a, b, n);
  }

  /** A machine-word operand.  What the compiler sees, and the code branches on
      (__builtin_constant_p): `known`, that the word is a constant; `signKnown`,
      that the comparisons of a signed word with zero are. */
  datatype Word = U(u: ULong, known: bool) | S(s: Long, known: bool, signKnown: bool) {
    function Int(): int {
      if U? then u else s
    }
  }

  /** Word op integer is undefined on a zero divisor and where the native
      signed division overflows. */
  predicate WordDefined(op: Op, l: Word, b: int) {
    op.Div? || op.Mod? ==> b != 0 && !(l.S? && l.s == LONG_MIN && b == -1)
  }

  /** mpz_fits_ulong_p and mpz_get_ui on values; module MpzLimbs derives them
      from the limb representation. */
  predicate FitsULong(v: int) {
    0 <= v < WORD
  }

  predicate FitsSLong(v: int) {
    IsLong(v)
  }

  /** mpz_get_si, of an integer that fits. */
  function GetSI(v: int): Long
    requires FitsSLong(v)
  {
    v
  }

  /** Word op integer is defined exactly when the divisor is not zero and the
      native operation, on the path that reaches it, is defined. */
  lemma WordDefinedExactly(op: Op, l: Word, b: int)
    requires op.Div? || op.Mod?
    ensures WordDefined(op, l, b) <==>
      b != 0 && (l.S? && FitsSLong(b) ==> NativeDefined(l.s, GetSI(b)))
  {
    if b != 0 && l.S? {
      QuotientIsLong(l.s, b);
    }
  }

  function GetUI(v: int): ULong {
    Abs(v) % WORD
  }

  // ---------- plus ----------

  method PlusZU(z: Mpz, w: Mpz, l: ULong, known: bool)
    modifies z
    ensures z.v == old(w.v) + l
  {
    if known && l == 0 {
      if z != w {
        z.v := w.v;
      }
    } else {
      z.v := w.v + l;
    }
  }

  method PlusZS(z: Mpz, w: Mpz, l: Long, known: bool)
    modifies z
    ensures z.v == old(w.v) + l
  {
    UnsignedCast(l);
    if l >= 0 {
      PlusZU(z, w, ToULong(l), known);
    } else {
      z.v := w.v - NegULong(ToULong(l));
    }
  }

  // ---------- minus ----------

  method MinusZU(z: Mpz, w: Mpz, l: ULong, known: bool)
    modifies z
    ensures z.v == old(w.v) - l
  {
    if known && l == 0 {
      if z != w {
        z.v := w.v;
      }
    } else {
      z.v := w.v - l;
    }
  }

  method MinusUZ(z: Mpz, l: ULong, w: Mpz, known: bool)
    modifies z
    ensures z.v == l - old(w.v)
  {
    if known && l == 0 {
      z.v := -w.v;
    } else {
      z.v := l - w.v;
    }
  }

  method MinusZS(z: Mpz, w: Mpz, l: Long, known: bool)
    modifies z
    ensures z.v == old(w.v) - l
  {
    UnsignedCast(l);
    if l >= 0 {
      MinusZU(z, w, ToULong(l), known);
    } else {
      z.v := w.v + NegULong(ToULong(l));
    }
  }

  method MinusSZ(z: Mpz, l: Long, w: Mpz, known: bool)
    modifies z
    ensures z.v == l - old(w.v)
  {
    UnsignedCast(l);
    if l >= 0 {
      MinusUZ(z, ToULong(l), w, known);
    } else {
      z.v := w.v + NegULong(ToULong(l));
      z.v := -z.v;
    }
  }

  // ---------- shifts and multiplication ----------

  method LShift(z: Mpz, w: Mpz, n: nat, known: bool)
    modifies z
    ensures z.v == old(w.v) * Pow2(n)
  {
    if known && n == 0 {
      if z != w {
        z.v := w.v;
      }
    } else {
      z.v := w.v * Pow2(n);
    }
  }

  method RShift(z: Mpz, w: Mpz, n: nat, known: bool)
    modifies z
    ensures z.v == FloorShift(old(w.v), n)
  {
    if known && n == 0 {
      if z != w {
        z.v := w.v;
      }
    } else {
      z.v := FloorShift(w.v, n);
    }
  }

  method TimesZU(z: Mpz, w: Mpz, l: ULong, known: bool)
    modifies z
    ensures z.v == old(w.v) * l
  {
    if known && PowerOfTwoTest(l) {
      if l == 0 {
        z.v := 0;
      } else {
        PowerOfTwoShift(l);
        LShift(z, w, Ctz(l), known);
      }
    } else {
      z.v := w.v * l;
    }
  }

  method TimesZS(z: Mpz, w: Mpz, l: Long, known: bool, signKnown: bool)
    modifies z
    ensures z.v == old(w.v) * l
  {
    UnsignedCast(l);
    if signKnown && l >= 0 {
      TimesZU(z, w, ToULong(l), known);
    } else if signKnown && l <= 0 {
      TimesZU(z, w, NegULong(ToULong(l)), known);
      z.v := -z.v;
      assert old(w.v) * (0 - l) == -(old(w.v) * l);
    } else {
      z.v := w.v * l;
    }
  }

  // ---------- truncated division ----------

  method DivZU(z: Mpz, w: Mpz, l: ULong, known: bool)
    requires l != 0
    modifies z
    ensures z.v == TQuot(old(w.v), l)
  {
    if known && PowerOfTwoTest(l) && l != 0 {
      if l == 1 {
        if z != w {
          z.v := w.v;
        }
      } else {
        TruncShiftDivides(w.v, l);
        z.v := TruncShift(w.v, Ctz(l));
      }
    } else {
      z.v := TQuot(w.v, l);
    }
  }

  method DivUZ(z: Mpz, l: ULong, w: Mpz)
    requires w.v != 0
    modifies z
    ensures z.v == TQuot(l, old(w.v))
  {
    UnsignedDividend(l, w.v);
    if w.v >= 0 {
      if FitsULong(w.v) {
        z.v := l / GetUI(w.v);
      } else {
        z.v := 0;
      }
    } else {
      z.v := -w.v;
      if FitsULong(z.v) {
        z.v := l / GetUI(z.v);
        z.v := -z.v;
      } else {
        z.v := 0;
      }
    }
  }

  method DivZS(z: Mpz, w: Mpz, l: Long, known: bool)
    requires l != 0
    modifies z
    ensures z.v == TQuot(old(w.v), l)
  {
    UnsignedCast(l);
    if l >= 0 {
      DivZU(z, w, ToULong(l), known);
    } else {
      TQuotNegDivisor(w.v, l);
      DivZU(z, w, NegULong(ToULong(l)), known);
      z.v := -z.v;
    }
  }

  method DivSZ(z: Mpz, l: Long, w: Mpz)
    requires w.v != 0 && !(l == LONG_MIN && w.v == -1)
    modifies z
    ensures z.v == TQuot(l, old(w.v))
  {
    if FitsSLong(w.v) {
      QuotientIsLong(l, w.v);
      z.v := NativeDiv(l, GetSI(w.v));
    } else {
      SignedDividend(l, w.v);
      z.v := if Abs(w.v) == AbsUI(l) then -1 else 0;
    }
  }

  method ModUZ(z: Mpz, l: ULong, w: Mpz)
    requires w.v != 0
    modifies z
    ensures z.v == TRem(l, old(w.v))
  {
    UnsignedDividend(l, w.v);
    if w.v >= 0 {
      if FitsULong(w.v) {
        z.v := l % GetUI(w.v);
      } else {
        z.v := l;
      }
    } else {
      z.v := -w.v;
      if FitsULong(z.v) {
        z.v := l % GetUI(z.v);
      } else {
        z.v := l;
      }
    }
  }

  method ModZS(z: Mpz, w: Mpz, l: Long)
    requires l != 0
    modifies z
    ensures z.v == TRem(old(w.v), l)
  {
    TQuotNegDivisor(w.v, l);
    z.v := TRem(w.v, AbsUI(l));
  }

  method ModSZ(z: Mpz, l: Long, w: Mpz)
    requires w.v != 0 && !(l == LONG_MIN && w.v == -1)
    modifies z
    ensures z.v == TRem(l, old(w.v))
  {
    if FitsSLong(w.v) {
      QuotientIsLong(l, w.v);
      z.v := NativeRem(l, GetSI(w.v));
    } else {
      SignedDividend(l, w.v);
      z.v := if Abs(w.v) == AbsUI(l) then 0 else l;
    }
  }

  // ---------- bitwise operations ----------

  predicate IsBitwise(op: Op) {
    op.And? || op.Ior? || op.Xor?
  }

  /** With a word, through a temporary integer. */
  method BitsZW(op: Op, z: Mpz, w: Mpz, l: Word)
    requires IsBitwise(op)
    modifies z
    ensures z.v == Apply(op, old(w.v), l.Int())
  {
    var temp := l.Int();
    z.v := Apply(op, w.v, temp);
  }

  method BitsWZ(op: Op, z: Mpz, l: Word, w: Mpz)
    requires IsBitwise(op)
    modifies z
    ensures z.v == Apply(op, l.Int(), old(w.v))
  {
    BitwiseSymmetric(if op.And? then BitsAnd else if op.Ior? then BitsIor else BitsXor, l.Int(), w.v);
    BitsZW(op, z, w, l);
  }

  // ---------- overload resolution ----------

  method EvalZZ(op: Op, z: Mpz, w: Mpz, v: Mpz)
    requires Defined(op, v.v)
    modifies z
    ensures z.v == Apply(op, old(w.v), old(v.v))
  {
    z.v := Apply(op, w.v, v.v);
  }

  method EvalZW(op: Op, z: Mpz, w: Mpz, l: Word)
    requires Defined(op, l.Int())
    modifies z
    ensures z.v == Apply(op, old(w.v), l.Int())
  {
    match (op, l)
    case (Plus, U(u, k)) => PlusZU(z, w, u, k);
    case (Plus, S(s, k, _)) => PlusZS(z, w, s, k);
    case (Minus, U(u, k)) => MinusZU(z, w, u, k);
    case (Minus, S(s, k, _)) => MinusZS(z, w, s, k);
    case (Times, U(u, k)) => TimesZU(z, w, u, k);
    case (Times, S(s, k, g)) => TimesZS(z, w, s, k, g);
    case (Div, U(u, k)) => DivZU(z, w, u, k);
    case (Div, S(s, k, _)) => DivZS(z, w, s, k);
    case (Mod, U(u, _)) => z.v := TRem(w.v, u);
    case (Mod, S(s, _, _)) => ModZS(z, w, s);
    case _ => BitsZW(op, z, w, l);
  }

  method EvalWZ(op: Op, z: Mpz, l: Word, w: Mpz)
    requires WordDefined(op, l, w.v)
    modifies z
    ensures z.v == Apply(op, l.Int(), old(w.v))
  {
    match (op, l)
    case (Plus, U(u, k)) => PlusZU(z, w, u, k);
    case (Plus, S(s, k, _)) => PlusZS(z, w, s, k);
    case (Minus, U(u, k)) => MinusUZ(z, u, w, k);
    case (Minus, S(s, k, _)) => MinusSZ(z, s, w, k);
    case (Times, U(u, k)) => TimesZU(z, w, u, k);
    case (Times, S(s, k, g)) => TimesZS(z, w, s, k, g);
    case (Div, U(u, _)) => DivUZ(z, u, w);
    case (Div, S(s, _, _)) => DivSZ(z, s, w);
    case (Mod, U(u, _)) => ModUZ(z, u, w);
    case (Mod, S(s, _, _)) => ModSZ(z, s, w);
    case _ => BitsWZ(op, z, l, w);
  }
}
