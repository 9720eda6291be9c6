/** The sign-magnitude representation of mpz_t: |size| limbs, the sign of the
    number on the size field, and the mpz inlines of gmp.h that read or write
    the fields directly. */
module MpzLimbs {
  import opened Words
  import opened Limbs
  import Integers

  /** The integer a size field and its limbs stand for. */
  ghost function SignedValue(size: int, limbs: seq<Limb>): int {
    if size < 0 then 0 - Value(limbs) else Value(limbs)
  }

  /** No leading zero limb, and as many limbs as the size says. */
  ghost predicate Normal(size: int, limbs: seq<Limb>) {
    |limbs| == Abs(size) && (size != 0 ==> limbs[|limbs| - 1] != 0)
  }

  lemma LowLimb(s: seq<Limb>)
    requires 0 < |s|
    ensures Value(s) % B == s[0]
  {
  }

  /** A nonzero top limb makes the number at least as large as its place. */
  lemma {:induction false} TopLimb(s: seq<Limb>)
    requires 0 < |s| && s[|s| - 1] != 0
    ensures Pow(|s| - 1) <= Value(s)
  {
    if |s| != 1 {
      TopLimb(s[1..]);
    }
  }

  lemma {:induction false} PowGrows(m: nat, n: nat)
    requires m <= n
    ensures 0 < Pow(m) <= Pow(n)
  {
    ScaleSign(m, 1);
    if m != n {
      PowGrows(m, n - 1);
    }
  }

  /** Among normalised vectors a longer one is larger. */
  lemma LongerIsLarger(s: seq<Limb>, t: seq<Limb>)
    requires |s| < |t| && t[|t| - 1] != 0
    ensures Value(s) < Value(t)
  {
    ValueBound(s);
    TopLimb(t);
    PowGrows(|s|, |t| - 1);
  }

  /** Every integer has exactly one normalised representation. */
  lemma NormalUnique(m: int, s: seq<Limb>, n: int, t: seq<Limb>)
    requires Normal(m, s) && Normal(n, t)
    ensures SignedValue(m, s) == SignedValue(n, t) <==> m == n && s == t
  {
    NormalSign(m, s);
    NormalSign(n, t);
    if SignedValue(m, s) == SignedValue(n, t) {
      if |s| < |t| {
        LongerIsLarger(s, t);
      } else if |t| < |s| {
        LongerIsLarger(t, s);
      } else {
        ValueInjective(s, t);
      }
    }
  }

  lemma NormalSign(n: int, s: seq<Limb>)
    requires Normal(n, s)
    ensures Sgn(SignedValue(n, s)) == Sgn(n)
  {
    if n != 0 {
      TopLimb(s);
      ScaleSign(|s| - 1, 1);
    }
  }

  /** __GMPZ_FITS_UTYPE_P reads one limb and the size; that decides whether the
      number lies in 0 .. maxval. */
  lemma FitsDecided(n: int, s: seq<Limb>, maxval: Limb)
    requires Normal(n, s)
    ensures n == 0 || (n == 1 && s[0] <= maxval) <==> 0 <= SignedValue(n, s) <= maxval
  {
    NormalSign(n, s);
    if n == 1 {
      assert s == [s[0]] && Value(s) == s[0];
    } else if 1 < n {
      TopLimb(s);
      PowGrows(1, n - 1);
      assert Pow(1) == B;
    }
  }

  class MpzStruct {
    var size: int
    var d: array<Limb>

    ghost predicate Valid()
      reads this, d
    {
      1 <= d.Length && Abs(size) <= d.Length && Normal(size, d[..Abs(size)])
    }

    ghost function Int(): int
      requires Valid()
      reads this, d
    {
      SignedValue(size, d[..Abs(size)])
    }

    constructor ()
      ensures Valid() && fresh(d) && Int() == 0
    {
      size := 0;
      d := new Limb[1];
    }

    /** __mpz_set_ui_safe. */
    method SetUISafe(l: ULong)
      requires 1 <= d.Length
      modifies this`size, d
      ensures Valid() && Int() == l
    {
      size := if l != 0 then 1 else 0;
      d[0] := l;
      assert d[..1] == [l] && Value(d[..1]) == l;
    }

    /** __mpz_set_si_safe, exact on every long. */
    method SetSISafe(l: Long)
      requires 1 <= d.Length
      modifies this`size, d
      ensures Valid() && Int() == l
    {
      UnsignedCast(l);
      if l < 0 {
        SetUISafe(NegULong(ToULong(l)));
        size := -size;
      } else {
        SetUISafe(ToULong(l));
      }
    }

    /** mpz_set: out-of-line, copies the limbs. */
    method Set(u: MpzStruct)
      requires u.Valid()
      modifies this
      ensures Valid() && Int() == old(u.Int())
      ensures this != u ==> fresh(d)
      ensures this == u ==> d == old(d) && d[..] == old(d[..])
    {
      if this != u {
        var limbs := new Limb[u.d.Length];
        CopyRest(limbs, u.d, u.d.Length, 0);
        assert limbs[..Abs(u.size)] == u.d[..Abs(u.size)];
        d := limbs;
        size := u.size;
      }
    }

    /** mpz_neg. */
    method Neg(u: MpzStruct)
      requires u.Valid()
      modifies this
      ensures Valid() && Int() == -old(u.Int())
    {
      if this != u {
        Set(u);
      }
      ghost var limbs := d[..Abs(size)];
      size := -size;
      assert d[..Abs(size)] == limbs;
    }

    /** mpz_abs. */
    method Absolute(u: MpzStruct)
      requires u.Valid()
      modifies this
      ensures Valid() && Int() == Abs(old(u.Int()))
    {
      if this != u {
        Set(u);
      }
      NormalSign(size, d[..Abs(size)]);
      size := Abs(size);
      NormalSign(size, d[..Abs(size)]);
    }

    /** mpz_fits_ulong_p, mpz_fits_uint_p, mpz_fits_ushort_p. */
    method FitsUTypeP(maxval: Limb) returns (fits: bool)
      requires Valid()
      ensures fits <==> 0 <= Int() <= maxval
    {
      FitsDecided(size, d[..Abs(size)], maxval);
      fits := size == 0 || (size == 1 && d[0] <= maxval);
    }

    method FitsULongP() returns (fits: bool)
      requires Valid()
      ensures fits <==> Integers.FitsULong(Int())
    {
      fits := FitsUTypeP(WORD - 1);
    }

    /** mpz_get_ui: the low limb of the magnitude. */
    method GetUI() returns (l: ULong)
      requires Valid()
      ensures l == Integers.GetUI(Int())
    {
      l := d[0];
      if size != 0 {
        LowLimb(d[..Abs(size)]);
        assert Abs(Int()) == Value(d[..Abs(size)]);
      } else {
        l := 0;
      }
    }

    /** Set then get restores every word. */
    method SetThenGet(l: ULong) returns (fits: bool, back: ULong)
      requires 1 <= d.Length
      modifies this`size, d
      ensures fits && back == l
    {
      SetUISafe(l);
      fits := FitsULongP();
      back := GetUI();
    }
  }
}
