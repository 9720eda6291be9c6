/** Multi-limb natural numbers: the mpn inlines of gmp.h, over 32-bit limbs
    without nails.  A C pointer is an array (plus an offset where the source
    advances it); "same or separate" operands are equal or different arrays. */
module Limbs {

  import Words

  const B: nat := Words.WORD

  type Limb = Words.ULong

  /** x shifted up by n limbs: x times B to the power n. */
  function Scale(n: nat, x: int): int {
    if n == 0 then x else B * Scale(n - 1, x)
  }

  /** B to the power n. */
  function Pow(n: nat): int {
    Scale(n, 1)
  }

  /** The natural number a limb vector stands for, least significant limb first. */
  function Value(s: seq<Limb>): nat {
    if |s| == 0 then 0 else s[0] + B * Value(s[1..])
  }

  // ---------- the number system ----------

  lemma {:induction false} ScaleAdd(n: nat, x: int, y: int)
    ensures Scale(n, x + y) == Scale(n, x) + Scale(n, y)
  {
    if n != 0 {
      ScaleAdd(n - 1, x, y);
    }
  }

  lemma {:induction false} ScaleUp(n: nat, x: int)
    ensures Scale(n, B * x) == Scale(n + 1, x)
  {
    if n != 0 {
      ScaleUp(n - 1, x);
    }
  }

  lemma {:induction false} ScaleSign(n: nat, x: int)
    ensures Scale(n, -x) == -Scale(n, x)
    ensures 0 <= x ==> 0 <= Scale(n, x)
    ensures Scale(n, 0) == 0 && 0 < Pow(n)
  {
    if n != 0 {
      ScaleSign(n - 1, x);
    }
  }

  lemma {:induction false} ValueAppend(s: seq<Limb>, t: seq<Limb>)
    ensures Value(s + t) == Value(s) + Scale(|s|, Value(t))
  {
    if |s| == 0 {
      assert s + t == t;
    } else {
      ValueAppend(s[1..], t);
      assert (s + t)[1..] == s[1..] + t;
    }
  }

  lemma OneLimb(x: Limb)
    ensures Value([x]) == x
  {
    var none: seq<Limb> := [];
    assert [x][1..] == none && Value(none) == 0;
  }

  lemma ValueSnoc(s: seq<Limb>, x: Limb)
    ensures Value(s + [x]) == Value(s) + Scale(|s|, x)
  {
    ValueAppend(s, [x]);
    OneLimb(x);
  }

  lemma {:induction false} ValueBound(s: seq<Limb>)
    ensures Value(s) < Pow(|s|)
  {
    if |s| != 0 {
      ValueBound(s[1..]);
    }
  }

  lemma SameDigit(a: Limb, b: Limb, x: int, y: int)
    requires a + B * x == b + B * y
    ensures a == b && x == y
  {
    assert B * (x - y) == b - a;
    assert -1 < x - y < 1;
  }

  /** Limb vectors of one length are determined by their value, so a result
      known by value and length is known limb for limb. */
  lemma {:induction false} ValueInjective(s: seq<Limb>, t: seq<Limb>)
    requires |s| == |t| && Value(s) == Value(t)
    ensures s == t
  {
    if |s| != 0 {
      SameDigit(s[0], t[0], Value(s[1..]), Value(t[1..]));
      ValueInjective(s[1..], t[1..]);
      assert s == [s[0]] + s[1..] && t == [t[0]] + t[1..];
    }
  }

  lemma {:induction false} ValueZero(s: seq<Limb>)
    ensures Value(s) == 0 <==> forall i | 0 <= i < |s| :: s[i] == 0
  {
    if |s| != 0 {
      ValueZero(s[1..]);
      assert forall i | 1 <= i < |s| :: s[i] == s[1..][i - 1];
    }
  }

  /** The most significant differing limb decides the order. */
  lemma ValueOrder(s: seq<Limb>, t: seq<Limb>, i: nat)
    requires |s| == |t| && i < |s| && s[i + 1..] == t[i + 1..] && s[i] < t[i]
    ensures Value(s) < Value(t)
  {
    SplitAt(s, i);
    SplitAt(t, i);
    ValueBound(s[..i]);
    ScaleAdd(i, s[i] + 1, t[i] - s[i] - 1);
    ScaleAdd(i, s[i], 1);
    ScaleSign(i, t[i] - s[i] - 1);
  }

  lemma SplitAt(s: seq<Limb>, i: nat)
    requires i < |s|
    ensures Value(s) == Value(s[..i]) + Scale(i, s[i]) + Scale(i + 1, Value(s[i + 1..]))
  {
    assert s == s[..i + 1] + s[i + 1..] && s[..i + 1] == s[..i] + [s[i]];
    ValueAppend(s[..i + 1], s[i + 1..]);
    ValueSnoc(s[..i], s[i]);
  }

  lemma SplitTail(s: seq<Limb>, i: nat, n: nat)
    requires i <= n <= |s|
    ensures Value(s[..n]) == Value(s[..i]) + Scale(i, Value(s[i..n]))
  {
    assert s[..n] == s[..i] + s[i..n];
    ValueAppend(s[..i], s[i..n]);
  }

  // ---------- addition and subtraction ----------

  datatype Op = Plus | Minus

  /** y with the sign of the operation. */
  function Signed(op: Op, y: int): int {
    if op.Plus? then y else -y
  }

  /** What a carry (or borrow) out of n limbs is worth. */
  function CarryOut(op: Op, c: int, n: nat): int {
    if c == 0 then 0 else Signed(op, Pow(n))
  }

  /** The low limb of x op y, as the hardware leaves it. */
  function Low(op: Op, x: Limb, y: int): Limb {
    (x + Signed(op, y)) % B
  }

  /** The carry (or borrow) of x op y, for 0 <= y <= B. */
  function Carry(op: Op, x: Limb, y: int): int {
    if op.Plus? then (if x + y >= B then 1 else 0) else (if x < y then 1 else 0)
  }

  lemma LowCarry(op: Op, x: Limb, y: int)
    requires 0 <= y <= B
    ensures Low(op, x, y) + B * Signed(op, Carry(op, x, y)) == x + Signed(op, y)
  {
  }

  /** One more limb: the step of every carry loop in this module. */
  lemma ExtendSum(op: Op, w: seq<Limb>, wi: Limb, x: seq<Limb>, xi: Limb, y: int, yi: Limb, c: int, d: int)
    requires |w| == |x| && 0 <= c <= 1 && 0 <= d <= 1
    requires Value(w) + CarryOut(op, c, |w|) == Value(x) + Signed(op, y)
    requires wi + B * Signed(op, d) == xi + Signed(op, yi) + Signed(op, c)
    ensures Value(w + [wi]) + CarryOut(op, d, |w| + 1) == Value(x + [xi]) + Signed(op, y + Scale(|w|, yi))
  {
    ValueSnoc(w, wi);
    ValueSnoc(x, xi);
    var n := |w|;
    ScaleDigits(n, wi, xi, Signed(op, yi), Signed(op, c), Signed(op, d));
    ScaleSigned(op, n, yi);
    CarryScaled(op, c, n);
    CarryScaled(op, d, n + 1);
    AddUp(op, Value(w), Value(x), y, Scale(n, wi), Scale(n, xi), Scale(n, yi), CarryOut(op, c, n), CarryOut(op, d, n + 1));
  }

  lemma AddUp(op: Op, w: int, x: int, y: int, wi: int, xi: int, yi: int, c: int, d: int)
    requires w + c == x + Signed(op, y) && wi + d == xi + Signed(op, yi) + c
    ensures w + wi + d == x + xi + Signed(op, y + yi)
  {
  }

  lemma CarryScaled(op: Op, c: int, n: nat)
    requires 0 <= c <= 1
    ensures CarryOut(op, c, n) == Scale(n, Signed(op, c))
  {
    ScaleSign(n, c);
  }

  lemma ScaleDigits(n: nat, wi: int, xi: int, yi: int, c: int, d: int)
    requires wi + B * d == xi + yi + c
    ensures Scale(n, wi) + Scale(n + 1, d) == Scale(n, xi) + Scale(n, yi) + Scale(n, c)
  {
    ScaleAdd(n, wi, B * d);
    ScaleUp(n, d);
    ScaleAdd(n, xi + yi, c);
    ScaleAdd(n, xi, yi);
  }

  lemma ScaleSigned(op: Op, n: nat, y: int)
    ensures Scale(n, Signed(op, y)) == Signed(op, Scale(n, y))
    ensures y == 0 ==> Scale(n, y) == 0
  {
    ScaleSign(n, y);
  }

  lemma FirstLimb(op: Op, r: Limb, x: Limb, v: Limb, d: int)
    requires 0 <= d <= 1 && r + B * Signed(op, d) == x + Signed(op, v)
    ensures Value([r]) + CarryOut(op, d, 1) == Value([x]) + Signed(op, v)
  {
    OneLimb(r);
    OneLimb(x);
    assert CarryOut(op, d, 1) == B * Signed(op, d);
  }

  /** The low i limbs of w, with carry c, are the low i limbs of x op y. */
  ghost predicate SumTo(op: Op, w: seq<Limb>, x: seq<Limb>, y: int, i: nat, c: int)
    requires i <= |w| && i <= |x|
  {
    Value(w[..i]) + CarryOut(op, c, i) == Value(x[..i]) + Signed(op, y)
  }

  /** A carry moves on by one limb. */
  lemma SumStep(op: Op, w: seq<Limb>, wi: Limb, x: seq<Limb>, y: int, i: nat, c: int, d: int)
    requires i < |w| && i < |x| && 0 <= c <= 1 && 0 <= d <= 1
    requires SumTo(op, w, x, y, i, c) && wi + B * Signed(op, d) == x[i] + Signed(op, c)
    ensures SumTo(op, w[i := wi], x, y, i + 1, d)
  {
    ExtendSum(op, w[..i], wi, x[..i], x[i], y, 0, c, d);
    ScaleSign(i, 0);
    assert w[i := wi][..i + 1] == w[..i] + [wi] && x[..i + 1] == x[..i] + [x[i]];
  }

  lemma PairStep(op: Op, w: seq<Limb>, wi: Limb, x: seq<Limb>, y: seq<Limb>, i: nat, c: int, d: int)
    requires i < |w| && i < |x| && i < |y| && 0 <= c <= 1 && 0 <= d <= 1
    requires SumTo(op, w, x, Value(y[..i]), i, c)
    requires wi + B * Signed(op, d) == x[i] + Signed(op, y[i] + c)
    ensures SumTo(op, w[i := wi], x, Value(y[..i + 1]), i + 1, d)
  {
    ExtendSum(op, w[..i], wi, x[..i], x[i], Value(y[..i]), y[i], c, d);
    ValueSnoc(y[..i], y[i]);
    assert w[i := wi][..i + 1] == w[..i] + [wi];
    assert x[..i + 1] == x[..i] + [x[i]] && y[..i + 1] == y[..i] + [y[i]];
  }

  /** Once the carry is gone the remaining limbs are those of x. */
  lemma SumRest(op: Op, w: seq<Limb>, x: seq<Limb>, y: int, i: nat, n: nat)
    requires i <= n && n <= |w| && n <= |x|
    requires SumTo(op, w, x, y, i, 0) && w[i..n] == x[i..n]
    ensures SumTo(op, w, x, y, n, 0)
  {
    SplitTail(w, i, n);
    SplitTail(x, i, n);
  }

  /** mpn_add_n / mpn_sub_n: equal lengths, plain ripple. */
  method AorsN(op: Op, w: array<Limb>, x: array<Limb>, y: array<Limb>, n: nat) returns (c: int)
    requires n <= w.Length && n <= x.Length && n <= y.Length
    modifies w
    ensures 0 <= c <= 1
    ensures Value(w[..n]) + CarryOut(op, c, n) == old(Value(x[..n])) + Signed(op, old(Value(y[..n])))
    ensures forall j | n <= j < w.Length :: w[j] == old(w[j])
  {
    ghost var xs, ys := x[..], y[..];
    c := 0;
    for i := 0 to n
      invariant 0 <= c <= 1
      invariant SumTo(op, w[..], xs, Value(ys[..i]), i, c)
      invariant forall j | i <= j < x.Length :: x[j] == xs[j]
      invariant forall j | i <= j < y.Length :: y[j] == ys[j]
      invariant forall j | n <= j < w.Length :: w[j] == old(w[j])
    {
      ghost var before := w[..];
      var d := Carry(op, x[i], y[i] + c);
      LowCarry(op, x[i], y[i] + c);
      w[i] := Low(op, x[i], y[i] + c);
      PairStep(op, before, w[i], xs, ys, i, c, d);
      assert w[..] == before[i := w[i]];
      c := d;
    }
    assert w[..][..n] == w[..n] && xs[..n] == old(x[..n]) && ys[..n] == old(y[..n]);
  }

  /** __GMPN_COPY_REST: limbs start .. size of src, into dst. */
  method CopyRest(dst: array<Limb>, src: array<Limb>, size: nat, start: nat)
    requires start <= size <= dst.Length && size <= src.Length
    modifies dst
    ensures forall k | start <= k < size :: dst[k] == old(src[k])
    ensures forall k | 0 <= k < start || size <= k < dst.Length :: dst[k] == old(dst[k])
  {
    for j := start to size
      invariant forall k | 0 <= k < start || j <= k < dst.Length :: dst[k] == old(dst[k])
      invariant forall k | start <= k < j :: dst[k] == old(src[k])
      invariant forall k | j <= k < size :: src[k] == old(src[k])
    {
      dst[j] := src[j];
    }
  }

  /** The end of every carry chain: if (wp != xp) __GMPN_COPY_REST. */
  method CopyUnlessInPlace(op: Op, w: array<Limb>, x: array<Limb>, n: nat, start: nat, ghost xs: seq<Limb>, ghost y: int)
    requires start <= n && n <= w.Length && n <= x.Length && |xs| == x.Length
    requires SumTo(op, w[..], xs, y, start, 0) && forall j | start <= j < n :: x[j] == xs[j]
    modifies w
    ensures SumTo(op, w[..], xs, y, n, 0)
    ensures forall j | n <= j < w.Length :: w[j] == old(w[j])
  {
    ghost var before := w[..];
    if w != x {
      CopyRest(w, x, n, start);
    }
    assert w[..][..start] == before[..start];
    SumRest(op, w[..], xs, y, start, n);
  }

  /** The do-while of __GMPN_AORS: carry 1 into limb i and on, until a limb
      absorbs it or the limbs run out. */
  method Propagate(op: Op, w: array<Limb>, x: array<Limb>, xsize: nat, start: nat, ghost xs: seq<Limb>, ghost y: int)
    returns (i: nat, overflow: bool)
    requires start <= xsize && xsize <= w.Length && xsize <= x.Length && |xs| == x.Length
    requires SumTo(op, w[..], xs, y, start, 1) && forall j | start <= j < x.Length :: x[j] == xs[j]
    modifies w
    ensures start <= i <= xsize && (overflow ==> i == xsize)
    ensures SumTo(op, w[..], xs, y, i, if overflow then 1 else 0)
    ensures forall j | i <= j < x.Length :: x[j] == xs[j]
    ensures forall j | i <= j < w.Length :: w[j] == old(w[j])
  {
    i := start;
    var more := true;
    while more
      invariant start <= i <= xsize
      invariant SumTo(op, w[..], xs, y, i, if more then 1 else 0)
      invariant forall j | i <= j < x.Length :: x[j] == xs[j]
      invariant forall j | i <= j < w.Length :: w[j] == old(w[j])
      decreases xsize - i, more
    {
      if i >= xsize {
        return i, true;
      }
      ghost var before := w[..];
      var limb := x[i];
      w[i] := Low(op, limb, 1);
      more := if op.Plus? then w[i] == 0 else limb == 0;
      LowCarry(op, limb, 1);
      SumStep(op, before, w[i], xs, y, i, 1, if more then 1 else 0);
      assert w[..] == before[i := w[i]];
      i := i + 1;
    }
    overflow := false;
  }

  /** __GMPN_AORS: add or subtract a shorter number, propagate the carry only
      as far as it goes, and copy the rest unless the operation is in place. */
  method Aors(op: Op, w: array<Limb>, x: array<Limb>, xsize: nat, y: array<Limb>, ysize: nat) returns (cout: int)
    requires ysize <= xsize && xsize <= w.Length && xsize <= x.Length && ysize <= y.Length
    modifies w
    ensures 0 <= cout <= 1
    ensures Value(w[..xsize]) + CarryOut(op, cout, xsize) == old(Value(x[..xsize])) + Signed(op, old(Value(y[..ysize])))
    ensures forall j | xsize <= j < w.Length :: w[j] == old(w[j])
  {
    ghost var xs := x[..];
    ghost var yv := Value(y[..ysize]);
    var i := ysize;
    if i != 0 {
      var carry := AorsN(op, w, x, y, i);
      assert SumTo(op, w[..], xs, yv, i, carry) by {
        assert w[..][..i] == w[..i] && xs[..i] == old(x[..i]);
      }
      if carry != 0 {
        var overflow;
        i, overflow := Propagate(op, w, x, xsize, i, xs, yv);
        if overflow {
          assert w[..][..i] == w[..xsize] && xs[..i] == old(x[..xsize]);
          return 1;
        }
      }
    }
    CopyUnlessInPlace(op, w, x, xsize, i, xs, yv);
    assert w[..][..xsize] == w[..xsize] && xs[..xsize] == old(x[..xsize]);
    cout := 0;
  }

  /** mpn_add. */
  method Add(w: array<Limb>, x: array<Limb>, xsize: nat, y: array<Limb>, ysize: nat) returns (c: int)
    requires ysize <= xsize && xsize <= w.Length && xsize <= x.Length && ysize <= y.Length
    modifies w
    ensures 0 <= c <= 1
    ensures Value(w[..xsize]) + c * Pow(xsize) == old(Value(x[..xsize])) + old(Value(y[..ysize]))
    ensures forall j | xsize <= j < w.Length :: w[j] == old(w[j])
  {
    c := Aors(Plus, w, x, xsize, y, ysize);
  }

  /** mpn_sub. */
  method Sub(w: array<Limb>, x: array<Limb>, xsize: nat, y: array<Limb>, ysize: nat) returns (c: int)
    requires ysize <= xsize && xsize <= w.Length && xsize <= x.Length && ysize <= y.Length
    modifies w
    ensures 0 <= c <= 1
    ensures Value(w[..xsize]) - c * Pow(xsize) == old(Value(x[..xsize])) - old(Value(y[..ysize]))
    ensures forall j | xsize <= j < w.Length :: w[j] == old(w[j])
  {
    c := Aors(Minus, w, x, xsize, y, ysize);
  }

  /** The loop of __GMPN_AORS_1: carry 1 from limb 1 on; where a limb absorbs it,
      copy the rest and stop. */
  method Propagate1(op: Op, dst: array<Limb>, src: array<Limb>, n: nat, ghost xs: seq<Limb>, ghost v: int)
    returns (cout: int)
    requires 1 <= n && n <= dst.Length && n <= src.Length && |xs| == src.Length
    requires SumTo(op, dst[..], xs, v, 1, 1) && forall j | 1 <= j < src.Length :: src[j] == xs[j]
    modifies dst
    ensures 0 <= cout <= 1 && SumTo(op, dst[..], xs, v, n, cout)
    ensures forall j | n <= j < dst.Length :: dst[j] == old(dst[j])
  {
    var i := 1;
    while i < n
      invariant 1 <= i <= n
      invariant SumTo(op, dst[..], xs, v, i, 1)
      invariant forall j | i <= j < src.Length :: src[j] == xs[j]
      invariant forall j | n <= j < dst.Length :: dst[j] == old(dst[j])
    {
      ghost var before := dst[..];
      var x := src[i];
      var r := Low(op, x, 1);
      dst[i] := r;
      LowCarry(op, x, 1);
      var cb := if op.Plus? then r < 1 else x < 1;
      SumStep(op, before, r, xs, v, i, 1, if cb then 1 else 0);
      assert dst[..] == before[i := r];
      i := i + 1;
      if !cb {
        CopyUnlessInPlace(op, dst, src, n, i, xs, v);
        return 0;
      }
    }
    cout := 1;
  }

  /** __GMPN_AORS_1: add or subtract one limb, with the wrap-around tests
      r < v (addition) and x < v (subtraction) deciding the carry. */
  method Aors1(op: Op, dst: array<Limb>, src: array<Limb>, n: nat, v: Limb) returns (cout: int)
    requires 1 <= n && n <= dst.Length && n <= src.Length
    modifies dst
    ensures 0 <= cout <= 1
    ensures Value(dst[..n]) + CarryOut(op, cout, n) == old(Value(src[..n])) + Signed(op, v)
    ensures forall j | n <= j < dst.Length :: dst[j] == old(dst[j])
  {
    ghost var xs := src[..];
    var x: Limb := src[0];
    var r: Limb := Low(op, x, v);
    dst[0] := r;
    LowCarry(op, x, v);
    var cb := if op.Plus? then r < v else x < v;
    var d := if cb then 1 else 0;
    assert SumTo(op, dst[..], xs, v, 1, d) by {
      FirstLimb(op, r, x, v, d);
      assert dst[..][..1] == [r] && xs[..1] == [x];
    }
    if cb {
      cout := Propagate1(op, dst, src, n, xs, v);
    } else {
      CopyUnlessInPlace(op, dst, src, n, 1, xs, v);
      cout := 0;
    }
    assert SumTo(op, dst[..], xs, v, n, cout);
    assert dst[..][..n] == dst[..n] && xs[..n] == old(src[..n]);
  }

  /** mpn_add_1. */
  method Add1(dst: array<Limb>, src: array<Limb>, n: nat, v: Limb) returns (c: int)
    requires 1 <= n && n <= dst.Length && n <= src.Length
    modifies dst
    ensures 0 <= c <= 1
    ensures Value(dst[..n]) + c * Pow(n) == old(Value(src[..n])) + v
    ensures forall j | n <= j < dst.Length :: dst[j] == old(dst[j])
  {
    c := Aors1(Plus, dst, src, n, v);
  }

  /** mpn_sub_1. */
  method Sub1(dst: array<Limb>, src: array<Limb>, n: nat, v: Limb) returns (c: int)
    requires 1 <= n && n <= dst.Length && n <= src.Length
    modifies dst
    ensures 0 <= c <= 1
    ensures Value(dst[..n]) - c * Pow(n) == old(Value(src[..n])) - v
    ensures forall j | n <= j < dst.Length :: dst[j] == old(dst[j])
  {
    c := Aors1(Minus, dst, src, n, v);
  }

  // ---------- comparison ----------

  /** __GMPN_CMP: scan from the top limb. */
  method Cmp(x: array<Limb>, y: array<Limb>, size: nat) returns (result: int)
    requires size <= x.Length && size <= y.Length
    ensures result == 1 || result == 0 || result == -1
    ensures 0 < result <==> Value(x[..size]) > Value(y[..size])
    ensures result < 0 <==> Value(x[..size]) < Value(y[..size])
  {
    result := 0;
    var i := size - 1;
    while i >= 0
      invariant -1 <= i < size && result == 0
      invariant x[i + 1..size] == y[i + 1..size]
      decreases i
    {
      if x[i] != y[i] {
        result := if x[i] > y[i] then 1 else -1;
        if x[i] > y[i] {
          ValueOrder(y[..size], x[..size], i);
        } else {
          ValueOrder(x[..size], y[..size], i);
        }
        return;
      }
      assert x[i..size] == [x[i]] + x[i + 1..size] && y[i..size] == [y[i]] + y[i + 1..size];
      i := i - 1;
    }
  }

  /** mpn_zero_p. */
  method ZeroP(p: array<Limb>, n: nat) returns (zero: bool)
    requires 1 <= n <= p.Length
    ensures zero <==> Value(p[..n]) == 0
  {
    ValueZero(p[..n]);
    var k := n - 1;
    while p[k] == 0
      invariant 0 <= k < n
      invariant forall j | k < j < n :: p[j] == 0
      decreases k
    {
      if k == 0 {
        return true;
      }
      k := k - 1;
    }
    return false;
  }

  // ---------- negation ----------

  /** mpn_com on rp + off, up + off: complement n limbs. */
  method Com(r: array<Limb>, u: array<Limb>, off: nat, n: nat)
    requires off + n <= r.Length && off + n <= u.Length
    modifies r
    ensures r[..off] == old(r[..off]) && r[off + n..] == old(r[off + n..])
    ensures forall j | off <= j < off + n :: r[j] == B - 1 - old(u[j])
  {
    for i := off to off + n
      invariant r[..off] == old(r[..off]) && r[i..] == old(r[i..])
      invariant forall j | off <= j < i :: r[j] == B - 1 - old(u[j])
      invariant forall j | i <= j < off + n :: u[j] == old(u[j])
    {
      r[i] := B - 1 - u[i];
    }
  }

  /** Two's complement of the limbs above a nonzero limb. */
  lemma {:induction false} ComplementValue(r: seq<Limb>, u: seq<Limb>)
    requires |r| == |u| && forall j | 0 <= j < |r| :: r[j] == B - 1 - u[j]
    ensures Value(r) == Pow(|u|) - 1 - Value(u)
  {
    if |r| != 0 {
      ComplementValue(r[1..], u[1..]);
    }
  }

  /** mpn_neg: low zero limbs stay, the first nonzero one is negated, the rest
      are complemented. */
  method Neg(r: array<Limb>, u: array<Limb>, n: nat) returns (c: int)
    requires 1 <= n && n <= r.Length && n <= u.Length
    modifies r
    ensures c == 0 || c == 1
    ensures Value(r[..n]) == c * Pow(n) - old(Value(u[..n]))
    ensures c == 0 <==> old(Value(u[..n])) == 0
    ensures r[n..] == old(r[n..])
  {
    ghost var us := u[..n];
    var k, left := 0, n;
    while u[k] == 0
      invariant 0 <= k < n && left == n - k
      invariant forall j | 0 <= j < k :: us[j] == 0 && r[j] == 0
      invariant forall j | k <= j < n :: u[j] == us[j]
      invariant r[n..] == old(r[n..])
      decreases n - k
    {
      r[k] := 0;
      left := left - 1;
      if left == 0 {
        ValueZero(us);
        ValueZero(r[..n]);
        return 0;
      }
      k := k + 1;
    }
    r[k] := (-u[k]) % B;
    left := left - 1;
    if left != 0 {
      Com(r, u, k + 1, left);
    }
    NegatedValue(r[..n], us, k);
    c := 1;
  }

  lemma {:induction false} NegatedValue(r: seq<Limb>, u: seq<Limb>, k: nat)
    requires |r| == |u| && k < |u| && u[k] != 0
    requires forall j | 0 <= j < k :: u[j] == 0 && r[j] == 0
    requires r[k] == B - u[k]
    requires forall j | k < j < |u| :: r[j] == B - 1 - u[j]
    ensures Value(r) == Pow(|u|) - Value(u) && Value(u) != 0
  {
    if k == 0 {
      ComplementValue(r[1..], u[1..]);
    } else {
      NegatedValue(r[1..], u[1..], k - 1);
    }
  }

  // ---------- what the operations undo ----------

  /** For limb vectors of one length, w with carry c the sum of x and y, and
      v with borrow b the difference of w and y: subtracting undoes adding,
      and the borrow is the carry. */
  lemma SubUndoesAdd(x: seq<Limb>, y: nat, w: seq<Limb>, c: int, v: seq<Limb>, b: int)
    requires |w| == |x| == |v| && 0 <= c <= 1 && 0 <= b <= 1
    requires Value(w) + c * Pow(|x|) == Value(x) + y
    requires Value(v) - b * Pow(|x|) == Value(w) - y
    ensures v == x && b == c
  {
    ValueBound(x);
    ValueBound(v);
    SameCarry(Value(x), Value(v), Pow(|x|), b, c);
    ValueInjective(v, x);
  }

  lemma SameCarry(x: int, v: int, p: int, b: int, c: int)
    requires 0 <= x < p && 0 <= v < p && 0 <= b <= 1 && 0 <= c <= 1
    requires v - b * p == x - c * p
    ensures v == x && b == c
  {
  }

  /** mpn_neg twice is the identity, with the same return value. */
  lemma NegTwice(u: seq<Limb>, r: seq<Limb>, c: int, v: seq<Limb>, d: int)
    requires |u| == |r| == |v|
    requires (c == 0 || c == 1) && (d == 0 || d == 1)
    requires Value(r) == c * Pow(|u|) - Value(u) && (c == 0 <==> Value(u) == 0)
    requires Value(v) == d * Pow(|u|) - Value(r) && (d == 0 <==> Value(r) == 0)
    ensures v == u && d == c
  {
    ValueBound(u);
    ValueBound(r);
    NegTwiceArith(Value(u), Value(r), Value(v), c, d, Pow(|u|));
    ValueInjective(v, u);
  }

  lemma NegTwiceArith(u: int, r: int, v: int, c: int, d: int, p: int)
    requires 0 <= u < p && 0 <= r < p && (c == 0 || c == 1) && (d == 0 || d == 1)
    requires r == c * p - u && (c == 0 <==> u == 0) && v == d * p - r && (d == 0 <==> r == 0)
    ensures v == u && d == c
  {
  }

  /** Adding and then subtracting the same number in place leaves every limb
      as it was. */
  method AddThenSub(w: array<Limb>, n: nat, y: array<Limb>, ysize: nat) returns (carry: int, borrow: int)
    requires ysize <= n <= w.Length && ysize <= y.Length && y != w
    modifies w
    ensures w[..] == old(w[..]) && carry == borrow
  {
    ghost var x := w[..n];
    carry := Add(w, w, n, y, ysize);
    ghost var sum := w[..n];
    borrow := Sub(w, w, n, y, ysize);
    SubUndoesAdd(x, Value(y[..ysize]), sum, carry, w[..n], borrow);
    assert w[..] == w[..n] + w[n..];
  }
}
