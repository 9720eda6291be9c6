/** base64_encode of nan/nan_string_bytes.h, against RFC 4648.
    Bytes are numbers below 256: x >> k is x / 2^k, x & (2^k - 1) is x % 2^k,
    and the | of parts with no bit in common is their sum. */
module Base64 {
  import opened Bytes
  import opened Options

  const PAD := '='

  function Upper(): string { "ABCDEFGH" + "IJKLMNOP" + "QRSTUVWXYZ" }
  function Lower(): string { "abcdefgh" + "ijklmnop" + "qrstuvwxyz" }
  function Other(): string { "0123456789" + "+/" }

  /** An alphabet of 64 characters; the one the source uses is that of table 1
      of RFC 4648. */
  type Alphabet = t: seq<char> | |t| == 64 witness seq(64, _ => PAD)

  function Table(): Alphabet { Upper() + Lower() + Other() }

  // ---------- the standard: 24-bit groups of four sextets ----------

  /** Section 4 of RFC 4648: three bytes side by side form a 24-bit group. */
  function Group(a: Byte, b: Byte, c: Byte): nat {
    256 * (256 * a + b) + c
  }

  type Sextet = x: int | 0 <= x < 64

  function Sextets(g: nat): (Sextet, Sextet, Sextet, Sextet)
    requires g < 16777216
  {
    (g / 64 / 64 / 64, g / 64 / 64 % 64, g / 64 % 64, g % 64)
  }

  /** One group; a short one is completed with zero bits and padding. */
  function EncodeBlock(t: Alphabet, block: seq<Byte>): (quad: seq<char>)
    ensures block != [] ==> |quad| == 4
  {
    if block == [] then []
    else if |block| == 1 then
      var q := Sextets(Group(block[0], 0, 0));
      [t[q.0], t[q.1], PAD, PAD]
    else if |block| == 2 then
      var q := Sextets(Group(block[0], block[1], 0));
      [t[q.0], t[q.1], t[q.2], PAD]
    else
      var q := Sextets(Group(block[0], block[1], block[2]));
      [t[q.0], t[q.1], t[q.2], t[q.3]]
  }

  function Coder(t: Alphabet): seq<Byte> -> seq<char> {
    block => EncodeBlock(t, block)
  }

  /** A text made from three bytes at a time. */
  function ByThrees(code: seq<Byte> -> seq<char>, s: seq<Byte>): seq<char>
    decreases |s|
  {
    if s == [] then []
    else if |s| <= 3 then code(s)
    else code(s[..3]) + ByThrees(code, s[3..])
  }

  function Encode(t: Alphabet, s: seq<Byte>): seq<char> {
    ByThrees(Coder(t), s)
  }

  // ---------- a reference decoder ----------

  function SextetOf(c: char): Option<Sextet> {
    if 'A' <= c <= 'Z' then Some(c as int - 'A' as int)
    else if 'a' <= c <= 'z' then Some(c as int - 'a' as int + 26)
    else if '0' <= c <= '9' then Some(c as int - '0' as int + 52)
    else if c == '+' then Some(62)
    else if c == '/' then Some(63)
    else None
  }

  function Ungroup(w: Sextet, x: Sextet, y: Sextet, z: Sextet): nat {
    64 * (64 * (64 * w + x) + y) + z
  }

  /** One quadruple; only the last one may be padded, and then its unused bits
      are zero. */
  function DecodeQuad(c0: char, c1: char, c2: char, c3: char, last: bool): Option<seq<Byte>> {
    var w, x, y, z := SextetOf(c0), SextetOf(c1), SextetOf(c2), SextetOf(c3);
    if w.None? || x.None? then None
    else if last && c2 == PAD && c3 == PAD then
      var g := Ungroup(w.value, x.value, 0, 0);
      if g / 256 % 256 == 0 && g % 256 == 0 then Some([g / 256 / 256]) else None
    else if y.None? then None
    else if last && c3 == PAD then
      var g := Ungroup(w.value, x.value, y.value, 0);
      if g % 256 == 0 then Some([g / 256 / 256, g / 256 % 256]) else None
    else if z.None? then None
    else
      var g := Ungroup(w.value, x.value, y.value, z.value);
      Some([g / 256 / 256, g / 256 % 256, g % 256])
  }

  function Decode(t: seq<char>): Option<seq<Byte>>
    decreases |t|
  {
    if t == [] then Some([])
    else if |t| < 4 then None
    else
      var quad := DecodeQuad(t[0], t[1], t[2], t[3], |t| == 4);
      var rest := Decode(t[4..]);
      if quad.None? || rest.None? then None else Some(quad.value + rest.value)
  }

  // ---------- the alphabet ----------

  lemma UpperAt(i: nat)
    requires i < 26
    ensures Upper()[i] as int == 'A' as int + i
  {
  }

  lemma LowerAt(i: nat)
    requires i < 26
    ensures Lower()[i] as int == 'a' as int + i
  {
  }

  lemma OtherAt(i: nat)
    requires i < 12
    ensures i < 10 ==> Other()[i] as int == '0' as int + i
    ensures i == 10 ==> Other()[i] == '+'
    ensures i == 11 ==> Other()[i] == '/'
  {
  }

  lemma TableAt(i: nat)
    requires i < 64
    ensures Table()[i] as int ==
      if i < 26 then 'A' as int + i else if i < 52 then 'a' as int + i - 26
      else if i < 62 then '0' as int + i - 52 else if i == 62 then '+' as int else '/' as int
  {
    if i < 26 {
      UpperAt(i);
      assert Table()[i] == Upper()[i];
    } else if i < 52 {
      LowerAt(i - 26);
      assert Table()[i] == Lower()[i - 26];
    } else {
      OtherAt(i - 52);
      assert Table()[i] == Other()[i - 52];
    }
  }

  /** The alphabet and its inverse. */
  lemma LetterExact(c: char, x: Sextet)
    ensures SextetOf(c) == Some(x) <==> c == Table()[x]
  {
    TableAt(x);
  }

  // ---------- decoding undoes encoding, and nothing else ----------

  lemma Digit64(x: int, d: Sextet)
    ensures (64 * x + d) / 64 == x && (64 * x + d) % 64 == d
  {
  }

  lemma Digit256(x: int, d: Byte)
    ensures (256 * x + d) / 256 == x && (256 * x + d) % 256 == d
  {
  }

  lemma GroupSextets(g: nat)
    requires g < 16777216
    ensures var q := Sextets(g); Ungroup(q.0, q.1, q.2, q.3) == g
  {
  }

  lemma SextetsUngroup(w: Sextet, x: Sextet, y: Sextet, z: Sextet)
    ensures Ungroup(w, x, y, z) < 16777216
    ensures Sextets(Ungroup(w, x, y, z)) == (w, x, y, z)
  {
    Digit64(64 * (64 * w + x) + y, z);
    Digit64(64 * w + x, y);
    Digit64(w, x);
  }

  lemma GroupBytes(a: Byte, b: Byte, c: Byte, g: nat)
    requires g < 16777216
    ensures g == Group(a, b, c) <==> a == g / 256 / 256 && b == g / 256 % 256 && c == g % 256
  {
    Digit256(256 * a + b, c);
    Digit256(a, b);
  }

  /** The expressions of the source name the sextets. */
  lemma SextetBits(a: Byte, b: Byte, c: Byte)
    ensures Sextets(Group(a, b, c)) == (a / 4, a % 4 * 16 + b / 16, b % 16 * 4 + c / 64, c % 64)
  {
    var w, x, y, z := a / 4, a % 4 * 16 + b / 16, b % 16 * 4 + c / 64, c % 64;
    assert Group(a, b, c) == Ungroup(w, x, y, z);
    SextetsUngroup(w, x, y, z);
  }

  /** The bits a short group is completed with. */
  lemma ShortGroups(a: Byte, b: Byte)
    ensures Sextets(Group(a, 0, 0)).2 == 0 && Sextets(Group(a, 0, 0)).3 == 0
    ensures Sextets(Group(a, b, 0)).3 == 0
  {
    SextetBits(a, 0, 0);
    SextetBits(a, b, 0);
  }

  lemma QuadExact(w: Sextet, x: Sextet, y: Sextet, z: Sextet, a: Byte, b: Byte, c: Byte)
    ensures var g := Ungroup(w, x, y, z);
      (a == g / 256 / 256 && b == g / 256 % 256 && c == g % 256) <==> Sextets(Group(a, b, c)) == (w, x, y, z)
  {
    var g := Ungroup(w, x, y, z);
    SextetsUngroup(w, x, y, z);
    GroupBytes(a, b, c, g);
    GroupSextets(Group(a, b, c));
  }

  /** The decoder accepts exactly the quadruples the encoder makes. */
  lemma Block1Exact(c0: char, c1: char, c2: char, c3: char, last: bool, a: Byte)
    ensures DecodeQuad(c0, c1, c2, c3, last) == Some([a]) <==> last && [c0, c1, c2, c3] == EncodeBlock(Table(), [a])
  {
    var q := Sextets(Group(a, 0, 0));
    LetterExact(c0, q.0);
    LetterExact(c1, q.1);
    ShortGroups(a, 0);
    if SextetOf(c0).Some? && SextetOf(c1).Some? {
      QuadExact(SextetOf(c0).value, SextetOf(c1).value, 0, 0, a, 0, 0);
    }
  }

  lemma Block2Exact(c0: char, c1: char, c2: char, c3: char, last: bool, a: Byte, b: Byte)
    ensures DecodeQuad(c0, c1, c2, c3, last) == Some([a, b]) <==> last && [c0, c1, c2, c3] == EncodeBlock(Table(), [a, b])
  {
    var q := Sextets(Group(a, b, 0));
    LetterExact(c0, q.0);
    LetterExact(c1, q.1);
    LetterExact(c2, q.2);
    ShortGroups(a, b);
    if SextetOf(c0).Some? && SextetOf(c1).Some? && SextetOf(c2).Some? {
      QuadExact(SextetOf(c0).value, SextetOf(c1).value, SextetOf(c2).value, 0, a, b, 0);
    }
  }

  lemma Block3Exact(c0: char, c1: char, c2: char, c3: char, last: bool, a: Byte, b: Byte, c: Byte)
    ensures DecodeQuad(c0, c1, c2, c3, last) == Some([a, b, c]) <==> [c0, c1, c2, c3] == EncodeBlock(Table(), [a, b, c])
  {
    var q := Sextets(Group(a, b, c));
    LetterExact(c0, q.0);
    LetterExact(c1, q.1);
    LetterExact(c2, q.2);
    LetterExact(c3, q.3);
    if SextetOf(c0).Some? && SextetOf(c1).Some? && SextetOf(c2).Some? && SextetOf(c3).Some? {
      QuadExact(SextetOf(c0).value, SextetOf(c1).value, SextetOf(c2).value, SextetOf(c3).value, a, b, c);
    }
  }

  lemma BlockExact(t: seq<char>, last: bool, block: seq<Byte>)
    requires 1 <= |block| <= 3 && |t| == 4
    ensures DecodeQuad(t[0], t[1], t[2], t[3], last) == Some(block) <==>
      (|block| == 3 || last) && t == EncodeBlock(Table(), block)
  {
    assert t == [t[0], t[1], t[2], t[3]];
    if |block| == 1 {
      assert block == [block[0]];
      Block1Exact(t[0], t[1], t[2], t[3], last, block[0]);
    } else if |block| == 2 {
      assert block == [block[0], block[1]];
      Block2Exact(t[0], t[1], t[2], t[3], last, block[0], block[1]);
    } else {
      assert block == [block[0], block[1], block[2]];
      Block3Exact(t[0], t[1], t[2], t[3], last, block[0], block[1], block[2]);
    }
  }

  lemma {:induction false} EncodeDecodes(s: seq<Byte>)
    ensures Decode(Encode(Table(), s)) == Some(s)
    decreases |s|
  {
    if s == [] {
    } else {
      var n := if |s| <= 3 then |s| else 3;
      var quad := EncodeBlock(Table(), s[..n]);
      var t := quad + Encode(Table(), s[n..]);
      assert s[..n] + s[n..] == s && (|s| <= 3 ==> s[..n] == s && s[n..] == []);
      assert Encode(Table(), s) == t && t[..4] == quad && t[4..] == Encode(Table(), s[n..]);
      EncodeEmpty(s[n..]);
      BlockExact(quad, |t| == 4, s[..n]);
      EncodeDecodes(s[n..]);
    }
  }

  lemma EncodeEmpty(s: seq<Byte>)
    ensures Encode(Table(), s) == [] <==> s == []
  {
  }

  lemma {:induction false} DecodeEncodes(t: seq<char>)
    ensures Decode(t).Some? ==> Encode(Table(), Decode(t).value) == t
    decreases |t|
  {
    if t != [] && Decode(t).Some? {
      var quad := DecodeQuad(t[0], t[1], t[2], t[3], |t| == 4);
      var rest := Decode(t[4..]);
      var s := quad.value + rest.value;
      BlockExact(t[..4], |t| == 4, quad.value);
      DecodeEncodes(t[4..]);
      assert t == t[..4] + t[4..];
      var n := |quad.value|;
      assert s[..n] == quad.value && s[n..] == rest.value;
      EncodeEmpty(rest.value);
      assert |t| == 4 ==> s == quad.value && t == t[..4];
    }
  }

  /** Decoding yields s from exactly one text, the encoding of s. */
  lemma Base64Exact(s: seq<Byte>, t: seq<char>)
    ensures Decode(t) == Some(s) <==> t == Encode(Table(), s)
  {
    EncodeDecodes(s);
    DecodeEncodes(t);
  }

  /** Whether the character at i is padding, in a text of n characters for m
      bytes: one for each byte missing from the last group. */
  predicate PadAt(i: nat, n: nat, m: nat) {
    (i + 1 == n && m % 3 != 0) || (i + 2 == n && m % 3 == 1)
  }

  lemma PadAppend(quad: seq<char>, rest: seq<char>, i: nat, m: nat)
    requires |quad| == 4 && |rest| >= 4 && i < |quad + rest|
    requires forall k | 0 <= k < 4 :: quad[k] != '='
    requires i >= 4 ==> (rest[i - 4] == '=' <==> PadAt(i - 4, |rest|, m))
    ensures (quad + rest)[i] == '=' <==> PadAt(i, |quad + rest|, m + 3)
  {
  }

  lemma {:induction false} PaddingExact(s: seq<Byte>, i: nat)
    requires i < |Encode(Table(), s)|
    ensures Encode(Table(), s)[i] == '=' <==> PadAt(i, |Encode(Table(), s)|, |s|)
    decreases |s|
  {
    if |s| <= 3 {
      BlockPadding(s);
    } else {
      FirstBlock(s);
      AtLeastFour(s[3..]);
      if i >= 4 {
        PaddingExact(s[3..], i - 4);
      }
      PadAppend(EncodeBlock(Table(), s[..3]), Encode(Table(), s[3..]), i, |s| - 3);
    }
  }

  lemma FirstBlock(s: seq<Byte>)
    requires |s| > 3
    ensures var quad := EncodeBlock(Table(), s[..3]);
      && Encode(Table(), s) == quad + Encode(Table(), s[3..])
      && |quad| == 4 && forall k | 0 <= k < 4 :: quad[k] != '='
  {
    BlockPadding(s[..3]);
  }

  lemma AtLeastFour(s: seq<Byte>)
    ensures s != [] ==> |Encode(Table(), s)| >= 4
  {
  }

  lemma BlockPadding(block: seq<Byte>)
    requires 1 <= |block| <= 3
    ensures var quad := EncodeBlock(Table(), block);
      forall i | 0 <= i < 4 :: quad[i] == '=' <==> i > |block|
  {
    forall x: Sextet
      ensures Table()[x] != '='
    {
      TableAt(x);
    }
  }

  lemma BlockOf(a: Byte, b: Byte, c: Byte)
    ensures var q := Sextets(Group(a, b, c));
      Encode(Table(), [a, b, c]) == [Table()[q.0], Table()[q.1], Table()[q.2], Table()[q.3]]
  {
  }

  lemma FooSextets()
    ensures Sextets(Group(102, 111, 111)) == (25, 38, 61, 47)
  {
    SextetBits(102, 111, 111);
  }

  lemma FooLetters()
    ensures [Table()[25], Table()[38], Table()[61], Table()[47]] == ['Z', 'm', '9', 'v']
  {
    TableAt(25);
    TableAt(38);
    TableAt(61);
    TableAt(47);
  }

  /** "foo", a test vector of section 10 of RFC 4648. */
  lemma Vector()
    ensures Encode(Table(), [102, 111, 111]) == ['Z', 'm', '9', 'v']
  {
    FooSextets();
    FooLetters();
    BlockOf(102, 111, 111);
  }

  // ---------- sizes ----------

  /** The macro base64_encoded_size. */
  function EncodedSize(size: nat): nat {
    (size + 2 - (size + 2) % 3) / 3 * 4
  }

  lemma SizeByGroups(size: nat)
    ensures EncodedSize(size) == 4 * (size / 3) + (if size % 3 == 0 then 0 else 4)
  {
    var q, r := (size + 2) / 3, (size + 2) % 3;
    assert size + 2 == 3 * q + r;
    assert (3 * q) / 3 == q;
  }

  /** Four characters for every three bytes, rounded up. */
  lemma SizeRoundsUp(size: nat)
    ensures EncodedSize(size) % 4 == 0
    ensures 4 * size <= 3 * EncodedSize(size) < 4 * size + 12
  {
    SizeByGroups(size);
    var q, r := size / 3, size % 3;
    assert size == 3 * q + r && 0 <= r < 3;
    assert EncodedSize(size) == 4 * (q + if r == 0 then 0 else 1);
  }

  lemma SizeStep(size: nat)
    requires size > 3
    ensures EncodedSize(size) == 4 + EncodedSize(size - 3)
  {
    SizeByGroups(size);
    SizeByGroups(size - 3);
    assert (size - 3) / 3 == size / 3 - 1;
  }

  lemma SizeSmall(size: nat)
    requires size <= 3
    ensures EncodedSize(size) == if size == 0 then 0 else 4
  {
  }

  lemma {:induction false} SizeIsExact(t: Alphabet, s: seq<Byte>)
    ensures |Encode(t, s)| == EncodedSize(|s|)
    decreases |s|
  {
    if |s| > 3 {
      SizeIsExact(t, s[3..]);
      SizeStep(|s|);
    } else {
      SizeSmall(|s|);
    }
  }

  lemma ConsThree(code: seq<Byte> -> seq<char>, s: seq<Byte>)
    requires |s| >= 3
    ensures ByThrees(code, s) == code(s[..3]) + ByThrees(code, s[3..])
  {
    if |s| == 3 {
      assert s[..3] == s && code(s) + [] == code(s);
    }
  }

  lemma {:induction false} AppendThrees(code: seq<Byte> -> seq<char>, groups: nat, x: seq<Byte>, y: seq<Byte>)
    requires |x| == 3 * groups
    ensures ByThrees(code, x + y) == ByThrees(code, x) + ByThrees(code, y)
    decreases groups
  {
    if groups == 0 {
      assert x + y == y;
    } else {
      AppendThrees(code, groups - 1, x[3..], y);
      ConsThree(code, x);
      ConsThree(code, x + y);
      assert (x + y)[..3] == x[..3] && (x + y)[3..] == x[3..] + y;
      Associate(code(x[..3]), ByThrees(code, x[3..]), ByThrees(code, y));
    }
  }

  lemma Associate(x: seq<char>, y: seq<char>, z: seq<char>)
    ensures (x + y) + z == x + (y + z)
  {
  }

  // ---------- the loop ----------

  method Put4(dst: array<char>, k: nat, size: nat, c0: char, c1: char, c2: char, c3: char)
    requires k + 4 <= size <= dst.Length
    modifies dst
    ensures dst[..k + 4] == old(dst[..k]) + [c0, c1, c2, c3]
    ensures dst[size..] == old(dst[size..])
  {
    dst[k] := c0;
    dst[k + 1] := c1;
    dst[k + 2] := c2;
    dst[k + 3] := c3;
  }

  lemma OneMore(t: Alphabet, src: seq<Byte>, groups: nat, block: seq<Byte>)
    requires 0 < |block| <= 3 && 3 * groups + |block| <= |src|
    requires src[3 * groups..3 * groups + |block|] == block
    ensures Encode(t, src[..3 * groups + |block|]) == Encode(t, src[..3 * groups]) + EncodeBlock(t, block)
  {
    AppendThrees(Coder(t), groups, src[..3 * groups], block);
    assert src[..3 * groups + |block|] == src[..3 * groups] + block;
  }

  lemma Bits3(t: Alphabet, a: Byte, b: Byte, c: Byte)
    ensures EncodeBlock(t, [a, b, c]) ==
      [t[a / 4], t[a % 4 * 16 + b / 16], t[b % 16 * 4 + c / 64], t[c % 64]]
  {
    SextetBits(a, b, c);
  }

  lemma Bits2(t: Alphabet, a: Byte, b: Byte)
    ensures EncodeBlock(t, [a, b]) == [t[a / 4], t[a % 4 * 16 + b / 16], t[b % 16 * 4], PAD]
  {
    SextetBits(a, b, 0);
  }

  lemma Bits1(t: Alphabet, a: Byte)
    ensures EncodeBlock(t, [a]) == [t[a / 4], t[a % 4 * 16], PAD, PAD]
  {
    SextetBits(a, 0, 0);
  }

  /** The body of the loop. While the counters have not wrapped around the text
      so far is the encoding of what was read. */
  method EncodeGroup(t: Alphabet, src: seq<Byte>, i: UInt, dst: array<char>, k: UInt, limit: nat,
                     ghost done: nat, ghost fits: bool)
    requires i == 3 * done && i + 3 <= |src| && k + 4 <= limit <= dst.Length
    requires fits ==> k == 4 * done && dst[..k] == Encode(t, src[..i])
    modifies dst
    ensures fits ==> dst[..k + 4] == Encode(t, src[..i + 3])
    ensures dst[limit..] == old(dst[limit..])
  {
    var a, b, c := src[i], src[i + 1], src[i + 2];
    OneMore(t, src, done, [a, b, c]);
    Bits3(t, a, b, c);
    Put4(dst, k, limit, t[a / 4], t[a % 4 * 16 + b / 16], t[b % 16 * 4 + c / 64], t[c % 64]);
  }

  /** The switch over the one or two bytes left over. */
  method EncodeRest(t: Alphabet, src: seq<Byte>, i: UInt, slen: nat, dst: array<char>, k: UInt,
                    limit: nat, ghost done: nat, ghost fits: bool)
    requires i == 3 * done && i < slen <= |src| && slen - i <= 2 && k + 4 <= limit <= dst.Length
    requires fits ==> k == 4 * done && dst[..k] == Encode(t, src[..i])
    modifies dst
    ensures fits ==> dst[..k + 4] == Encode(t, src[..slen])
    ensures dst[limit..] == old(dst[limit..])
  {
    if slen - i == 1 {
      var a := src[i];
      OneMore(t, src, done, [a]);
      Bits1(t, a);
      Put4(dst, k, limit, t[a / 4], t[a % 4 * 16], PAD, PAD);
    } else {
      var a, b := src[i], src[i + 1];
      OneMore(t, src, done, [a, b]);
      Bits2(t, a, b);
      Put4(dst, k, limit, t[a / 4], t[a % 4 * 16 + b / 16], t[b % 16 * 4], PAD);
    }
  }

  /** The loop, with n already cut to 32 bits, and the switch after it. The
      counter i does not wrap around; k does when it passes the last quadruple
      below 2^32. */
  method EncodeWith(t: Alphabet, src: seq<Byte>, slen: nat, n: UInt, dst: array<char>,
                    limit: nat, ghost groups: nat, ghost fits: bool)
    requires slen <= |src| && n <= slen && limit <= dst.Length && limit <= UINTS
    requires slen - n <= 2 ==> n == 3 * groups && slen <= 3 * groups + 2
    requires fits ==> n == 3 * groups && slen - n <= 2 && limit == 4 * groups + (if n == slen then 0 else 4)
    requires !fits ==> limit == UINTS
    modifies dst
    ensures fits ==> dst[..limit] == Encode(t, src[..slen])
    ensures dst[limit..] == old(dst[limit..])
  {
    var i: UInt, k: UInt := 0, 0;
    ghost var done, quads := 0, 0;
    assert src[..0] == [] && dst[..0] == [];
    while i < n
      invariant i == 3 * done && i < n + 3 && k == 4 * quads
      invariant n == 3 * groups ==> done <= groups
      invariant fits ==> quads == done || (4 * done == UINTS == limit && n == slen == i)
      invariant fits ==> 4 * done <= limit && dst[..4 * done] == Encode(t, src[..i])
      invariant dst[limit..] == old(dst[limit..])
    {
      EncodeGroup(t, src, i, dst, k, limit, done, fits);
      i := i + 3;
      k := if k + 4 < UINTS then k + 4 else k + 4 - UINTS;
      done := done + 1;
      quads := if quads + 1 < 0x4000_0000 then quads + 1 else 0;
    }
    if n != slen {
      if slen - n == 1 || slen - n == 2 {
        EncodeRest(t, src, i, slen, dst, k, limit, done, fits);
      }
    }
  }

  /** Up to 2^32 characters the encoding fills exactly its size and the rest of
      the buffer is left alone; beyond that nothing past the first 2^32
      characters is written, because the counters have 32 bits. */
  method Base64Encode(src: seq<Byte>, slen: nat, dst: array<char>, dlen: nat) returns (size: nat)
    requires slen <= |src| && dlen <= dst.Length
    requires EncodedSize(slen) <= dlen
    modifies dst
    ensures size == EncodedSize(slen)
    ensures size <= UINTS ==> dst[..size] == Encode(Table(), src[..slen]) && dst[size..] == old(dst[size..])
    ensures size > UINTS ==> dst[UINTS..] == old(dst[UINTS..])
  {
    size := EncodedSize(slen);
    SizeByGroups(slen);
    var n: UInt := (slen / 3 * 3) % UINTS;
    CutGroups(slen);
    var limit := if size <= UINTS then size else UINTS;
    EncodeWith(Table(), src, slen, n, dst, limit, slen / 3, size <= UINTS);
  }

  /** Cutting the length of the whole groups to 32 bits is harmless for lengths
      that have 32 bits, and otherwise leaves the switch without a case. */
  lemma CutGroups(slen: nat)
    ensures var n := (slen / 3 * 3) % UINTS;
      && n <= slen
      && (slen - n <= 2 ==> n == 3 * (slen / 3))
      && (EncodedSize(slen) <= UINTS ==> n == 3 * (slen / 3) && slen - n <= 2)
  {
    SizeByGroups(slen);
    var g := slen / 3;
    var n, m := (3 * g) % UINTS, (3 * g) / UINTS;
    assert 3 * g == UINTS * m + n && 3 * g <= slen <= 3 * g + 2;
  }
}
