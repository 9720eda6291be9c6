/** hex_encode of nan/nan_string_bytes.h: two lower-case digits a byte, the
    encoding of section 8 of RFC 4648 with its alphabet in lower case. */
module Hex {
  import opened Bytes
  import opened Options

  type Nibble = x: int | 0 <= x < 16

  function Digits(): string { "0123456789" + "abcdef" }

  function Pair(b: Byte): seq<char> {
    [Digits()[b / 16], Digits()[b % 16]]
  }

  function Coder(): Byte -> seq<char> {
    (b: Byte) => Pair(b)
  }

  function ByOnes(code: Byte -> seq<char>, s: seq<Byte>): seq<char>
    decreases |s|
  {
    if s == [] then [] else code(s[0]) + ByOnes(code, s[1..])
  }

  function Encode(s: seq<Byte>): seq<char> {
    ByOnes(Coder(), s)
  }

  // ---------- a reference decoder ----------

  function NibbleOf(c: char): Option<Nibble> {
    if '0' <= c <= '9' then Some(c as int - '0' as int)
    else if 'a' <= c <= 'f' then Some(c as int - 'a' as int + 10)
    else None
  }

  function DecodePair(c: char, d: char): Option<Byte> {
    var high, low := NibbleOf(c), NibbleOf(d);
    if high.None? || low.None? then None else Some(16 * high.value + low.value)
  }

  function Decode(t: seq<char>): Option<seq<Byte>>
    decreases |t|
  {
    if t == [] then Some([])
    else if |t| == 1 then None
    else
      var b, rest := DecodePair(t[0], t[1]), Decode(t[2..]);
      if b.None? || rest.None? then None else Some([b.value] + rest.value)
  }

  // ---------- decoding undoes encoding, and nothing else ----------

  lemma DigitExact(c: char, x: Nibble)
    ensures NibbleOf(c) == Some(x) <==> c == Digits()[x]
  {
  }

  lemma Nibbles(b: Byte, h: Nibble, l: Nibble)
    ensures b == 16 * h + l <==> h == b / 16 && l == b % 16
  {
  }

  lemma PairExact(c: char, d: char, b: Byte)
    ensures DecodePair(c, d) == Some(b) <==> [c, d] == Pair(b)
  {
    DigitExact(c, b / 16);
    DigitExact(d, b % 16);
    if NibbleOf(c).Some? && NibbleOf(d).Some? {
      Nibbles(b, NibbleOf(c).value, NibbleOf(d).value);
    }
  }

  /** "fo", a test vector of section 10 of RFC 4648, in lower case. */
  lemma Vector()
    ensures Encode([102, 111]) == "666f"
  {
    DigitExact('6', 6);
    DigitExact('f', 15);
    var o: seq<Byte> := [111];
    var none: seq<Byte> := [];
    assert [102, 111][1..] == o && o[1..] == none;
    assert Encode(none) == [] && Encode(o) == Pair(111) + Encode(none);
    assert Encode([102, 111]) == Pair(102) + Encode(o);
  }

  lemma {:induction false} EncodeDecodes(s: seq<Byte>)
    ensures Decode(Encode(s)) == Some(s)
    decreases |s|
  {
    if s != [] {
      var pair := Pair(s[0]);
      var t := pair + Encode(s[1..]);
      assert Encode(s) == t && t[0] == pair[0] && t[1] == pair[1] && t[2..] == Encode(s[1..]);
      PairExact(pair[0], pair[1], s[0]);
      EncodeDecodes(s[1..]);
      assert s == [s[0]] + s[1..];
    }
  }

  lemma {:induction false} DecodeEncodes(t: seq<char>)
    ensures Decode(t).Some? ==> Encode(Decode(t).value) == t
    decreases |t|
  {
    if t != [] && Decode(t).Some? {
      var b, rest := DecodePair(t[0], t[1]).value, Decode(t[2..]).value;
      PairExact(t[0], t[1], b);
      DecodeEncodes(t[2..]);
      assert ([b] + rest)[1..] == rest;
      assert t == [t[0], t[1]] + t[2..];
    }
  }

  /** Decoding yields s from exactly one text, the encoding of s. */
  lemma HexExact(s: seq<Byte>, t: seq<char>)
    ensures Decode(t) == Some(s) <==> t == Encode(s)
  {
    EncodeDecodes(s);
    DecodeEncodes(t);
  }

  lemma {:induction false} AppendOne(code: Byte -> seq<char>, s: seq<Byte>, b: Byte)
    ensures ByOnes(code, s + [b]) == ByOnes(code, s) + code(b)
    decreases |s|
  {
    if s == [] {
      var one := [b];
      assert s + [b] == one && one[1..] == [] && code(b) + [] == code(b);
    } else {
      AppendOne(code, s[1..], b);
      assert (s + [b])[1..] == s[1..] + [b];
    }
  }

  // ---------- the loop ----------

  /** The counter k after m rounds. */
  function Counter(m: nat): UInt {
    if m == 0 then 0 else (Counter(m - 1) + 2) % UINTS
  }

  /** One byte of the loop. */
  method EncodeByte(val: Byte, ghost s: seq<Byte>, dst: array<char>, k: nat, size: nat)
    requires k + 2 <= size <= dst.Length && dst[..k] == Encode(s)
    modifies dst
    ensures dst[..k + 2] == Encode(s + [val])
    ensures dst[size..] == old(dst[size..])
  {
    AppendOne(Coder(), s, val);
    dst[k] := Digits()[val / 16];
    dst[k + 1] := Digits()[val % 16];
  }

  /** The counter k never passes a length of 2^32 or more, so the loop ends
      only for shorter ones (LoopEnds). */
  method HexEncode(src: seq<Byte>, slen: nat, dst: array<char>, dlen: nat) returns (size: nat)
    requires slen <= |src| && 2 * slen <= dlen <= dst.Length
    requires 2 * slen < UINTS
    modifies dst
    ensures size == 2 * slen
    ensures dst[..size] == Encode(src[..slen])
    ensures dst[size..] == old(dst[size..])
  {
    size := slen * 2;
    var i: UInt, k: UInt := 0, 0;
    assert src[..0] == [] && dst[..0] == [];
    while k < size
      invariant k == 2 * i <= size && k == Counter(i)
      invariant dst[..k] == Encode(src[..i])
      invariant dst[size..] == old(dst[size..])
    {
      EncodeByte(src[i], src[..i], dst, k, size);
      assert src[..i + 1] == src[..i] + [src[i]];
      i, k := i + 1, k + 2;
    }
  }

  lemma {:induction false} CounterIsEven(m: nat)
    ensures Counter(m) % 2 == 0
    ensures 2 * m < UINTS ==> Counter(m) == 2 * m
  {
    if m != 0 {
      CounterIsEven(m - 1);
    }
  }

  /** The loop condition fails in some round exactly for lengths below 2^32. */
  lemma LoopEnds(slen: nat)
    ensures (exists m: nat :: Counter(m) >= 2 * slen) <==> 2 * slen < UINTS
  {
    if 2 * slen < UINTS {
      CounterIsEven(slen);
      assert Counter(slen) >= 2 * slen;
    }
  }
}
