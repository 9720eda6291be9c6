/** contains_non_ascii of nan/nan_string_bytes.h: a scan by aligned machine
    words, against the scan by bytes. */
module AsciiScan {

  /** sizeof(void*) is 8 or 4; the wide mask is compiled in only for x86-64. */
  datatype Platform = X86_64 | Other64 | Word32

  const WIDE_MASK: bv64 := 0x8080_8080_8080_8080
  const NARROW_MASK: bv64 := 0x8080_8080

  function BytesPerWord(p: Platform): nat {
    if p == Word32 then 4 else 8
  }

  function Mask(p: Platform): bv64 {
    if p == X86_64 then WIDE_MASK else NARROW_MASK
  }

  /** How many bytes of a word, in memory order, the mask looks at. */
  function Covered(p: Platform): nat {
    if p == X86_64 then 8 else 4
  }

  predicate High(b: bv8) {
    b & 0x80 != 0
  }

  /** A little-endian load. */
  function Load4(b0: bv8, b1: bv8, b2: bv8, b3: bv8): bv64 {
    (b0 as bv64) | ((b1 as bv64) << 8) | ((b2 as bv64) << 16) | ((b3 as bv64) << 24)
  }

  function Load8(b0: bv8, b1: bv8, b2: bv8, b3: bv8, b4: bv8, b5: bv8, b6: bv8, b7: bv8): bv64 {
    Load4(b0, b1, b2, b3) | (Load4(b4, b5, b6, b7) << 32)
  }

  lemma NarrowMaskLooks(b0: bv8, b1: bv8, b2: bv8, b3: bv8)
    ensures Load4(b0, b1, b2, b3) & NARROW_MASK != 0 <==> High(b0) || High(b1) || High(b2) || High(b3)
  {
  }

  lemma NarrowMaskMisses(x: bv64, y: bv64)
    requires x <= 0xffff_ffff && y <= 0xffff_ffff
    ensures (x | (y << 32)) & NARROW_MASK == x & NARROW_MASK
  {
  }

  lemma WideMaskSplits(x: bv64, y: bv64)
    requires x <= 0xffff_ffff && y <= 0xffff_ffff
    ensures (x | (y << 32)) & WIDE_MASK != 0 <==> x & NARROW_MASK != 0 || y & NARROW_MASK != 0
  {
  }

  lemma Load4Fits(b0: bv8, b1: bv8, b2: bv8, b3: bv8)
    ensures Load4(b0, b1, b2, b3) <= 0xffff_ffff
  {
  }

  function Words(p: Platform, n: nat): nat {
    if p == Word32 then n / 4 else n / 8
  }

  function Remainder(p: Platform, n: nat): (r: nat)
    ensures r < BytesPerWord(p)
  {
    if p == Word32 then n % 4 else n % 8
  }

  /** The bytes before the first aligned word. */
  function Head(p: Platform, addr: nat): (n: nat)
    ensures n < BytesPerWord(p)
  {
    var unaligned := Remainder(p, addr);
    if unaligned > 0 then BytesPerWord(p) - unaligned else 0
  }

  lemma Multiples(q: nat)
    ensures (4 * q) % 4 == 0 && (8 * q) % 8 == 0
  {
  }

  /** The words are aligned. */
  lemma HeadAligns(p: Platform, addr: nat)
    ensures Remainder(p, addr + Head(p, addr)) == 0
  {
    var q, r := Words(p, addr), Remainder(p, addr);
    var next: nat := q + if r > 0 then 1 else 0;
    Multiples(next);
    if p == Word32 {
      assert addr + Head(p, addr) == 4 * next;
    } else {
      assert addr + Head(p, addr) == 8 * next;
    }
  }

  function LoadWord(p: Platform, s: seq<bv8>, at: nat): bv64
    requires at + BytesPerWord(p) <= |s|
  {
    if p == Word32 then Load4(s[at], s[at + 1], s[at + 2], s[at + 3])
    else Load8(s[at], s[at + 1], s[at + 2], s[at + 3], s[at + 4], s[at + 5], s[at + 6], s[at + 7])
  }

  predicate AnyHigh(s: seq<bv8>, from: nat, to: nat)
    requires from <= to <= |s|
  {
    exists i :: from <= i < to && High(s[i])
  }

  lemma FourHigh(s: seq<bv8>, at: nat)
    requires at + 4 <= |s|
    ensures AnyHigh(s, at, at + 4) <==> High(s[at]) || High(s[at + 1]) || High(s[at + 2]) || High(s[at + 3])
  {
  }

  lemma EightBytes(b0: bv8, b1: bv8, b2: bv8, b3: bv8, b4: bv8, b5: bv8, b6: bv8, b7: bv8)
    ensures Load8(b0, b1, b2, b3, b4, b5, b6, b7) & NARROW_MASK != 0 <==>
      High(b0) || High(b1) || High(b2) || High(b3)
    ensures Load8(b0, b1, b2, b3, b4, b5, b6, b7) & WIDE_MASK != 0 <==>
      High(b0) || High(b1) || High(b2) || High(b3) || High(b4) || High(b5) || High(b6) || High(b7)
  {
    var x, y := Load4(b0, b1, b2, b3), Load4(b4, b5, b6, b7);
    Load4Fits(b0, b1, b2, b3);
    Load4Fits(b4, b5, b6, b7);
    NarrowMaskMisses(x, y);
    WideMaskSplits(x, y);
    NarrowMaskLooks(b0, b1, b2, b3);
    NarrowMaskLooks(b4, b5, b6, b7);
  }

  lemma EightHigh(s: seq<bv8>, at: nat)
    requires at + 8 <= |s|
    ensures AnyHigh(s, at, at + 8) <==> AnyHigh(s, at, at + 4) || AnyHigh(s, at + 4, at + 8)
  {
  }

  /** The masked word is not zero exactly when a covered byte is not ASCII. */
  lemma MaskedWord(p: Platform, s: seq<bv8>, at: nat)
    requires at + BytesPerWord(p) <= |s|
    ensures LoadWord(p, s, at) & Mask(p) != 0 <==> AnyHigh(s, at, at + Covered(p))
  {
    FourHigh(s, at);
    if p == Word32 {
      NarrowMaskLooks(s[at], s[at + 1], s[at + 2], s[at + 3]);
    } else {
      EightBytes(s[at], s[at + 1], s[at + 2], s[at + 3], s[at + 4], s[at + 5], s[at + 6], s[at + 7]);
      FourHigh(s, at + 4);
      EightHigh(s, at);
    }
  }

  /** Does the scan of len bytes from address addr look at byte i? */
  predicate Seen(p: Platform, addr: nat, len: nat, i: nat) {
    var head := Head(p, addr);
    len < 16 || i < head || len - Remainder(p, len - head) <= i || Remainder(p, i - head) < Covered(p)
  }

  predicate Scan(p: Platform, addr: nat, s: seq<bv8>) {
    exists i :: 0 <= i < |s| && Seen(p, addr, |s|, i) && High(s[i])
  }

  method ContainsNonAsciiSlow(src: seq<bv8>, from: nat, len: nat) returns (r: bool)
    requires from + len <= |src|
    ensures r <==> AnyHigh(src, from, from + len)
  {
    var i := 0;
    while i < len
      invariant i <= len
      invariant !AnyHigh(src, from, from + i)
    {
      if src[from + i] & 0x80 != 0 {
        return true;
      }
      i := i + 1;
    }
    return false;
  }

  lemma Mod4(q: nat, j: nat)
    requires j < 4
    ensures (4 * q + j) % 4 == j
  {
  }

  lemma Mod8(q: nat, j: nat)
    requires j < 8
    ensures (8 * q + j) % 8 == j
  {
  }

  lemma InWord(p: Platform, x: nat, j: nat)
    requires Remainder(p, x) == 0 && j < BytesPerWord(p)
    ensures Remainder(p, x + j) == j
  {
    if p == Word32 {
      Mod4(x / 4, j);
      assert x == 4 * (x / 4);
    } else {
      Mod8(x / 8, j);
      assert x == 8 * (x / 8);
    }
  }

  /** Inside the words the scan sees what the mask covers. */
  lemma SeenInWord(p: Platform, addr: nat, len: nat, at: nat, k: nat)
    requires len >= 16 && Head(p, addr) <= at <= k < at + BytesPerWord(p)
    requires Remainder(p, at - Head(p, addr)) == 0
    requires at + BytesPerWord(p) <= len - Remainder(p, len - Head(p, addr))
    ensures Seen(p, addr, len, k) <==> k - at < Covered(p)
  {
    var x, j := at - Head(p, addr), k - at;
    InWord(p, x, j);
    assert k - Head(p, addr) == x + j;
  }

  function Offset(p: Platform, i: nat): nat {
    if p == Word32 then 4 * i else 8 * i
  }

  lemma WordFits(p: Platform, len: nat, i: nat)
    requires i < Words(p, len)
    ensures Offset(p, i) + BytesPerWord(p) <= len - Remainder(p, len) && Remainder(p, Offset(p, i)) == 0
  {
  }

  lemma WordsEnd(p: Platform, len: nat)
    ensures Offset(p, Words(p, len)) == len - Remainder(p, len)
  {
  }

  lemma WordVerdict(p: Platform, addr: nat, s: seq<bv8>, at: nat)
    requires at + BytesPerWord(p) <= |s|
    requires forall k | at <= k < at + BytesPerWord(p) :: Seen(p, addr, |s|, k) <==> k - at < Covered(p)
    ensures LoadWord(p, s, at) & Mask(p) != 0 ==> Scan(p, addr, s)
    ensures LoadWord(p, s, at) & Mask(p) == 0 ==> Clean(p, addr, s, at, at + BytesPerWord(p))
  {
    MaskedWord(p, s, at);
    if AnyHigh(s, at, at + Covered(p)) {
      var k :| at <= k < at + Covered(p) && High(s[k]);
      assert Seen(p, addr, |s|, k);
    }
  }

  lemma SeenInWords(p: Platform, addr: nat, len: nat, at: nat)
    requires len >= 16 && Head(p, addr) <= at && Remainder(p, at - Head(p, addr)) == 0
    requires at + BytesPerWord(p) <= len - Remainder(p, len - Head(p, addr))
    ensures forall k | at <= k < at + BytesPerWord(p) :: Seen(p, addr, len, k) <==> k - at < Covered(p)
  {
    forall k | at <= k < at + BytesPerWord(p)
      ensures Seen(p, addr, len, k) <==> k - at < Covered(p)
    {
      SeenInWord(p, addr, len, at, k);
    }
  }

  /** No byte the scan looks at between these two is other than ASCII. */
  predicate Clean(p: Platform, addr: nat, s: seq<bv8>, from: nat, to: nat) {
    forall k | from <= k < to && k < |s| :: Seen(p, addr, |s|, k) ==> !High(s[k])
  }

  lemma CleanExtends(p: Platform, addr: nat, s: seq<bv8>, from: nat, mid: nat, to: nat)
    requires Clean(p, addr, s, from, mid) && Clean(p, addr, s, mid, to)
    ensures Clean(p, addr, s, from, to)
  {
  }

  /** The n words after the head. */
  method ScanWords(p: Platform, ghost addr: nat, src: seq<bv8>, start: nat, n: nat) returns (r: bool)
    requires |src| >= 16 && start == Head(p, addr) && n == Words(p, |src| - start)
    ensures r ==> Scan(p, addr, src)
    ensures !r ==> Clean(p, addr, src, start, start + Offset(p, n))
  {
    var i, at := 0, start;
    while i < n
      invariant i <= n && at == start + Offset(p, i)
      invariant Clean(p, addr, src, start, at)
    {
      WordFits(p, |src| - start, i);
      SeenInWords(p, addr, |src|, at);
      WordVerdict(p, addr, src, at);
      if LoadWord(p, src, at) & Mask(p) != 0 {
        return true;
      }
      CleanExtends(p, addr, src, start, at, at + BytesPerWord(p));
      i := i + 1;
      at := at + BytesPerWord(p);
    }
    return false;
  }

  /** src starts at address addr. Every access is inside it. */
  method ContainsNonAscii(p: Platform, addr: nat, src: seq<bv8>) returns (r: bool)
    ensures r <==> Scan(p, addr, src)
  {
    var len := |src|;
    if len < 16 {
      r := ContainsNonAsciiSlow(src, 0, len);
      return;
    }
    var unaligned := Remainder(p, addr);
    var start := 0;
    if unaligned > 0 {
      var n := BytesPerWord(p) - unaligned;
      var slow := ContainsNonAsciiSlow(src, 0, n);
      if slow {
        return true;
      }
      start := n;
      len := len - n;
    }
    WordsEnd(p, len);
    var found := ScanWords(p, addr, src, start, Words(p, len));
    if found {
      return true;
    }
    var remainder := Remainder(p, len);
    if remainder > 0 {
      var slow := ContainsNonAsciiSlow(src, start + len - remainder, remainder);
      if slow {
        return true;
      }
    }
    return false;
  }

  /** The word scan agrees with the byte scan on every content of a buffer
      exactly when the buffer is short or the mask covers the whole word. */
  lemma ScanAgrees(p: Platform, addr: nat, len: nat)
    ensures (forall s: seq<bv8> | |s| == len :: Scan(p, addr, s) <==> AnyHigh(s, 0, |s|)) <==>
      len < 16 || Covered(p) == BytesPerWord(p)
  {
    if len < 16 || Covered(p) == BytesPerWord(p) {
      forall s: seq<bv8> | |s| == len
        ensures Scan(p, addr, s) <==> AnyHigh(s, 0, |s|)
      {
        if AnyHigh(s, 0, |s|) {
          var i :| 0 <= i < |s| && High(s[i]);
          assert Seen(p, addr, |s|, i);
        }
      }
    } else {
      var k := Head(p, addr) + 4;
      var s := seq(len, i => if i == k then 0x80 as bv8 else 0);
      assert High(s[k]) && !Seen(p, addr, |s|, k);
      assert !Scan(p, addr, s) && AnyHigh(s, 0, |s|);
    }
  }
}
