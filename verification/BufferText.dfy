/** Encode of nan/nan_string_bytes.h, the only caller of the byte encoders. */
module BufferText {
  import opened Bytes
  import opened Options
  import Base64
  import Hex

  /** The encodings modelled. */
  datatype Encoding = BASE64 | HEX

  /** node::Buffer::kMaxLength. */
  function MaxLength(pointersAre32Bits: bool): nat {
    if pointersAre32Bits then 0x3fff_ffff else 0x7fff_ffff
  }

  /** No buffer that passes the assertion makes a 32-bit counter wrap around. */
  lemma AcceptedFits(n: nat, pointersAre32Bits: bool)
    requires n <= MaxLength(pointersAre32Bits)
    ensures 2 * n < UINTS && Base64.EncodedSize(n) < UINTS
  {
    Base64.SizeRoundsUp(n);
  }

  function Decoded(encoding: Encoding, text: seq<char>): Option<seq<Byte>> {
    match encoding
    case BASE64 => Base64.Decode(text)
    case HEX => Hex.Decode(text)
  }

  /** Every buffer the assertion lets through is encoded to the one text that
      decodes to it. */
  method Encode(buf: seq<Byte>, encoding: Encoding, pointersAre32Bits: bool) returns (text: seq<char>)
    requires |buf| <= MaxLength(pointersAre32Bits)
    ensures forall t :: Decoded(encoding, t) == Some(buf) <==> t == text
  {
    AcceptedFits(|buf|, pointersAre32Bits);
    assert buf[..|buf|] == buf;
    if |buf| == 0 {
      text := "";
    } else if encoding == BASE64 {
      var dlen := Base64.EncodedSize(|buf|);
      var dst := new char[dlen];
      var written := Base64.Base64Encode(buf, |buf|, dst, dlen);
      assert written == dlen;
      text := dst[..dlen];
    } else {
      var dlen := |buf| * 2;
      var dst := new char[dlen];
      var written := Hex.HexEncode(buf, |buf|, dst, dlen);
      assert written == dlen;
      text := dst[..dlen];
    }
    forall t
      ensures Decoded(encoding, t) == Some(buf) <==> t == text
    {
      if encoding == BASE64 {
        Base64.Base64Exact(buf, t);
      } else {
        Hex.HexExact(buf, t);
      }
    }
  }
}
