/**
 * Values shared by every stage of the PNG decoding pipeline: bytes,
 * four-byte chunk type codes, big-endian integers and the error taxonomy.
 */
module Common {

  /** An octet as the byte source delivers it. */
  newtype byte = x: int | 0 <= x < 256

  /** A chunk type code: exactly four bytes, kept as a value so that codes
      compare structurally. Which bytes are allowed is decided by
      ChunkTypes.ValidCode, not by this type. */
  datatype Code = Code(b0: byte, b1: byte, b2: byte, b3: byte)
  {
    /** The four bytes in stream order. */
    function Bytes(): (s: seq<byte>)
      ensures |s| == 4 && s[0] == b0 && s[1] == b1 && s[2] == b2 && s[3] == b3
    {
      [b0, b1, b2, b3]
    }
  }

  /** The code made of four stream bytes; inverse of Code.Bytes. */
  function CodeOf(s: seq<byte>): (c: Code)
    requires |s| == 4
    ensures c.Bytes() == s
  {
    Code(s[0], s[1], s[2], s[3])
  }

  /** Why a structural check failed; the source distinguishes these only by
      the message of its PNGSyntaxError, which makes the order of checks
      observable. */
  datatype SyntaxReason =
    | ChunkTooLong | BadTypeCode
    | OrderViolation | RepeatedChunk | MissingEnd
    | IhdrLength | IhdrTooLarge | IhdrTooSmall | IhdrBitDepth | IhdrColorType
    | IhdrDepthForColor | IhdrCompression | IhdrFilter | IhdrInterlace
    | PaletteTooShort | PaletteNotMultipleOfThree | PaletteTooLong
    | PaletteTooLongForDepth | PaletteNotAllowed
    | TrailerNotEmpty
    | TextTooManyNulls | TextNoNull | TextKeywordLength
    | TextKeywordEdgeSpace | TextKeywordDoubleSpace
    | BadFilterType | ScanlineLength

  /** The failures the decoder can raise (all fatal). */
  datatype Error =
    | SignatureMismatch
    | UnexpectedEOF
    | PNGTooLarge
    | BadCRC
    | StreamStateError
    | PNGSyntaxError(reason: SyntaxReason)
    | UnsupportedField
    | ParserStateError
    /** Misuse of an internal helper (a data slice of the wrong size, a
        transition added twice, the code of a ChunkType of wrong size). */
    | ValueError
    /** A second registration under the same chunk code. */
    | RuntimeError
    /** An index past the end of a sequence (an uncaught IndexError). */
    | IndexError

  datatype Result<+T> = Ok(value: T) | Err(error: Error)

  /** The outcome of an operation that returns nothing or raises. */
  datatype Outcome = Pass | Fail(error: Error)

  datatype Option<+T> = None | Some(value: T)

  function Min(a: int, b: int): (m: int)
    ensures m <= a && m <= b && (m == a || m == b)
  {
    if a <= b then a else b
  }

  /** The unsigned big-endian integer held by a byte string (struct '>I'). */
  function BigEndian(s: seq<byte>): (n: nat)
    ensures n < Pow256(|s|)
  {
    if |s| == 0 then 0 else BigEndian(s[..|s| - 1]) * 256 + s[|s| - 1] as nat
  }

  function Pow256(k: nat): (p: nat)
    ensures p >= 1
  {
    if k == 0 then 1 else 256 * Pow256(k - 1)
  }

  /** The four big-endian bytes of a 32-bit value (struct.pack('>I')). */
  function BigEndian4(n: nat): (s: seq<byte>)
    requires n < 0x1_0000_0000
    ensures |s| == 4 && BigEndian(s) == n
  {
    var a, b, c, d := n / 0x100_0000, n / 0x1_0000 % 256, n / 0x100 % 256, n % 256;
    var s := [a as byte, b as byte, c as byte, d as byte];
    assert n / 0x1_0000 == a * 256 + b;
    assert n / 0x100 == (n / 0x1_0000) * 256 + c;
    assert n == (n / 0x100) * 256 + d;
    assert BigEndian(s[..1]) == a by { assert s[..1][..0] == []; }
    assert BigEndian(s[..2]) == n / 0x1_0000 by { assert s[..2][..1] == s[..1]; }
    assert BigEndian(s[..3]) == n / 0x100 by { assert s[..3][..2] == s[..2]; }
    assert s[..4] == s;
    s
  }

  /** Two byte strings of one length that read as the same number are
      the same bytes. */
  lemma {:induction false} BigEndianInjective(s: seq<byte>, t: seq<byte>)
    requires |s| == |t| && BigEndian(s) == BigEndian(t)
    ensures s == t
  {
    if |s| > 0 {
      var n := |s| - 1;
      var hs, ht := BigEndian(s[..n]), BigEndian(t[..n]);
      assert BigEndian(s) == hs * 256 + s[n] as nat;
      assert BigEndian(t) == ht * 256 + t[n] as nat;
      BigEndianInjective(s[..n], t[..n]);
      assert s == s[..n] + [s[n]] && t == t[..n] + [t[n]];
    }
  }

  /** BigEndian4 is the only encoding of a four-byte field. */
  lemma BigEndian4OfField(s: seq<byte>)
    requires |s| == 4
    ensures BigEndian4(BigEndian(s)) == s
  {
    BigEndianInjective(BigEndian4(BigEndian(s)), s);
  }

  /** A slice of a slice is a slice of the whole. */
  lemma SliceOfSlice<T>(s: seq<T>, a: nat, b: nat, c: nat, d: nat)
    requires a <= b <= |s| && c <= d <= b - a
    ensures s[a..b][c..d] == s[a + c..a + d]
  {
    var w := s[a..b];
    assert forall i :: 0 <= i < |w| ==> w[i] == s[a + i];
  }

  /** A 32-bit CRC value as the unsigned integer it is compared against. */
  function U32(x: bv32): (n: nat)
    ensures n < 0x1_0000_0000
  {
    x as nat
  }
}
