/**
 * Chunk type codes (section 3.3 of PNG 1.2): the code alphabet, the four
 * property bits, and the eighteen standard chunk types of PNG 1.2.
 */
module ChunkTypes {
  import opened Common

  /** A byte allowed in a type code: an ASCII letter, 65-90 or 97-122. */
  predicate AllowedByte(b: byte)
  {
    65 <= b <= 90 || 97 <= b <= 122
  }

  predicate ValidCode(c: Code)
  {
    AllowedByte(c.b0) && AllowedByte(c.b1) && AllowedByte(c.b2) && AllowedByte(c.b3)
  }

  /** PNGChunkType: a chunk type, identified by its validated code. */
  datatype ChunkType = ChunkType(code: Code)
  {
    /** Bit 5 (0x20) of the first byte. */
    predicate Ancillary() { PropertyBit(code.b0) }
    /** Bit 5 (0x20) of the second byte. */
    predicate Private() { PropertyBit(code.b1) }
    /** Bit 5 (0x20) of the third byte. */
    predicate Reserved() { PropertyBit(code.b2) }
    /** Bit 5 (0x20) of the fourth byte. */
    predicate SafeToCopy() { PropertyBit(code.b3) }
  }

  const PROPERTY_BITMASK: nat := 0x20

  /** Whether the byte has the 0x20 bit set. */
  predicate PropertyBit(b: byte)
  {
    (b as nat / PROPERTY_BITMASK) % 2 == 1
  }

  /** PNGChunkType(code): a ValueError unless the code is four allowed bytes. */
  function NewChunkType(code: seq<byte>): (r: Result<ChunkType>)
    ensures r.Ok? <==> |code| == 4 && forall i :: 0 <= i < 4 ==> AllowedByte(code[i])
    ensures r.Ok? ==> r.value.code.Bytes() == code && ValidCode(r.value.code)
    ensures r.Err? ==> r.error == ValueError
  {
    if |code| != 4 then Err(ValueError)
    else if !(AllowedByte(code[0]) && AllowedByte(code[1]) && AllowedByte(code[2]) && AllowedByte(code[3]))
    then Err(ValueError)
    else Ok(ChunkType(CodeOf(code)))
  }

  /** Within the code alphabet, the 0x20 bit is exactly "lower-case letter",
      so each property of a valid type reads off the case of its letter. */
  lemma PropertyBitIsLowerCase(b: byte)
    requires AllowedByte(b)
    ensures PropertyBit(b) <==> 97 <= b <= 122
  {
    if b <= 90 {
      assert b as nat / 32 == 2;
    } else {
      assert b as nat / 32 == 3;
    }
  }

  /** The example type "bLOb": ancillary, public, reserved bit clear,
      safe to copy. */
  lemma BlobProperties()
    ensures var t := NewChunkType([0x62, 0x4c, 0x4f, 0x62]);
            t.Ok? && t.value.Ancillary() && !t.value.Private() &&
            !t.value.Reserved() && t.value.SafeToCopy()
  {
    var t := NewChunkType([0x62, 0x4c, 0x4f, 0x62]);
    assert t.value.code == Code(0x62, 0x4c, 0x4f, 0x62);
    PropertyBitIsLowerCase(0x62);
    PropertyBitIsLowerCase(0x4c);
    PropertyBitIsLowerCase(0x4f);
  }

  // Critical chunks
  const IHDR: Code := Code(0x49, 0x48, 0x44, 0x52)
  const PLTE: Code := Code(0x50, 0x4c, 0x54, 0x45)
  const IDAT: Code := Code(0x49, 0x44, 0x41, 0x54)
  const IEND: Code := Code(0x49, 0x45, 0x4e, 0x44)
  // Ancillary chunks
  const tRNS: Code := Code(0x74, 0x52, 0x4e, 0x53)
  const gAMA: Code := Code(0x67, 0x41, 0x4d, 0x41)
  const cHRM: Code := Code(0x63, 0x48, 0x52, 0x4d)
  const sRGB: Code := Code(0x73, 0x52, 0x47, 0x42)
  const iCCP: Code := Code(0x69, 0x43, 0x43, 0x50)
  const tEXt: Code := Code(0x74, 0x45, 0x58, 0x74)
  const zTXt: Code := Code(0x7a, 0x54, 0x58, 0x74)
  const iTXt: Code := Code(0x69, 0x54, 0x58, 0x74)
  const bKGD: Code := Code(0x62, 0x4b, 0x47, 0x44)
  const pHYs: Code := Code(0x70, 0x48, 0x59, 0x73)
  const sBIT: Code := Code(0x73, 0x42, 0x49, 0x54)
  const sPLT: Code := Code(0x73, 0x50, 0x4c, 0x54)
  const hIST: Code := Code(0x68, 0x49, 0x53, 0x54)
  const tIME: Code := Code(0x74, 0x49, 0x4d, 0x45)

  /** The eighteen type codes PNG 1.2 defines. */
  const STANDARD_CODES: seq<Code> :=
    [IHDR, PLTE, IDAT, IEND, tRNS, gAMA, cHRM, sRGB, iCCP,
     tEXt, zTXt, iTXt, bKGD, pHYs, sBIT, sPLT, hIST, tIME]

  /** CODE_TYPES: every standard code mapped to the chunk type of that code. */
  const CODE_TYPES: map<Code, ChunkType> := map c | c in STANDARD_CODES :: ChunkType(c)

  /** The table has eighteen entries, each keyed by its own code. */
  lemma CodeTypesTable()
    ensures |CODE_TYPES| == 18
    ensures forall k :: k in CODE_TYPES ==> CODE_TYPES[k].code == k
  {
    CodeTypesSize();
  }

  /** Every standard code is a valid code whose critical/ancillary bit
      matches the PNG 1.2 classification: only IHDR, PLTE, IDAT and IEND
      are critical. */
  lemma StandardCodesClassified()
    ensures forall i :: 0 <= i < |STANDARD_CODES| ==> ValidCode(STANDARD_CODES[i])
    ensures forall i :: 0 <= i < |STANDARD_CODES| ==>
      (!ChunkType(STANDARD_CODES[i]).Ancillary() <==> i < 4)
  {
    forall i | 0 <= i < |STANDARD_CODES|
      ensures ValidCode(STANDARD_CODES[i])
      ensures !ChunkType(STANDARD_CODES[i]).Ancillary() <==> i < 4
    {
      PropertyBitIsLowerCase(STANDARD_CODES[i].b0);
    }
  }

  lemma CodeTypesSize()
    ensures |CODE_TYPES| == 18
  {
    assert CODE_TYPES.Keys == set k | k in STANDARD_CODES;
    DistinctCardinality(STANDARD_CODES);
  }

  /** A list without repeats has as many distinct elements as entries. */
  lemma {:induction false} DistinctCardinality<T>(s: seq<T>)
    requires forall i, j :: 0 <= i < j < |s| ==> s[i] != s[j]
    ensures |set x | x in s| == |s|
  {
    if |s| > 0 {
      DistinctCardinality(s[1..]);
      assert (set x | x in s) == (set x | x in s[1..]) + {s[0]};
      assert s[0] !in s[1..];
    }
  }
}
