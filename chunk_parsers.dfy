/**
 * The parsers for chunks of fixed layout (chunk_parsers.py): IHDR (section
 * 4.1.1 of PNG 1.2), PLTE (section 4.1.2) and IEND (section 4.1.4). Each
 * parser checks the chunk data in a fixed order and either returns the
 * decoded value or fails with the first PNGSyntaxError it meets.
 */
module ChunkParsers {
  import opened Common
  import opened FieldValues
  import opened ChunkTypes
  import opened Registries

  /** Size of the IHDR data, struct '>IIBBBBB'. */
  const IHDR_DATA_SIZE: nat := 13
  const MAX_DIMENSION: nat := 0x7FFF_FFFF
  const MIN_DIMENSION: nat := 1
  const ALLOWED_BIT_DEPTHS: set<nat> := {1, 2, 4, 8, 16}

  /** The seven IHDR fields as the struct unpacks them, before any check. */
  datatype RawHeader = RawHeader(
    width: nat, height: nat,
    bitDepth: byte, colorType: byte, compression: byte, filter: byte, interlace: byte)

  function Unpack(data: seq<byte>): (raw: RawHeader)
    requires |data| == IHDR_DATA_SIZE
    ensures raw.width < 0x1_0000_0000 && raw.height < 0x1_0000_0000
  {
    RawHeader(BigEndian(data[0..4]), BigEndian(data[4..8]), data[8], data[9], data[10], data[11], data[12])
  }

  /** struct.pack('>IIBBBBB'), the inverse of Unpack. */
  function Pack(raw: RawHeader): (data: seq<byte>)
    requires raw.width < 0x1_0000_0000 && raw.height < 0x1_0000_0000
    ensures |data| == IHDR_DATA_SIZE && Unpack(data) == raw
  {
    var data := BigEndian4(raw.width) + BigEndian4(raw.height) +
      [raw.bitDepth, raw.colorType, raw.compression, raw.filter, raw.interlace];
    assert data[0..4] == BigEndian4(raw.width) && data[4..8] == BigEndian4(raw.height);
    data
  }

  lemma PackUnpack(data: seq<byte>)
    requires |data| == IHDR_DATA_SIZE
    ensures Pack(Unpack(data)) == data
  {
    BigEndian4OfField(data[0..4]);
    BigEndian4OfField(data[4..8]);
    assert data == data[0..4] + data[4..8] + data[8..];
  }

  /** The decoded image header (models.ImageHeader). */
  datatype ImageHeader = ImageHeader(
    width: nat, height: nat, bitDepth: nat, colorType: ColorType,
    compression: CompressionMethod, filter: FilterMethod, interlace: InterlaceMethod)

  /** What section 4.1.1 of PNG 1.2 allows in an image header. */
  predicate ValidHeader(h: ImageHeader)
  {
    MIN_DIMENSION <= h.width <= MAX_DIMENSION && MIN_DIMENSION <= h.height <= MAX_DIMENSION &&
    h.bitDepth in ALLOWED_BIT_DEPTHS && AllowsBitDepth(h.colorType, h.bitDepth)
  }

  /** The IHDR chunk data of a header. */
  function EncodeImageHeader(h: ImageHeader): (data: seq<byte>)
    requires ValidHeader(h)
    ensures |data| == IHDR_DATA_SIZE
  {
    Pack(RawHeader(h.width, h.height, h.bitDepth as byte, h.colorType.Value(),
      h.compression.Value(), h.filter.Value(), h.interlace.Value()))
  }

  /** One validation step: whether it passes and the error it reports. */
  datatype Check = Check(passes: bool, reason: SyntaxReason)

  predicate AllPass(checks: seq<Check>)
  {
    forall i :: 0 <= i < |checks| ==> checks[i].passes
  }

  /** `e` is the error of the first check that fails. */
  predicate ReportsFirstFailure(checks: seq<Check>, e: Error)
  {
    exists i :: 0 <= i < |checks| && !checks[i].passes && e == PNGSyntaxError(checks[i].reason) &&
      forall j :: 0 <= j < i ==> checks[j].passes
  }

  /** The IHDR field checks in the order this parser runs them (after the
      length check): size, bit depth, colour type, bit depth for the colour
      type, compression, filter and interlace method. */
  function HeaderChecks(raw: RawHeader): seq<Check>
  {
    [ Check(raw.width <= MAX_DIMENSION && raw.height <= MAX_DIMENSION, IhdrTooLarge),
      Check(MIN_DIMENSION <= raw.width && MIN_DIMENSION <= raw.height, IhdrTooSmall),
      Check(raw.bitDepth as nat in ALLOWED_BIT_DEPTHS, IhdrBitDepth),
      Check(raw.colorType in COLOR_TYPES, IhdrColorType),
      Check(raw.colorType !in COLOR_TYPES || AllowsBitDepth(COLOR_TYPES[raw.colorType], raw.bitDepth as nat),
        IhdrDepthForColor),
      Check(raw.compression in COMPRESSION_METHODS, IhdrCompression),
      Check(raw.filter in FILTER_METHODS, IhdrFilter),
      Check(raw.interlace in INTERLACE_METHODS, IhdrInterlace) ]
  }

  /** _parse_value_to_enum_member with its membership test made by value:
      the member whose value is `value`, or PNGSyntaxError. */
  function ParseEnum<T>(table: map<byte, T>, reason: SyntaxReason, value: byte): (r: Result<T>)
    ensures r.Ok? <==> value in table
    ensures r.Ok? ==> r.value == table[value]
    ensures r.Err? ==> r.error == PNGSyntaxError(reason)
  {
    if value in table then Ok(table[value]) else Err(PNGSyntaxError(reason))
  }

  /** _parse_value_to_enum_member as written: it asks whether the int is
      one of the enumeration's member objects, and only then converts. */
  function ParseEnumAsWritten<T>(enumeration: string, table: map<byte, T>, reason: SyntaxReason, value: byte): Result<T>
  {
    if !IsMemberAsWritten(value, enumeration, table) then Err(PNGSyntaxError(reason))
    else if value in table then Ok(table[value])
    else Err(ValueError)
  }

  /** _validate_length, _validate_width_and_height and _validate_bit_depth:
      the checks made before the first enumeration lookup. */
  function CheckPlainFields(data: seq<byte>): Outcome
  {
    if |data| != IHDR_DATA_SIZE then Fail(PNGSyntaxError(IhdrLength))
    else
      var raw := Unpack(data);
      if raw.width > MAX_DIMENSION || raw.height > MAX_DIMENSION then Fail(PNGSyntaxError(IhdrTooLarge))
      else if raw.width < MIN_DIMENSION || raw.height < MIN_DIMENSION then Fail(PNGSyntaxError(IhdrTooSmall))
      else if raw.bitDepth as nat !in ALLOWED_BIT_DEPTHS then Fail(PNGSyntaxError(IhdrBitDepth))
      else Pass
  }

  /** The rest of the parse once the colour type lookup has been made:
      the depth-for-colour check and the three remaining lookups. */
  function ParseAfterColor(raw: RawHeader, color: Result<ColorType>): Result<ImageHeader>
  {
    if color.Err? then Err(color.error)
    else if !AllowsBitDepth(color.value, raw.bitDepth as nat) then Err(PNGSyntaxError(IhdrDepthForColor))
    else
      var compression := ParseEnum(COMPRESSION_METHODS, IhdrCompression, raw.compression);
      if compression.Err? then Err(compression.error)
      else
        var filter := ParseEnum(FILTER_METHODS, IhdrFilter, raw.filter);
        if filter.Err? then Err(filter.error)
        else
          var interlace := ParseEnum(INTERLACE_METHODS, IhdrInterlace, raw.interlace);
          if interlace.Err? then Err(interlace.error)
          else Ok(ImageHeader(raw.width, raw.height, raw.bitDepth as nat, color.value,
            compression.value, filter.value, interlace.value))
  }

  /** _ImageHeaderChunkParser.parse, with the enumeration lookups made by
      value. A length other than 13 fails before any field is read; after
      that, the first failing field check decides the error. */
  function ParseImageHeader(data: seq<byte>): (r: Result<ImageHeader>)
    ensures |data| != IHDR_DATA_SIZE ==> r == Err(PNGSyntaxError(IhdrLength))
  {
    match CheckPlainFields(data)
    case Fail(e) => Err(e)
    case Pass =>
      var raw := Unpack(data);
      ParseAfterColor(raw, ParseEnum(COLOR_TYPES, IhdrColorType, raw.colorType))
  }

  /** _ImageHeaderChunkParser.parse exactly as written. */
  function ParseImageHeaderAsWritten(data: seq<byte>): (r: Result<ImageHeader>)
    ensures r.Err?
    ensures |data| != IHDR_DATA_SIZE ==> r == Err(PNGSyntaxError(IhdrLength))
  {
    match CheckPlainFields(data)
    case Fail(e) => Err(e)
    case Pass =>
      var raw := Unpack(data);
      ParseAfterColor(raw, ParseEnumAsWritten("ColorType", COLOR_TYPES, IhdrColorType, raw.colorType))
  }

  /** A 13-byte IHDR is accepted exactly when every field check passes, and
      otherwise fails with the first failing check in the order
      size, depth, colour, depth-for-colour, compression, filter, interlace. */
  lemma ImageHeaderErrorOrder(data: seq<byte>)
    requires |data| == IHDR_DATA_SIZE
    ensures ParseImageHeader(data).Ok? <==> AllPass(HeaderChecks(Unpack(data)))
    ensures ParseImageHeader(data).Err? ==> ReportsFirstFailure(HeaderChecks(Unpack(data)), ParseImageHeader(data).error)
  {
    var raw := Unpack(data);
    var c := HeaderChecks(raw);
    var r := ParseImageHeader(data);
    if !c[0].passes {
      FailsFirstAt(c, 0, r.error);
    } else if !c[1].passes {
      FailsFirstAt(c, 1, r.error);
    } else if !c[2].passes {
      FailsFirstAt(c, 2, r.error);
    } else if !c[3].passes {
      FailsFirstAt(c, 3, r.error);
    } else if !c[4].passes {
      FailsFirstAt(c, 4, r.error);
    } else if !c[5].passes {
      FailsFirstAt(c, 5, r.error);
    } else if !c[6].passes {
      FailsFirstAt(c, 6, r.error);
    } else if !c[7].passes {
      FailsFirstAt(c, 7, r.error);
    } else {
      assert r.Ok?;
    }
  }

  /** A failing check preceded only by passing ones decides the error. */
  lemma FailsFirstAt(checks: seq<Check>, k: nat, e: Error)
    requires k < |checks| && !checks[k].passes && e == PNGSyntaxError(checks[k].reason)
    requires forall j :: 0 <= j < k ==> checks[j].passes
    ensures ReportsFirstFailure(checks, e) && !AllPass(checks)
  {
  }

  /** Decoding then encoding gives back the chunk data, and what is decoded
      is a header section 4.1.1 of PNG 1.2 allows. */
  lemma ImageHeaderDecodeEncode(data: seq<byte>)
    ensures ParseImageHeader(data).Ok? ==>
      ValidHeader(ParseImageHeader(data).value) && EncodeImageHeader(ParseImageHeader(data).value) == data
  {
    var r := ParseImageHeader(data);
    if r.Ok? {
      MemberTablesInvertValues();
      PackUnpack(data);
    }
  }

  /** Every header the standard allows is decoded from its encoding. */
  lemma ImageHeaderEncodeDecode(h: ImageHeader)
    requires ValidHeader(h)
    ensures ParseImageHeader(EncodeImageHeader(h)) == Ok(h)
  {
    MemberTablesInvertValues();
    var data := EncodeImageHeader(h);
    assert Unpack(data) == RawHeader(h.width, h.height, h.bitDepth as byte, h.colorType.Value(),
      h.compression.Value(), h.filter.Value(), h.interlace.Value());
    assert CheckPlainFields(data) == Pass;
    assert COLOR_TYPES[h.colorType.Value()] == h.colorType;
    assert INTERLACE_METHODS[h.interlace.Value()] == h.interlace;
    assert COMPRESSION_METHODS[h.compression.Value()] == h.compression;
    assert FILTER_METHODS[h.filter.Value()] == h.filter;
    assert (h.bitDepth as byte) as nat == h.bitDepth;
  }

  /** The IHDR data of the single-pixel RGB image: width 1, height 1, depth
      8, colour type 2, methods 0/0/0. */
  const ONE_BY_ONE_RGB: seq<byte> := [0, 0, 0, 1, 0, 0, 0, 1, 8, 2, 0, 0, 0]

  /** The single-pixel RGB header decodes to its seven fields, while the
      parser as written rejects it at the colour type. */
  lemma OneByOneRgbHeader()
    ensures ParseImageHeader(ONE_BY_ONE_RGB) ==
      Ok(ImageHeader(1, 1, 8, Rgb, Deflate32k, AdaptiveFiveBasic, NoInterlace))
    ensures ParseImageHeaderAsWritten(ONE_BY_ONE_RGB) == Err(PNGSyntaxError(IhdrColorType))
  {
    var h := ImageHeader(1, 1, 8, Rgb, Deflate32k, AdaptiveFiveBasic, NoInterlace);
    assert ValidHeader(h);
    assert EncodeImageHeader(h) == ONE_BY_ONE_RGB by {
      assert BigEndian4(1) == [0, 0, 0, 1];
    }
    ImageHeaderEncodeDecode(h);
    MemberTestNeverHolds(2, "ColorType", COLOR_TYPES);
  }

  /** The parser as written accepts no IHDR data at all: whatever passes
      the plain field checks is rejected at the colour type lookup. */
  lemma ImageHeaderAsWrittenAlwaysFails(data: seq<byte>)
    ensures ParseImageHeaderAsWritten(data).Err?
    ensures CheckPlainFields(data).Pass? ==> ParseImageHeaderAsWritten(data) == Err(PNGSyntaxError(IhdrColorType))
  {
    if CheckPlainFields(data).Pass? {
      MemberTestNeverHolds(Unpack(data).colorType, "ColorType", COLOR_TYPES);
    }
  }

  // PLTE

  /** A palette entry: red, green, blue. */
  type Rgb = (byte, byte, byte)

  /** zip(it, it, it) over the data: consecutive bytes grouped in threes,
      a trailing partial group dropped. */
  function {:induction false} Triples(data: seq<byte>): (t: seq<Rgb>)
    ensures |t| == |data| / 3
    ensures forall i :: 0 <= i < |t| ==> t[i] == (data[3 * i], data[3 * i + 1], data[3 * i + 2])
    decreases |data|
  {
    if |data| < 3 then []
    else
      var rest := Triples(data[3..]);
      assert forall i :: 0 <= i < |rest| ==> data[3..][3 * i] == data[3 * (i + 1)];
      [(data[0], data[1], data[2])] + rest
  }

  /** The palette bytes of a list of entries. */
  function Flatten(p: seq<Rgb>): (data: seq<byte>)
    ensures |data| == 3 * |p|
  {
    if |p| == 0 then [] else [p[0].0, p[0].1, p[0].2] + Flatten(p[1..])
  }

  /** Grouping palette bytes and flattening them again loses nothing. */
  lemma {:induction false} FlattenTriples(data: seq<byte>)
    requires |data| % 3 == 0
    ensures Flatten(Triples(data)) == data
    decreases |data|
  {
    if |data| >= 3 {
      FlattenTriples(data[3..]);
      assert Triples(data)[1..] == Triples(data[3..]);
      assert data == data[..3] + data[3..];
    }
  }

  /** The length checks of a palette, in order: too short, not a multiple
      of three, more than 256 entries. */
  function ValidatePaletteLength(length: nat): (r: Outcome)
    ensures r.Pass? <==> 3 <= length && length % 3 == 0 && length / 3 <= 256
    ensures length < 3 ==> r == Fail(PNGSyntaxError(PaletteTooShort))
    ensures 3 <= length && length % 3 != 0 ==> r == Fail(PNGSyntaxError(PaletteNotMultipleOfThree))
    ensures 3 <= length && length % 3 == 0 && length / 3 > 256 ==> r == Fail(PNGSyntaxError(PaletteTooLong))
  {
    if length < 3 then Fail(PNGSyntaxError(PaletteTooShort))
    else if length % 3 != 0 then Fail(PNGSyntaxError(PaletteNotMultipleOfThree))
    else if length / 3 > 256 then Fail(PNGSyntaxError(PaletteTooLong))
    else Pass
  }

  function Pow2(k: nat): (p: nat)
    ensures p >= 1
  {
    if k == 0 then 1 else 2 * Pow2(k - 1)
  }

  /** _PaletteChunkParser.parse for the image header seen before: the
      length checks (with the bound 3 * 2^depth for indexed colour), then
      the colour types that forbid a palette, then the entries. */
  function ParsePalette(data: seq<byte>, header: ImageHeader): (r: Result<seq<Rgb>>)
    ensures r.Ok? <==>
      ValidatePaletteLength(|data|).Pass? &&
      (header.colorType == Indexed ==> |data| <= 3 * Pow2(header.bitDepth)) &&
      header.colorType != Grayscale && header.colorType != GrayscaleAlpha
    ensures ValidatePaletteLength(|data|).Fail? ==> r == Err(ValidatePaletteLength(|data|).error)
    ensures r.Ok? ==> 0 < |r.value| <= 256 && |r.value| * 3 == |data| && Flatten(r.value) == data
    ensures r.Ok? ==> forall i :: 0 <= i < |r.value| ==> r.value[i] == (data[3 * i], data[3 * i + 1], data[3 * i + 2])
  {
    var length := ValidatePaletteLength(|data|);
    if length.Fail? then Err(length.error)
    else if header.colorType == Indexed && |data| > Pow2(header.bitDepth) * 3 then
      Err(PNGSyntaxError(PaletteTooLongForDepth))
    else if header.colorType == Grayscale || header.colorType == GrayscaleAlpha then
      Err(PNGSyntaxError(PaletteNotAllowed))
    else
      FlattenTriples(data);
      Ok(Triples(data))
  }

  /** A palette of 1 to 256 entries is parsed back from its bytes under a
      header that allows it: any colour type with a palette, and for indexed
      colour no more entries than the bit depth can address. */
  lemma PaletteRoundTrip(p: seq<Rgb>, header: ImageHeader)
    requires 0 < |p| <= 256
    requires header.colorType != Grayscale && header.colorType != GrayscaleAlpha
    requires header.colorType == Indexed ==> |p| <= Pow2(header.bitDepth)
    ensures ParsePalette(Flatten(p), header) == Ok(p)
  {
    var data := Flatten(p);
    var t := Triples(data);
    FlattenTriples(data);
    FlattenInjective(t, p);
  }

  lemma {:induction false} FlattenInjective(p: seq<Rgb>, q: seq<Rgb>)
    requires Flatten(p) == Flatten(q)
    ensures p == q
  {
    if |p| > 0 {
      assert Flatten(p)[..3] == [p[0].0, p[0].1, p[0].2];
      assert Flatten(q)[..3] == [q[0].0, q[0].1, q[0].2];
      assert Flatten(p)[3..] == Flatten(p[1..]);
      assert Flatten(q)[3..] == Flatten(q[1..]);
      FlattenInjective(p[1..], q[1..]);
      assert p == [p[0]] + p[1..] && q == [q[0]] + q[1..];
    }
  }

  // IEND

  /** _ImageTrailerChunkParser.parse: the trailer carries no data. */
  function ParseTrailer(data: seq<byte>): (r: Outcome)
    ensures r.Pass? <==> |data| == 0
    ensures r.Fail? ==> r.error == PNGSyntaxError(TrailerNotEmpty)
  {
    if |data| > 0 then Fail(PNGSyntaxError(TrailerNotEmpty)) else Pass
  }

  // Registry

  /** The parser classes that are registered (the IEND parser's
      registration is commented out in the source). */
  datatype ParserClass = ImageHeaderParser | PaletteParser

  /** The `chunk_parsers` registry as the module leaves it after import. */
  method NewChunkParserRegistry() returns (registry: Registry<ParserClass>)
    ensures fresh(registry)
    ensures registry.store == map[IHDR := ImageHeaderParser, PLTE := PaletteParser]
  {
    registry := new Registry();
    var r := registry.Register(IHDR, ImageHeaderParser);
    r := registry.Register(PLTE, PaletteParser);
  }
}
