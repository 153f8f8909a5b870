/**
 * The chunk classes of models.py. Each chunk object holds the chunk data
 * and, when parsed, assigns its decoded attributes one by one as the
 * checks pass: IHDR (section 4.1.1 of PNG 1.2), PLTE (4.1.2), IDAT
 * (4.1.3), IEND (4.1.4) and tEXt (4.2.3.1). Every class registers itself
 * under its chunk type code.
 */
module Models {
  import opened Common
  import opened FieldValues
  import opened ChunkTypes
  import opened Registries
  import opened ChunkParsers

  // IHDR

  /** The field checks of ImageHeaderPNGChunk.parse after the length check,
      in its order: the same checks as the parser of chunk_parsers.py, with
      the depth-for-colour check moved after the three method lookups. */
  function ModelHeaderChecks(raw: RawHeader): seq<Check>
  {
    var c := HeaderChecks(raw);
    [c[0], c[1], c[2], c[3], c[5], c[6], c[7], c[4]]
  }

  /** The seven attributes of an IHDR chunk object; None while unassigned
      (PNG_CHUNK_DATA_NOT_SET). */
  datatype HeaderAttributes = HeaderAttributes(
    width: Option<nat>, height: Option<nat>, bitDepth: Option<nat>,
    colorType: Option<ColorType>, compression: Option<CompressionMethod>,
    filter: Option<FilterMethod>, interlace: Option<InterlaceMethod>)

  const UNSET := HeaderAttributes(None, None, None, None, None, None, None)

  /** All seven attributes assigned from a decoded header. */
  function Assigned(h: ImageHeader): HeaderAttributes
  {
    HeaderAttributes(Some(h.width), Some(h.height), Some(h.bitDepth), Some(h.colorType),
      Some(h.compression), Some(h.filter), Some(h.interlace))
  }

  /** What ImageHeaderPNGChunk.parse leaves behind, starting from the
      attributes `before`: each attribute is assigned right after its own
      check passes, so a failure keeps what was assigned until then. */
  function ParseHeaderAttributes(before: HeaderAttributes, data: seq<byte>): (r: (HeaderAttributes, Outcome))
    ensures |data| != IHDR_DATA_SIZE ==> r == (before, Fail(PNGSyntaxError(IhdrLength)))
    ensures r.1.Pass? ==>
      r.0.width.Some? && r.0.height.Some? && r.0.bitDepth.Some? && r.0.colorType.Some? &&
      r.0.compression.Some? && r.0.filter.Some? && r.0.interlace.Some? &&
      MIN_DIMENSION <= r.0.width.value <= MAX_DIMENSION && MIN_DIMENSION <= r.0.height.value <= MAX_DIMENSION &&
      AllowsBitDepth(r.0.colorType.value, r.0.bitDepth.value)
  {
    if |data| != IHDR_DATA_SIZE then (before, Fail(PNGSyntaxError(IhdrLength)))
    else
      var raw := Unpack(data);
      if raw.width > MAX_DIMENSION || raw.height > MAX_DIMENSION then (before, Fail(PNGSyntaxError(IhdrTooLarge)))
      else if raw.width < MIN_DIMENSION || raw.height < MIN_DIMENSION then (before, Fail(PNGSyntaxError(IhdrTooSmall)))
      else
        var sized := before.(width := Some(raw.width), height := Some(raw.height));
        if raw.bitDepth as nat !in ALLOWED_BIT_DEPTHS then (sized, Fail(PNGSyntaxError(IhdrBitDepth)))
        else
          var deep := sized.(bitDepth := Some(raw.bitDepth as nat));
          if raw.colorType !in COLOR_TYPES then (deep, Fail(PNGSyntaxError(IhdrColorType)))
          else
            var colored := deep.(colorType := Some(COLOR_TYPES[raw.colorType]));
            if raw.compression !in COMPRESSION_METHODS then (colored, Fail(PNGSyntaxError(IhdrCompression)))
            else
              var compressed := colored.(compression := Some(COMPRESSION_METHODS[raw.compression]));
              if raw.filter !in FILTER_METHODS then (compressed, Fail(PNGSyntaxError(IhdrFilter)))
              else
                var filtered := compressed.(filter := Some(FILTER_METHODS[raw.filter]));
                if raw.interlace !in INTERLACE_METHODS then (filtered, Fail(PNGSyntaxError(IhdrInterlace)))
                else
                  var all := filtered.(interlace := Some(INTERLACE_METHODS[raw.interlace]));
                  if !AllowsBitDepth(COLOR_TYPES[raw.colorType], raw.bitDepth as nat) then
                    (all, Fail(PNGSyntaxError(IhdrDepthForColor)))
                  else (all, Pass)
  }

  /** ImageHeaderPNGChunk: the IHDR chunk data and the attributes its parse
      assigns. */
  class ImageHeaderChunk {
    const chunkData: seq<byte>
    var width: Option<nat>
    var height: Option<nat>
    var bitDepth: Option<nat>
    var colorType: Option<ColorType>
    var compression: Option<CompressionMethod>
    var filter: Option<FilterMethod>
    var interlace: Option<InterlaceMethod>

    function Attributes(): HeaderAttributes
      reads this
    {
      HeaderAttributes(width, height, bitDepth, colorType, compression, filter, interlace)
    }

    constructor(chunkData: seq<byte>)
      ensures this.chunkData == chunkData && Attributes() == UNSET
    {
      this.chunkData := chunkData;
      width, height, bitDepth := None, None, None;
      colorType, compression, filter, interlace := None, None, None, None;
    }

    /** parse: the length check, then each field check followed by the
        assignment of its attribute, then the depth-for-colour check. */
    method Parse() returns (r: Outcome)
      modifies this
      ensures (Attributes(), r) == ParseHeaderAttributes(old(Attributes()), chunkData)
    {
      if |chunkData| != IHDR_DATA_SIZE {
        return Fail(PNGSyntaxError(IhdrLength));
      }
      var raw := Unpack(chunkData);
      if raw.width > MAX_DIMENSION || raw.height > MAX_DIMENSION {
        return Fail(PNGSyntaxError(IhdrTooLarge));
      }
      if raw.width < MIN_DIMENSION || raw.height < MIN_DIMENSION {
        return Fail(PNGSyntaxError(IhdrTooSmall));
      }
      width, height := Some(raw.width), Some(raw.height);
      if raw.bitDepth as nat !in ALLOWED_BIT_DEPTHS {
        return Fail(PNGSyntaxError(IhdrBitDepth));
      }
      bitDepth := Some(raw.bitDepth as nat);
      if raw.colorType !in COLOR_TYPES {
        return Fail(PNGSyntaxError(IhdrColorType));
      }
      colorType := Some(COLOR_TYPES[raw.colorType]);
      if raw.compression !in COMPRESSION_METHODS {
        return Fail(PNGSyntaxError(IhdrCompression));
      }
      compression := Some(COMPRESSION_METHODS[raw.compression]);
      if raw.filter !in FILTER_METHODS {
        return Fail(PNGSyntaxError(IhdrFilter));
      }
      filter := Some(FILTER_METHODS[raw.filter]);
      if raw.interlace !in INTERLACE_METHODS {
        return Fail(PNGSyntaxError(IhdrInterlace));
      }
      interlace := Some(INTERLACE_METHODS[raw.interlace]);
      if !AllowsBitDepth(COLOR_TYPES[raw.colorType], raw.bitDepth as nat) {
        return Fail(PNGSyntaxError(IhdrDepthForColor));
      }
      r := Pass;
    }
  }

  /** The chunk class accepts exactly the IHDR data the parser of
      chunk_parsers.py accepts, and then holds the same seven values; it
      fails with the first failing check in its own order. */
  lemma ModelHeaderAgreesWithParser(before: HeaderAttributes, data: seq<byte>)
    ensures ParseHeaderAttributes(before, data).1.Pass? <==> ParseImageHeader(data).Ok?
    ensures ParseHeaderAttributes(before, data).1.Pass? ==>
      ParseHeaderAttributes(before, data).0 == Assigned(ParseImageHeader(data).value)
    ensures |data| != IHDR_DATA_SIZE ==> ParseHeaderAttributes(before, data) == (before, Fail(PNGSyntaxError(IhdrLength)))
    ensures |data| == IHDR_DATA_SIZE && ParseHeaderAttributes(before, data).1.Fail? ==>
      ReportsFirstFailure(ModelHeaderChecks(Unpack(data)), ParseHeaderAttributes(before, data).1.error)
  {
    if |data| == IHDR_DATA_SIZE {
      var c := ModelHeaderChecks(Unpack(data));
      var r := ParseHeaderAttributes(before, data).1;
      ImageHeaderErrorOrder(data);
      if !c[0].passes {
        FailsFirstAt(c, 0, r.error);
      } else if !c[1].passes {
        FailsFirstAt(c, 1, r.error);
      } else if !c[2].passes {
        FailsFirstAt(c, 2, r.error);
      } else if !c[3].passes {
        FailsFirstAt(c, 3, r.error);
      } else if !c[4].passes {
        FailsFirstAt(c, 4, r.error);
      } else if !c[5].passes {
        FailsFirstAt(c, 5, r.error);
      } else if !c[6].passes {
        FailsFirstAt(c, 6, r.error);
      } else if !c[7].passes {
        FailsFirstAt(c, 7, r.error);
      } else {
        assert AllPass(HeaderChecks(Unpack(data)));
      }
    }
  }

  /** Attributes assigned before a failure stay assigned: a bad bit depth
      leaves the size assigned and nothing else touched, and a colour type
      that forbids the depth is only found once all seven are assigned. */
  lemma HeaderAssignedStepwise(before: HeaderAttributes, data: seq<byte>)
    ensures ParseHeaderAttributes(before, data).1 == Fail(PNGSyntaxError(IhdrBitDepth)) ==>
      ParseHeaderAttributes(before, data).0 ==
        before.(width := Some(Unpack(data).width), height := Some(Unpack(data).height))
    ensures ParseHeaderAttributes(before, data).1 == Fail(PNGSyntaxError(IhdrDepthForColor)) ==>
      var after := ParseHeaderAttributes(before, data).0;
      after.width.Some? && after.height.Some? && after.bitDepth.Some? && after.colorType.Some? &&
      after.compression.Some? && after.filter.Some? && after.interlace.Some? &&
      !AllowsBitDepth(after.colorType.value, after.bitDepth.value)
  {
  }

  /** Indexed colour at depth 16 with compression method 1: the chunk class
      reports the compression method, the parser of chunk_parsers.py the
      depth, because the two run the depth-for-colour check at different
      points. */
  lemma HeaderCheckOrdersDiffer()
    ensures ParseHeaderAttributes(UNSET, [0, 0, 0, 1, 0, 0, 0, 1, 16, 3, 1, 0, 0]).1 ==
      Fail(PNGSyntaxError(IhdrCompression))
    ensures ParseImageHeader([0, 0, 0, 1, 0, 0, 0, 1, 16, 3, 1, 0, 0]) == Err(PNGSyntaxError(IhdrDepthForColor))
  {
    var data: seq<byte> := [0, 0, 0, 1, 0, 0, 0, 1, 16, 3, 1, 0, 0];
    assert Unpack(data) == RawHeader(1, 1, 16, 3, 1, 0, 0) by {
      assert data[0..4] == [0, 0, 0, 1] && data[4..8] == [0, 0, 0, 1];
      assert BigEndian4(1) == [0, 0, 0, 1];
      BigEndian4OfField(data[0..4]);
    }
  }

  // PLTE

  /** PalettePNGChunk: the palette is assigned once the length checks pass. */
  class PaletteChunk {
    const chunkData: seq<byte>
    var palette: Option<seq<Rgb>>

    constructor(chunkData: seq<byte>)
      ensures this.chunkData == chunkData && palette == None
    {
      this.chunkData := chunkData;
      palette := None;
    }

    method Parse() returns (r: Outcome)
      modifies this
      ensures r == ValidatePaletteLength(|chunkData|)
      ensures r.Fail? ==> palette == old(palette)
      ensures r.Pass? ==> palette == Some(Triples(chunkData))
      ensures r.Pass? ==> 0 < |palette.value| <= 256 && Flatten(palette.value) == chunkData
    {
      r := ValidatePaletteLength(|chunkData|);
      if r.Pass? {
        FlattenTriples(chunkData);
        palette := Some(Triples(chunkData));
      }
    }
  }

  /** The chunk class accepts a palette whenever the parser of
      chunk_parsers.py does, and stores the same entries; it does not look
      at the image header. */
  lemma PaletteClassAcceptsParsed(data: seq<byte>, header: ImageHeader)
    requires ParsePalette(data, header).Ok?
    ensures ValidatePaletteLength(|data|).Pass? && ParsePalette(data, header).value == Triples(data)
  {
  }

  // IDAT

  /** ImageDataPNGChunk: the compressed data is the chunk data itself. */
  class ImageDataChunk {
    const chunkData: seq<byte>
    var compressedData: Option<seq<byte>>

    constructor(chunkData: seq<byte>)
      ensures this.chunkData == chunkData && compressedData == None
    {
      this.chunkData := chunkData;
      compressedData := None;
    }

    method Parse()
      modifies this
      ensures compressedData == Some(chunkData)
    {
      compressedData := Some(chunkData);
    }
  }

  // IEND

  /** ImageTrailerPNGChunk: parsing assigns nothing and fails on data. */
  class ImageTrailerChunk {
    const chunkData: seq<byte>

    constructor(chunkData: seq<byte>)
      ensures this.chunkData == chunkData
    {
      this.chunkData := chunkData;
    }

    method Parse() returns (r: Outcome)
      ensures r.Pass? <==> |chunkData| == 0
      ensures r.Fail? ==> r.error == PNGSyntaxError(TrailerNotEmpty)
    {
      r := ParseTrailer(chunkData);
    }
  }

  // tEXt

  const NUL: byte := 0
  const SPACE: byte := 32

  /** The number of null bytes in `data`. */
  function NullCount(data: seq<byte>): nat
  {
    multiset(data)[NUL]
  }

  /** bytes.split(b'\x00'): the pieces between the null bytes. */
  function {:induction false} SplitOnNull(data: seq<byte>): (parts: seq<seq<byte>>)
    ensures |parts| == NullCount(data) + 1
    ensures forall i :: 0 <= i < |parts| ==> NUL !in parts[i]
    decreases |data|
  {
    if |data| == 0 then [[]]
    else
      var rest := SplitOnNull(data[1..]);
      assert data == [data[0]] + data[1..];
      if data[0] == NUL then [[]] + rest
      else
        assert forall i :: 1 <= i < |rest| ==> NUL !in rest[i];
        [[data[0]] + rest[0]] + rest[1..]
  }

  /** b'\x00'.join(parts), the inverse of SplitOnNull. */
  function JoinWithNull(parts: seq<seq<byte>>): seq<byte>
    requires |parts| >= 1
    decreases |parts|
  {
    if |parts| == 1 then parts[0] else parts[0] + [NUL] + JoinWithNull(parts[1..])
  }

  /** Joining the pieces gives back the bytes that were split. */
  lemma {:induction false} JoinSplit(data: seq<byte>)
    ensures JoinWithNull(SplitOnNull(data)) == data
    decreases |data|
  {
    if |data| > 0 {
      var rest, parts := SplitOnNull(data[1..]), SplitOnNull(data);
      JoinSplit(data[1..]);
      if data[0] == NUL {
        assert parts == [[]] + rest;
        JoinAfterEmpty(rest);
      } else {
        assert parts == [[data[0]] + rest[0]] + rest[1..];
        JoinPrepend(data[0], rest, parts);
      }
      assert data == [data[0]] + data[1..];
    }
  }

  /** An empty first piece contributes only its separator. */
  lemma JoinAfterEmpty(parts: seq<seq<byte>>)
    requires |parts| >= 1
    ensures JoinWithNull([[]] + parts) == [NUL] + JoinWithNull(parts)
  {
    assert ([[]] + parts)[1..] == parts;
  }

  /** A byte put in front of the first piece comes first in the join. */
  lemma JoinPrepend(b: byte, parts: seq<seq<byte>>, moved: seq<seq<byte>>)
    requires |parts| >= 1 && |moved| == |parts|
    requires moved[0] == [b] + parts[0] && moved[1..] == parts[1..]
    ensures JoinWithNull(moved) == [b] + JoinWithNull(parts)
  {
    if |parts| > 1 {
      var tail := JoinWithNull(parts[1..]);
      assert ([b] + parts[0]) + [NUL] + tail == [b] + (parts[0] + [NUL] + tail);
    }
  }

  /** Splitting a piece without a null byte followed by a null byte and
      more bytes: the piece comes first. */
  lemma {:induction false} SplitAfterPiece(piece: seq<byte>, more: seq<byte>)
    requires NUL !in piece
    ensures SplitOnNull(piece + [NUL] + more) == [piece] + SplitOnNull(more)
    ensures SplitOnNull(piece) == [piece]
    decreases |piece|
  {
    if |piece| > 0 {
      SplitAfterPiece(piece[1..], more);
      assert (piece + [NUL] + more)[1..] == piece[1..] + [NUL] + more;
      assert [piece[0]] + piece[1..] == piece;
    } else {
      assert piece + [NUL] + more == [NUL] + more;
    }
  }

  /** Splitting joined pieces that hold no null byte gives the pieces. */
  lemma {:induction false} SplitJoin(parts: seq<seq<byte>>)
    requires |parts| >= 1
    requires forall i :: 0 <= i < |parts| ==> NUL !in parts[i]
    ensures SplitOnNull(JoinWithNull(parts)) == parts
    decreases |parts|
  {
    if |parts| == 1 {
      SplitAfterPiece(parts[0], []);
    } else {
      SplitJoin(parts[1..]);
      SplitAfterPiece(parts[0], JoinWithNull(parts[1..]));
    }
  }

  /** The keyword rules of the tEXt chunk (section 4.2.3.1 of PNG 1.2) that
      the source enforces: 1 to 79 bytes, no leading or trailing space and no
      two consecutive spaces. */
  predicate ValidKeyword(keyword: seq<byte>)
  {
    0 < |keyword| < 80 && keyword[0] != SPACE && keyword[|keyword| - 1] != SPACE &&
    !HasDoubleSpace(keyword)
  }

  /** b'  ' in keyword. */
  predicate HasDoubleSpace(keyword: seq<byte>)
  {
    exists i :: 0 <= i < |keyword| - 1 && keyword[i] == SPACE && keyword[i + 1] == SPACE
  }

  /** bytes.decode('latin-1'): each byte is the character of that code. */
  function Latin1(b: seq<byte>): (s: string)
    ensures |s| == |b| && forall i :: 0 <= i < |b| ==> s[i] as int == b[i] as int
  {
    seq(|b|, i requires 0 <= i < |b| => b[i] as char)
  }

  /** str.encode('latin-1') for the strings Latin1 produces. */
  function Latin1Bytes(s: string): (b: seq<byte>)
    requires forall i :: 0 <= i < |s| ==> s[i] as int < 256
    ensures |b| == |s| && forall i :: 0 <= i < |s| ==> b[i] as int == s[i] as int
  {
    seq(|s|, i requires 0 <= i < |s| => s[i] as int as byte)
  }

  /** PNGImageTextualData.parse: the keyword and the text, decoded. */
  function ParseText(data: seq<byte>): (r: Result<(string, string)>)
    ensures NullCount(data) == 0 ==> r == Err(PNGSyntaxError(TextNoNull))
    ensures NullCount(data) > 1 ==> r == Err(PNGSyntaxError(TextTooManyNulls))
    ensures r.Ok? ==> NullCount(data) == 1
  {
    var parts := SplitOnNull(data);
    if |parts| > 2 then Err(PNGSyntaxError(TextTooManyNulls))
    else if |parts| < 2 then Err(PNGSyntaxError(TextNoNull))
    else
      var keyword, text := parts[0], parts[1];
      if !(0 < |keyword| < 80) then Err(PNGSyntaxError(TextKeywordLength))
      else if keyword[0] == SPACE || keyword[|keyword| - 1] == SPACE then Err(PNGSyntaxError(TextKeywordEdgeSpace))
      else if HasDoubleSpace(keyword) then Err(PNGSyntaxError(TextKeywordDoubleSpace))
      else Ok((Latin1(keyword), Latin1(text)))
  }

  /** A parsed tEXt chunk is its keyword, a null byte and its text, and the
      keyword obeys the rules. */
  lemma TextDecodeEncode(data: seq<byte>)
    requires ParseText(data).Ok?
    ensures var (keyword, text) := ParseText(data).value;
      var k, t := Latin1Bytes(keyword), Latin1Bytes(text);
      ValidKeyword(k) && NUL !in k && NUL !in t && data == k + [NUL] + t
  {
    var parts := SplitOnNull(data);
    JoinSplit(data);
    var (keyword, text) := ParseText(data).value;
    assert Latin1Bytes(keyword) == parts[0];
    assert Latin1Bytes(text) == parts[1];
    assert JoinWithNull(parts) == parts[0] + [NUL] + parts[1];
  }

  /** Every valid keyword and every text without a null byte is parsed back
      from their tEXt encoding. */
  lemma TextEncodeDecode(keyword: seq<byte>, text: seq<byte>)
    requires ValidKeyword(keyword) && NUL !in keyword && NUL !in text
    ensures ParseText(keyword + [NUL] + text) == Ok((Latin1(keyword), Latin1(text)))
  {
    SplitJoin([keyword, text]);
    assert JoinWithNull([keyword, text]) == keyword + [NUL] + text;
  }

  /** The rules are checked in order: a keyword of 80 bytes is refused for
      its length even when it also starts with a space. */
  lemma TextKeywordRulesInOrder(keyword: seq<byte>, text: seq<byte>)
    requires NUL !in keyword && NUL !in text
    ensures |keyword| == 0 || |keyword| >= 80 ==>
      ParseText(keyword + [NUL] + text) == Err(PNGSyntaxError(TextKeywordLength))
    ensures 0 < |keyword| < 80 && (keyword[0] == SPACE || keyword[|keyword| - 1] == SPACE) ==>
      ParseText(keyword + [NUL] + text) == Err(PNGSyntaxError(TextKeywordEdgeSpace))
    ensures 0 < |keyword| < 80 && keyword[0] != SPACE && keyword[|keyword| - 1] != SPACE && HasDoubleSpace(keyword) ==>
      ParseText(keyword + [NUL] + text) == Err(PNGSyntaxError(TextKeywordDoubleSpace))
  {
    SplitJoin([keyword, text]);
    assert JoinWithNull([keyword, text]) == keyword + [NUL] + text;
  }

  /** PNGImageTextualData: keyword and text are assigned together once all
      checks pass. */
  class TextualDataChunk {
    const chunkData: seq<byte>
    var keyword: Option<string>
    var text: Option<string>

    constructor(chunkData: seq<byte>)
      ensures this.chunkData == chunkData && keyword == None && text == None
    {
      this.chunkData := chunkData;
      keyword, text := None, None;
    }

    method Parse() returns (r: Outcome)
      modifies this
      ensures r.Pass? <==> ParseText(chunkData).Ok?
      ensures r.Pass? ==> keyword == Some(ParseText(chunkData).value.0) && text == Some(ParseText(chunkData).value.1)
      ensures r.Fail? ==> r.error == ParseText(chunkData).error && keyword == old(keyword) && text == old(text)
    {
      var parsed := ParseText(chunkData);
      if parsed.Err? {
        return Fail(parsed.error);
      }
      keyword, text := Some(parsed.value.0), Some(parsed.value.1);
      r := Pass;
    }
  }

  // Registry

  /** The classes registered with the `chunk` decorator. */
  datatype ChunkClass = ImageHeaderClass | PaletteClass | ImageDataClass | ImageTrailerClass | TextualDataClass

  /** `chunk_registry` as the module leaves it after import. */
  method NewChunkRegistry() returns (registry: Registry<ChunkClass>)
    ensures fresh(registry)
    ensures registry.store == map[IHDR := ImageHeaderClass, PLTE := PaletteClass, IDAT := ImageDataClass,
      IEND := ImageTrailerClass, tEXt := TextualDataClass]
  {
    registry := new Registry();
    var r := registry.Register(IHDR, ImageHeaderClass);
    r := registry.Register(PLTE, PaletteClass);
    r := registry.Register(IDAT, ImageDataClass);
    r := registry.Register(IEND, ImageTrailerClass);
    r := registry.Register(tEXt, TextualDataClass);
  }
}
