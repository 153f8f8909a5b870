# pngdoctor, modelled in Dafny

pngdoctor is a PNG validator that decodes a file in four stages:

- **Lexer.** The lexer (`lexer.py`) does the following:
  - checks the eight-byte PNG signature;
  - cuts the rest of the stream into chunk tokens: a head token (length, type code, position), data-part tokens of at most 4096 bytes, and an end token whose CRC-32 flag must hold;
  - enforces a 20 MiB budget on the bytes read.
- **Chunk-order parser.** The chunk-order parser (`chunk_order_parser.py`) is a finite-state machine. It decides whether the sequence of chunk codes is a legal PNG ordering. It also counts chunks, because most of them may appear only once.
- **Chunk parsers and models.** These (`chunk_parsers.py`, `models.py`) decode the IHDR, PLTE, IDAT, IEND and tEXt chunks. They check each field against the rules of the PNG 1.2 specification. They also keep registries mapping type codes to parser classes.
- **Image-data parser.** The image-data parser (`image_data_parser.py`) does the following:
  - computes how the pixels of each pass are laid out, for Adam7 and for non-interlaced images;
  - computes scanline sizes;
  - undoes the five adaptive filters of section 6 of PNG 1.2, one scanline at a time.

The model follows the code's own form:

- **Lexer.** `ChunkTokenStream` and `_SingleChunkState` are classes whose methods update their fields. Each method is proved against pure functions (`Lexer.Chunks`, `Lexer.Resume`, `Lexer.LexFrom`). Those functions are then related to an encoder of chunks. This gives a round trip and its converse.
- **Chunk order.** `ChunkOrderParser`, its transition maps and its counter are classes. Their methods are tied to a step function `ChunkOrder.Step`. The runs of that function are proved to accept exactly the ordering grammar that `fsm.py` writes down, minus forbidden repeats.
- **Chunk parsers.** The parsers are functions over byte sequences. They are proved against encoders: IHDR, PLTE and tEXt decode what was encoded, and encode back to the input.
- **Chunk models.** The model classes of `models.py` are classes whose `Parse` methods are tied to those functions.
- **Unfilterer.** The unfilterer is a class. Each of its loops is proved against a specification function `Unfiltering.Unfiltered`. That function is shown to be the exact inverse of the PNG filter `Unfiltering.Filtered`.
- **Byte types.** Bytes are a `byte` newtype over 0..255. Integers are unbounded. The CRC-32 register is a `bv32`.

## Model

| member | source | states |
|---|---|---|
| Common.CodeOf | pngdoctor/models.py:15-23 | a four-byte sequence is the byte form of the code built from it |
| Common.BigEndian4 | pngdoctor/lexer.py:117-126 | the four-byte big-endian form of a 32-bit number reads back as that number |
| Common.BigEndianInjective | pngdoctor/lexer.py:117-126 | two big-endian fields of equal width that read as the same number are the same bytes |
| Common.BigEndian4OfField | pngdoctor/lexer.py:117-126 | re-encoding a four-byte length field gives back the field |
| Crc32.CrcAppend | pngdoctor/lexer.py:234-248 | the running CRC over `a` then `b` equals the CRC of `a + b`, which is what the chunk state's incremental update relies on |
| Crc32.CheckValue | pngdoctor/tests/test_lexer.py:35-38 | the CRC-32 of "123456789" is 0xCBF43926, the standard check value |
| Crc32.RunningCheckValue | pngdoctor/tests/test_lexer.py:35-38 | feeding "1234" then "56789" into the running CRC gives the same check value |
| ChunkTypes.NewChunkType | pngdoctor/models.py:15-23 | a chunk type is built exactly when the code is four ASCII letters; otherwise ValueError |
| ChunkTypes.PropertyBitIsLowerCase | pngdoctor/models.py:25-39 | for an ASCII letter, the 0x20 property bit is set exactly when the letter is lower case |
| ChunkTypes.BlobProperties | pngdoctor/tests/test_models.py:9-14 | the code bLOb is ancillary, public, not reserved, and safe to copy |
| ChunkTypes.CodeTypesTable | pngdoctor/models.py:73-92 | the standard table has 18 entries, each keyed by its own code |
| ChunkTypes.StandardCodesClassified | pngdoctor/models.py:46-70 | every standard code is valid, and exactly the first four (IHDR, PLTE, IDAT, IEND) are critical |
| FieldValues.MemberTablesInvertValues | pngdoctor/fieldvalues.py:7-33 | each enumeration's value table and its `Value()` are inverse; colour types are {0,2,3,4,6} and filter types are {0..4} |
| FieldValues.AllowedBitDepths | pngdoctor/models.py:189-194 | every colour type's allowed depths lie within {1,2,4,8,16} and include 8 |
| FieldValues.AllowedDepthsShape | pngdoctor/models.py:185-194 | only greyscale and indexed allow depths below 8; indexed allows none above 8; the others allow only 8 and 16 |
| FieldValues.MemberTestNeverHolds | pngdoctor/chunk_parsers.py:67-80 | testing a raw integer against the enumeration's member objects never succeeds, even when the value is in the table |
| Registries.RegisterAll | pngdoctor/chunk_parsers.py:121-135 | registering a list succeeds exactly when no code repeats an existing or earlier one, and keeps old entries; otherwise RuntimeError |
| Registries.Registry.Register | pngdoctor/chunk_parsers.py:125-133 | a code already present fails with RuntimeError and leaves the store alone; a new code is added with its class |
| Registries.SecondRegistrationFails | pngdoctor/models.py:149-156 | registering the same code twice is a RuntimeError |
| ChunkParsers.PackUnpack | pngdoctor/chunk_parsers.py:158-166 | the `>IIBBBBB` unpacking of 13 bytes packs back to the same bytes |
| ChunkParsers.ParseEnum | pngdoctor/chunk_parsers.py:67-80 | an enumeration value is accepted exactly when it is in the table, and gives that member; otherwise PNGSyntaxError with the field's reason |
| ChunkParsers.ParseImageHeaderAsWritten | pngdoctor/chunk_parsers.py:158-192 | as written, IHDR parsing fails on every input; data whose length is not 13 fails with IhdrLength |
| ChunkParsers.ParseImageHeader | pngdoctor/chunk_parsers.py:194-203 | IHDR data whose length is not 13 is rejected with IhdrLength |
| ChunkParsers.ImageHeaderErrorOrder | pngdoctor/chunk_parsers.py:158-229 | IHDR parsing succeeds exactly when every field check passes, and otherwise reports the first failing check in the source's order |
| ChunkParsers.ImageHeaderDecodeEncode | pngdoctor/chunk_parsers.py:158-192 | a parsed header is valid and encodes back to the input bytes |
| ChunkParsers.ImageHeaderEncodeDecode | pngdoctor/chunk_parsers.py:158-192 | every valid header survives encoding and then parsing |
| ChunkParsers.OneByOneRgbHeader | pngdoctor/chunk_parsers.py:158-192 | a 1×1 8-bit RGB header parses with the intended lookup, and is refused with the lookup as written |
| ChunkParsers.ImageHeaderAsWrittenAlwaysFails | pngdoctor/chunk_parsers.py:67-80 | with the membership test as written, every IHDR is rejected; once the plain fields pass, it fails on the colour type |
| ChunkParsers.Triples | pngdoctor/chunk_parsers.py:278-285 | the palette has one RGB triple per three bytes, and entry i holds bytes 3i, 3i+1, 3i+2 |
| ChunkParsers.FlattenTriples | pngdoctor/chunk_parsers.py:278-285 | grouping a multiple-of-three byte string into triples loses nothing |
| ChunkParsers.ValidatePaletteLength | pngdoctor/chunk_parsers.py:246-270 | a palette length passes exactly when it is a positive multiple of 3 of at most 256 entries; each failure has its own reason |
| ChunkParsers.ParsePalette | pngdoctor/chunk_parsers.py:241-285 | PLTE is accepted exactly when its length is valid, it fits the indexed bit depth, and the colour type allows a palette; the entries are the data's triples |
| ChunkParsers.PaletteRoundTrip | pngdoctor/chunk_parsers.py:278-285 | a 1-256-entry palette parses back from its bytes under any header whose colour type allows a palette; for indexed colour the palette has at most 2^depth entries |
| ChunkParsers.FlattenInjective | pngdoctor/chunk_parsers.py:278-285 | distinct palettes have distinct byte forms |
| ChunkParsers.ParseTrailer | pngdoctor/chunk_parsers.py:306-312 | IEND passes exactly when its data is empty; otherwise TrailerNotEmpty |
| ChunkParsers.NewChunkParserRegistry | pngdoctor/chunk_parsers.py:121-145 | the registry holds the IHDR and PLTE parsers and nothing else (the IEND registration is commented out) |
| Models.ImageHeaderChunk.constructor | pngdoctor/models.py:104-110 | a new IHDR model holds the chunk data, with every attribute unset |
| Models.ImageHeaderChunk.Parse | pngdoctor/models.py:222-234 | the attributes and outcome are those of the stepwise parse from the previous attributes |
| Models.ModelHeaderAgreesWithParser | pngdoctor/models.py:222-326 | the model class accepts exactly the IHDR data the parser accepts, with the same fields; a wrong length changes nothing; any other failure is the first failing check of the class's own order |
| Models.HeaderAssignedStepwise | pngdoctor/models.py:257-326 | a bit-depth failure leaves width and height assigned; a depth-for-colour failure comes after every field was assigned |
| Models.ParseHeaderAttributes | pngdoctor/models.py:222-326 | data whose length is not 13 is IhdrLength with the attributes untouched; on success all seven attributes are set, the dimensions lie in 1..2^31-1 and the bit depth is one the colour type allows |
| Models.HeaderCheckOrdersDiffer | pngdoctor/models.py:222-234 | for one input, the class reports the compression method while the parser with the lookup by value reports the depth for the colour, because they check in different orders |
| Models.PaletteChunk.Parse | pngdoctor/models.py:337-361 | the length check decides the outcome; on success the palette is the data's triples and flattens back to the data; on failure it is unchanged |
| Models.PaletteClassAcceptsParsed | pngdoctor/models.py:344-361 | data that the PLTE parser accepts, the PLTE class accepts too, with the same palette |
| Models.ImageDataChunk.Parse | pngdoctor/models.py:370-371 | the IDAT model stores the chunk data unchanged as its compressed data |
| Models.ImageTrailerChunk.Parse | pngdoctor/models.py:381-383 | the IEND model passes exactly when the data is empty; otherwise TrailerNotEmpty |
| Models.SplitOnNull | pngdoctor/models.py:406 | splitting on NUL gives one piece more than there are NUL bytes, and no piece contains NUL |
| Models.JoinSplit | pngdoctor/models.py:406 | joining the pieces with NUL restores the data |
| Models.SplitJoin | pngdoctor/models.py:406 | splitting NUL-free pieces joined with NUL gives back the pieces |
| Models.Latin1 | pngdoctor/models.py:425-426 | Latin-1 decoding maps each byte to the character with the same code |
| Models.ParseText | pngdoctor/models.py:403-413 | tEXt data with no NUL or with more than one NUL is rejected with its own reason; accepted data has exactly one |
| Models.TextDecodeEncode | pngdoctor/models.py:403-426 | accepted tEXt data is a valid keyword, a NUL, and NUL-free text, in that order |
| Models.TextEncodeDecode | pngdoctor/models.py:403-426 | a valid keyword and any NUL-free text parse back as their Latin-1 strings |
| Models.TextKeywordRulesInOrder | pngdoctor/models.py:414-424 | keyword length is checked first, then leading and trailing spaces, then double spaces, each with its own reason |
| Models.TextualDataChunk.Parse | pngdoctor/models.py:403-426 | the tEXt model passes exactly when the data parses, and stores the keyword and text; a failure carries the parser's reason and changes nothing |
| Models.NewChunkRegistry | pngdoctor/models.py:146-156 | the model registry maps IHDR, PLTE, IDAT, IEND and tEXt to their classes |
| Unfiltering.SamplesPerPixel | pngdoctor/image_data_parser.py:144-152 | every colour type has between 1 and 4 samples per pixel |
| Unfiltering.CeilDiv | pngdoctor/image_data_parser.py:155-164 | the result is the least quotient that covers `a`, i.e. the ceiling of a/b |
| Unfiltering.BytesPerPixel | pngdoctor/image_data_parser.py:203-210 | the filter distance is at least one byte |
| Unfiltering.IndexedPixelIsOneSample | pngdoctor/image_data_parser.py:144-152 | an indexed pixel has as many bits as the depth and one filter byte, where the source's table gives three samples |
| Unfiltering.PaethPredictor | pngdoctor/image_data_parser.py:304-316 | the prediction is one of its three neighbours |
| Unfiltering.PaethIsNearest | pngdoctor/image_data_parser.py:304-316 | the predictor picks the neighbour nearest to left+above-upper-left, breaking ties left, then above, then upper-left |
| Unfiltering.Unfiltered | pngdoctor/image_data_parser.py:249-301 | reconstructing a filtered line keeps its length; Unfiltering.UnfilteredAt and Unfiltering.UnfilterFiltered state what each byte is |
| Unfiltering.Filtered | pngdoctor/image_data_parser.py:249-301 | the PNG filter the reconstruction inverts keeps the line's length |
| Unfiltering.UnfilterStep | pngdoctor/image_data_parser.py:212-238 | a step succeeds exactly when the line has a filter byte of 0-4 and, after the first line, the previous line's length; it returns one byte fewer and remembers the result; a length mismatch is ParserStateError and keeps the previous line |
| Unfiltering.UnfilteredAt | pngdoctor/image_data_parser.py:249-301 | each reconstructed byte is the filtered byte plus the filter's prediction from the reconstructed left byte and the previous line, mod 256 |
| Unfiltering.UnfilterFiltered | pngdoctor/image_data_parser.py:249-301 | reversing each of the five filters recovers every scanline that filter produced |
| Unfiltering.FilterUnfiltered | pngdoctor/image_data_parser.py:249-301 | filtering the reconstruction gives back the filtered bytes, so the reversal is a bijection |
| Unfiltering.NoneAndSubIgnorePrevious | pngdoctor/image_data_parser.py:249-263 | the None and Sub filters do not depend on the previous scanline, and None returns the data |
| Unfiltering.UnfilterStepRecoversScanline | pngdoctor/image_data_parser.py:212-238 | one step on a filter byte followed by a filtered line returns the raw line and remembers it as the previous line (zeros before the first) |
| Unfiltering.FilterTypeCheckAsWrittenRefusesAll | pngdoctor/image_data_parser.py:240-247 | the filter-type check as written refuses every byte, including the five valid types |
| Unfiltering.Unfilterer.constructor | pngdoctor/image_data_parser.py:203-210 | a new unfilterer has the colour type, the depth, the bytes per pixel, and no previous scanline |
| Unfiltering.Unfilterer.UnfilterScanline | pngdoctor/image_data_parser.py:212-238 | the result and the new previous line are those of one unfilter step from the old previous line |
| Unfiltering.Unfilterer.UnfilterNone | pngdoctor/image_data_parser.py:249-251 | the None filter returns the data unchanged |
| Unfiltering.Unfilterer.UnfilterSub | pngdoctor/image_data_parser.py:253-263 | the loop computes the Sub reconstruction |
| Unfiltering.Unfilterer.UnfilterUp | pngdoctor/image_data_parser.py:265-272 | the loop computes the Up reconstruction against the previous line |
| Unfiltering.Unfilterer.UnfilterAverage | pngdoctor/image_data_parser.py:274-286 | the loop computes the Average reconstruction, reading the left byte from the decoded output |
| Unfiltering.Unfilterer.UnfilterAverageAsWritten | pngdoctor/image_data_parser.py:274-286 | as written, the loop raises IndexError exactly when the line is longer than one pixel; otherwise it agrees with the reconstruction |
| Unfiltering.Unfilterer.UnfilterPaeth | pngdoctor/image_data_parser.py:288-301 | the loop computes the Paeth reconstruction |
| ImageData.Range | pngdoctor/image_data_parser.py:112-141 | a Python range is strictly increasing and stays within [start, stop) |
| ImageData.RangeMember | pngdoctor/image_data_parser.py:112-141 | a value is in the range exactly when it is below stop and on the start+k·step axis |
| ImageData.ProductMembers | pngdoctor/image_data_parser.py:107-141 | the pixel product holds exactly the pairs of an x and a y from the two ranges |
| ImageData.ProductIncreasing | pngdoctor/image_data_parser.py:107-141 | the product of increasing ranges is ordered x-major, with no repeats |
| ImageData.Adam7Locator | pngdoctor/image_data_parser.py:112-141 | the Adam7 locator produces seven passes |
| ImageData.Adam7PassMembers | pngdoctor/image_data_parser.py:112-141 | pass k holds exactly the in-bounds pixels whose Adam7 pass is k |
| ImageData.Adam7Pattern | pngdoctor/image_data_parser.py:112-141 | a pixel's Adam7 pass is k exactly when its coordinates match pass k's start and step |
| ImageData.ConcatInOrder | pngdoctor/image_data_parser.py:112-141 | concatenating passes each in order gives a sequence ordered by pass, then x, then y, whose members are the passes' members |
| ImageData.Adam7LocatesEveryPixelOnce | pngdoctor/image_data_parser.py:112-141 | the Adam7 passes visit every pixel of the image exactly once, in pass order |
| ImageData.NoInterlaceLocatesEveryPixelOnce | pngdoctor/image_data_parser.py:107-109 | the non-interlaced locator visits every pixel exactly once |
| ImageData.ScanlineSizes | pngdoctor/image_data_parser.py:155-164 | a non-interlaced image has one scanline per row |
| ImageData.ScanlineHoldsOneRow | pngdoctor/image_data_parser.py:155-164 | each scanline is one filter byte plus the fewest bytes that hold a row's bits |
| ImageData.IndexedScanline | pngdoctor/image_data_parser.py:144-164 | a 1×1 indexed 8-bit image needs a 2-byte scanline; the source's three samples would give 4 |
| ImageData.FromImageHeader | pngdoctor/image_data_parser.py:19-63 | the stream parser keeps the colour type and depth, with seven passes for Adam7 and one otherwise |
| ImageData.StreamParserLocatesEveryPixel | pngdoctor/image_data_parser.py:19-63 | the parser built from a header visits every pixel of the image exactly once |
| ImageData.NewSubimageUnfilterer | pngdoctor/image_data_parser.py:53-57 | the factory builds a fresh unfilterer for the header's colour type and depth |
| Adam7Example.IncreasingWithSameMembers | pngdoctor/tests/test_image_data_parser.py:54-135 | two pass-ordered pixel lists with the same members are equal |
| Adam7Example.Adam7SingleRow | pngdoctor/tests/test_image_data_parser.py:54-135 | a 10×1 image is visited in the order 0, 8, 4, 2, 6, 1, 3, 5, 7, 9 |
| Lexer.ReadAt | pngdoctor/lexer.py:169-194 | a read succeeds exactly when it fits the 20 MiB budget and the input; over budget it is PNGTooLarge with nothing consumed; a short read is UnexpectedEOF and consumes the rest |
| Lexer.HeadAt | pngdoctor/lexer.py:101-136 | a chunk head carries the big-endian length (at most 2^31-1), a code of four letters and its position, and consumes seven bytes after the first |
| Lexer.SingleChunkState.constructor | pngdoctor/lexer.py:228-232 | a new chunk state has the chunk's whole length remaining and the CRC of its type code |
| Lexer.SingleChunkState.Update | pngdoctor/lexer.py:234-251 | data not of the announced read size is a ValueError and changes nothing; otherwise the data is consumed, the remaining length drops by its size and the CRC extends over it |
| Lexer.CrcExtends | pngdoctor/lexer.py:234-248 | the running CRC is always the CRC of the type code followed by all data consumed so far |
| Lexer.ChunkTokenStream.constructor | pngdoctor/lexer.py:54-56 | a new stream has read nothing and has no chunk in progress |
| Lexer.ChunkTokenStream.Read | pngdoctor/lexer.py:169-194 | a read returns the result of the budgeted read and moves the byte count |
| Lexer.ChunkTokenStream.ValidateSignature | pngdoctor/lexer.py:91-99 | the signature check fails with the read's error, or SignatureMismatch when the eight bytes differ |
| Lexer.ChunkTokenStream.GetChunkHead | pngdoctor/lexer.py:101-136 | reading a head while a chunk is in progress is a stream-state error; otherwise the result is the head read at the position, and a new chunk state starts |
| Lexer.ChunkTokenStream.GetChunkData | pngdoctor/lexer.py:138-150 | a data part reads the next announced size, updates the chunk state, and is a stream-state error when nothing is due |
| Lexer.ChunkTokenStream.GetChunkEnd | pngdoctor/lexer.py:152-167 | the end token is due only when no data remains; it reads four bytes, compares them with the running CRC, and closes the chunk |
| Lexer.ChunkTokenStream.NextChunk | pngdoctor/lexer.py:69-89 | one round of the loop emits the tokens of the next chunk, or stops with the outcome of the whole remaining run; the byte count never goes down, and a normal stop leaves it at the end of the input with the chunk state unchanged |
| Lexer.ChunkTokenStream.Iterate | pngdoctor/lexer.py:58-89 | iterating yields exactly the tokens and outcome the lexing function gives for the input; the byte count never goes down and stays within the 20 MiB budget, and a normal end has read the whole input with no chunk in progress |
| Lexer.LexFrom | pngdoctor/lexer.py:58-99 | any token, and a normal end, require the eight signature bytes at the start of the unread input |
| Lexer.Lex | pngdoctor/lexer.py:58-99 | a fresh framer yields tokens, or ends normally, only on input that starts with the PNG signature, and its first token is a chunk head |
| LexerProps.ChunksFirst | pngdoctor/lexer.py:69-80 | between chunks the first token is the head of the next chunk, at the position one past its first byte; with a chunk still in flight nothing is yielded |
| LexerProps.ResumeFirst | pngdoctor/lexer.py:80-89 | inside a chunk the first token is a non-empty data part of at most 4096 bytes while data remains, and the end token once none does |
| Lexer.ChunksHead | pngdoctor/lexer.py:69-80 | after a valid head, the tokens are the head token and what the chunk body yields |
| Lexer.ResumeDataStep | pngdoctor/lexer.py:80-81 | while data remains, the next token is a data part of at most 4096 bytes, unless the read fails |
| Lexer.ResumeEndStep | pngdoctor/lexer.py:82-89 | with no data left, the end is read; a CRC mismatch stops with BadCRC, otherwise the end token is followed by the next chunk |
| LexerProps.Encode | pngdoctor/lexer.py:101-167 | a chunk encodes as its length, code, data and CRC fields, 12 bytes more than its data |
| LexerProps.PartsCoverData | pngdoctor/lexer.py:222-251 | the data parts concatenate to the chunk data, each non-empty and at most 4096 bytes, and only the last may be shorter |
| LexerProps.ChunkBody | pngdoctor/lexer.py:77-89 | a chunk that fits the input yields its head, its data parts and, when the CRC matches, its end token followed by the next chunk; otherwise BadCRC |
| LexerProps.ChunkAtRight | pngdoctor/lexer.py:77-89 | an encoded chunk with a right CRC lexes to its tokens, then lexing continues after it |
| LexerProps.ChunkAtWrong | pngdoctor/lexer.py:83-88 | an encoded chunk with a wrong CRC yields its head and data, then fails with BadCRC |
| LexerProps.ChunksOfPrefix | pngdoctor/lexer.py:69-89 | a run of well-formed chunks with right CRCs lexes to all their tokens in order |
| LexerProps.LexAfterSignature | pngdoctor/lexer.py:68 | after a matching signature, lexing is chunk reading from offset 8 |
| LexerProps.LexEncoding | pngdoctor/lexer.py:58-89 | the signature followed by encoded chunks, under the 20 MiB budget, lexes to exactly their tokens and passes |
| LexerProps.LexEncodingAtBudget | pngdoctor/lexer.py:169-178 | an encoding that exactly fills the budget yields every token and then fails with PNGTooLarge on the end-of-file probe |
| LexerProps.ResumeNeedsData | pngdoctor/lexer.py:80-89 | a chunk that finishes successfully had all its remaining data and its CRC within the input and the budget |
| LexerProps.PassChunk | pngdoctor/lexer.py:77-89 | chunk reading that passes starts with a well-formed chunk with a right CRC |
| LexerProps.PassIsEncoding | pngdoctor/lexer.py:69-89 | chunk reading passes only on an input that is a sequence of encoded chunks with right CRCs, and the tokens are theirs |
| LexerProps.LexPassIsEncoding | pngdoctor/lexer.py:58-89 | lexing passes only on the signature followed by encoded chunks with right CRCs under the budget, and yields their tokens |
| LexerProps.LexShortInput | pngdoctor/lexer.py:91-93 | an input shorter than the signature fails with UnexpectedEOF |
| LexerProps.LexBadSignature | pngdoctor/lexer.py:91-99 | a wrong signature fails with SignatureMismatch before any token |
| LexerProps.LexAfterChunks | pngdoctor/lexer.py:69-89 | after good chunks, lexing continues with whatever follows them |
| LexerProps.LexBadCrc | pngdoctor/lexer.py:83-88 | a chunk with a wrong CRC after good chunks yields everything up to its data, then BadCRC |
| LexerProps.LexChunkTooLong | pngdoctor/lexer.py:117-126 | a length field above 2^31-1 after good chunks fails with ChunkTooLong before a head token |
| LexerProps.LexBadTypeCode | pngdoctor/lexer.py:127-133 | a type code that is not four letters after good chunks fails with BadTypeCode |
| ChunkOrder.CodeClassesDisjoint | pngdoctor/chunk_order_parser.py:22-56 | the five code classes are pairwise disjoint |
| ChunkOrder.KnownIsStandardCodes | pngdoctor/chunk_order_parser.py:50-61 | the known codes are exactly the 18 standard codes, and the repeatable ones are known |
| ChunkOrder.EveryState | pngdoctor/chunk_order_parser.py:65-72 | the state list holds every state |
| ChunkOrder.TransitionMap.constructor | pngdoctor/chunk_order_parser.py:215-217 | a new transition map is empty with no unknown-chunk state |
| ChunkOrder.TransitionMap.AddOneTransition | pngdoctor/chunk_order_parser.py:219-234 | adding a code already present is a ValueError and changes nothing; otherwise the code maps to the state |
| ChunkOrder.TransitionMap.AddTransitions | pngdoctor/chunk_order_parser.py:236-239 | adding code sets succeeds exactly when they are disjoint from each other and from the map, and then maps every code in them to the state |
| ChunkOrder.TransitionMap.SetUnknownChunkNextState | pngdoctor/chunk_order_parser.py:241-242 | unknown codes now lead to the given state; the entries are unchanged |
| ChunkOrder.TransitionMap.Get | pngdoctor/chunk_order_parser.py:244-252 | lookup gives the entry, nothing for a known code without one, and the unknown-chunk state for other codes |
| ChunkOrder.ChunkCountValidator.Check | pngdoctor/chunk_order_parser.py:195-204 | a repeat of a once-only code is RepeatedChunk and changes nothing; otherwise the code's count goes up by one |
| ChunkOrder.ChunkOrderParser.constructor | pngdoctor/chunk_order_parser.py:85-150 | a new parser is in the initial configuration, before the header with nothing counted |
| ChunkOrder.ChunkOrderParser.Validate | pngdoctor/chunk_order_parser.py:152-174 | validating a code moves the parser exactly as the step function says |
| ChunkOrder.ChunkOrderParser.ValidateEnd | pngdoctor/chunk_order_parser.py:176-181 | the end check passes exactly after IEND |
| ChunkOrder.NextStateShape | pngdoctor/chunk_order_parser.py:89-147 | only IHDR leaves the first state and IHDR is refused everywhere else; only IEND after the data reaches the final state; IDAT always leads into the data; nothing leaves the final state |
| ChunkOrder.Step | pngdoctor/chunk_order_parser.py:152-174 | a code passes exactly when its count allows it and the state has a transition for it; on success the state moves and the code is counted; an order violation still counts the code; a repeat changes nothing |
| ChunkOrder.EndCheck | pngdoctor/chunk_order_parser.py:176-181 | the end check passes exactly in the state after IEND, and otherwise fails with Missing IEND |
| ChunkOrder.Run | pngdoctor/chunk_order_parser.py:152-174 | validating codes one after another stops only with an order violation or a repeated chunk |
| ChunkOrder.Accepts | pngdoctor/chunk_order_parser.py:152-181 | an accepted sequence is non-empty and starts with IHDR |
| ChunkOrder.BeforeHeaderTransitions | pngdoctor/chunk_order_parser.py:89-91 | the map built for the state before the header agrees with the transition function |
| ChunkOrder.BeforePaletteTransitions | pngdoctor/chunk_order_parser.py:93-109 | the map built for the state before the palette agrees with the transition function |
| ChunkOrder.AfterPaletteBeforeDataTransitions | pngdoctor/chunk_order_parser.py:111-119 | the map built for the state after the palette agrees with the transition function |
| ChunkOrder.DuringDataTransitions | pngdoctor/chunk_order_parser.py:121-129 | the map built for the state during the data agrees with the transition function |
| ChunkOrder.AfterDataTransitions | pngdoctor/chunk_order_parser.py:131-137 | the map built for the state after the data agrees with the transition function |
| ChunkOrderGrammar.FsmAcceptsOrderGrammar | pngdoctor/fsm.py:47-58 | the transitions accept exactly the ordering grammar IHDR, then pre-palette codes, an optional PLTE, post-palette codes, one or more IDAT, then anywhere codes and IEND |
| ChunkOrderGrammar.RunDecomposes | pngdoctor/chunk_order_parser.py:152-174 | a run of validate calls succeeds exactly when the transitions accept and every count check passes, and ends in the reached state with every code counted |
| ChunkOrderGrammar.CountsPassFromStart | pngdoctor/chunk_order_parser.py:184-204 | from a fresh parser the count checks pass exactly when no once-only standard code repeats |
| ChunkOrderGrammar.AcceptsIffGrammar | pngdoctor/chunk_order_parser.py:152-181 | validating every code and then the end succeeds exactly on grammar orderings without forbidden repeats |
| ChunkOrderGrammar.AcceptedShape | pngdoctor/chunk_order_parser.py:85-181 | an accepted ordering starts with its only IHDR, ends with its only IEND, and its IDAT chunks are one non-empty consecutive run |
| ChunkOrderGrammar.UnknownCodesAccepted | pngdoctor/chunk_order_parser.py:93-137 | an unknown code is accepted between IHDR and IEND, keeps the state, and ends the data run |
| ChunkOrderGrammar.ExamplePlainOrderings | pngdoctor/tests/test_chunk_order_parser.py:22-95 | IHDR IDAT IEND and IHDR PLTE IDAT IEND are accepted |
| ChunkOrderGrammar.ExampleUnknownOrderings | pngdoctor/tests/test_chunk_order_parser.py:22-95 | an unknown chunk is accepted before the palette, after it, and after the data |
| ChunkOrderGrammar.ExampleFirstChunkNotHeader | pngdoctor/tests/test_chunk_order_parser.py:22-95 | any first chunk other than IHDR is an order violation |
| ChunkOrderGrammar.ExampleMissingEnd | pngdoctor/tests/test_chunk_order_parser.py:22-95 | IHDR IDAT passes validation but not the end check |
| ChunkOrderGrammar.ExampleChunkAfterEnd | pngdoctor/tests/test_chunk_order_parser.py:22-95 | a chunk after IEND is an order violation |
| ChunkOrderGrammar.ExamplePaletteWithoutData | pngdoctor/tests/test_chunk_order_parser.py:22-95 | IHDR PLTE IEND is an order violation at IEND |

## Left out

- Decompression: the zlib decompression in `_Deflate32KDecompressor` and the splitting of the decompressed stream into scanlines are not modelled. They are foreign code: the `zlib` module.
- CRC-32: `zlib.crc32` is modelled by the bitwise CRC-32 definition of section 3.4 of PNG 1.2, so there is no lookup table.
- Lexer I/O: the lexer's stream is a byte sequence, and short reads are reads past its end. The Python generator becomes a method returning the token list and the outcome.
- Messages: logging and exception messages are not modelled; errors carry a reason tag instead.
- Type checks: the `isinstance`/TypeError checks cannot arise with typed values.
- Models.ParseHeaderAttributes: `models.py:267-269` formats a message with a named field passed positionally, which would raise KeyError. It is modelled as the intended PNGSyntaxError for a bad bit depth.
- Models.ImageHeaderChunk.Parse: the width and height checks of `models.py:257-261` compare against the height bounds for both fields. Since the width and height bounds are equal, this is modelled as written.
- Missing types: several names the modules use are not defined where they look for them, so `lexer.py`, `chunk_order_parser.py` and `chunk_parsers.py` fail on import as written. `models.ImageHeader` and `models.Palette` are used by `chunk_parsers.py` but not defined in `models.py`; they are modelled as the `ImageHeader` datatype and a sequence of RGB triples. `lexer.py:29` subclasses `typing.Iterable[models.ChunkToken]`, and `lexer.py:134`, `lexer.py:150` and `lexer.py:165` build `models.ChunkHeadToken`, `models.ChunkDataPartToken` and `models.ChunkEndToken`; none of them is defined in `models.py`. They are modelled as the `Token` datatype. `chunktypes.py:6` imports `ChunkType` from `pngdoctor.models`, which defines `PNGChunkType` (`models.py:15`) instead. It is modelled as the `Code` type with its constructor `ChunkTypes.NewChunkType`.
- tEXt parser: the tEXt parser of `chunk_parsers.py:372-398` is unregistered and reads a `data_token` its base class never sets. tEXt decoding is modelled once, after `models.py:396-426`.
- Unimplemented parsers: the unimplemented ancillary parsers and `_ImageDataChunkParser` are not modelled. `UnknownPNGChunk` and the `repr` helpers are not modelled either.
- Unused constants: `TEXTUAL_KEYWORD_ALLOWED_BYTES` is defined but never used by the source. The `max_data_size` attributes are never enforced.
- Adam7 scanline sizes: the Adam7 branch of `_calculate_scanline_sizes` (`image_data_parser.py:165-189`) is not modelled. It groups rows per pass without using the bits per pixel, and the model computes sizes only for non-interlaced images.
- Locators: the pixel generators become lists of pixels in the same order, x outer and y inner, as the source and its tests have it. The Adam7 `assert width > 0 and height > 0` is not modelled; the IHDR checks guarantee it.
- ImageData.FromImageHeader: the UnsupportedField branches of `from_image_header` cannot be reached with enumeration-typed headers, so the function always returns Ok.
- Unfiltering.Unfilterer.constructor: requires a bit depth of at least 1, which the IHDR checks guarantee. The source divides by it without a check.
- Unfiltering.UnfilterStep: the first scanline's "previous line" is the text string `'\x00' * n` at `image_data_parser.py:221`. It is modelled as n zero bytes, its evident intent.
- Adam7Example.Adam7SingleRow: takes the width and height as parameters pinned to 10 and 1 by its precondition.
- Chunk-order messages: the chunk-order parser's error messages and the unknown-chunk logging are not modelled.

## Findings

| source | as written | input that shows it | evidently intended | confidence | as-written member | corrected member |
|---|---|---|---|---|---|---|
| pngdoctor/chunk_parsers.py:73 | `value not in enumeration.__members__.values()` compares an integer with enumeration members, so it is always true | the 1×1 8-bit RGB header `ONE_BY_ONE_RGB` is rejected on its colour type | accept a value exactly when some member has it | not executed | ChunkParsers.ImageHeaderAsWrittenAlwaysFails | ChunkParsers.ImageHeaderEncodeDecode |
| pngdoctor/image_data_parser.py:242-247 | the same membership test refuses every filter-type byte | any scanline, e.g. filter byte 0 | accept filter types 0-4 | not executed | Unfiltering.FilterTypeCheckAsWrittenRefusesAll | Unfiltering.UnfilterStepRecoversScanline |
| pngdoctor/image_data_parser.py:282 | Average indexes `decoded_scanline_bytes[pos]`, a list that holds only the first `pos` bytes | bytes per pixel 1, data [0, 0]: IndexError at pos 1 | read the left byte at `offset`, i.e. `pos - bpp` | not executed | Unfiltering.Unfilterer.UnfilterAverageAsWritten | Unfiltering.Unfilterer.UnfilterAverage |
| pngdoctor/image_data_parser.py:148 | an indexed pixel is given 3 samples | a 1×1 indexed 8-bit image gets a 4-byte scanline instead of 2; `_bytes_per_pixel` (`image_data_parser.py:206-207`) becomes 3 instead of 1, so Sub, Average and Paeth look back 3 bytes instead of 1 on indexed images | one sample (the palette index) per indexed pixel | not executed | Unfiltering.SamplesPerPixelAsWritten | Unfiltering.IndexedPixelIsOneSample |
