/**
 * The chunk framer: it checks the eight-byte PNG signature, then splits the
 * rest of the byte stream into chunks (section 3.2 of PNG 1.2: a four-byte
 * big-endian length, a four-byte type code, the data, a four-byte CRC) and
 * produces one head token, the data in parts of at most 4096 bytes, and one
 * end token per chunk. Every read is charged against a 20 MiB budget.
 *
 * The specification is the function LexFrom; the classes ChunkTokenStream
 * and SingleChunkState are the stateful framer, and ChunkTokenStream.Iterate
 * is proved to produce exactly what LexFrom describes.
 */
module Lexer {
  import opened Common
  import opened Crc32
  import opened ChunkTypes

  const PNG_SIGNATURE: seq<byte> := [0x89, 0x50, 0x4E, 0x47, 0x0D, 0x0A, 0x1A, 0x0A]

  /** The read budget: 20 MiB. */
  const PNG_MAX_FILE_SIZE: nat := 20 * 0x10_0000

  /** The largest length a chunk may declare, 2^31 - 1. */
  const PNG_MAX_CHUNK_LENGTH: nat := 0x7FFF_FFFF

  /** The largest data part handed out at once, 4 KiB. */
  const PNG_CHUNK_MAX_DATA_READ: nat := 4096

  /** ChunkHeadToken: declared data length, type code, and the stream
      position after the first byte of the length field. */
  datatype ChunkHead = ChunkHead(length: nat, code: Code, position: nat)

  datatype Token =
    | HeadToken(head: ChunkHead)
    | DataPartToken(head: ChunkHead, data: seq<byte>)
    | EndToken(head: ChunkHead, crcOk: bool)

  /** The outcome of one `_read` from position `total` of `input`: the bytes
      or the error, and the byte count afterwards (short reads still count). */
  datatype ReadStep = ReadStep(result: Result<seq<byte>>, total: nat)

  function ReadAt(input: seq<byte>, total: nat, length: nat): (r: ReadStep)
    requires total <= |input|
    ensures total <= r.total <= |input|
    ensures r.result.Ok? <==> total + length <= PNG_MAX_FILE_SIZE && total + length <= |input|
    ensures r.result.Ok? ==> r.total == total + length && r.result.value == input[total..total + length]
    ensures r.result.Err? && total + length > PNG_MAX_FILE_SIZE ==> r.result.error == PNGTooLarge && r.total == total
    ensures r.result.Err? && total + length <= PNG_MAX_FILE_SIZE ==> r.result.error == UnexpectedEOF && r.total == |input|
  {
    if length + total > PNG_MAX_FILE_SIZE then ReadStep(Err(PNGTooLarge), total)
    else
      var actual := Min(length, |input| - total);
      if length > actual then ReadStep(Err(UnexpectedEOF), total + actual)
      else ReadStep(Ok(input[total..total + length]), total + length)
  }

  /** `_get_chunk_head` after the probe byte `first` was read at `total - 1`:
      the rest of the length field, the length limit, then the code. */
  function HeadAt(input: seq<byte>, total: nat, first: byte): (r: (Result<ChunkHead>, nat))
    requires total <= |input|
    ensures total <= r.1 <= |input|
    ensures r.0.Ok? ==> r.1 == total + 7 && r.0.value.position == total &&
                        r.0.value.length <= PNG_MAX_CHUNK_LENGTH && ValidCode(r.0.value.code) &&
                        BigEndian([first] + input[total..total + 3]) == r.0.value.length &&
                        r.0.value.code.Bytes() == input[total + 3..total + 7]
  {
    var lengthRead := ReadAt(input, total, 3);
    if lengthRead.result.Err? then (Err(lengthRead.result.error), lengthRead.total)
    else
      var length := BigEndian([first] + lengthRead.result.value);
      if length > PNG_MAX_CHUNK_LENGTH then (Err(PNGSyntaxError(ChunkTooLong)), lengthRead.total)
      else
        var codeRead := ReadAt(input, lengthRead.total, 4);
        if codeRead.result.Err? then (Err(codeRead.result.error), codeRead.total)
        else
          var code := codeRead.result.value;
          if !(AllowedByte(code[0]) && AllowedByte(code[1]) && AllowedByte(code[2]) && AllowedByte(code[3]))
          then (Err(PNGSyntaxError(BadTypeCode)), codeRead.total)
          else (Ok(ChunkHead(length, CodeOf(code), total)), codeRead.total)
  }

  /** What the framer yields from position `pos` between chunks, and how it
      stops: Pass when the one-byte probe finds the end of the stream.
      `inFlight` says that a chunk was left unfinished, which makes the next
      head fail. */
  function Chunks(input: seq<byte>, pos: nat, inFlight: bool): (seq<Token>, Outcome)
    requires pos <= |input|
    decreases |input| - pos, 1
  {
    var probe := ReadAt(input, pos, 1);
    if probe.result.Err? then
      if probe.result.error == UnexpectedEOF then ([], Pass) else ([], Fail(probe.result.error))
    else if inFlight then ([], Fail(StreamStateError))
    else
      var headRead := HeadAt(input, pos + 1, probe.result.value[0]);
      var head, next := headRead.0, headRead.1;
      if head.Err? then ([], Fail(head.error))
      else
        var rest := Resume(input, next, head.value, head.value.length, head.value.code.Bytes());
        ([HeadToken(head.value)] + rest.0, rest.1)
  }

  /** What the framer yields inside a chunk with `remaining` data bytes still
      to read, where `covered` is what the running CRC has folded in so far
      (the type code and the data read): the data parts, the end token (only
      when the CRC field matches the CRC of everything covered), then the
      following chunks. */
  function Resume(input: seq<byte>, pos: nat, head: ChunkHead, remaining: nat, covered: seq<byte>): (seq<Token>, Outcome)
    requires pos <= |input|
    decreases |input| - pos, 0
  {
    if remaining > 0 then
      var dataRead := ReadAt(input, pos, Min(PNG_CHUNK_MAX_DATA_READ, remaining));
      if dataRead.result.Err? then ([], Fail(dataRead.result.error))
      else
        var data := dataRead.result.value;
        var rest := Resume(input, dataRead.total, head, remaining - |data|, covered + data);
        ([DataPartToken(head, data)] + rest.0, rest.1)
    else
      var crcRead := ReadAt(input, pos, 4);
      if crcRead.result.Err? then ([], Fail(crcRead.result.error))
      else if BigEndian(crcRead.result.value) != U32(Crc(covered, 0)) then ([], Fail(BadCRC))
      else
        var rest := Chunks(input, crcRead.total, false);
        ([EndToken(head, true)] + rest.0, rest.1)
  }

  /** `__iter__` from byte count `total`: the signature, then the chunks. */
  function LexFrom(input: seq<byte>, total: nat, inFlight: bool): (r: (seq<Token>, Outcome))
    requires total <= |input|
    ensures r.0 != [] ==> total + |PNG_SIGNATURE| <= |input| && input[total..total + |PNG_SIGNATURE|] == PNG_SIGNATURE
    ensures r.1 == Pass ==> total + |PNG_SIGNATURE| <= |input| && input[total..total + |PNG_SIGNATURE|] == PNG_SIGNATURE
  {
    var signature := ReadAt(input, total, |PNG_SIGNATURE|);
    if signature.result.Err? then ([], Fail(signature.result.error))
    else if signature.result.value != PNG_SIGNATURE then ([], Fail(SignatureMismatch))
    else Chunks(input, signature.total, inFlight)
  }

  /** A fresh framer over the whole stream. */
  function Lex(input: seq<byte>): (r: (seq<Token>, Outcome))
    ensures r.0 != [] ==> |PNG_SIGNATURE| <= |input| && input[..|PNG_SIGNATURE|] == PNG_SIGNATURE && r.0[0].HeadToken?
    ensures r.1 == Pass ==> |PNG_SIGNATURE| <= |input| && input[..|PNG_SIGNATURE|] == PNG_SIGNATURE
  {
    LexFrom(input, 0, false)
  }

  /** _SingleChunkState: progress through the data of one chunk. */
  class SingleChunkState {
    const head: ChunkHead
    var dataRemaining: nat
    var crc32: bv32
    var nextRead: nat
    /** The data handed to Update so far. */
    ghost var consumed: seq<byte>

    /** The data seen plus the data remaining make up the declared length,
        the next read is the remainder capped at 4096, and the running CRC
        covers the code and the data seen. */
    ghost predicate Valid()
      reads this
    {
      |consumed| + dataRemaining == head.length &&
      nextRead == Min(PNG_CHUNK_MAX_DATA_READ, dataRemaining) &&
      crc32 == Crc(Covered(), 0)
    }

    /** What the running CRC has folded in: the type code and the data. */
    ghost function Covered(): seq<byte>
      reads this
    {
      head.code.Bytes() + consumed
    }

    constructor(head: ChunkHead)
      ensures Valid() && this.head == head && consumed == []
      ensures dataRemaining == head.length && crc32 == Crc(head.code.Bytes(), 0)
    {
      this.head := head;
      dataRemaining := head.length;
      crc32 := Crc(head.code.Bytes(), 0);
      nextRead := Min(PNG_CHUNK_MAX_DATA_READ, head.length);
      consumed := [];
      new;
      assert head.code.Bytes() + [] == head.code.Bytes();
    }

    /** update: takes exactly `nextRead` bytes (a ValueError otherwise) and
        folds them into the count and the CRC. */
    method Update(data: seq<byte>) returns (r: Outcome)
      requires Valid()
      modifies this
      ensures Valid()
      ensures r.Fail? <==> |data| != old(nextRead)
      ensures r.Fail? ==> r.error == ValueError && dataRemaining == old(dataRemaining) &&
                          crc32 == old(crc32) && consumed == old(consumed)
      ensures r.Pass? ==> consumed == old(consumed) + data &&
                          dataRemaining == old(dataRemaining) - |data| &&
                          crc32 == Crc(data, old(crc32))
    {
      if |data| != nextRead {
        return Fail(ValueError);
      }
      ghost var before := consumed;
      var updated := Crc(data, crc32);
      CrcExtends(head.code.Bytes(), before, data, crc32);
      dataRemaining := dataRemaining - nextRead;
      nextRead := Min(PNG_CHUNK_MAX_DATA_READ, dataRemaining);
      crc32 := updated;
      consumed := before + data;
      r := Pass;
    }
  }

  /** Folding more data into the running CRC of a chunk keeps it the CRC
      of the code and all the data seen. */
  lemma CrcExtends(code: seq<byte>, seen: seq<byte>, data: seq<byte>, crc: bv32)
    requires crc == Crc(code + seen, 0)
    ensures Crc(data, crc) == Crc(code + (seen + data), 0)
  {
    CrcAppend(code + seen, data, 0);
    assert code + seen + data == code + (seen + data);
  }

  /** ChunkTokenStream over the bytes the underlying stream will deliver. */
  class ChunkTokenStream {
    const source: seq<byte>
    var totalBytesRead: nat
    var chunkState: SingleChunkState?

    ghost predicate Valid()
      reads this, chunkState
    {
      totalBytesRead <= |source| && totalBytesRead <= PNG_MAX_FILE_SIZE &&
      (chunkState != null ==> chunkState.Valid())
    }

    constructor(source: seq<byte>)
      ensures Valid() && this.source == source && totalBytesRead == 0 && chunkState == null
    {
      this.source := source;
      totalBytesRead := 0;
      chunkState := null;
    }

    /** _read: the budget check first, then the read, which counts the bytes
        it got even when it got too few. */
    method Read(length: nat) returns (r: Result<seq<byte>>)
      requires Valid()
      modifies this
      ensures Valid() && chunkState == old(chunkState)
      ensures ReadStep(r, totalBytesRead) == ReadAt(source, old(totalBytesRead), length)
    {
      if length + totalBytesRead > PNG_MAX_FILE_SIZE {
        return Err(PNGTooLarge);
      }
      var actual := Min(length, |source| - totalBytesRead);
      var data := source[totalBytesRead..totalBytesRead + actual];
      totalBytesRead := totalBytesRead + actual;
      if length > actual {
        return Err(UnexpectedEOF);
      }
      r := Ok(data);
    }

    /** _validate_signature. */
    method ValidateSignature() returns (r: Outcome)
      requires Valid()
      modifies this
      ensures Valid() && chunkState == old(chunkState)
      ensures var signature := ReadAt(source, old(totalBytesRead), |PNG_SIGNATURE|);
              totalBytesRead == signature.total &&
              r == if signature.result.Err? then Fail(signature.result.error)
                   else if signature.result.value != PNG_SIGNATURE then Fail(SignatureMismatch)
                   else Pass
    {
      var header := Read(|PNG_SIGNATURE|);
      if header.Err? {
        return Fail(header.error);
      }
      if header.value != PNG_SIGNATURE {
        return Fail(SignatureMismatch);
      }
      r := Pass;
    }

    /** _get_chunk_head, after the probe byte was read. */
    method GetChunkHead(prependByte: seq<byte>) returns (r: Result<ChunkHead>)
      requires Valid() && |prependByte| == 1
      modifies this
      ensures Valid()
      ensures old(chunkState) != null ==>
        r == Err(StreamStateError) && totalBytesRead == old(totalBytesRead) && chunkState == old(chunkState)
      ensures old(chunkState) == null ==>
        (r, totalBytesRead) == HeadAt(source, old(totalBytesRead), prependByte[0])
      ensures old(chunkState) == null && r.Err? ==> chunkState == null
      ensures r.Ok? ==> chunkState != null && fresh(chunkState) && chunkState.head == r.value &&
                        chunkState.consumed == [] && chunkState.dataRemaining == r.value.length &&
                        chunkState.crc32 == Crc(r.value.code.Bytes(), 0)
    {
      if chunkState != null {
        return Err(StreamStateError);
      }
      var startPosition := totalBytesRead;
      var lengthBytes := Read(3);
      if lengthBytes.Err? {
        return Err(lengthBytes.error);
      }
      assert prependByte == [prependByte[0]];
      var length := BigEndian(prependByte + lengthBytes.value);
      if length > PNG_MAX_CHUNK_LENGTH {
        return Err(PNGSyntaxError(ChunkTooLong));
      }
      var typeCode := Read(4);
      if typeCode.Err? {
        return Err(typeCode.error);
      }
      var code := typeCode.value;
      if !(AllowedByte(code[0]) && AllowedByte(code[1]) && AllowedByte(code[2]) && AllowedByte(code[3])) {
        return Err(PNGSyntaxError(BadTypeCode));
      }
      var head := ChunkHead(length, CodeOf(code), startPosition);
      chunkState := new SingleChunkState(head);
      r := Ok(head);
    }

    /** _get_chunk_data: reads `nextRead` bytes into the chunk state. */
    method GetChunkData() returns (r: Result<Token>)
      requires Valid()
      modifies this, chunkState
      ensures Valid() && chunkState == old(chunkState)
      ensures old(chunkState) == null || old(chunkState.nextRead) == 0 ==>
        r == Err(StreamStateError) && totalBytesRead == old(totalBytesRead)
      ensures old(chunkState) != null && old(chunkState.nextRead) > 0 ==>
        var dataRead := ReadAt(source, old(totalBytesRead), old(chunkState.nextRead));
        totalBytesRead == dataRead.total &&
        (dataRead.result.Err? ==> r == Err(dataRead.result.error) &&
                                  chunkState.consumed == old(chunkState.consumed) &&
                                  chunkState.dataRemaining == old(chunkState.dataRemaining) &&
                                  chunkState.crc32 == old(chunkState.crc32)) &&
        (dataRead.result.Ok? ==> r == Ok(DataPartToken(chunkState.head, dataRead.result.value)) &&
                                 chunkState.consumed == old(chunkState.consumed) + dataRead.result.value &&
                                 chunkState.dataRemaining == old(chunkState.dataRemaining) - old(chunkState.nextRead) &&
                                 chunkState.crc32 == Crc(dataRead.result.value, old(chunkState.crc32)))
    {
      if chunkState == null || chunkState.nextRead == 0 {
        return Err(StreamStateError);
      }
      var state := chunkState;
      var data := Read(state.nextRead);
      if data.Err? {
        return Err(data.error);
      }
      var updated := state.Update(data.value);
      r := Ok(DataPartToken(state.head, data.value));
    }

    /** _get_chunk_end: reads the declared CRC, compares it with the running
        one, and clears the chunk state. */
    method GetChunkEnd() returns (r: Result<Token>)
      requires Valid()
      modifies this
      ensures Valid()
      ensures old(chunkState) == null || old(chunkState.nextRead) != 0 ==>
        r == Err(StreamStateError) && totalBytesRead == old(totalBytesRead) && chunkState == old(chunkState)
      ensures old(chunkState) != null && old(chunkState.nextRead) == 0 ==>
        var crcRead := ReadAt(source, old(totalBytesRead), 4);
        totalBytesRead == crcRead.total &&
        (crcRead.result.Err? ==> r == Err(crcRead.result.error) && chunkState == old(chunkState)) &&
        (crcRead.result.Ok? ==>
          chunkState == null &&
          r == Ok(EndToken(old(chunkState.head), BigEndian(crcRead.result.value) == U32(old(chunkState.crc32)))))
    {
      if chunkState == null || chunkState.nextRead != 0 {
        return Err(StreamStateError);
      }
      var declared := Read(4);
      if declared.Err? {
        return Err(declared.error);
      }
      var crc32Okay := BigEndian(declared.value) == U32(chunkState.crc32);
      r := Ok(EndToken(chunkState.head, crc32Okay));
      chunkState := null;
    }

    /** The rest of one chunk after its head (the data-part loop of
        `__iter__`, then the end token): the tokens it yields and, when it
        raises, the error. On success the chunk state is cleared. */
    method FinishChunk(ghost rest: (seq<Token>, Outcome)) returns (parts: seq<Token>, stop: Option<Outcome>)
      requires Valid() && chunkState != null
      requires rest == Resume(source, totalBytesRead, chunkState.head, chunkState.dataRemaining, chunkState.Covered())
      modifies this, chunkState
      ensures Valid() && old(totalBytesRead) <= totalBytesRead
      ensures match stop
              case Some(o) => o.Fail? && rest == (parts, o)
              case None => chunkState == null &&
                           rest.0 == parts + Chunks(source, totalBytesRead, false).0 &&
                           rest.1 == Chunks(source, totalBytesRead, false).1
    {
      var failed;
      parts, failed := ReadDataParts(rest);
      if failed.Some? {
        return parts, Some(Fail(failed.value));
      }
      ghost var later := Resume(source, totalBytesRead, chunkState.head, 0, chunkState.Covered());
      var end := EndStep(later);
      if end.Err? {
        assert parts + [] == parts;
        return parts, Some(Fail(end.error));
      }
      ghost var next := Chunks(source, totalBytesRead, false);
      assert parts + [end.value] + next.0 == parts + ([end.value] + next.0);
      parts := parts + [end.value];
      stop := None;
    }

    /** The data-part loop of `__iter__`: parts of at most 4096 bytes until
        the declared length is read. */
    method ReadDataParts(ghost rest: (seq<Token>, Outcome)) returns (parts: seq<Token>, failed: Option<Error>)
      requires Valid() && chunkState != null
      requires rest == Resume(source, totalBytesRead, chunkState.head, chunkState.dataRemaining, chunkState.Covered())
      modifies this, chunkState
      ensures Valid() && chunkState == old(chunkState) && old(totalBytesRead) <= totalBytesRead
      ensures failed.Some? ==> rest == (parts, Fail(failed.value))
      ensures failed.None? ==>
        chunkState.nextRead == 0 &&
        var later := Resume(source, totalBytesRead, chunkState.head, 0, chunkState.Covered());
        rest.0 == parts + later.0 && rest.1 == later.1
    {
      var state := chunkState;
      ghost var later := rest;
      parts := [];
      while state.nextRead > 0
        invariant Valid() && chunkState == state
        invariant old(totalBytesRead) <= totalBytesRead
        invariant later == Resume(source, totalBytesRead, state.head, state.dataRemaining, state.Covered())
        invariant rest.0 == parts + later.0 && rest.1 == later.1
        decreases state.dataRemaining
      {
        var part := DataStep();
        if part.Err? {
          assert parts + [] == parts;
          return parts, Some(part.error);
        }
        ghost var next := Resume(source, totalBytesRead, state.head, state.dataRemaining, state.Covered());
        assert parts + [part.value] + next.0 == parts + ([part.value] + next.0);
        parts, later := parts + [part.value], next;
      }
      failed := None;
    }

    /** GetChunkData, seen as one step of Resume. */
    method DataStep() returns (part: Result<Token>)
      requires Valid() && chunkState != null && chunkState.nextRead > 0
      modifies this, chunkState
      ensures Valid() && chunkState == old(chunkState) && old(totalBytesRead) <= totalBytesRead
      ensures var before := Resume(source, old(totalBytesRead), chunkState.head,
                                   old(chunkState.dataRemaining), old(chunkState.Covered()));
              var after := Resume(source, totalBytesRead, chunkState.head,
                                  chunkState.dataRemaining, chunkState.Covered());
              (part.Err? ==> before == ([], Fail(part.error))) &&
              (part.Ok? ==> chunkState.dataRemaining < old(chunkState.dataRemaining) &&
                            before.0 == [part.value] + after.0 && before.1 == after.1)
    {
      ghost var code, before := chunkState.head.code.Bytes(), chunkState.consumed;
      ResumeDataStep(source, totalBytesRead, chunkState.head, chunkState.dataRemaining, chunkState.Covered());
      part := GetChunkData();
      if part.Ok? {
        assert code + before + part.value.data == code + (before + part.value.data);
      }
    }

    /** GetChunkEnd, seen as the last step of Resume; a CRC mismatch is the
        BadCRC that `__iter__` raises. */
    method EndStep(ghost rest: (seq<Token>, Outcome)) returns (end: Result<Token>)
      requires Valid() && chunkState != null && chunkState.nextRead == 0
      requires rest == Resume(source, totalBytesRead, chunkState.head, 0, chunkState.Covered())
      modifies this
      ensures Valid() && old(totalBytesRead) <= totalBytesRead
      ensures end.Err? ==> rest == ([], Fail(end.error))
      ensures end.Ok? ==> chunkState == null &&
                          rest.0 == [end.value] + Chunks(source, totalBytesRead, false).0 &&
                          rest.1 == Chunks(source, totalBytesRead, false).1
    {
      ResumeEndStep(source, totalBytesRead, chunkState.head, chunkState.Covered());
      end := GetChunkEnd();
      if end.Ok? && !end.value.crcOk {
        end := Err(BadCRC);
      }
    }

    /** One pass of the loop in `__iter__`: the probe byte, the head, and
        the rest of the chunk. Either the stream stops, with the tokens of
        the last chunk and how it stopped, or one whole chunk was read. */
    method NextChunk() returns (emitted: seq<Token>, stop: Option<Outcome>)
      requires Valid()
      modifies this
      ensures Valid() && old(totalBytesRead) <= totalBytesRead
      ensures stop == Some(Pass) ==> totalBytesRead == |source| && chunkState == old(chunkState)
      ensures var all := Chunks(source, old(totalBytesRead), old(chunkState) != null);
              match stop
              case Some(o) => all == (emitted, o)
              case None => chunkState == null && old(totalBytesRead) < totalBytesRead &&
                           all.0 == emitted + Chunks(source, totalBytesRead, false).0 &&
                           all.1 == Chunks(source, totalBytesRead, false).1
    {
      ghost var pos, inFlight := totalBytesRead, chunkState != null;
      var initial := Read(1);
      if initial.Err? {
        ChunksAtEnd(source, pos, inFlight);
        return [], Some(if initial.error == UnexpectedEOF then Pass else Fail(initial.error));
      }
      var head := GetChunkHead(initial.value);
      if head.Err? {
        ChunksNoHead(source, pos, inFlight);
        return [], Some(Fail(head.error));
      }
      ChunksHead(source, pos, head.value, totalBytesRead);
      ghost var rest := Resume(source, totalBytesRead, head.value, head.value.length, head.value.code.Bytes());
      assert chunkState.Covered() == head.value.code.Bytes() + [] == head.value.code.Bytes();
      var parts, finished := FinishChunk(rest);
      emitted := [HeadToken(head.value)] + parts;
      stop := finished;
    }

    /** __iter__, run to completion: every token the generator yields, and
        whether it stopped normally or raised. */
    method Iterate() returns (tokens: seq<Token>, outcome: Outcome)
      requires Valid()
      modifies this
      ensures Valid() && old(totalBytesRead) <= totalBytesRead <= PNG_MAX_FILE_SIZE
      ensures (tokens, outcome) == LexFrom(source, old(totalBytesRead), old(chunkState) != null)
      ensures outcome.Pass? ==> totalBytesRead == |source| && (old(chunkState) == null ==> chunkState == null)
    {
      ghost var whole := LexFrom(source, totalBytesRead, chunkState != null);
      tokens := [];
      var signature := ValidateSignature();
      if signature.Fail? {
        return [], signature;
      }
      assert whole.0 == tokens + Chunks(source, totalBytesRead, chunkState != null).0;
      while true
        invariant Valid() && old(totalBytesRead) <= totalBytesRead
        invariant chunkState == null || (chunkState == old(chunkState) && tokens == [])
        invariant whole.0 == tokens + Chunks(source, totalBytesRead, chunkState != null).0
        invariant whole.1 == Chunks(source, totalBytesRead, chunkState != null).1
        decreases |source| - totalBytesRead
      {
        var emitted, stop := NextChunk();
        ghost var prior := tokens;
        tokens := tokens + emitted;
        if stop.Some? {
          return tokens, stop.value;
        }
        assert tokens + Chunks(source, totalBytesRead, false).0
            == prior + (emitted + Chunks(source, totalBytesRead, false).0);
      }
    }
  }

  // One step of Chunks and Resume each, as the framer takes it.

  lemma ChunksAtEnd(input: seq<byte>, pos: nat, inFlight: bool)
    requires pos <= |input| && ReadAt(input, pos, 1).result.Err?
    ensures var e := ReadAt(input, pos, 1).result.error;
            Chunks(input, pos, inFlight) == ([], if e == UnexpectedEOF then Pass else Fail(e))
  {
  }

  lemma ChunksNoHead(input: seq<byte>, pos: nat, inFlight: bool)
    requires pos < |input| && ReadAt(input, pos, 1).result.Ok?
    requires !inFlight ==> HeadAt(input, pos + 1, input[pos]).0.Err?
    ensures Chunks(input, pos, inFlight) ==
            ([], Fail(if inFlight then StreamStateError else HeadAt(input, pos + 1, input[pos]).0.error))
  {
    assert ReadAt(input, pos, 1).result.value[0] == input[pos];
  }

  lemma ChunksHead(input: seq<byte>, pos: nat, head: ChunkHead, next: nat)
    requires pos < |input| && ReadAt(input, pos, 1).result.Ok?
    requires HeadAt(input, pos + 1, input[pos]) == (Ok(head), next)
    ensures var rest := Resume(input, next, head, head.length, head.code.Bytes());
            Chunks(input, pos, false) == ([HeadToken(head)] + rest.0, rest.1)
  {
    assert ReadAt(input, pos, 1).result.value[0] == input[pos];
  }

  lemma ResumeDataStep(input: seq<byte>, pos: nat, head: ChunkHead, remaining: nat, covered: seq<byte>)
    requires pos <= |input| && remaining > 0
    ensures var dataRead := ReadAt(input, pos, Min(PNG_CHUNK_MAX_DATA_READ, remaining));
            var rest := Resume(input, dataRead.total, head, remaining - Min(PNG_CHUNK_MAX_DATA_READ, remaining),
                               if dataRead.result.Ok? then covered + dataRead.result.value else covered);
            Resume(input, pos, head, remaining, covered) ==
              if dataRead.result.Err? then ([], Fail(dataRead.result.error))
              else ([DataPartToken(head, dataRead.result.value)] + rest.0, rest.1)
  {
  }

  lemma ResumeEndStep(input: seq<byte>, pos: nat, head: ChunkHead, covered: seq<byte>)
    requires pos <= |input|
    ensures var crcRead := ReadAt(input, pos, 4);
            var rest := Chunks(input, crcRead.total, false);
            Resume(input, pos, head, 0, covered) ==
              if crcRead.result.Err? then ([], Fail(crcRead.result.error))
              else if BigEndian(crcRead.result.value) != U32(Crc(covered, 0)) then ([], Fail(BadCRC))
              else ([EndToken(head, true)] + rest.0, rest.1)
  {
  }
}
