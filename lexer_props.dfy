/**
 * What the chunk framer accepts, stated against the chunk layout of
 * section 5.3 of PNG 1.2: a stream passes exactly when it is the signature
 * followed by well-formed chunks with correct CRCs and stays under the
 * 20 MiB budget, and then the tokens are one head, the data in 4096-byte
 * parts, and one end per chunk. The failure modes (short or wrong
 * signature, an oversized or badly named chunk, a wrong CRC, a stream that
 * uses up the whole budget) each get their own lemma.
 */
module LexerProps {
  import opened Common
  import opened Crc32
  import opened ChunkTypes
  import opened Lexer

  /** A chunk as it is laid out in the stream: its type code, its data
      and the value its CRC field holds. */
  datatype RawChunk = RawChunk(code: Code, data: seq<byte>, crc: nat)

  /** A chunk the framer can carry: a valid type code, a length that fits
      the 31-bit limit and a CRC field that fits its four bytes. */
  predicate WellFormed(c: RawChunk)
  {
    ValidCode(c.code) && |c.data| <= PNG_MAX_CHUNK_LENGTH && c.crc < 0x1_0000_0000
  }

  predicate AllWellFormed(cs: seq<RawChunk>)
  {
    forall i :: 0 <= i < |cs| ==> WellFormed(cs[i])
  }

  /** The CRC a chunk must carry: CRC-32 over the type code and the data. */
  function ChunkCrc(c: RawChunk): (n: nat)
    ensures n < 0x1_0000_0000
  {
    U32(Crc(c.code.Bytes() + c.data, 0))
  }

  /** The CRC field holds the CRC of the chunk. */
  predicate CrcRight(c: RawChunk)
  {
    c.crc == ChunkCrc(c)
  }

  predicate AllCrcsRight(cs: seq<RawChunk>)
  {
    forall i {:trigger CrcRight(cs[i])} :: 0 <= i < |cs| ==> CrcRight(cs[i])
  }

  /** The bytes of a chunk: length, type code, data, CRC field. */
  function Encode(c: RawChunk): (s: seq<byte>)
    requires WellFormed(c)
    ensures |s| == 12 + |c.data|
  {
    BigEndian4(|c.data|) + c.code.Bytes() + c.data + BigEndian4(c.crc)
  }

  function EncodeAll(cs: seq<RawChunk>): seq<byte>
    requires AllWellFormed(cs)
  {
    if |cs| == 0 then [] else Encode(cs[0]) + EncodeAll(cs[1..])
  }

  /** The data parts the framer hands out for a chunk's data. */
  function Parts(head: ChunkHead, data: seq<byte>): seq<Token>
    decreases |data|
  {
    if |data| == 0 then []
    else
      var n := Min(PNG_CHUNK_MAX_DATA_READ, |data|);
      [DataPartToken(head, data[..n])] + Parts(head, data[n..])
  }

  /** The tokens of the chunks `cs` laid out from stream offset `offset`:
      each head records the offset of its chunk plus one, the count after
      the probe byte. */
  function TokensOf(cs: seq<RawChunk>, offset: nat): seq<Token>
  {
    if |cs| == 0 then [] else ChunkTokens(cs[0], offset) + TokensOf(cs[1..], offset + 12 + |cs[0].data|)
  }

  /** The tokens of one chunk at stream offset `offset`: its head, its
      data parts and its end. */
  function ChunkTokens(c: RawChunk, offset: nat): seq<Token>
  {
    var head := ChunkHead(|c.data|, c.code, offset + 1);
    [HeadToken(head)] + Parts(head, c.data) + [EndToken(head, true)]
  }

  /** The data carried by a run of data-part tokens. */
  function Joined(ts: seq<Token>): seq<byte>
  {
    if |ts| == 0 then []
    else (if ts[0].DataPartToken? then ts[0].data else []) + Joined(ts[1..])
  }

  /** The parts of a chunk carry its data in order, each part is non-empty
      and at most 4096 bytes long, and only the last may be shorter. */
  lemma {:induction false} PartsCoverData(head: ChunkHead, data: seq<byte>)
    ensures var ps := Parts(head, data);
            Joined(ps) == data &&
            |ps| == (|data| + PNG_CHUNK_MAX_DATA_READ - 1) / PNG_CHUNK_MAX_DATA_READ &&
            forall i :: 0 <= i < |ps| ==>
              ps[i].DataPartToken? && ps[i].head == head &&
              0 < |ps[i].data| <= PNG_CHUNK_MAX_DATA_READ &&
              (i < |ps| - 1 ==> |ps[i].data| == PNG_CHUNK_MAX_DATA_READ)
    decreases |data|
  {
    if |data| > 0 {
      var n := Min(PNG_CHUNK_MAX_DATA_READ, |data|);
      var ps := Parts(head, data);
      PartsCoverData(head, data[n..]);
      assert ps == [DataPartToken(head, data[..n])] + Parts(head, data[n..]);
      assert ps[1..] == Parts(head, data[n..]);
      assert data[..n] + data[n..] == data;
      if |data| <= PNG_CHUNK_MAX_DATA_READ {
        assert data[n..] == [];
      }
    }
  }

  // Reading one chunk.

  /** A pair is made of its two components. */
  lemma Pair(x: (seq<Token>, Outcome))
    ensures x == (x.0, x.1)
  {
  }

  /** Token lists glued in two steps are glued in one. */
  lemma Combine(whole: (seq<Token>, Outcome), mid: (seq<Token>, Outcome), rest: (seq<Token>, Outcome),
                first: seq<Token>, others: seq<Token>, all: seq<Token>)
    requires whole == (first + mid.0, mid.1)
    requires mid == (others + rest.0, rest.1)
    requires all == first + others
    ensures whole == (all + rest.0, rest.1)
  {
    assert first + others + rest.0 == first + (others + rest.0);
  }

  /** One successful data read from `pos`, inside a chunk whose data began
      at `start`: the part is the next bytes of the stream and the CRC
      comes to cover them too. */
  lemma ResumeDataAt(input: seq<byte>, start: nat, pos: nat, end: nat, head: ChunkHead, code: seq<byte>)
    requires start <= pos < end <= |input| && end <= PNG_MAX_FILE_SIZE
    ensures var n := Min(PNG_CHUNK_MAX_DATA_READ, end - pos);
            var rest := Resume(input, pos + n, head, end - (pos + n), code + input[start..pos + n]);
            Resume(input, pos, head, end - pos, code + input[start..pos]) ==
              ([DataPartToken(head, input[pos..pos + n])] + rest.0, rest.1)
  {
    var n := Min(PNG_CHUNK_MAX_DATA_READ, end - pos);
    ResumeDataStep(input, pos, head, end - pos, code + input[start..pos]);
    assert input[start..pos] + input[pos..pos + n] == input[start..pos + n];
    assert code + input[start..pos] + input[pos..pos + n] == code + input[start..pos + n];
  }

  /** The first part of a slice of data, and the parts of what follows it. */
  lemma PartsOfSlice(head: ChunkHead, input: seq<byte>, pos: nat, end: nat)
    requires pos < end <= |input|
    ensures var n := Min(PNG_CHUNK_MAX_DATA_READ, end - pos);
            Parts(head, input[pos..end]) ==
              [DataPartToken(head, input[pos..pos + n])] + Parts(head, input[pos + n..end])
  {
    var n := Min(PNG_CHUNK_MAX_DATA_READ, end - pos);
    SliceOfSlice(input, pos, end, 0, n);
    SliceOfSlice(input, pos, end, n, end - pos);
  }

  /** From `pos` to `end` the framer reads the data of a chunk whose data
      began at `start` and then checks the CRC of the code and all of the
      data. */
  predicate ReadsDataTo(input: seq<byte>, start: nat, pos: nat, end: nat, head: ChunkHead, code: seq<byte>)
    requires start <= pos <= end <= |input|
  {
    var rest := Resume(input, end, head, 0, code + input[start..end]);
    Resume(input, pos, head, end - pos, code + input[start..pos]) ==
      (Parts(head, input[pos..end]) + rest.0, rest.1)
  }

  lemma ReadsDataToEnd(input: seq<byte>, start: nat, end: nat, head: ChunkHead, code: seq<byte>)
    requires start <= end <= |input|
    ensures ReadsDataTo(input, start, end, end, head, code)
  {
    assert input[end..end] == [];
    var rest := Resume(input, end, head, 0, code + input[start..end]);
    assert Parts(head, []) + rest.0 == rest.0;
  }

  lemma ReadsDataToStep(input: seq<byte>, start: nat, pos: nat, end: nat, head: ChunkHead, code: seq<byte>)
    requires start <= pos < end <= |input| && end <= PNG_MAX_FILE_SIZE
    requires ReadsDataTo(input, start, pos + Min(PNG_CHUNK_MAX_DATA_READ, end - pos), end, head, code)
    ensures ReadsDataTo(input, start, pos, end, head, code)
  {
    var n := Min(PNG_CHUNK_MAX_DATA_READ, end - pos);
    ResumeDataAt(input, start, pos, end, head, code);
    PartsOfSlice(head, input, pos, end);
    Combine(Resume(input, pos, head, end - pos, code + input[start..pos]),
            Resume(input, pos + n, head, end - (pos + n), code + input[start..pos + n]),
            Resume(input, end, head, 0, code + input[start..end]),
            [DataPartToken(head, input[pos..pos + n])],
            Parts(head, input[pos + n..end]), Parts(head, input[pos..end]));
  }

  /** A chunk's data is read in parts of at most 4096 bytes while the CRC
      comes to cover each one; what follows is the CRC check. */
  lemma {:induction false} ResumeOverData(input: seq<byte>, start: nat, pos: nat, end: nat, head: ChunkHead, code: seq<byte>)
    requires start <= pos <= end <= |input| && end <= PNG_MAX_FILE_SIZE
    ensures ReadsDataTo(input, start, pos, end, head, code)
    decreases end - pos
  {
    if pos < end {
      ResumeOverData(input, start, pos + Min(PNG_CHUNK_MAX_DATA_READ, end - pos), end, head, code);
      ReadsDataToStep(input, start, pos, end, head, code);
    } else {
      ReadsDataToEnd(input, start, end, head, code);
    }
  }

  /** ResumeOverData for a whole chunk: from the first data byte, with the
      CRC covering only the type code. */
  lemma ChunkData(input: seq<byte>, pos: nat, end: nat, head: ChunkHead, code: seq<byte>)
    requires pos <= end <= |input| && end <= PNG_MAX_FILE_SIZE
    ensures var rest := Resume(input, end, head, 0, code + input[pos..end]);
            Resume(input, pos, head, end - pos, code) == (Parts(head, input[pos..end]) + rest.0, rest.1)
  {
    ResumeOverData(input, pos, pos, end, head, code);
    assert code + input[pos..pos] == code;
  }

  /** The CRC field of a chunk, read within the stream and the budget. */
  lemma ResumeEndAt(input: seq<byte>, pos: nat, head: ChunkHead, covered: seq<byte>)
    requires pos + 4 <= |input| && pos + 4 <= PNG_MAX_FILE_SIZE
    ensures var next := Chunks(input, pos + 4, false);
            Resume(input, pos, head, 0, covered) ==
              if BigEndian(input[pos..pos + 4]) == U32(Crc(covered, 0))
              then ([EndToken(head, true)] + next.0, next.1)
              else ([], Fail(BadCRC))
  {
    ResumeEndStep(input, pos, head, covered);
  }

  /** Between chunks the framer first hands out the head of the chunk whose
      length field starts at `pos`, its position one past that byte; with a
      chunk still in flight it hands out nothing. */
  lemma ChunksFirst(input: seq<byte>, pos: nat)
    requires pos <= |input|
    ensures var r := Chunks(input, pos, false);
            r.0 != [] ==> r.0[0].HeadToken? && r.0[0].head.position == pos + 1
    ensures Chunks(input, pos, true).0 == []
  {
  }

  /** Inside a chunk the framer first hands out a non-empty data part of at
      most 4096 bytes while data remains, and the chunk's end token once it
      does not. */
  lemma ResumeFirst(input: seq<byte>, pos: nat, head: ChunkHead, remaining: nat, covered: seq<byte>)
    requires pos <= |input|
    ensures var r := Resume(input, pos, head, remaining, covered);
            r.0 != [] && remaining > 0 ==>
              r.0[0].DataPartToken? && r.0[0].head == head && 0 < |r.0[0].data| <= Min(PNG_CHUNK_MAX_DATA_READ, remaining)
    ensures var r := Resume(input, pos, head, remaining, covered);
            r.0 != [] && remaining == 0 ==> r.0[0] == EndToken(head, true)
  {
  }

  /** What the framer makes of a chunk after its head, given as `whole`
      (the head token followed by what Resume yields): the data in parts,
      then the end and what follows when the CRC field matches the CRC of
      the code and the data, or BadCRC. */
  lemma AfterHead(input: seq<byte>, start: nat, head: ChunkHead, code: seq<byte>, whole: (seq<Token>, Outcome))
    requires start + head.length + 4 <= |input| && start + head.length + 4 <= PNG_MAX_FILE_SIZE
    requires var rest := Resume(input, start, head, head.length, code);
             whole == ([HeadToken(head)] + rest.0, rest.1)
    ensures var dataEnd := start + head.length;
            var data := input[start..dataEnd];
            var next := Chunks(input, dataEnd + 4, false);
            whole ==
              if BigEndian(input[dataEnd..dataEnd + 4]) == U32(Crc(code + data, 0))
              then ([HeadToken(head)] + Parts(head, data) + [EndToken(head, true)] + next.0, next.1)
              else ([HeadToken(head)] + Parts(head, data), Fail(BadCRC))
  {
    var dataEnd := start + head.length;
    var data := input[start..dataEnd];
    var mine := [HeadToken(head)] + Parts(head, data);
    ChunkData(input, start, dataEnd, head, code);
    var rest := Resume(input, dataEnd, head, 0, code + data);
    Combine(whole, Resume(input, start, head, head.length, code), rest, [HeadToken(head)], Parts(head, data), mine);
    ResumeEndAt(input, dataEnd, head, code + data);
    if BigEndian(input[dataEnd..dataEnd + 4]) == U32(Crc(code + data, 0)) {
      Combine(whole, rest, Chunks(input, dataEnd + 4, false), mine, [EndToken(head, true)], mine + [EndToken(head, true)]);
    } else {
      assert mine + [] == mine;
    }
  }

  /** A chunk whose head was read at `off`, whose data and CRC field lie
      within the stream and the budget: the framer yields the head and the
      data, then the end and what follows when the CRC field matches, or
      raises BadCRC. */
  lemma ChunkBody(input: seq<byte>, off: nat, head: ChunkHead)
    requires off < |input| && off + 1 <= PNG_MAX_FILE_SIZE
    requires HeadAt(input, off + 1, input[off]) == (Ok(head), off + 8)
    requires off + 12 + head.length <= |input| && off + 12 + head.length <= PNG_MAX_FILE_SIZE
    ensures var dataEnd := off + 8 + head.length;
            var data := input[off + 8..dataEnd];
            var next := Chunks(input, dataEnd + 4, false);
            Chunks(input, off, false) ==
              if BigEndian(input[dataEnd..dataEnd + 4]) == U32(Crc(head.code.Bytes() + data, 0))
              then ([HeadToken(head)] + Parts(head, data) + [EndToken(head, true)] + next.0, next.1)
              else ([HeadToken(head)] + Parts(head, data), Fail(BadCRC))
  {
    ChunksHead(input, off, head, off + 8);
    AfterHead(input, off + 8, head, head.code.Bytes(), Chunks(input, off, false));
  }

  /** The four fields of an encoded chunk. */
  lemma EncodeFields(c: RawChunk)
    requires WellFormed(c)
    ensures var f, n := Encode(c), |c.data|;
            f[..4] == BigEndian4(n) && f[4..8] == c.code.Bytes() &&
            f[8..8 + n] == c.data && f[8 + n..] == BigEndian4(c.crc)
  {
    var a, b, d, e := BigEndian4(|c.data|), c.code.Bytes(), c.data, BigEndian4(c.crc);
    assert Encode(c) == a + (b + (d + e));
  }

  /** The four fields of a chunk found at offset `off` of the stream. */
  lemma EncodeAt(input: seq<byte>, off: nat, c: RawChunk)
    requires WellFormed(c) && off + 12 + |c.data| <= |input|
    requires input[off..off + 12 + |c.data|] == Encode(c)
    ensures var n := |c.data|;
            input[off..off + 4] == BigEndian4(n) && input[off + 4..off + 8] == c.code.Bytes() &&
            input[off + 8..off + 8 + n] == c.data && input[off + 8 + n..off + 12 + n] == BigEndian4(c.crc)
  {
    var n := |c.data|;
    EncodeFields(c);
    SliceOfSlice(input, off, off + 12 + n, 0, 4);
    SliceOfSlice(input, off, off + 12 + n, 4, 8);
    SliceOfSlice(input, off, off + 12 + n, 8, 8 + n);
    SliceOfSlice(input, off, off + 12 + n, 8 + n, 12 + n);
  }

  /** The head of an encoded chunk reads back as its length, code and
      position. */
  lemma HeadOfEncoding(input: seq<byte>, off: nat, c: RawChunk)
    requires WellFormed(c) && off + 12 + |c.data| <= |input| && off + 8 <= PNG_MAX_FILE_SIZE
    requires input[off..off + 12 + |c.data|] == Encode(c)
    ensures off < |input|
    ensures HeadAt(input, off + 1, input[off]) == (Ok(ChunkHead(|c.data|, c.code, off + 1)), off + 8)
  {
    EncodeAt(input, off, c);
    assert [input[off]] + input[off + 1..off + 4] == input[off..off + 4];
    assert CodeOf(c.code.Bytes()) == c.code;
  }

  /** One chunk with the right CRC: the framer yields its tokens and
      carries on after it. */
  lemma ChunkAtRight(input: seq<byte>, off: nat, c: RawChunk)
    requires WellFormed(c) && CrcRight(c)
    requires off + 12 + |c.data| <= |input| && off + 12 + |c.data| <= PNG_MAX_FILE_SIZE
    requires input[off..off + 12 + |c.data|] == Encode(c)
    ensures var next := Chunks(input, off + 12 + |c.data|, false);
            Chunks(input, off, false) == (ChunkTokens(c, off) + next.0, next.1)
  {
    var head := ChunkHead(|c.data|, c.code, off + 1);
    HeadOfEncoding(input, off, c);
    EncodeAt(input, off, c);
    ChunkBody(input, off, head);
  }

  /** One chunk with a wrong CRC: the framer yields the head and the data
      and raises BadCRC. */
  lemma ChunkAtWrong(input: seq<byte>, off: nat, c: RawChunk)
    requires WellFormed(c) && !CrcRight(c)
    requires off + 12 + |c.data| <= |input| && off + 12 + |c.data| <= PNG_MAX_FILE_SIZE
    requires input[off..off + 12 + |c.data|] == Encode(c)
    ensures var head := ChunkHead(|c.data|, c.code, off + 1);
            Chunks(input, off, false) == ([HeadToken(head)] + Parts(head, c.data), Fail(BadCRC))
  {
    var head := ChunkHead(|c.data|, c.code, off + 1);
    HeadOfEncoding(input, off, c);
    EncodeAt(input, off, c);
    ChunkBody(input, off, head);
  }

  /** A stream that holds `a` then `b` at `off` holds each of them. */
  lemma SplitAt(input: seq<byte>, off: nat, a: seq<byte>, b: seq<byte>)
    requires off + |a| + |b| <= |input| && input[off..off + |a| + |b|] == a + b
    ensures input[off..off + |a|] == a && input[off + |a|..off + |a| + |b|] == b
  {
    SliceOfSlice(input, off, off + |a| + |b|, 0, |a|);
    SliceOfSlice(input, off, off + |a| + |b|, |a|, |a| + |b|);
    assert (a + b)[..|a|] == a && (a + b)[|a|..] == b;
  }

  /** A stream whose rest from `off` is `a` then `b`. */
  lemma SplitRest(input: seq<byte>, off: nat, a: seq<byte>, b: seq<byte>)
    requires off <= |input| && input[off..] == a + b
    ensures off + |a| <= |input| && input[off..off + |a|] == a && input[off + |a|..] == b
  {
    SliceOfSlice(input, off, |input|, 0, |a|);
    assert (a + b)[..|a|] == a && (a + b)[|a|..] == b;
  }

  /** The stream holds the encodings of `cs` at `off`, within the budget. */
  predicate HoldsChunks(input: seq<byte>, off: nat, cs: seq<RawChunk>)
  {
    AllWellFormed(cs) &&
    off + |EncodeAll(cs)| <= |input| && off + |EncodeAll(cs)| <= PNG_MAX_FILE_SIZE &&
    input[off..off + |EncodeAll(cs)|] == EncodeAll(cs)
  }

  /** From `off` the framer yields the tokens of `cs`, then whatever it
      makes of the bytes after them. */
  predicate ReadsChunks(input: seq<byte>, off: nat, cs: seq<RawChunk>)
    requires AllWellFormed(cs) && off + |EncodeAll(cs)| <= |input|
  {
    var next := Chunks(input, off + |EncodeAll(cs)|, false);
    Chunks(input, off, false) == (TokensOf(cs, off) + next.0, next.1)
  }

  /** The first chunk held at `off`, and the others after it. */
  lemma HoldsFirst(input: seq<byte>, off: nat, cs: seq<RawChunk>)
    requires HoldsChunks(input, off, cs) && |cs| > 0
    ensures WellFormed(cs[0]) && off + 12 + |cs[0].data| <= |input| && off + 12 + |cs[0].data| <= PNG_MAX_FILE_SIZE
    ensures input[off..off + 12 + |cs[0].data|] == Encode(cs[0])
    ensures HoldsChunks(input, off + 12 + |cs[0].data|, cs[1..])
    ensures off + 12 + |cs[0].data| + |EncodeAll(cs[1..])| == off + |EncodeAll(cs)|
  {
    EncodeAllFirst(cs);
    SplitAt(input, off, Encode(cs[0]), EncodeAll(cs[1..]));
  }

  /** The encoding of a run is the first chunk's, then the others'. */
  lemma EncodeAllFirst(cs: seq<RawChunk>)
    requires AllWellFormed(cs) && |cs| > 0
    ensures WellFormed(cs[0]) && AllWellFormed(cs[1..])
    ensures EncodeAll(cs) == Encode(cs[0]) + EncodeAll(cs[1..])
  {
    assert forall i :: 0 <= i < |cs| - 1 ==> cs[1..][i] == cs[i + 1];
  }

  lemma ReadsNoChunks(input: seq<byte>, off: nat)
    requires HoldsChunks(input, off, [])
    ensures ReadsChunks(input, off, [])
  {
    var next := Chunks(input, off, false);
    assert TokensOf([], off) + next.0 == next.0;
    Pair(next);
  }

  /** The framer's reading depends only on the position it starts from. */
  lemma SamePosition(input: seq<byte>, p: nat, q: nat)
    requires p == q <= |input|
    ensures Chunks(input, p, false) == Chunks(input, q, false)
  {
  }

  /** A chunk with the right CRC followed by chunks that are read one
      after the other: all of them are read. */
  lemma ReadsChunksStep(input: seq<byte>, off: nat, cs: seq<RawChunk>)
    requires AllWellFormed(cs) && |cs| > 0 && CrcRight(cs[0])
    requires off + |EncodeAll(cs)| <= |input| && off + 12 + |cs[0].data| <= PNG_MAX_FILE_SIZE
    requires input[off..off + 12 + |cs[0].data|] == Encode(cs[0])
    requires EncodeAll(cs) == Encode(cs[0]) + EncodeAll(cs[1..]) && AllWellFormed(cs[1..])
    requires ReadsChunks(input, off + 12 + |cs[0].data|, cs[1..])
    ensures ReadsChunks(input, off, cs)
  {
    ChunkAtRight(input, off, cs[0]);
    SamePosition(input, off + |EncodeAll(cs)|, off + 12 + |cs[0].data| + |EncodeAll(cs[1..])|);
    Combine(Chunks(input, off, false), Chunks(input, off + 12 + |cs[0].data|, false),
            Chunks(input, off + 12 + |cs[0].data| + |EncodeAll(cs[1..])|, false),
            ChunkTokens(cs[0], off), TokensOf(cs[1..], off + 12 + |cs[0].data|), TokensOf(cs, off));
  }

  /** The CRCs after the first one are right too. */
  lemma CrcsRightTail(cs: seq<RawChunk>)
    requires AllCrcsRight(cs) && |cs| > 0
    ensures AllCrcsRight(cs[1..])
  {
    forall i | 0 <= i < |cs| - 1 ensures CrcRight(cs[1..][i]) {
      assert cs[1..][i] == cs[i + 1] && CrcRight(cs[i + 1]);
    }
  }

  /** Well-formed chunks with correct CRCs are read one after the other,
      whatever follows them. */
  lemma {:induction false} ChunksOfPrefix(input: seq<byte>, off: nat, cs: seq<RawChunk>)
    requires HoldsChunks(input, off, cs) && AllCrcsRight(cs)
    ensures ReadsChunks(input, off, cs)
    decreases |cs|
  {
    if |cs| > 0 {
      HoldsFirst(input, off, cs);
      CrcsRightTail(cs);
      ChunksOfPrefix(input, off + 12 + |cs[0].data|, cs[1..]);
      EncodeAllFirst(cs);
      assert CrcRight(cs[0]);
      ReadsChunksStep(input, off, cs);
    } else {
      ReadsNoChunks(input, off);
    }
  }

  // The framer's language.

  /** A stream that starts with the signature is read from byte count 8
      on as chunks. */
  lemma LexAfterSignature(input: seq<byte>)
    requires |PNG_SIGNATURE| <= |input| && input[..|PNG_SIGNATURE|] == PNG_SIGNATURE
    ensures Lex(input) == Chunks(input, |PNG_SIGNATURE|, false)
  {
  }

  /** Round trip: the signature followed by well-formed chunks with correct
      CRCs is read back as exactly their tokens, as long as the stream is
      shorter than the 20 MiB budget. */
  lemma LexEncoding(cs: seq<RawChunk>)
    requires AllWellFormed(cs) && AllCrcsRight(cs) && |PNG_SIGNATURE| + |EncodeAll(cs)| < PNG_MAX_FILE_SIZE
    ensures Lex(PNG_SIGNATURE + EncodeAll(cs)) == (TokensOf(cs, |PNG_SIGNATURE|), Pass)
  {
    var input := PNG_SIGNATURE + EncodeAll(cs);
    SplitAt(input, 0, PNG_SIGNATURE, EncodeAll(cs));
    LexAfterSignature(input);
    ChunksOfPrefix(input, 8, cs);
    ChunksAtEnd(input, |input|, false);
    assert TokensOf(cs, 8) + [] == TokensOf(cs, 8);
  }

  /** The same stream at exactly the budget is refused: the probe for a
      further chunk would read past 20 MiB, which raises PNGTooLarge after
      every chunk was delivered. */
  lemma LexEncodingAtBudget(cs: seq<RawChunk>)
    requires AllWellFormed(cs) && AllCrcsRight(cs) && |PNG_SIGNATURE| + |EncodeAll(cs)| == PNG_MAX_FILE_SIZE
    ensures Lex(PNG_SIGNATURE + EncodeAll(cs)) == (TokensOf(cs, |PNG_SIGNATURE|), Fail(PNGTooLarge))
  {
    var input := PNG_SIGNATURE + EncodeAll(cs);
    SplitAt(input, 0, PNG_SIGNATURE, EncodeAll(cs));
    LexAfterSignature(input);
    ChunksOfPrefix(input, 8, cs);
    ChunksAtEnd(input, |input|, false);
    assert TokensOf(cs, 8) + [] == TokensOf(cs, 8);
  }

  /** A chunk with `remaining` data bytes can only end well if its data and
      its CRC are in the stream and within the budget. */
  lemma {:induction false} ResumeNeedsData(input: seq<byte>, pos: nat, head: ChunkHead, remaining: nat, covered: seq<byte>)
    requires pos <= |input| && Resume(input, pos, head, remaining, covered).1 == Pass
    ensures pos + remaining + 4 <= |input| && pos + remaining + 4 <= PNG_MAX_FILE_SIZE
    decreases remaining
  {
    if remaining > 0 {
      var n := Min(PNG_CHUNK_MAX_DATA_READ, remaining);
      ResumeDataStep(input, pos, head, remaining, covered);
      var dataRead := ReadAt(input, pos, n);
      ResumeNeedsData(input, pos + n, head, remaining - n, covered + dataRead.result.value);
    } else {
      ResumeEndStep(input, pos, head, covered);
    }
  }

  /** An encoded chunk is its four fields in order. */
  lemma FieldsMakeEncoding(input: seq<byte>, off: nat, c: RawChunk)
    requires WellFormed(c) && off + 12 + |c.data| <= |input|
    requires var n := |c.data|;
             input[off..off + 4] == BigEndian4(n) && input[off + 4..off + 8] == c.code.Bytes() &&
             input[off + 8..off + 8 + n] == c.data && input[off + 8 + n..off + 12 + n] == BigEndian4(c.crc)
    ensures input[off..off + 12 + |c.data|] == Encode(c)
  {
    var n := |c.data|;
    assert input[off..off + 4] + input[off + 4..off + 8] + input[off + 8..off + 8 + n] + input[off + 8 + n..off + 12 + n]
        == input[off..off + 12 + n];
  }

  /** Where the framer passes a chunk at `off`, the chunk is well formed,
      its CRC is right, and its tokens are those of its encoding. */
  lemma PassChunk(input: seq<byte>, off: nat) returns (c: RawChunk)
    requires off < |input| && off + 1 <= PNG_MAX_FILE_SIZE && Chunks(input, off, false).1 == Pass
    ensures WellFormed(c) && CrcRight(c)
    ensures off + 12 + |c.data| <= |input| && off + 12 + |c.data| <= PNG_MAX_FILE_SIZE
    ensures input[off..off + 12 + |c.data|] == Encode(c)
    ensures var next := Chunks(input, off + 12 + |c.data|, false);
            Chunks(input, off, false) == (ChunkTokens(c, off) + next.0, next.1)
  {
    var head := PassedHead(input, off);
    var dataEnd := off + 8 + head.length;
    c := RawChunk(head.code, input[off + 8..dataEnd], BigEndian(input[dataEnd..dataEnd + 4]));
    PassedBody(input, off, head);
    assert head == ChunkHead(|c.data|, c.code, off + 1);
    FieldsOfHead(input, off, head, c);
  }

  /** The chunk read from a head and the bytes after it is encoded where
      it was read. */
  lemma FieldsOfHead(input: seq<byte>, off: nat, head: ChunkHead, c: RawChunk)
    requires off < |input| && HeadAt(input, off + 1, input[off]) == (Ok(head), off + 8)
    requires off + 12 + head.length <= |input|
    requires var dataEnd := off + 8 + head.length;
             c == RawChunk(head.code, input[off + 8..dataEnd], BigEndian(input[dataEnd..dataEnd + 4]))
    ensures WellFormed(c) && input[off..off + 12 + |c.data|] == Encode(c)
  {
    var dataEnd := off + 8 + head.length;
    assert [input[off]] + input[off + 1..off + 4] == input[off..off + 4];
    BigEndian4OfField(input[off..off + 4]);
    BigEndian4OfField(input[dataEnd..dataEnd + 4]);
    FieldsMakeEncoding(input, off, c);
  }

  /** The data and CRC field of a chunk that is passed: the CRC is right
      and the framer yields the chunk's tokens. */
  lemma PassedBody(input: seq<byte>, off: nat, head: ChunkHead)
    requires off < |input| && off + 1 <= PNG_MAX_FILE_SIZE && Chunks(input, off, false).1 == Pass
    requires HeadAt(input, off + 1, input[off]) == (Ok(head), off + 8)
    requires off + 12 + head.length <= |input| && off + 12 + head.length <= PNG_MAX_FILE_SIZE
    ensures var dataEnd := off + 8 + head.length;
            var data := input[off + 8..dataEnd];
            var next := Chunks(input, dataEnd + 4, false);
            BigEndian(input[dataEnd..dataEnd + 4]) == U32(Crc(head.code.Bytes() + data, 0)) &&
            Chunks(input, off, false) == ([HeadToken(head)] + Parts(head, data) + [EndToken(head, true)] + next.0, next.1)
  {
    ChunkBody(input, off, head);
  }

  /** A chunk that is passed has a head and, after it, its data and CRC
      field within the stream and the budget. */
  lemma PassedHead(input: seq<byte>, off: nat) returns (head: ChunkHead)
    requires off < |input| && off + 1 <= PNG_MAX_FILE_SIZE && Chunks(input, off, false).1 == Pass
    ensures HeadAt(input, off + 1, input[off]) == (Ok(head), off + 8)
    ensures off + 12 + head.length <= |input| && off + 12 + head.length <= PNG_MAX_FILE_SIZE
  {
    var headRead := HeadAt(input, off + 1, input[off]);
    if headRead.0.Err? {
      ChunksNoHead(input, off, false);
      assert false;
    }
    head := headRead.0.value;
    ChunksHead(input, off, head, off + 8);
    ResumeNeedsData(input, off + 8, head, head.length, head.code.Bytes());
  }


  /** A chunk in front of a run of chunks, as bytes. */
  lemma ConsEncoding(input: seq<byte>, off: nat, c: RawChunk, rest: seq<RawChunk>)
    requires WellFormed(c) && AllWellFormed(rest) && off + 12 + |c.data| <= |input|
    requires input[off..off + 12 + |c.data|] == Encode(c) && input[off + 12 + |c.data|..] == EncodeAll(rest)
    ensures AllWellFormed([c] + rest) && input[off..] == EncodeAll([c] + rest)
  {
    var cs := [c] + rest;
    assert cs[0] == c && cs[1..] == rest;
    assert input[off..] == input[off..off + 12 + |c.data|] + input[off + 12 + |c.data|..];
  }

  /** A chunk in front of a run of chunks, as tokens. */
  lemma ConsTokens(c: RawChunk, rest: seq<RawChunk>, off: nat, whole: (seq<Token>, Outcome), next: (seq<Token>, Outcome))
    requires whole == (ChunkTokens(c, off) + next.0, next.1) && next.0 == TokensOf(rest, off + 12 + |c.data|)
    ensures whole.0 == TokensOf([c] + rest, off)
  {
    var cs := [c] + rest;
    assert cs[0] == c && cs[1..] == rest;
  }

  lemma CrcsRightCons(c: RawChunk, rest: seq<RawChunk>)
    requires CrcRight(c) && AllCrcsRight(rest)
    ensures AllCrcsRight([c] + rest)
  {
    var cs := [c] + rest;
    forall i | 0 <= i < |cs| ensures CrcRight(cs[i]) {
      if i > 0 {
        assert cs[i] == rest[i - 1] && CrcRight(rest[i - 1]);
      }
    }
  }

  /** The converse of the round trip, from any offset between chunks: when
      the framer stops normally, the rest of the stream is a sequence of
      well-formed chunks with correct CRCs, the stream is shorter than the
      budget, and the tokens are exactly theirs. */
  lemma {:induction false} PassIsEncoding(input: seq<byte>, off: nat) returns (cs: seq<RawChunk>)
    requires off <= |input| && Chunks(input, off, false).1 == Pass
    ensures AllWellFormed(cs) && AllCrcsRight(cs) && |input| < PNG_MAX_FILE_SIZE
    ensures input[off..] == EncodeAll(cs)
    ensures Chunks(input, off, false).0 == TokensOf(cs, off)
    decreases |input| - off
  {
    var probe := ReadAt(input, off, 1);
    if probe.result.Err? {
      ChunksAtEnd(input, off, false);
      return [];
    }
    var c := PassChunk(input, off);
    var rest := PassIsEncoding(input, off + 12 + |c.data|);
    ConsEncoding(input, off, c, rest);
    ConsTokens(c, rest, off, Chunks(input, off, false), Chunks(input, off + 12 + |c.data|, false));
    CrcsRightCons(c, rest);
    cs := [c] + rest;
  }

  /** Lex passes exactly on encodings: the converse of LexEncoding. */
  lemma LexPassIsEncoding(input: seq<byte>) returns (cs: seq<RawChunk>)
    requires Lex(input).1 == Pass
    ensures AllWellFormed(cs) && AllCrcsRight(cs) && input == PNG_SIGNATURE + EncodeAll(cs)
    ensures |input| < PNG_MAX_FILE_SIZE && Lex(input).0 == TokensOf(cs, |PNG_SIGNATURE|)
  {
    cs := PassIsEncoding(input, 8);
    assert input == input[..8] + input[8..];
  }

  // Failures.

  /** A stream shorter than the signature ends in UnexpectedEOF. */
  lemma LexShortInput(input: seq<byte>)
    requires |input| < |PNG_SIGNATURE|
    ensures Lex(input) == ([], Fail(UnexpectedEOF))
  {
  }

  /** Eight bytes that are not the signature raise SignatureMismatch. */
  lemma LexBadSignature(input: seq<byte>)
    requires |input| >= |PNG_SIGNATURE| && input[..|PNG_SIGNATURE|] != PNG_SIGNATURE
    ensures Lex(input) == ([], Fail(SignatureMismatch))
  {
  }

  /** The chunks `cs` and then whatever the framer makes of the bytes after
      them. */
  lemma LexAfterChunks(cs: seq<RawChunk>, tail: seq<byte>)
    requires AllWellFormed(cs) && AllCrcsRight(cs) && |PNG_SIGNATURE| + |EncodeAll(cs)| <= PNG_MAX_FILE_SIZE
    ensures var input := PNG_SIGNATURE + EncodeAll(cs) + tail;
            var next := Chunks(input, |PNG_SIGNATURE| + |EncodeAll(cs)|, false);
            input[|PNG_SIGNATURE| + |EncodeAll(cs)|..] == tail &&
            Lex(input) == (TokensOf(cs, |PNG_SIGNATURE|) + next.0, next.1)
  {
    var e := EncodeAll(cs);
    var input := PNG_SIGNATURE + e + tail;
    assert input == PNG_SIGNATURE + (e + tail);
    SplitAt(input, 0, PNG_SIGNATURE, e + tail);
    SplitAt(input, 8, e, tail);
    LexAfterSignature(input);
    ChunksOfPrefix(input, 8, cs);
  }

  /** A chunk whose CRC field is wrong raises BadCRC after its head and its
      data were delivered, whatever follows it. */
  lemma LexBadCrc(cs: seq<RawChunk>, c: RawChunk, tail: seq<byte>)
    requires AllWellFormed(cs) && AllCrcsRight(cs) && WellFormed(c) && !CrcRight(c)
    requires |PNG_SIGNATURE| + |EncodeAll(cs)| + 12 + |c.data| <= PNG_MAX_FILE_SIZE
    ensures var offset := |PNG_SIGNATURE| + |EncodeAll(cs)|;
            var head := ChunkHead(|c.data|, c.code, offset + 1);
            Lex(PNG_SIGNATURE + EncodeAll(cs) + (Encode(c) + tail))
              == (TokensOf(cs, |PNG_SIGNATURE|) + ([HeadToken(head)] + Parts(head, c.data)), Fail(BadCRC))
  {
    var f := Encode(c);
    var input := PNG_SIGNATURE + EncodeAll(cs) + (f + tail);
    var offset := 8 + |EncodeAll(cs)|;
    LexAfterChunks(cs, f + tail);
    WrongChunkAhead(input, offset, c, tail);
  }

  /** The rest of the stream from `off` is a chunk with a wrong CRC, then
      anything. */
  lemma WrongChunkAhead(input: seq<byte>, off: nat, c: RawChunk, tail: seq<byte>)
    requires WellFormed(c) && !CrcRight(c) && off + 12 + |c.data| <= PNG_MAX_FILE_SIZE
    requires off <= |input| && input[off..] == Encode(c) + tail
    ensures var head := ChunkHead(|c.data|, c.code, off + 1);
            Chunks(input, off, false) == ([HeadToken(head)] + Parts(head, c.data), Fail(BadCRC))
  {
    SplitRest(input, off, Encode(c), tail);
    ChunkAtWrong(input, off, c);
  }

  /** A length field above 2^31 - 1 at `off` stops the framer there. */
  lemma TooLongAt(input: seq<byte>, off: nat, lengthField: seq<byte>)
    requires off + 4 <= |input| && off + 4 <= PNG_MAX_FILE_SIZE
    requires input[off..off + 4] == lengthField && BigEndian(lengthField) > PNG_MAX_CHUNK_LENGTH
    ensures Chunks(input, off, false) == ([], Fail(PNGSyntaxError(ChunkTooLong)))
  {
    assert [input[off]] + input[off + 1..off + 4] == lengthField;
    ChunksNoHead(input, off, false);
  }

  /** A chunk that declares more than 2^31 - 1 data bytes is refused as
      soon as its length field is read. */
  lemma LexChunkTooLong(cs: seq<RawChunk>, lengthField: seq<byte>, tail: seq<byte>)
    requires AllWellFormed(cs) && AllCrcsRight(cs) && |lengthField| == 4 && BigEndian(lengthField) > PNG_MAX_CHUNK_LENGTH
    requires |PNG_SIGNATURE| + |EncodeAll(cs)| + 4 <= PNG_MAX_FILE_SIZE
    ensures Lex(PNG_SIGNATURE + EncodeAll(cs) + (lengthField + tail))
              == (TokensOf(cs, |PNG_SIGNATURE|), Fail(PNGSyntaxError(ChunkTooLong)))
  {
    var input := PNG_SIGNATURE + EncodeAll(cs) + (lengthField + tail);
    var offset := 8 + |EncodeAll(cs)|;
    LexAfterChunks(cs, lengthField + tail);
    SplitRest(input, offset, lengthField, tail);
    TooLongAt(input, offset, lengthField);
    assert TokensOf(cs, 8) + [] == TokensOf(cs, 8);
  }

  /** A type code with a byte other than an ASCII letter at `off + 4`
      stops the framer at `off`. */
  lemma BadCodeAt(input: seq<byte>, off: nat, length: nat, codeField: seq<byte>)
    requires off + 8 <= |input| && off + 8 <= PNG_MAX_FILE_SIZE && length <= PNG_MAX_CHUNK_LENGTH
    requires input[off..off + 8] == BigEndian4(length) + codeField
    requires |codeField| == 4 && !(AllowedByte(codeField[0]) && AllowedByte(codeField[1]) &&
                                   AllowedByte(codeField[2]) && AllowedByte(codeField[3]))
    ensures Chunks(input, off, false) == ([], Fail(PNGSyntaxError(BadTypeCode)))
  {
    SplitAt(input, off, BigEndian4(length), codeField);
    assert [input[off]] + input[off + 1..off + 4] == BigEndian4(length);
    ChunksNoHead(input, off, false);
  }

  /** A chunk whose type code holds a byte other than an ASCII letter is
      refused once its code is read. */
  lemma LexBadTypeCode(cs: seq<RawChunk>, length: nat, codeField: seq<byte>, tail: seq<byte>)
    requires AllWellFormed(cs) && AllCrcsRight(cs) && length <= PNG_MAX_CHUNK_LENGTH
    requires |codeField| == 4 && !(AllowedByte(codeField[0]) && AllowedByte(codeField[1]) &&
                                   AllowedByte(codeField[2]) && AllowedByte(codeField[3]))
    requires |PNG_SIGNATURE| + |EncodeAll(cs)| + 8 <= PNG_MAX_FILE_SIZE
    ensures Lex(PNG_SIGNATURE + EncodeAll(cs) + (BigEndian4(length) + codeField + tail))
              == (TokensOf(cs, |PNG_SIGNATURE|), Fail(PNGSyntaxError(BadTypeCode)))
  {
    var input := PNG_SIGNATURE + EncodeAll(cs) + (BigEndian4(length) + codeField + tail);
    var offset := 8 + |EncodeAll(cs)|;
    LexAfterChunks(cs, BigEndian4(length) + codeField + tail);
    SplitRest(input, offset, BigEndian4(length) + codeField, tail);
    BadCodeAt(input, offset, length, codeField);
    assert TokensOf(cs, 8) + [] == TokensOf(cs, 8);
  }
}
