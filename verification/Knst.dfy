/** The KNST plaintext frame, and the splitting of a body into frames that any arrival order puts together again. */
module Knst {
  import opened ByteStrings

  const HEADER_LEN: nat := 30
  const VERSION: u8 := 1
  const CHUNK_PAYLOAD_SIZE: nat := 3770
  const MAX_CHUNKS: nat := 256

  type MessageId = b: Bytes | |b| == 16 witness seq(16, _ => 0)

  datatype Frame = Frame(contentType: u8, messageId: MessageId, chunkIndex: u16, totalChunks: u16, plaintextLength: u32, payload: Bytes)

  function Magic(): Bytes {
    Ascii("KNST")
  }

  /** `frame`: the header, then the payload. */
  function FrameBytes(f: Frame): (b: Bytes)
    ensures |b| == HEADER_LEN + |f.payload|
  {
    Magic() + [VERSION] + [f.contentType] + f.messageId + Be(f.chunkIndex, 2) + Be(f.totalChunks, 2) + Be(f.plaintextLength, 4)
    + f.payload
  }

  function U16(b: Bytes): u16
    requires |b| == 2
  {
    FromBeRoundTrip(b);
    Widths();
    FromBe(b)
  }

  function U32(b: Bytes): u32
    requires |b| == 4
  {
    FromBeRoundTrip(b);
    Widths();
    FromBe(b)
  }

  function Parse(data: Bytes): (r: Option<Frame>) {
    if |data| < HEADER_LEN || data[..4] != Magic() || data[4] != VERSION then None
    else Some(Frame(data[5], data[6..22], U16(data[22..24]), U16(data[24..26]), U32(data[26..30]), data[30..]))
  }

  /** Parsing inverts framing, and accepts nothing but frames. */
  lemma ParseIff(data: Bytes, f: Frame)
    ensures Parse(data) == Some(f) <==> data == FrameBytes(f)
  {
    hide Be;
    hide FromBe;
    Widths();
    if data == FrameBytes(f) {
      BeRoundTrip(f.chunkIndex, 2);
      BeRoundTrip(f.totalChunks, 2);
      BeRoundTrip(f.plaintextLength, 4);
      assert data[..4] == Magic();
      assert data[6..22] == f.messageId;
      assert data[22..24] == Be(f.chunkIndex, 2);
      assert data[24..26] == Be(f.totalChunks, 2);
      assert data[26..30] == Be(f.plaintextLength, 4);
      assert data[30..] == f.payload;
    }
    if Parse(data) == Some(f) {
      FromBeRoundTrip(data[22..24]);
      FromBeRoundTrip(data[24..26]);
      FromBeRoundTrip(data[26..30]);
      Extend(data, 4, 5);
      Extend(data, 5, 6);
      Extend(data, 6, 22);
      Extend(data, 22, 24);
      Extend(data, 24, 26);
      Extend(data, 26, 30);
      Extend(data, 30, |data|);
    }
  }

  /** The body of a control frame, which is never split. */
  function ControlBody(f: Frame): Option<Bytes> {
    if f.totalChunks == 1 && f.plaintextLength <= |f.payload| then Some(f.payload[..f.plaintextLength]) else None
  }

  function FrameWhole(body: Bytes, contentType: u8, messageId: MessageId): Option<Bytes> {
    if |body| > 0xFFFF_FFFF then None else Some(FrameBytes(Frame(contentType, messageId, 0, 1, |body|, body)))
  }

  /** A body framed whole reads back as a control frame with that body. */
  lemma WholeReadsBack(body: Bytes, contentType: u8, messageId: MessageId)
    requires FrameWhole(body, contentType, messageId).Some?
    ensures var f := Parse(FrameWhole(body, contentType, messageId).value);
            f.Some? && f.value.contentType == contentType && f.value.messageId == messageId && ControlBody(f.value) == Some(body)
  {
    ParseIff(FrameWhole(body, contentType, messageId).value, Frame(contentType, messageId, 0, 1, |body|, body));
    assert body[..|body|] == body;
  }

  // ----- splitting -----

  function ChunkCount(len: nat): (n: nat)
    ensures n >= 1 && len <= n * CHUNK_PAYLOAD_SIZE
    ensures n <= MAX_CHUNKS <==> len <= MAX_CHUNKS * CHUNK_PAYLOAD_SIZE
  {
    var n := (len + CHUNK_PAYLOAD_SIZE - 1) / CHUNK_PAYLOAD_SIZE;
    if n < 1 then 1 else n
  }

  function Cut(body: Bytes, i: nat): (at: nat)
    ensures at <= |body|
  {
    if i * CHUNK_PAYLOAD_SIZE < |body| then i * CHUNK_PAYLOAD_SIZE else |body|
  }

  /** The frame of chunk `i`. */
  function Chunk(body: Bytes, contentType: u8, messageId: MessageId, i: nat): Frame
    requires |body| <= MAX_CHUNKS * CHUNK_PAYLOAD_SIZE && i < ChunkCount(|body|)
  {
    Frame(contentType, messageId, i, ChunkCount(|body|), |body|, body[Cut(body, i)..Cut(body, i + 1)])
  }

  function EncodeChunks(body: Bytes, contentType: u8, messageId: MessageId): (r: Option<seq<Bytes>>) {
    if ChunkCount(|body|) > MAX_CHUNKS then None
    else Some(seq(ChunkCount(|body|), i requires 0 <= i < ChunkCount(|body|) => FrameBytes(Chunk(body, contentType, messageId, i))))
  }

  // ----- putting together -----

  /** The payloads received, by chunk index; what does not parse is ignored. */
  function Received(arrived: seq<Bytes>): (m: map<u16, Bytes>)
    ensures forall i :: i in m ==> exists d :: d in arrived && Parse(d).Some? && Parse(d).value.chunkIndex == i && Parse(d).value.payload == m[i]
    ensures forall d :: d in arrived && Parse(d).Some? ==> Parse(d).value.chunkIndex in m
  {
    if arrived == [] then map[]
    else
      var n := |arrived| - 1;
      var m := Received(arrived[..n]);
      assert forall d :: d in arrived <==> d in arrived[..n] || d == arrived[n];
      match Parse(arrived[n])
      case None => m
      case Some(f) => m[f.chunkIndex := f.payload]
  }

  function Join(m: map<u16, Bytes>, n: nat): Bytes
    requires n <= MAX_CHUNKS && forall i: u16 :: i < n ==> i in m
  {
    if n == 0 then [] else Join(m, n - 1) + m[n - 1]
  }

  lemma {:induction false} JoinIsBody(body: Bytes, contentType: u8, messageId: MessageId, m: map<u16, Bytes>, n: nat)
    requires |body| <= MAX_CHUNKS * CHUNK_PAYLOAD_SIZE && n <= ChunkCount(|body|) <= MAX_CHUNKS
    requires forall i: u16 :: i < n ==> i in m && m[i] == Chunk(body, contentType, messageId, i).payload
    ensures Join(m, n) == body[..Cut(body, n)]
  {
    if n > 0 {
      JoinIsBody(body, contentType, messageId, m, n - 1);
      assert body[..Cut(body, n)] == body[..Cut(body, n - 1)] + body[Cut(body, n - 1)..Cut(body, n)];
    }
  }

  /** A body is split exactly when 256 frames hold it, and each frame parses as its chunk. */
  lemma ChunksParse(body: Bytes, contentType: u8, messageId: MessageId)
    ensures EncodeChunks(body, contentType, messageId).Some? <==> |body| <= 256 * 3770
    ensures EncodeChunks(body, contentType, messageId).Some? ==>
              var frames := EncodeChunks(body, contentType, messageId).value;
              && 1 <= |frames| == ChunkCount(|body|) <= MAX_CHUNKS
              && forall i :: 0 <= i < |frames| ==> Parse(frames[i]) == Some(Chunk(body, contentType, messageId, i))
  {
    hide Parse;
    hide FrameBytes;
    if EncodeChunks(body, contentType, messageId).Some? {
      var frames := EncodeChunks(body, contentType, messageId).value;
      forall i | 0 <= i < |frames| ensures Parse(frames[i]) == Some(Chunk(body, contentType, messageId, i)) {
        ParseIff(frames[i], Chunk(body, contentType, messageId, i));
      }
    }
  }

  /** The frames in any order, with any repeats. */
  ghost predicate SameFrames(arrived: seq<Bytes>, frames: seq<Bytes>) {
    forall d :: d in arrived <==> d in frames
  }

  /** Conservation: however the frames of a body arrive, joining their payloads by index gives back the body. */
  lemma ChunksReassemble(body: Bytes, contentType: u8, messageId: MessageId, arrived: seq<Bytes>)
    requires EncodeChunks(body, contentType, messageId).Some?
    requires SameFrames(arrived, EncodeChunks(body, contentType, messageId).value)
    ensures |EncodeChunks(body, contentType, messageId).value| <= MAX_CHUNKS
    ensures forall i: u16 :: i < |EncodeChunks(body, contentType, messageId).value| ==> i in Received(arrived)
    ensures Join(Received(arrived), |EncodeChunks(body, contentType, messageId).value|) == body
  {
    hide EncodeChunks;
    hide Parse;
    hide Received;
    hide ChunkCount;
    ChunksParse(body, contentType, messageId);
    Arrival(body, contentType, messageId, arrived, EncodeChunks(body, contentType, messageId).value);
  }

  lemma Arrival(body: Bytes, contentType: u8, messageId: MessageId, arrived: seq<Bytes>, frames: seq<Bytes>)
    requires |body| <= MAX_CHUNKS * CHUNK_PAYLOAD_SIZE && |frames| == ChunkCount(|body|)
    requires forall i :: 0 <= i < |frames| ==> Parse(frames[i]) == Some(Chunk(body, contentType, messageId, i))
    requires SameFrames(arrived, frames)
    ensures forall i: u16 :: i < |frames| ==> i in Received(arrived)
    ensures Join(Received(arrived), |frames|) == body
  {
    hide Parse;
    hide Received;
    hide FrameBytes;
    var m := Received(arrived);
    forall i: u16 | i < |frames| ensures i in m && m[i] == Chunk(body, contentType, messageId, i).payload {
      assert frames[i] in arrived;
      var d :| d in arrived && Parse(d).Some? && Parse(d).value.chunkIndex == i && Parse(d).value.payload == m[i];
      var j :| 0 <= j < |frames| && frames[j] == d;
    }
    JoinIsBody(body, contentType, messageId, m, |frames|);
    assert body[..|body|] == body;
  }

  // ----- byte for byte -----

  /** A frame on the wire: magic, version, type, id, index, total and length, big-endian, then the payload. */
  lemma FrameLayout(f: Frame)
    ensures var b := FrameBytes(f);
            && |b| == 30 + |f.payload| && Slice(b, 0, 4) == Ascii("KNST") && Slice(b, 4, 6) == [1, f.contentType]
            && Slice(b, 6, 22) == f.messageId && Slice(b, 22, 24) == Be(f.chunkIndex, 2) && Slice(b, 24, 26) == Be(f.totalChunks, 2)
            && Slice(b, 26, 30) == Be(f.plaintextLength, 4) && Slice(b, 30, |b|) == f.payload
  {
    hide Be;
    hide Slice;
    hide EndsWith;
    var b := FrameBytes(f);
    var r4 := Be(f.plaintextLength, 4) + f.payload;
    var r3 := Be(f.totalChunks, 2) + r4;
    var r2 := Be(f.chunkIndex, 2) + r3;
    var r1 := f.messageId + r2;
    var r0 := [1, f.contentType] + r1;
    assert b == Ascii("KNST") + r0;
    Whole(b, Ascii("KNST") + r0);
    PieceAt(b, 0, Ascii("KNST"), r0);
    PieceAt(b, 4, [1, f.contentType], r1);
    PieceAt(b, 6, f.messageId, r2);
    PieceAt(b, 22, Be(f.chunkIndex, 2), r3);
    PieceAt(b, 24, Be(f.totalChunks, 2), r4);
    PieceAt(b, 26, Be(f.plaintextLength, 4), f.payload);
    LastPiece(b, 30, f.payload);
  }

  /** A control body is read exactly from an unsplit frame whose payload is long enough, and is its stated length. */
  lemma ControlBodyIff(f: Frame, body: Bytes)
    ensures ControlBody(f) == Some(body) <==> f.totalChunks == 1 && |body| == f.plaintextLength && body <= f.payload
  {
    if f.totalChunks == 1 && |body| == f.plaintextLength && body <= f.payload {
      assert f.payload[..f.plaintextLength] == body;
    }
  }

  /** Every body of at most 2^32 - 1 bytes is framed whole. */
  lemma WholeIff(body: Bytes, contentType: u8, messageId: MessageId)
    ensures FrameWhole(body, contentType, messageId).Some? <==> |body| <= 0xFFFF_FFFF
  {
  }

  /** No fewer frames would do: all but the last are full. */
  lemma ChunkCountIsLeast(len: nat)
    ensures ChunkCount(len) == 1 || (ChunkCount(len) - 1) * 3770 < len
  {
  }

  /** What each frame of a body says: its place, the number of frames, the whole length, and its 3770 bytes or the rest. */
  lemma ChunkFrames(body: Bytes, contentType: u8, messageId: MessageId, i: nat)
    requires EncodeChunks(body, contentType, messageId).Some? && i < |EncodeChunks(body, contentType, messageId).value|
    ensures var frames := EncodeChunks(body, contentType, messageId).value;
            var f := Parse(frames[i]);
            && f.Some? && f.value.contentType == contentType && f.value.messageId == messageId
            && f.value.chunkIndex == i && f.value.totalChunks == |frames| <= 256 && f.value.plaintextLength == |body|
            && |f.value.payload| <= 3770
            && f.value.payload == Slice(body, 3770 * i, if i + 1 < |frames| then 3770 * (i + 1) else |body|)
  {
    hide Parse;
    hide FrameBytes;
    ChunksParse(body, contentType, messageId);
    ChunkCountIsLeast(|body|);
  }
}
