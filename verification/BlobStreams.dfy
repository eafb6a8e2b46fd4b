/**
 The blobs of a pushed clip on the wire (core/src/clipnet.rs `send_push`, `build_pushed_tx`,
 `read_blob`; core/src/datachannel.rs `write_msg`, `read_msg`), byte by byte, and the same
 chunking read by a consumer (client/src/channel.rs `ProviderChannel::data`, `collect`).
 */
module BlobStreams {
  import opened Wrappers
  import opened Bytes
  import ConsumerChannels

  const TAG_DATA: byte := 0x10
  const TAG_EOF: byte := 0x11
  const TAG_ERROR: byte := 0x12
  const MAX_MSG: nat := 1024 * 1024 + 16
  const PUSH_CHUNK: nat := 64 * 1024
  const MATERIALIZE_MAX: nat := 8 * 1024 * 1024

  type Stream = seq<byte>

  // ----- Messages ------------------------------------------------------------------------

  /** `write_msg`: the length counts the tag. */
  function EncodeMsg(tag: byte, payload: seq<byte>): Stream {
    BigEndian(1 + |payload|, 4) + [tag] + payload
  }

  datatype Message = Message(tag: byte, payload: seq<byte>, rest: Stream)

  /** `read_msg`; `None` is the end of the stream or a violation, which every caller here refuses alike. */
  function ReadMsg(stream: Stream): (m: Option<Message>)
    ensures m.Some? ==> |m.value.rest| < |stream|
  {
    if |stream| < 4 then None
    else
      var len := FromBigEndian(stream[..4]);
      if len == 0 || len > MAX_MSG || |stream| < 4 + len then None
      else Some(Message(stream[4], stream[5..4 + len], stream[4 + len..]))
  }

  lemma MessageReads(tag: byte, payload: seq<byte>, rest: Stream)
    requires 1 + |payload| <= MAX_MSG
    ensures ReadMsg(EncodeMsg(tag, payload) + rest) == Some(Message(tag, payload, rest))
  {
    var stream, len := EncodeMsg(tag, payload) + rest, 1 + |payload|;
    U32Widths();
    BigEndianReadsBack(len, 4);
    assert stream[..4] == BigEndian(len, 4);
    assert stream[5..4 + len] == payload;
    assert stream[4 + len..] == rest;
  }

  // ----- Sending ---------------------------------------------------------------------------

  /** The DATA messages of `chunks`, each with its offset in front. */
  function DataMsgs(chunks: seq<seq<byte>>, offset: nat): Stream
    decreases chunks
  {
    if chunks == [] then []
    else
      EncodeMsg(TAG_DATA, BigEndian(offset, 8) + chunks[0]) + DataMsgs(chunks[1..], offset + |chunks[0]|)
  }

  function BlobStream(blob: seq<byte>): Stream {
    DataMsgs(Chunks(blob, PUSH_CHUNK), 0) + EncodeMsg(TAG_EOF, [])
  }

  function PushStream(blobs: seq<seq<byte>>): Stream {
    if blobs == [] then [] else BlobStream(blobs[0]) + PushStream(blobs[1..])
  }

  lemma DataFromNext(before: Stream, chunks: seq<seq<byte>>, offset: nat)
    requires chunks != []
    ensures before + DataMsgs(chunks, offset)
      == before + EncodeMsg(TAG_DATA, BigEndian(offset, 8) + chunks[0]) + DataMsgs(chunks[1..], offset + |chunks[0]|)
  {
  }

  method WriteChunks(before: Stream, chunks: seq<seq<byte>>) returns (out: Stream)
    ensures out == before + DataMsgs(chunks, 0)
  {
    out := before;
    var offset: nat, i := 0, 0;
    while i < |chunks|
      invariant i <= |chunks|
      invariant out + DataMsgs(chunks[i..], offset) == before + DataMsgs(chunks, 0)
    {
      DataFromNext(out, chunks[i..], offset);
      assert chunks[i..][1..] == chunks[i + 1..];
      out := out + EncodeMsg(TAG_DATA, BigEndian(offset, 8) + chunks[i]);
      offset := offset + |chunks[i]|;
      i := i + 1;
    }
    assert out + DataMsgs(chunks[i..], offset) == out;
  }

  method WriteBlob(before: Stream, blob: seq<byte>) returns (out: Stream)
    ensures out == before + BlobStream(blob)
  {
    out := WriteChunks(before, Chunks(blob, PUSH_CHUNK));
    Regroup(before, DataMsgs(Chunks(blob, PUSH_CHUNK), 0), EncodeMsg(TAG_EOF, []));
    out := out + EncodeMsg(TAG_EOF, []);
  }

  lemma PushFromNext(before: Stream, blobs: seq<seq<byte>>)
    requires blobs != []
    ensures before + PushStream(blobs) == before + BlobStream(blobs[0]) + PushStream(blobs[1..])
  {
  }

  method WritePush(blobs: seq<seq<byte>>) returns (out: Stream)
    ensures out == PushStream(blobs)
  {
    out := [];
    var i := 0;
    while i < |blobs|
      invariant i <= |blobs|
      invariant out + PushStream(blobs[i..]) == PushStream(blobs)
    {
      PushFromNext(out, blobs[i..]);
      assert blobs[i..][1..] == blobs[i + 1..];
      out := WriteBlob(out, blobs[i]);
      i := i + 1;
    }
  }

  /** The chunks before the `i`-th. */
  lemma {:induction false} OffsetIs(chunks: seq<seq<byte>>, offset: nat, i: nat) returns (before: Stream, after: Stream)
    requires i < |chunks|
    ensures DataMsgs(chunks, offset) ==
      before + EncodeMsg(TAG_DATA, BigEndian(offset + |Joined(chunks[..i])|, 8) + chunks[i]) + after
    decreases i
  {
    var first := EncodeMsg(TAG_DATA, BigEndian(offset, 8) + chunks[0]);
    if i == 0 {
      before, after := [], DataMsgs(chunks[1..], offset + |chunks[0]|);
      assert chunks[..0] == [] && offset + 0 == offset;
      assert [] + first == first;
    } else {
      var rest;
      rest, after := OffsetIs(chunks[1..], offset + |chunks[0]|, i - 1);
      before := first + rest;
      assert chunks[..i][0] == chunks[0] && chunks[..i][1..] == chunks[1..][..i - 1];
      var here := EncodeMsg(TAG_DATA, BigEndian(offset + |Joined(chunks[..i])|, 8) + chunks[i]);
      Regroup(first, rest, here);
      Regroup(first, rest + here, after);
    }
  }

  /** Each message of a blob carries, in front of its bytes, how many of the blob's bytes come before it. */
  lemma OffsetsCount(blob: seq<byte>, i: nat) returns (before: Stream, after: Stream, offset: nat, chunk: seq<byte>)
    requires i < |Chunks(blob, PUSH_CHUNK)|
    ensures BlobStream(blob) == before + EncodeMsg(TAG_DATA, BigEndian(offset, 8) + chunk) + after
    ensures chunk == Chunks(blob, PUSH_CHUNK)[i] && offset == |Joined(Chunks(blob, PUSH_CHUNK)[..i])|
  {
    var chunks := Chunks(blob, PUSH_CHUNK);
    var rest;
    before, rest := OffsetIs(chunks, 0, i);
    chunk, offset := chunks[i], |Joined(chunks[..i])|;
    after := rest + EncodeMsg(TAG_EOF, []);
    Regroup(before + EncodeMsg(TAG_DATA, BigEndian(offset, 8) + chunk), rest, EncodeMsg(TAG_EOF, []));
  }

  // ----- Receiving ----------------------------------------------------------------------------

  /** The loop of `read_blob`: every accepted DATA brings at least one byte. */
  function ReadInto(buf: seq<byte>, stream: Stream, expected: nat): Option<(seq<byte>, Stream)>
    decreases |stream|
  {
    match ReadMsg(stream)
    case None => None
    case Some(Message(tag, payload, rest)) =>
      if tag == TAG_DATA && |payload| > 8 then
        var more := buf + payload[8..];
        if |more| > expected then None else ReadInto(more, rest, expected)
      else if tag == TAG_EOF then (if |buf| == expected then Some((buf, rest)) else None)
      else None
  }

  function ReadBlob(stream: Stream, expected: nat): Option<(seq<byte>, Stream)> {
    ReadInto([], stream, expected)
  }

  /** The bytes still missing bound the loop, whatever the peer sends. */
  method ReadBlobLoop(stream: Stream, expected: nat) returns (r: Option<(seq<byte>, Stream)>)
    ensures r == ReadBlob(stream, expected)
  {
    var buf: seq<byte>, left := [], stream;
    while true
      invariant |buf| <= expected
      invariant ReadInto(buf, left, expected) == ReadBlob(stream, expected)
      decreases expected - |buf|
    {
      var m := ReadMsg(left);
      if m.None? {
        return None;
      }
      left := m.value.rest;
      if m.value.tag == TAG_DATA && |m.value.payload| > 8 {
        buf := buf + m.value.payload[8..];
        if |buf| > expected {
          return None;
        }
      } else if m.value.tag == TAG_EOF {
        break;
      } else {
        return None;
      }
    }
    r := if |buf| == expected then Some((buf, left)) else None;
  }

  function Total(sizes: seq<nat>): nat {
    if sizes == [] then 0 else sizes[0] + Total(sizes[1..])
  }

  /** The loop of `build_pushed_tx`: the sizes announced so far are capped before each blob is read. */
  function ReadBlobs(stream: Stream, sizes: seq<nat>, total: nat): Option<(seq<seq<byte>>, Stream)>
    decreases sizes
  {
    if sizes == [] then Some(([], stream))
    else if total + sizes[0] > MATERIALIZE_MAX then None
    else
      match ReadBlob(stream, sizes[0])
      case None => None
      case Some((blob, rest)) =>
        match ReadBlobs(rest, sizes[1..], total + sizes[0])
        case None => None
        case Some((blobs, last)) => Some(([blob] + blobs, last))
  }

  // ----- Reading back what was sent ---------------------------------------------------------------

  predicate Sendable(chunks: seq<seq<byte>>) {
    forall i :: 0 <= i < |chunks| ==> 0 < |chunks[i]| <= PUSH_CHUNK
  }

  lemma DataStep(buf: seq<byte>, chunk: seq<byte>, offset: nat, next: Stream, expected: nat)
    requires 0 < |chunk| <= PUSH_CHUNK
    ensures ReadInto(buf, EncodeMsg(TAG_DATA, BigEndian(offset, 8) + chunk) + next, expected)
      == if |buf| + |chunk| > expected then None else ReadInto(buf + chunk, next, expected)
  {
    var payload := BigEndian(offset, 8) + chunk;
    MessageReads(TAG_DATA, payload, next);
    assert payload[8..] == chunk;
  }

  lemma FirstMessage(chunks: seq<seq<byte>>, offset: nat, after: nat, tail: Stream)
    requires chunks != [] && after == offset + |chunks[0]|
    ensures DataMsgs(chunks, offset) + tail
      == EncodeMsg(TAG_DATA, BigEndian(offset, 8) + chunks[0]) + (DataMsgs(chunks[1..], after) + tail)
  {
    Regroup(EncodeMsg(TAG_DATA, BigEndian(offset, 8) + chunks[0]), DataMsgs(chunks[1..], after), tail);
  }

  lemma FirstIsRead(buf: seq<byte>, chunks: seq<seq<byte>>, offset: nat, after: nat, tail: Stream, expected: nat)
    requires chunks != [] && Sendable(chunks) && after == offset + |chunks[0]|
    ensures ReadInto(buf, DataMsgs(chunks, offset) + tail, expected)
      == if |buf| + |chunks[0]| > expected then None
         else ReadInto(buf + chunks[0], DataMsgs(chunks[1..], after) + tail, expected)
  {
    FirstMessage(chunks, offset, after, tail);
    DataStep(buf, chunks[0], offset, DataMsgs(chunks[1..], after) + tail, expected);
  }

  lemma NothingSent(tail: Stream, offset: nat)
    ensures DataMsgs([], offset) + tail == tail
  {
  }

  lemma JoinedFirst(buf: seq<byte>, chunks: seq<seq<byte>>)
    requires chunks != []
    ensures buf + Joined(chunks) == buf + chunks[0] + Joined(chunks[1..])
    ensures |Joined(chunks)| == |chunks[0]| + |Joined(chunks[1..])|
  {
  }

  /** The DATA messages of a blob leave its bytes in the buffer, or overrun the expected length. */
  lemma {:induction false} DataReads(buf: seq<byte>, chunks: seq<seq<byte>>, offset: nat, tail: Stream, expected: nat)
    requires Sendable(chunks) && |buf| <= expected
    ensures ReadInto(buf, DataMsgs(chunks, offset) + tail, expected)
      == if |buf| + |Joined(chunks)| <= expected then ReadInto(buf + Joined(chunks), tail, expected) else None
    decreases chunks
  {
    if chunks == [] {
      NothingSent(tail, offset);
      assert buf + Joined(chunks) == buf;
    } else {
      var after := offset + |chunks[0]|;
      FirstIsRead(buf, chunks, offset, after, tail, expected);
      JoinedFirst(buf, chunks);
      if |buf| + |chunks[0]| <= expected {
        DataReads(buf + chunks[0], chunks[1..], after, tail, expected);
      }
    }
  }

  /** A sent blob is read back exactly, up to its last byte, and only under its own length. */
  lemma BlobReadsIff(blob: seq<byte>, rest: Stream, expected: nat)
    ensures ReadBlob(BlobStream(blob) + rest, expected) == if expected == |blob| then Some((blob, rest)) else None
  {
    var chunks, tail := Chunks(blob, PUSH_CHUNK), EncodeMsg(TAG_EOF, []) + rest;
    assert BlobStream(blob) + rest == DataMsgs(chunks, 0) + tail;
    DataReads([], chunks, 0, tail, expected);
    ChunksJoin(blob, PUSH_CHUNK);
    assert [] + blob == blob;
    MessageReads(TAG_EOF, [], rest);
  }

  function Sizes(blobs: seq<seq<byte>>): seq<nat> {
    if blobs == [] then [] else [|blobs[0]|] + Sizes(blobs[1..])
  }

  lemma NextBlob(blob: seq<byte>, next: Stream, sizes: seq<nat>, total: nat)
    requires total + |blob| <= MATERIALIZE_MAX
    ensures ReadBlobs(BlobStream(blob) + next, [|blob|] + sizes, total) ==
      match ReadBlobs(next, sizes, total + |blob|)
      case None => None
      case Some((blobs, last)) => Some(([blob] + blobs, last))
  {
    BlobReadsIff(blob, next, |blob|);
    assert ([|blob|] + sizes)[1..] == sizes;
  }

  /** A push of any list of blobs is read back whole if and only if its total is within the cap. */
  lemma {:induction false} PushReadsBackIff(blobs: seq<seq<byte>>, rest: Stream, total: nat)
    requires total <= MATERIALIZE_MAX
    ensures ReadBlobs(PushStream(blobs) + rest, Sizes(blobs), total)
      == if total + Total(Sizes(blobs)) <= MATERIALIZE_MAX then Some((blobs, rest)) else None
    decreases blobs
  {
    if blobs == [] {
      assert PushStream(blobs) + rest == rest;
    } else {
      if total + |blobs[0]| <= MATERIALIZE_MAX {
        Regroup(BlobStream(blobs[0]), PushStream(blobs[1..]), rest);
        NextBlob(blobs[0], PushStream(blobs[1..]) + rest, Sizes(blobs[1..]), total);
        PushReadsBackIff(blobs[1..], rest, total + |blobs[0]|);
        assert [blobs[0]] + blobs[1..] == blobs;
      }
    }
  }

  // ----- Any stream at all ---------------------------------------------------------------------------

  /** A message that is read is an encoded message in front of the rest. */
  lemma ReadIsMessage(stream: Stream, m: Message)
    requires ReadMsg(stream) == Some(m)
    ensures stream == EncodeMsg(m.tag, m.payload) + m.rest && 1 + |m.payload| <= MAX_MSG
  {
    var len := FromBigEndian(stream[..4]);
    BigEndianOfRead(stream[..4]);
    assert stream == stream[..4] + [stream[4]] + stream[5..4 + len] + stream[4 + len..];
  }

  /** What a peer may send as DATA: an offset, and at least one byte behind it. */
  predicate Acceptable(payloads: seq<seq<byte>>) {
    forall i {:trigger payloads[i]} :: 0 <= i < |payloads| ==> 8 < |payloads[i]| < MAX_MSG
  }

  function DataStream(payloads: seq<seq<byte>>): Stream {
    if payloads == [] then [] else EncodeMsg(TAG_DATA, payloads[0]) + DataStream(payloads[1..])
  }

  function Bodies(payloads: seq<seq<byte>>): seq<byte> {
    if payloads == [] then [] else payloads[0][if |payloads[0]| < 8 then |payloads[0]| else 8..] + Bodies(payloads[1..])
  }

  /** `stream` is DATA messages that carry `bytes`, one EOF with any payload, and `rest`. */
  ghost predicate IsTransfer(stream: Stream, bytes: seq<byte>, rest: Stream) {
    exists payloads, last :: TransferOf(stream, bytes, rest, payloads, last)
  }

  predicate TransferOf(stream: Stream, bytes: seq<byte>, rest: Stream, payloads: seq<seq<byte>>, last: seq<byte>) {
    && Acceptable(payloads) && |last| < MAX_MSG && bytes == Bodies(payloads)
    && stream == DataStream(payloads) + (EncodeMsg(TAG_EOF, last) + rest)
  }

  lemma OneMoreData(payload: seq<byte>, next: Stream, bytes: seq<byte>, rest: Stream)
    requires 8 < |payload| < MAX_MSG && IsTransfer(next, bytes, rest)
    ensures IsTransfer(EncodeMsg(TAG_DATA, payload) + next, payload[8..] + bytes, rest)
  {
    var payloads, last :| TransferOf(next, bytes, rest, payloads, last);
    var more := [payload] + payloads;
    assert more[1..] == payloads;
    Regroup(EncodeMsg(TAG_DATA, payload), DataStream(payloads), EncodeMsg(TAG_EOF, last) + rest);
    assert TransferOf(EncodeMsg(TAG_DATA, payload) + next, payload[8..] + bytes, rest, more, last);
  }

  lemma EndIsTransfer(last: seq<byte>, rest: Stream)
    requires |last| < MAX_MSG
    ensures IsTransfer(EncodeMsg(TAG_EOF, last) + rest, [], rest)
  {
    assert DataStream([]) + (EncodeMsg(TAG_EOF, last) + rest) == EncodeMsg(TAG_EOF, last) + rest;
    assert TransferOf(EncodeMsg(TAG_EOF, last) + rest, [], rest, [], last);
  }

  /** Whatever is read as a blob was whole messages up to its EOF, with the announced length in all. */
  lemma {:induction false} AnyStreamYieldsExpected(
      buf: seq<byte>, stream: Stream, expected: nat, blob: seq<byte>, rest: Stream) returns (bytes: seq<byte>)
    requires ReadInto(buf, stream, expected) == Some((blob, rest))
    ensures |blob| == expected && blob == buf + bytes && IsTransfer(stream, bytes, rest)
    decreases |stream|
  {
    var m := ReadMsg(stream).value;
    ReadIsMessage(stream, m);
    if m.tag == TAG_DATA && |m.payload| > 8 {
      var body := m.payload[8..];
      var more := AnyStreamYieldsExpected(buf + body, m.rest, expected, blob, rest);
      Regroup(buf, body, more);
      OneMoreData(m.payload, m.rest, more, rest);
      bytes := body + more;
    } else {
      EndIsTransfer(m.payload, rest);
      bytes := [];
    }
  }

  lemma FirstIsTaken(buf: seq<byte>, payload: seq<byte>, next: Stream, expected: nat)
    requires 8 < |payload| < MAX_MSG && |buf| + |payload| - 8 <= expected
    ensures ReadInto(buf, EncodeMsg(TAG_DATA, payload) + next, expected) == ReadInto(buf + payload[8..], next, expected)
  {
    MessageReads(TAG_DATA, payload, next);
  }

  lemma EndIsTaken(buf: seq<byte>, last: seq<byte>, rest: Stream)
    requires |last| < MAX_MSG
    ensures ReadInto(buf, EncodeMsg(TAG_EOF, last) + rest, |buf|) == Some((buf, rest))
  {
    MessageReads(TAG_EOF, last, rest);
  }

  lemma BodyOfFirst(buf: seq<byte>, payloads: seq<seq<byte>>)
    requires payloads != [] && Acceptable(payloads)
    ensures buf + Bodies(payloads) == buf + payloads[0][8..] + Bodies(payloads[1..])
  {
    assert |payloads[0]| > 8;
  }

  lemma {:induction false} TransferIsRead(buf: seq<byte>, payloads: seq<seq<byte>>, last: seq<byte>, rest: Stream, blob: seq<byte>)
    requires Acceptable(payloads) && |last| < MAX_MSG && blob == buf + Bodies(payloads)
    ensures ReadInto(buf, DataStream(payloads) + (EncodeMsg(TAG_EOF, last) + rest), |blob|) == Some((blob, rest))
    decreases |payloads|
  {
    var tail := EncodeMsg(TAG_EOF, last) + rest;
    if payloads == [] {
      assert DataStream(payloads) + tail == tail && blob == buf;
      EndIsTaken(buf, last, rest);
    } else {
      var payload := payloads[0];
      assert forall i :: 0 <= i < |payloads| - 1 ==> payloads[1..][i] == payloads[i + 1];
      BodyOfFirst(buf, payloads);
      Regroup(EncodeMsg(TAG_DATA, payload), DataStream(payloads[1..]), tail);
      FirstIsTaken(buf, payload, DataStream(payloads[1..]) + tail, |blob|);
      TransferIsRead(buf + payload[8..], payloads[1..], last, rest, blob);
    }
  }

  /**
   On arbitrary bytes: a blob is yielded if and only if the stream is DATA messages that
   carry it, each with at least one byte, then one EOF, and its length was announced. The
   stream is left behind that EOF.
   */
  lemma BlobOfAnyStreamIff(stream: Stream, expected: nat, blob: seq<byte>, rest: Stream)
    ensures ReadBlob(stream, expected) == Some((blob, rest)) <==> |blob| == expected && IsTransfer(stream, blob, rest)
  {
    if ReadBlob(stream, expected) == Some((blob, rest)) {
      var bytes := AnyStreamYieldsExpected([], stream, expected, blob, rest);
      assert [] + bytes == bytes;
    } else if |blob| == expected && IsTransfer(stream, blob, rest) {
      var payloads, last :| TransferOf(stream, blob, rest, payloads, last);
      assert blob == [] + Bodies(payloads);
      TransferIsRead([], payloads, last, rest, blob);
    }
  }

  /** `stream` is one transfer of each of `blobs`, in order, and `rest`. */
  ghost predicate AreTransfers(stream: Stream, blobs: seq<seq<byte>>, rest: Stream)
    decreases blobs
  {
    if blobs == [] then stream == rest
    else exists next :: IsTransfer(stream, blobs[0], next) && AreTransfers(next, blobs[1..], rest)
  }

  lemma FirstOfPush(stream: Stream, sizes: seq<nat>, total: nat, blobs: seq<seq<byte>>, rest: Stream) returns (left: Stream)
    requires sizes != [] && ReadBlobs(stream, sizes, total) == Some((blobs, rest))
    ensures total + sizes[0] <= MATERIALIZE_MAX && blobs != []
    ensures ReadBlob(stream, sizes[0]) == Some((blobs[0], left))
    ensures ReadBlobs(left, sizes[1..], total + sizes[0]) == Some((blobs[1..], rest))
  {
    left := ReadBlob(stream, sizes[0]).value.1;
    var tail := ReadBlobs(left, sizes[1..], total + sizes[0]).value.0;
    assert blobs[1..] == tail;
  }

  /** A whole push, whatever arrives: a transfer for each size, each of its size, within the cap. */
  lemma {:induction false} AnyPushKeepsTheCap(
      stream: Stream, sizes: seq<nat>, total: nat, blobs: seq<seq<byte>>, rest: Stream)
    requires total <= MATERIALIZE_MAX && ReadBlobs(stream, sizes, total) == Some((blobs, rest))
    ensures Sizes(blobs) == sizes && total + Total(sizes) <= MATERIALIZE_MAX && AreTransfers(stream, blobs, rest)
    decreases sizes
  {
    if sizes != [] {
      var left := FirstOfPush(stream, sizes, total, blobs, rest);
      BlobOfAnyStreamIff(stream, sizes[0], blobs[0], left);
      AnyPushKeepsTheCap(left, sizes[1..], total + sizes[0], blobs[1..], rest);
    }
  }

  lemma TakesBlob(stream: Stream, next: Stream, blobs: seq<seq<byte>>, total: nat)
    requires blobs != [] && total + |blobs[0]| <= MATERIALIZE_MAX && IsTransfer(stream, blobs[0], next)
    ensures ReadBlobs(stream, Sizes(blobs), total) ==
      match ReadBlobs(next, Sizes(blobs[1..]), total + |blobs[0]|)
      case None => None
      case Some((rest, last)) => Some(([blobs[0]] + rest, last))
  {
    BlobOfAnyStreamIff(stream, |blobs[0]|, blobs[0], next);
    assert Sizes(blobs)[1..] == Sizes(blobs[1..]);
  }

  /** And nothing else is refused: transfers of those blobs are read whole, however they are cut into messages. */
  lemma {:induction false} TransfersAreRead(stream: Stream, blobs: seq<seq<byte>>, total: nat, rest: Stream)
    requires AreTransfers(stream, blobs, rest) && total + Total(Sizes(blobs)) <= MATERIALIZE_MAX
    ensures ReadBlobs(stream, Sizes(blobs), total) == Some((blobs, rest))
    decreases blobs
  {
    if blobs != [] {
      var next :| IsTransfer(stream, blobs[0], next) && AreTransfers(next, blobs[1..], rest);
      TransfersAreRead(next, blobs[1..], total + |blobs[0]|, rest);
      TakesBlob(stream, next, blobs, total);
      assert [blobs[0]] + blobs[1..] == blobs;
    }
  }

  /** A push is accepted as `blobs` if and only if it is a transfer of each of them, of the announced sizes, within the cap. */
  lemma PushOfAnyStreamIff(stream: Stream, sizes: seq<nat>, blobs: seq<seq<byte>>, rest: Stream)
    ensures ReadBlobs(stream, sizes, 0) == Some((blobs, rest)) <==>
      Sizes(blobs) == sizes && Total(sizes) <= MATERIALIZE_MAX && AreTransfers(stream, blobs, rest)
  {
    if ReadBlobs(stream, sizes, 0) == Some((blobs, rest)) {
      AnyPushKeepsTheCap(stream, sizes, 0, blobs, rest);
    } else if Sizes(blobs) == sizes && Total(sizes) <= MATERIALIZE_MAX && AreTransfers(stream, blobs, rest) {
      TransfersAreRead(stream, blobs, 0, rest);
    }
  }

  // ----- A provider's blob, collected by a consumer ------------------------------------------------------

  /** What `ProviderChannel::data` sends for a blob, as frames. */
  function ProviderFrames(chunks: seq<seq<byte>>, offset: nat): seq<ConsumerChannels.Frame>
    decreases chunks
  {
    if chunks == [] then []
    else [ConsumerChannels.Data(BigEndian(offset, 8) + chunks[0])] + ProviderFrames(chunks[1..], offset + |chunks[0]|)
  }

  /** Frames of DATA only, that carry `bytes`. */
  predicate Carries(frames: seq<ConsumerChannels.Frame>, bytes: seq<byte>) {
    ConsumerChannels.WellFormed(frames) && ConsumerChannels.Unfinished(frames) && ConsumerChannels.Payload(frames) == bytes
  }

  lemma OneMoreFrame(offset: nat, chunk: seq<byte>, frames: seq<ConsumerChannels.Frame>, bytes: seq<byte>)
    requires Carries(frames, bytes)
    ensures Carries([ConsumerChannels.Data(BigEndian(offset, 8) + chunk)] + frames, chunk + bytes)
  {
    var payload := BigEndian(offset, 8) + chunk;
    var more := [ConsumerChannels.Data(payload)] + frames;
    ConsumerChannels.PayloadOfFirst(more);
    assert more[1..] == frames && payload[8..] == chunk;
  }

  lemma {:induction false} ProviderPayload(chunks: seq<seq<byte>>, offset: nat)
    ensures Carries(ProviderFrames(chunks, offset), Joined(chunks))
    decreases chunks
  {
    if chunks != [] {
      var after := offset + |chunks[0]|;
      ProviderPayload(chunks[1..], after);
      OneMoreFrame(offset, chunks[0], ProviderFrames(chunks[1..], after), Joined(chunks[1..]));
    }
  }

  /** What the client makes of a message; `terminal` stands for the parsing of an error's code. */
  function FrameOf(terminal: seq<byte> -> bool, tag: byte, payload: seq<byte>): ConsumerChannels.Frame {
    if tag == TAG_DATA then ConsumerChannels.Data(payload)
    else if tag == TAG_EOF then ConsumerChannels.Eof
    else if tag == TAG_ERROR then ConsumerChannels.Error(terminal(payload))
    else ConsumerChannels.Unknown
  }

  /** `read_loop`: everything the reader task forwards of `stream`, which answers request `id`. */
  function ReadLoop(terminal: seq<byte> -> bool, id: nat, stream: Stream): seq<ConsumerChannels.Item>
    decreases |stream|
  {
    if |stream| < 4 then []
    else
      match ReadMsg(stream)
      case None => [ConsumerChannels.ReadFailed]
      case Some(Message(tag, payload, rest)) =>
        [ConsumerChannels.Got(Some(id), FrameOf(terminal, tag, payload))] + ReadLoop(terminal, id, rest)
  }

  lemma MessageIsForwarded(terminal: seq<byte> -> bool, id: nat, tag: byte, payload: seq<byte>, next: Stream)
    requires 1 + |payload| <= MAX_MSG
    ensures ReadLoop(terminal, id, EncodeMsg(tag, payload) + next)
      == [ConsumerChannels.Got(Some(id), FrameOf(terminal, tag, payload))] + ReadLoop(terminal, id, next)
  {
    MessageReads(tag, payload, next);
  }

  lemma DataFrame(id: nat, chunks: seq<seq<byte>>, offset: nat, after: nat)
    requires chunks != [] && after == offset + |chunks[0]|
    ensures ConsumerChannels.Tagged(id, ProviderFrames(chunks, offset))
      == [ConsumerChannels.Got(Some(id), ConsumerChannels.Data(BigEndian(offset, 8) + chunks[0]))]
       + ConsumerChannels.Tagged(id, ProviderFrames(chunks[1..], after))
  {
  }

  lemma DataIsForwardedFirst(terminal: seq<byte> -> bool, id: nat, chunk: seq<byte>, offset: nat, next: Stream)
    requires 0 < |chunk| <= PUSH_CHUNK
    ensures ReadLoop(terminal, id, EncodeMsg(TAG_DATA, BigEndian(offset, 8) + chunk) + next)
      == [ConsumerChannels.Got(Some(id), ConsumerChannels.Data(BigEndian(offset, 8) + chunk))]
       + ReadLoop(terminal, id, next)
  {
    MessageIsForwarded(terminal, id, TAG_DATA, BigEndian(offset, 8) + chunk, next);
  }

  lemma FirstIsForwarded(
      terminal: seq<byte> -> bool, id: nat, chunks: seq<seq<byte>>, offset: nat, after: nat, tail: Stream)
    requires chunks != [] && Sendable(chunks) && after == offset + |chunks[0]|
    ensures ReadLoop(terminal, id, DataMsgs(chunks, offset) + tail)
      == [ConsumerChannels.Got(Some(id), ConsumerChannels.Data(BigEndian(offset, 8) + chunks[0]))]
       + ReadLoop(terminal, id, DataMsgs(chunks[1..], after) + tail)
  {
    FirstMessage(chunks, offset, after, tail);
    DataIsForwardedFirst(terminal, id, chunks[0], offset, DataMsgs(chunks[1..], after) + tail);
  }

  /** The reader task forwards the DATA messages of a response as its frames, one for one. */
  lemma {:induction false} DataIsForwarded(
      terminal: seq<byte> -> bool, id: nat, chunks: seq<seq<byte>>, offset: nat, tail: Stream, end: seq<ConsumerChannels.Item>)
    requires Sendable(chunks) && end == ReadLoop(terminal, id, tail)
    ensures ReadLoop(terminal, id, DataMsgs(chunks, offset) + tail)
      == ConsumerChannels.Tagged(id, ProviderFrames(chunks, offset)) + end
    decreases chunks
  {
    if chunks == [] {
      NothingSent(tail, offset);
    } else {
      var after := offset + |chunks[0]|;
      var first := [ConsumerChannels.Got(Some(id), ConsumerChannels.Data(BigEndian(offset, 8) + chunks[0]))];
      FirstIsForwarded(terminal, id, chunks, offset, after, tail);
      DataIsForwarded(terminal, id, chunks[1..], after, tail, end);
      DataFrame(id, chunks, offset, after);
      Regroup(first, ConsumerChannels.Tagged(id, ProviderFrames(chunks[1..], after)), end);
    }
  }

  lemma TaggedEnd(id: nat, frames: seq<ConsumerChannels.Frame>, end: ConsumerChannels.Frame, rest: seq<ConsumerChannels.Item>)
    ensures ConsumerChannels.Tagged(id, frames + [end]) + rest
      == ConsumerChannels.Tagged(id, frames) + ([ConsumerChannels.Got(Some(id), end)] + rest)
  {
  }

  lemma EofIsForwarded(
      terminal: seq<byte> -> bool, id: nat, chunks: seq<seq<byte>>, offset: nat, rest: Stream)
    requires Sendable(chunks)
    ensures ReadLoop(terminal, id, DataMsgs(chunks, offset) + (EncodeMsg(TAG_EOF, []) + rest))
      == ConsumerChannels.Tagged(id, ProviderFrames(chunks, offset) + [ConsumerChannels.Eof])
       + ReadLoop(terminal, id, rest)
  {
    var tail := EncodeMsg(TAG_EOF, []) + rest;
    MessageIsForwarded(terminal, id, TAG_EOF, [], rest);
    DataIsForwarded(terminal, id, chunks, offset, tail, ReadLoop(terminal, id, tail));
    TaggedEnd(id, ProviderFrames(chunks, offset), ConsumerChannels.Eof, ReadLoop(terminal, id, rest));
  }

  /**
   From the bytes of a response to the result of the call: a blob sent in any chunks and
   under any first offset is returned whole if and only if it is within the limit.
   */
  lemma CollectedBlobIff(
      terminal: seq<byte> -> bool, id: nat, chunks: seq<seq<byte>>, offset: nat, limit: nat, rest: Stream)
    requires Sendable(chunks)
    ensures var c := ConsumerChannels.Client(true, ConsumerChannels.Collecting(limit, []));
      var arrived := ReadLoop(terminal, id, DataMsgs(chunks, offset) + (EncodeMsg(TAG_EOF, []) + rest));
      ConsumerChannels.Poll(c, arrived).outcome
        == Some(if |Joined(chunks)| <= limit then ConsumerChannels.Received(Joined(chunks)) else ConsumerChannels.Io)
  {
    EofIsForwarded(terminal, id, chunks, offset, rest);
    ProviderPayload(chunks, offset);
    var c := ConsumerChannels.Client(true, ConsumerChannels.Collecting(limit, []));
    ConsumerChannels.CollectReturnsIff(c, id, ProviderFrames(chunks, offset), ConsumerChannels.Eof, ReadLoop(terminal, id, rest));
    assert [] + Joined(chunks) == Joined(chunks);
  }

  lemma ErrorIsForwarded(
      terminal: seq<byte> -> bool, id: nat, chunks: seq<seq<byte>>, offset: nat, code: seq<byte>, rest: Stream)
    requires Sendable(chunks) && 1 + |code| <= MAX_MSG
    ensures ReadLoop(terminal, id, DataMsgs(chunks, offset) + (EncodeMsg(TAG_ERROR, code) + rest))
      == ConsumerChannels.Tagged(id, ProviderFrames(chunks, offset) + [ConsumerChannels.Error(terminal(code))])
       + ReadLoop(terminal, id, rest)
  {
    var tail, end := EncodeMsg(TAG_ERROR, code) + rest, ConsumerChannels.Error(terminal(code));
    MessageIsForwarded(terminal, id, TAG_ERROR, code, rest);
    DataIsForwarded(terminal, id, chunks, offset, tail, ReadLoop(terminal, id, tail));
    TaggedEnd(id, ProviderFrames(chunks, offset), end, ReadLoop(terminal, id, rest));
  }

  /** A response that breaks off with an error, behind any part of the blob, gives the call that error's code. */
  lemma CollectedErrorIff(
      terminal: seq<byte> -> bool, id: nat, chunks: seq<seq<byte>>, offset: nat, limit: nat, code: seq<byte>, rest: Stream)
    requires Sendable(chunks) && 1 + |code| <= MAX_MSG
    ensures var c := ConsumerChannels.Client(true, ConsumerChannels.Collecting(limit, []));
      var arrived := ReadLoop(terminal, id, DataMsgs(chunks, offset) + (EncodeMsg(TAG_ERROR, code) + rest));
      ConsumerChannels.Poll(c, arrived).outcome
        == Some(if |Joined(chunks)| <= limit then ConsumerChannels.Code(terminal(code)) else ConsumerChannels.Io)
  {
    ErrorIsForwarded(terminal, id, chunks, offset, code, rest);
    ProviderPayload(chunks, offset);
    var c := ConsumerChannels.Client(true, ConsumerChannels.Collecting(limit, []));
    var end := ConsumerChannels.Error(terminal(code));
    ConsumerChannels.CollectReturnsIff(c, id, ProviderFrames(chunks, offset), end, ReadLoop(terminal, id, rest));
  }
}
