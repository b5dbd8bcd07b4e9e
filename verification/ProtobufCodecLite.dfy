/** The codec at work on a Buffer, in place. */
module ProtobufCodecLite {
  import opened Common
  import opened Bytes
  import opened Adler32
  import opened FrameCodec
  import opened Buffers

  /** `body` is the serialized message. */
  method FillEmptyBuffer<M>(c: Codec<M>, body: seq<Byte>, buf: Buffer)
    requires buf.Valid() && buf.Contents() == [] && HEADER_LEN <= buf.readerIndex
    requires |Payload(c, body)| < 0x1_0000_0000
    modifies buf, buf.buffer
    ensures buf.Valid() && buf.Contents() == Frame(c, body)
  {
    buf.Append(c.tag);
    buf.EnsureWritableBytes(|body| + CHECKSUM_LEN);
    buf.Append(body);
    assert buf.Contents() == c.tag + body;
    var checkSum := Checksum(buf.buffer[buf.readerIndex..buf.writerIndex]);
    ChecksumFits(c.tag + body);
    buf.AppendInt(checkSum, 4);
    var n := buf.ReadableBytes();
    Pow4();
    buf.PrependInt(ToSigned(n, 4), 4);
  }

  /** One look at the head of the buffer: the length, the raw callback, then `parse`. */
  method InspectBuffer<M>(c: Codec<M>, buf: Buffer) returns (h: Head<M>)
    requires buf.Valid()
    ensures h == Inspect(c, buf.Contents())
  {
    if buf.ReadableBytes() < MinMessageLen(c) + HEADER_LEN {
      return Wait;
    }
    var len := buf.PeekInt(4);
    if len > MAX_MESSAGE_LEN || len < MinMessageLen(c) {
      return Stop(InvalidLength);
    }
    if buf.ReadableBytes() < HEADER_LEN + len {
      return Wait;
    }
    var frame := buf.buffer[buf.readerIndex..buf.readerIndex + HEADER_LEN + len];
    assert frame == buf.Contents()[..HEADER_LEN + len];
    if !c.raw(frame) {
      return Skip(HEADER_LEN + len);
    }
    assert frame[HEADER_LEN..] == buf.Contents()[HEADER_LEN..HEADER_LEN + len];
    match Parse(c, frame[HEADER_LEN..]) {
      case Good(message) => return Deliver(HEADER_LEN + len, message);
      case Bad(e) => return Stop(e);
    }
  }

  method OnMessage<M>(c: Codec<M>, buf: Buffer) returns (messages: seq<M>, error: Option<ErrorCode>)
    requires buf.Valid()
    modifies buf`readerIndex, buf`writerIndex
    ensures buf.Valid()
    ensures Outcome(messages, error, buf.Contents()) == FrameCodec.OnMessage(c, old(buf.Contents()))
  {
    hide Inspect;
    messages, error := [], None;
    ghost var start := buf.Contents();
    var h := InspectBuffer(c, buf);
    assert [] + FrameCodec.OnMessage(c, start).messages == FrameCodec.OnMessage(c, start).messages;
    while h.Skip? || h.Deliver?
      invariant buf.Valid() && h == Inspect(c, buf.Contents())
      invariant FrameCodec.OnMessage(c, start) == Prefixed(messages, FrameCodec.OnMessage(c, buf.Contents()))
      decreases buf.ReadableBytes()
    {
      InspectSize(c, buf.Contents());
      ghost var o := FrameCodec.OnMessage(c, buf.Contents()[h.size..]);
      if h.Deliver? {
        assert messages + ([h.message] + o.messages) == (messages + [h.message]) + o.messages;
        messages := messages + [h.message];
      }
      buf.Retrieve(h.size);
      h := InspectBuffer(c, buf);
    }
    assert messages + [] == messages;
    if h.Stop? {
      error := Some(h.error);
    }
  }

  function Prefixed<M>(messages: seq<M>, o: Outcome<M>): Outcome<M> {
    Outcome(messages + o.messages, o.error, o.rest)
  }
}
