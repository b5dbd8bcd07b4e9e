/**
  The length-prefixed protobuf codec: the frame format, the loop over the input buffer as a function of the bytes it
  finds there, and its behaviour under any division of the stream into chunks.

  Serialization is a parameter: `parse` is protobuf's parser for the codec's message type, and `raw` the optional raw
  callback, which may ask for a frame to be skipped (always true when there is none).
 */
module FrameCodec {
  import opened Common
  import opened Bytes
  import opened Adler32

  const HEADER_LEN: nat := 4
  const CHECKSUM_LEN: nat := 4
  const MAX_MESSAGE_LEN: nat := 64 * 1024 * 1024

  datatype Codec<!M> = Codec(tag: seq<Byte>, parse: seq<Byte> -> Option<M>, raw: seq<Byte> -> bool)

  datatype ErrorCode = InvalidLength | CheckSumError | UnknownMessageType | ParseError

  datatype Parsed<+M> = Good(message: M) | Bad(error: ErrorCode)

  /** What a call delivers, its error if any, and the bytes left in the buffer. */
  datatype Outcome<+M> = Outcome(messages: seq<M>, error: Option<ErrorCode>, rest: seq<Byte>)

  function MinMessageLen<M>(c: Codec<M>): nat {
    |c.tag| + CHECKSUM_LEN
  }

  predicate ValidateChecksum(body: seq<Byte>)
    requires |body| >= CHECKSUM_LEN
  {
    Checksum(body[..|body| - CHECKSUM_LEN]) == DecodeInt(body[|body| - CHECKSUM_LEN..])
  }

  /** `parse`: of a frame without its length. */
  function Parse<M>(c: Codec<M>, body: seq<Byte>): Parsed<M>
    requires |body| >= MinMessageLen(c)
  {
    if !ValidateChecksum(body) then Bad(CheckSumError)
    else if body[..|c.tag|] != c.tag then Bad(UnknownMessageType)
    else match c.parse(body[|c.tag|..|body| - CHECKSUM_LEN])
      case Some(m) => Good(m)
      case None => Bad(ParseError)
  }

  /** What the head of the buffer allows: wait, stop with an error, skip a frame, or deliver its message. */
  datatype Head<+M> = Wait | Stop(error: ErrorCode) | Skip(size: nat) | Deliver(size: nat, message: M)

  function Inspect<M>(c: Codec<M>, s: seq<Byte>): Head<M> {
    if |s| < MinMessageLen(c) + HEADER_LEN then Wait else
    var len := DecodeInt(s[..HEADER_LEN]);
    if len > MAX_MESSAGE_LEN || len < MinMessageLen(c) then Stop(InvalidLength)
    else if |s| < HEADER_LEN + len then Wait
    else if !c.raw(s[..HEADER_LEN + len]) then Skip(HEADER_LEN + len)
    else match Parse(c, s[HEADER_LEN..HEADER_LEN + len])
      case Good(m) => Deliver(HEADER_LEN + len, m)
      case Bad(e) => Stop(e)
  }

  lemma InspectSize<M>(c: Codec<M>, s: seq<Byte>)
    ensures var h := Inspect(c, s); h.Skip? || h.Deliver? ==> HEADER_LEN <= h.size <= |s|
  {
  }

  /** `onMessage`. */
  function OnMessage<M>(c: Codec<M>, s: seq<Byte>): Outcome<M>
    decreases |s|
  {
    InspectSize(c, s);
    match Inspect(c, s)
    case Wait => Outcome([], None, s)
    case Stop(e) => Outcome([], Some(e), s)
    case Skip(n) => OnMessage(c, s[n..])
    case Deliver(n, m) =>
      var o := OnMessage(c, s[n..]);
      Outcome([m] + o.messages, o.error, o.rest)
  }

  // ---------- chunks ----------

  /** Bytes arriving later do not change what the head already allows. */
  lemma InspectStable<M>(c: Codec<M>, s: seq<Byte>, t: seq<Byte>)
    requires !Inspect(c, s).Wait?
    ensures Inspect(c, s + t) == Inspect(c, s)
  {
    assert (s + t)[..HEADER_LEN] == s[..HEADER_LEN];
    var len := DecodeInt(s[..HEADER_LEN]);
    if MinMessageLen(c) <= len <= MAX_MESSAGE_LEN {
      assert (s + t)[..HEADER_LEN + len] == s[..HEADER_LEN + len];
      assert (s + t)[HEADER_LEN..HEADER_LEN + len] == s[HEADER_LEN..HEADER_LEN + len];
    }
  }

  /** Continue after a call with the bytes it left and some more. */
  function Continue<M>(c: Codec<M>, o: Outcome<M>, t: seq<Byte>): Outcome<M> {
    if o.error.Some? then Outcome(o.messages, o.error, o.rest + t) else
    var p := OnMessage(c, o.rest + t);
    Outcome(o.messages + p.messages, p.error, p.rest)
  }

  lemma {:induction false} OnMessageExtends<M>(c: Codec<M>, s: seq<Byte>, t: seq<Byte>)
    ensures OnMessage(c, s + t) == Continue(c, OnMessage(c, s), t)
    decreases |s|
  {
    hide Inspect;
    var h := Inspect(c, s);
    InspectSize(c, s);
    if !h.Wait? {
      InspectStable(c, s, t);
      if h.Skip? || h.Deliver? {
        var o := OnMessage(c, s[h.size..]);
        assert (s + t)[h.size..] == s[h.size..] + t;
        OnMessageExtends(c, s[h.size..], t);
        if h.Deliver? {
          var p := OnMessage(c, o.rest + t);
          assert [h.message] + (o.messages + p.messages) == ([h.message] + o.messages) + p.messages;
        }
      }
    } else {
      assert OnMessage(c, s) == Outcome([], None, s);
    }
  }

  /** What a call leaves without error is waiting for more bytes. */
  lemma {:induction false} RestWaits<M>(c: Codec<M>, s: seq<Byte>)
    requires OnMessage(c, s).error.None?
    ensures OnMessage(c, OnMessage(c, s).rest) == Outcome([], None, OnMessage(c, s).rest)
    decreases |s|
  {
    var h := Inspect(c, s);
    InspectSize(c, s);
    if h.Skip? || h.Deliver? {
      RestWaits(c, s[h.size..]);
    }
  }

  /** A call after each chunk, until the first error; the rest then includes the chunks not yet received. */
  function Feed<M>(c: Codec<M>, buffer: seq<Byte>, chunks: seq<seq<Byte>>): Outcome<M>
    decreases |chunks|
  {
    if chunks == [] then Outcome([], None, buffer) else
    var o := OnMessage(c, buffer + chunks[0]);
    if o.error.Some? then Outcome(o.messages, o.error, o.rest + Concat(chunks[1..])) else
    var p := Feed(c, o.rest, chunks[1..]);
    Outcome(o.messages + p.messages, p.error, p.rest)
  }

  lemma {:induction false} FeedFrom<M>(c: Codec<M>, buffer: seq<Byte>, chunks: seq<seq<Byte>>)
    requires OnMessage(c, buffer) == Outcome([], None, buffer)
    ensures Feed(c, buffer, chunks) == OnMessage(c, buffer + Concat(chunks))
    decreases |chunks|
  {
    if chunks == [] {
      assert buffer + Concat(chunks) == buffer;
    } else {
      var s, t := buffer + chunks[0], Concat(chunks[1..]);
      assert buffer + Concat(chunks) == s + t;
      OnMessageExtends(c, s, t);
      var o := OnMessage(c, s);
      if o.error.None? {
        RestWaits(c, s);
        FeedFrom(c, o.rest, chunks[1..]);
      }
    }
  }

  /** However the stream is cut into chunks: same messages, same first error, same remainder as one call on it all. */
  lemma ChunkingInvariant<M>(c: Codec<M>, chunks: seq<seq<Byte>>)
    ensures Feed(c, [], chunks) == OnMessage(c, Concat(chunks))
  {
    assert Inspect(c, []).Wait?;
    FeedFrom(c, [], chunks);
    assert [] + Concat(chunks) == Concat(chunks);
  }

  // ---------- frames ----------

  /** The frame fillEmptyBuffer builds, without and with its length. */
  function Payload<M>(c: Codec<M>, body: seq<Byte>): seq<Byte> {
    ChecksumFits(c.tag + body);
    c.tag + body + EncodeInt(Checksum(c.tag + body), 4)
  }

  function Frame<M>(c: Codec<M>, body: seq<Byte>): seq<Byte>
    requires |Payload(c, body)| < 0x1_0000_0000
  {
    var n := |Payload(c, body)|;
    Pow4();
    EncodeInt(ToSigned(n, 4), 4) + Payload(c, body)
  }

  lemma PayloadParts<M>(c: Codec<M>, body: seq<Byte>)
    ensures var p := Payload(c, body);
      && |p| == |c.tag| + |body| + 4
      && p[..|p| - 4] == c.tag + body
      && p[..|c.tag|] == c.tag
      && p[|c.tag|..|p| - 4] == body
      && ValidateChecksum(p)
  {
    ChecksumFits(c.tag + body);
    IntRoundTrip(Checksum(c.tag + body), 4);
    hide Checksum;
    var p := Payload(c, body);
    assert p[|p| - 4..] == EncodeInt(Checksum(c.tag + body), 4);
    assert p[..|p| - 4] == c.tag + body;
  }

  lemma FrameParts<M>(c: Codec<M>, body: seq<Byte>, t: seq<Byte>)
    requires |Payload(c, body)| < 0x1_0000_0000
    ensures var p := Payload(c, body); var s := Frame(c, body) + t;
      && |Frame(c, body)| == 4 + |p|
      && DecodeInt(s[..4]) == ToSigned(|p|, 4)
      && s[4..4 + |p|] == p
      && s[4 + |p|..] == t
      && s[..4 + |p|] == Frame(c, body)
  {
    Pow4();
    var p, s := Payload(c, body), Frame(c, body) + t;
    hide Payload;
    IntRoundTrip(ToSigned(|p|, 4), 4);
    assert s[..4] == EncodeInt(ToSigned(|p|, 4), 4);
  }

  /** A frame the receiver accepts for its length is delivered and the rest of the stream follows. */
  lemma FrameDelivered<M>(c: Codec<M>, body: seq<Byte>, m: M, t: seq<Byte>)
    requires |Payload(c, body)| <= MAX_MESSAGE_LEN && c.parse(body) == Some(m) && c.raw(Frame(c, body))
    ensures Inspect(c, Frame(c, body) + t) == Deliver(|Frame(c, body)|, m)
    ensures (Frame(c, body) + t)[|Frame(c, body)|..] == t
  {
    PayloadParts(c, body);
    FrameParts(c, body, t);
    Pow4();
    hide Frame, Payload, ValidateChecksum;
  }

  /** A frame whose length field does not fit the limit is refused, and nothing is consumed. */
  lemma FrameTooLong<M>(c: Codec<M>, body: seq<Byte>, t: seq<Byte>)
    requires MAX_MESSAGE_LEN < |Payload(c, body)| < 0x1_0000_0000
    ensures Inspect(c, Frame(c, body) + t) == Stop(InvalidLength)
  {
    PayloadParts(c, body);
    FrameParts(c, body, t);
    Pow4();
    hide Frame, Payload, ValidateChecksum;
  }

  /** Sending and receiving one message works exactly up to the length limit. */
  lemma RoundTripIff<M>(c: Codec<M>, body: seq<Byte>, m: M, t: seq<Byte>)
    requires |Payload(c, body)| < 0x1_0000_0000 && c.parse(body) == Some(m) && c.raw(Frame(c, body))
    ensures var o := OnMessage(c, Frame(c, body) + t); var p := OnMessage(c, t);
      if |c.tag| + |body| + 4 <= 67_108_864
      then o == Outcome([m] + p.messages, p.error, p.rest)
      else o == Outcome([], Some(InvalidLength), Frame(c, body) + t)
  {
    PayloadParts(c, body);
    if |Payload(c, body)| <= MAX_MESSAGE_LEN {
      FrameDelivered(c, body, m, t);
    } else {
      FrameTooLong(c, body, t);
    }
    hide Inspect, Payload;
  }

  /** A message the peer can take: within the limit, parsed back from its serialization, not filtered. */
  ghost predicate Sendable<M>(c: Codec<M>, ser: M -> seq<Byte>, m: M) {
    |Payload(c, ser(m))| <= MAX_MESSAGE_LEN && c.parse(ser(m)) == Some(m) && c.raw(Frame(c, ser(m)))
  }

  ghost predicate AllSendable<M>(c: Codec<M>, ser: M -> seq<Byte>, ms: seq<M>) {
    forall i | 0 <= i < |ms| :: Sendable(c, ser, ms[i])
  }

  /** The frames of a list of messages, one after the other. */
  ghost function Frames<M>(c: Codec<M>, ser: M -> seq<Byte>, ms: seq<M>): seq<Byte>
    requires AllSendable(c, ser, ms)
  {
    if ms == [] then [] else
    assert Sendable(c, ser, ms[0]);
    Frame(c, ser(ms[0])) + Frames(c, ser, ms[1..])
  }

  lemma SendableDelivered<M>(c: Codec<M>, ser: M -> seq<Byte>, m: M, t: seq<Byte>)
    requires Sendable(c, ser, m)
    ensures |Payload(c, ser(m))| < 0x1_0000_0000
    ensures var o := OnMessage(c, Frame(c, ser(m)) + t); var p := OnMessage(c, t);
      o == Outcome([m] + p.messages, p.error, p.rest)
  {
    PayloadParts(c, ser(m));
    RoundTripIff(c, ser(m), m, t);
    hide OnMessage, Payload, Frame;
  }

  /** Messages within the limit come back complete and in order. */
  lemma {:induction false} FramesComeBack<M>(c: Codec<M>, ser: M -> seq<Byte>, ms: seq<M>, t: seq<Byte>)
    requires AllSendable(c, ser, ms)
    ensures var o := OnMessage(c, Frames(c, ser, ms) + t); var p := OnMessage(c, t);
      o == Outcome(ms + p.messages, p.error, p.rest)
    decreases |ms|
  {
    hide OnMessage, Payload, Frame, Sendable;
    if ms == [] {
      assert Frames(c, ser, ms) + t == t;
    } else {
      var m, rest := ms[0], Frames(c, ser, ms[1..]);
      FramesComeBack(c, ser, ms[1..], t);
      SendableDelivered(c, ser, m, rest + t);
      assert Frames(c, ser, ms) + t == Frame(c, ser(m)) + (rest + t);
      var p := OnMessage(c, t);
      assert [m] + (ms[1..] + p.messages) == ms + p.messages;
    }
  }

  // ---------- corruption ----------

  /** A valid frame with one byte changed is never valid. */
  lemma OneByteInvalidates(body: seq<Byte>, i: nat, x: Byte)
    requires |body| >= 4 && ValidateChecksum(body) && i < |body| && x != body[i]
    ensures !ValidateChecksum(body[i := x])
  {
    var n := |body| - 4;
    var other := body[i := x];
    if i < n {
      assert other[..n] == body[..n][i := x];
      assert other[n..] == body[n..];
      ChecksumNoticesByte(body[..n], i, x);
    } else {
      assert other[..n] == body[..n];
      hide Checksum;
      IntPatterns(other[n..]);
      IntPatterns(body[n..]);
      assert other[n..][i - n] != body[n..][i - n];
    }
  }

  /** The parts of a stream that starts with a frame whose byte i was changed. */
  lemma CorruptParts(f: seq<Byte>, p: seq<Byte>, t: seq<Byte>, i: nat, x: Byte)
    requires |f| == 4 + |p| && f[4..] == p && 4 <= i < |f|
    ensures var s := f[i := x] + t;
      s[..4] == f[..4] && s[..4 + |p|] == f[i := x] && s[4..4 + |p|] == p[i - 4 := x] && p[i - 4] == f[i]
  {
  }

  /** The length field of a frame within the limit. */
  lemma FrameLength<M>(c: Codec<M>, body: seq<Byte>)
    requires |Payload(c, body)| <= MAX_MESSAGE_LEN
    ensures |Frame(c, body)| >= 4 && DecodeInt(Frame(c, body)[..4]) == |Payload(c, body)|
  {
    hide Frame, Payload;
    FrameParts(c, body, []);
    assert Frame(c, body) + [] == Frame(c, body);
    Pow4();
  }

  /** What Inspect does with a head whose length is good and whose checksum is not. */
  lemma InspectRefuses<M>(c: Codec<M>, s: seq<Byte>, len: nat)
    requires MinMessageLen(c) <= len <= MAX_MESSAGE_LEN && 4 + len <= |s| && DecodeInt(s[..4]) == len
    requires c.raw(s[..4 + len]) && !ValidateChecksum(s[4..4 + len])
    ensures Inspect(c, s) == Stop(CheckSumError)
  {
    hide ValidateChecksum;
  }

  /** A frame with one byte changed after its length field is refused by the checksum, and nothing is consumed. */
  lemma CorruptFrameRefused<M>(c: Codec<M>, body: seq<Byte>, t: seq<Byte>, i: nat, x: Byte)
    requires |Payload(c, body)| <= MAX_MESSAGE_LEN && 4 <= i < |Frame(c, body)| && x != Frame(c, body)[i]
    requires c.raw(Frame(c, body)[i := x])
    ensures OnMessage(c, Frame(c, body)[i := x] + t) == Outcome([], Some(CheckSumError), Frame(c, body)[i := x] + t)
  {
    var p, f := Payload(c, body), Frame(c, body);
    PayloadParts(c, body);
    FrameParts(c, body, []);
    assert f + [] == f;
    FrameLength(c, body);
    hide Frame, Payload, ValidateChecksum, Inspect, DecodeInt;
    assert f[4..] == p;
    CorruptParts(f, p, t, i, x);
    OneByteInvalidates(p, i - 4, x);
    InspectRefuses(c, f[i := x] + t, |p|);
  }
}
