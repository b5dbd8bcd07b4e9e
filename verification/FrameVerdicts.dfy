/** Which bytes the codec delivers, and what it says to those it does not. */
module FrameVerdicts {
  import opened Common
  import opened Bytes
  import opened Adler32
  import opened FrameCodec

  /** The length field says what the rest of the frame is as long as. */
  lemma LengthField(len: int)
    requires 0 <= len <= 67_108_864
    ensures FitsSigned(len, 4) && ToSigned(len, 4) == len
  {
    Pow4();
  }

  /** A payload with a good checksum and the codec's tag is the one the codec builds from what lies between them. */
  lemma PayloadFrom<M>(c: Codec<M>, p: seq<Byte>)
    requires |p| >= MinMessageLen(c) && ValidateChecksum(p) && p[..|c.tag|] == c.tag
    ensures p == Payload(c, p[|c.tag|..|p| - 4])
  {
    var body := p[|c.tag|..|p| - 4];
    assert p[..|p| - 4] == c.tag + body;
    IntPatterns(p[|p| - 4..]);
    hide Checksum;
    assert p == p[..|p| - 4] + p[|p| - 4..];
  }

  /** The head of `s` is the frame of a body the codec parses. */
  ghost predicate StartsWithFrame<M>(c: Codec<M>, s: seq<Byte>, body: seq<Byte>, m: M) {
    && |Payload(c, body)| <= 67_108_864 && |Frame(c, body)| <= |s|
    && s[..|Frame(c, body)|] == Frame(c, body) && c.parse(body) == Some(m)
  }

  lemma DeliveredIsFrame<M>(c: Codec<M>, s: seq<Byte>, n: nat, m: M) returns (body: seq<Byte>)
    requires Inspect(c, s) == Deliver(n, m)
    ensures StartsWithFrame(c, s, body, m) && n == |Frame(c, body)| && c.raw(Frame(c, body))
  {
    hide Payload, ValidateChecksum, EncodeInt, DecodeInt, Checksum;
    var len := DecodeInt(s[..4]);
    var p := s[4..4 + len];
    body := p[|c.tag|..|p| - 4];
    PayloadFrom(c, p);
    LengthField(len);
    IntPatterns(s[..4]);
    assert s[..4 + len] == s[..4] + p;
  }

  /** The codec delivers a message exactly if the buffer starts with a frame it would build around a body that parses to it. */
  lemma DeliverIff<M>(c: Codec<M>, s: seq<Byte>, n: nat, m: M)
    ensures Inspect(c, s) == Deliver(n, m) <==>
              exists body :: StartsWithFrame(c, s, body, m) && n == |Frame(c, body)| && c.raw(Frame(c, body))
  {
    if Inspect(c, s) == Deliver(n, m) {
      var body := DeliveredIsFrame(c, s, n, m);
    }
    forall body | StartsWithFrame(c, s, body, m) && n == |Frame(c, body)| && c.raw(Frame(c, body))
      ensures Inspect(c, s) == Deliver(n, m)
    {
      FrameDelivered(c, body, m, s[n..]);
      hide Inspect, Frame, Payload;
      assert s == s[..n] + s[n..];
    }
  }

  /** A whole frame of some codec, as another one finds it at the head of its buffer. */
  lemma FrameFound<M, N>(c: Codec<M>, other: Codec<N>, body: seq<Byte>, t: seq<Byte>)
    requires |other.tag| == |c.tag| && |Payload(other, body)| <= 67_108_864
    ensures var s := Frame(other, body) + t; var p := Payload(other, body);
      && DecodeInt(s[..4]) == |p| && MinMessageLen(c) <= |p| && 4 + |p| <= |s|
      && s[..4 + |p|] == Frame(other, body) && s[4..4 + |p|] == p
  {
    PayloadParts(other, body);
    FrameParts(other, body, t);
    LengthField(|Payload(other, body)|);
  }

  /** A good frame with another tag of the same length is refused as of unknown type, and nothing is consumed. */
  lemma OtherTagRefused<M, N>(c: Codec<M>, other: Codec<N>, body: seq<Byte>, t: seq<Byte>)
    requires |other.tag| == |c.tag| && other.tag != c.tag && |Payload(other, body)| <= 67_108_864
    requires c.raw(Frame(other, body))
    ensures OnMessage(c, Frame(other, body) + t) == Outcome([], Some(UnknownMessageType), Frame(other, body) + t)
  {
    FrameFound(c, other, body, t);
    PayloadParts(other, body);
    var s, p := Frame(other, body) + t, Payload(other, body);
    hide Frame, Payload, ValidateChecksum, DecodeInt;
    assert Parse(c, p) == Bad(UnknownMessageType);
    hide Parse;
    assert Inspect(c, s) == Stop(UnknownMessageType);
  }

  /** A good frame whose body does not parse is refused, and nothing is consumed. */
  lemma UnparsableRefused<M>(c: Codec<M>, body: seq<Byte>, t: seq<Byte>)
    requires |Payload(c, body)| <= 67_108_864 && c.raw(Frame(c, body)) && c.parse(body) == None
    ensures OnMessage(c, Frame(c, body) + t) == Outcome([], Some(ParseError), Frame(c, body) + t)
  {
    FrameFound(c, c, body, t);
    PayloadParts(c, body);
    var s, p := Frame(c, body) + t, Payload(c, body);
    hide Frame, Payload, ValidateChecksum, DecodeInt;
    assert Parse(c, p) == Bad(ParseError);
    hide Parse;
    assert Inspect(c, s) == Stop(ParseError);
  }

  /** A frame the raw callback turns down is taken out of the buffer without being looked into. */
  lemma TurnedDownIsSkipped<M>(c: Codec<M>, other: Codec<M>, body: seq<Byte>, t: seq<Byte>)
    requires |other.tag| == |c.tag| && |Payload(other, body)| <= 67_108_864 && !c.raw(Frame(other, body))
    ensures OnMessage(c, Frame(other, body) + t) == OnMessage(c, t)
  {
    FrameFound(c, other, body, t);
    var s := Frame(other, body) + t;
    FrameParts(other, body, t);
    hide Frame, Payload, DecodeInt, Parse;
    assert Inspect(c, s) == Skip(|Frame(other, body)|);
    assert s[|Frame(other, body)|..] == t;
  }

  /** With at least a shortest frame's bytes, the length field alone decides between refusing, waiting and looking. */
  lemma LengthDecides<M>(c: Codec<M>, s: seq<Byte>)
    ensures Inspect(c, s) == Stop(InvalidLength) <==>
              |s| >= |c.tag| + 8 && !(|c.tag| + 4 <= DecodeInt(s[..4]) <= 67_108_864)
    ensures Inspect(c, s) == Wait <==>
              |s| < |c.tag| + 8 || (|c.tag| + 4 <= DecodeInt(s[..4]) <= 67_108_864 && |s| < 4 + DecodeInt(s[..4]))
  {
    hide ValidateChecksum, DecodeInt;
  }
}
