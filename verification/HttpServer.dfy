/**
  HttpServer::onMessage over the chunks of a connection. A call delivers at most one request, so what is delivered does
  depend on how the stream is cut.
 */
module HttpServer {
  import opened Common
  import opened Bytes
  import opened HttpParser

  lemma {:induction false} GotAllConsumes(c: Context, s: Text)
    requires Expecting(c)
    ensures ParseRequest(c, s).context.state == GotAll ==> ParseRequest(c, s).ok && |ParseRequest(c, s).rest| < |s|
    ensures !ParseRequest(c, s).ok ==> ParseRequest(c, s).context.state == ExpectRequestLine
    decreases |s|
  {
    RoundProgress(c, s);
    FindCrlfFirst(s);
    var r := OneRound(c, s);
    if r.hasMore {
      GotAllConsumes(r.context, r.rest);
    }
  }

  /** Every request in a stream, up to the first input that is refused. */
  function Requests(c: Context, s: Text): seq<Request>
    requires Expecting(c)
    decreases |s|
  {
    GotAllConsumes(c, s);
    var r := ParseRequest(c, s);
    if r.context.state == GotAll then [r.context.request] + Requests(FRESH, r.rest) else []
  }

  datatype Server = Server(context: Context, buffer: Text, delivered: seq<Request>, refused: bool)

  const START := Server(FRESH, [], [], false)

  /** `onMessage` with the bytes of one chunk added to the buffer; after a refusal the connection is shut down. */
  function OnMessage(v: Server, chunk: Text): Server
    requires v.refused || Expecting(v.context)
  {
    if v.refused then v else
    var r := ParseRequest(v.context, v.buffer + chunk);
    if !r.ok then v.(context := r.context, buffer := r.rest, refused := true)
    else if r.context.state == GotAll then Server(FRESH, r.rest, v.delivered + [r.context.request], false)
    else v.(context := r.context, buffer := r.rest)
  }

  lemma StaysExpecting(v: Server, chunk: Text)
    requires v.refused || Expecting(v.context)
    ensures OnMessage(v, chunk).refused || Expecting(OnMessage(v, chunk).context)
  {
    if !v.refused {
      WaitingExpects(v.context, v.buffer + chunk);
    }
  }

  lemma {:induction false} ParseStaysReady(c: Context, s: Text)
    requires Ready(c)
    ensures Waiting(ParseRequest(c, s)) ==> Ready(ParseRequest(c, s).context)
    decreases |s|
  {
    RoundProgress(c, s);
    var r := OneRound(c, s);
    if r.hasMore {
      assert r.context.state == ExpectHeaders;
      ParseStaysReady(r.context, r.rest);
    }
  }

  /** Each accepted message leaves the parser ready for the next: the call will end, and the verb is still unset. */
  lemma ServerStaysReady(v: Server, chunk: Text)
    requires v.refused || Ready(v.context)
    ensures OnMessage(v, chunk).refused || Ready(OnMessage(v, chunk).context)
  {
    if !v.refused {
      ParseStaysReady(v.context, v.buffer + chunk);
    }
  }

  /** The connection after a list of chunks. */
  function Serve(chunks: seq<Text>): (v: Server)
    ensures v.refused || Expecting(v.context)
    decreases |chunks|
  {
    if chunks == [] then START else
    var n := |chunks| - 1;
    StaysExpecting(Serve(chunks[..n]), chunks[n]);
    OnMessage(Serve(chunks[..n]), chunks[n])
  }

  /** The requests of a stream, from what a call on its beginning leaves. */
  lemma RequestsExtend(c: Context, s: Text, t: Text)
    requires Expecting(c)
    ensures var r := ParseRequest(c, s);
      && (!r.ok ==> Requests(c, s + t) == [])
      && (r.context.state == GotAll ==> Requests(c, s + t) == [r.context.request] + Requests(FRESH, r.rest + t))
      && (Waiting(r) ==> Expecting(r.context) && Requests(c, s + t) == Requests(r.context, r.rest + t))
  {
    hide ParseRequest;
    ParseExtends(c, s, t);
    GotAllConsumes(c, s);
    WaitingExpects(c, s);
  }

  /** What the stream holds is what was delivered followed by what is still to come from the buffer. */
  lemma MessageAccounts(v: Server, chunk: Text, t: Text)
    requires !v.refused && Expecting(v.context)
    ensures var v' := OnMessage(v, chunk);
      && (v'.refused || Expecting(v'.context))
      && v.delivered + Requests(v.context, v.buffer + chunk + t) ==
           v'.delivered + (if v'.refused then [] else Requests(v'.context, v'.buffer + t))
  {
    hide ParseRequest, Requests;
    StaysExpecting(v, chunk);
    RequestsExtend(v.context, v.buffer + chunk, t);
    GotAllConsumes(v.context, v.buffer + chunk);
  }

  lemma {:induction false} ConcatSnoc(chunks: seq<Text>, last: Text)
    ensures Concat(chunks + [last]) == Concat(chunks) + last
    decreases |chunks|
  {
    if chunks == [] {
      assert chunks + [last] == [last] && [last][1..] == [];
    } else {
      assert (chunks + [last])[1..] == chunks[1..] + [last];
      ConcatSnoc(chunks[1..], last);
    }
  }

  lemma {:induction false} Accounts(chunks: seq<Text>, t: Text)
    ensures var v := Serve(chunks);
      Requests(FRESH, Concat(chunks) + t) == v.delivered + (if v.refused then [] else Requests(v.context, v.buffer + t))
    decreases |chunks|
  {
    hide OnMessage, Requests;
    if chunks == [] {
      assert Concat(chunks) + t == t && START.buffer + t == t;
    } else {
      var n := |chunks| - 1;
      assert chunks == chunks[..n] + [chunks[n]];
      ConcatSnoc(chunks[..n], chunks[n]);
      assert Concat(chunks) + t == Concat(chunks[..n]) + (chunks[n] + t);
      Accounts(chunks[..n], chunks[n] + t);
      var v := Serve(chunks[..n]);
      if v.refused {
        RefusedStays(v, chunks[n]);
      } else {
        assert v.buffer + (chunks[n] + t) == v.buffer + chunks[n] + t;
        MessageAccounts(v, chunks[n], t);
      }
    }
  }

  lemma RefusedStays(v: Server, chunk: Text)
    requires v.refused
    ensures OnMessage(v, chunk) == v
  {
  }

  /** The requests in everything received with the first i chunks. */
  function Received(chunks: seq<Text>, i: nat): seq<Request>
    requires i <= |chunks|
  {
    Requests(FRESH, Concat(chunks[..i]))
  }

  /** However the stream is cut, requests are delivered in order and none is invented: a prefix of those received. */
  lemma DeliversPrefix(chunks: seq<Text>)
    ensures Serve(chunks).delivered <= Requests(FRESH, Concat(chunks))
  {
    Accounts(chunks, []);
    assert Concat(chunks) + [] == Concat(chunks);
  }

  /** One more chunk, after everything received so far was delivered. */
  lemma NextChunk(chunks: seq<Text>, i: nat)
    requires i < |chunks| && Serve(chunks[..i]).delivered == Received(chunks, i)
    ensures Received(chunks, i) <= Received(chunks, i + 1)
    ensures Serve(chunks[..i + 1]).delivered == Received(chunks, i + 1) <==>
              |Received(chunks, i + 1)| <= |Received(chunks, i)| + 1
  {
    var v, chunk := Serve(chunks[..i]), chunks[i];
    assert chunks[..i + 1] == chunks[..i] + [chunk] && chunks[..i + 1][..i] == chunks[..i];
    ConcatSnoc(chunks[..i], chunk);
    Accounts(chunks[..i], chunk);
    assert Serve(chunks[..i + 1]) == OnMessage(v, chunk);
    if !v.refused {
      hide ParseRequest;
      GotAllConsumes(v.context, v.buffer + chunk);
    }
  }

  /** All requests received are delivered at once, at every point, exactly if no chunk completes more than one. */
  lemma {:induction false} DeliversAllIff(chunks: seq<Text>, n: nat)
    requires n <= |chunks|
    ensures (forall i | 0 <= i <= n :: Serve(chunks[..i]).delivered == Received(chunks, i)) <==>
              (forall i | 0 <= i < n :: |Received(chunks, i + 1)| <= |Received(chunks, i)| + 1)
    decreases n
  {
    hide Requests, OnMessage, Concat;
    if n == 0 {
      assert chunks[..0] == [];
      NothingReceived();
    } else {
      DeliversAllIff(chunks, n - 1);
      if Serve(chunks[..n - 1]).delivered == Received(chunks, n - 1) {
        NextChunk(chunks, n - 1);
      }
    }
  }

  lemma NothingReceived()
    ensures Serve([]).delivered == Requests(FRESH, Concat([])) == []
  {
    assert OneRound(FRESH, []) == Round(FRESH, [], true, false);
  }
}
