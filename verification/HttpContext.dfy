/** The parser object, updating its state and request while it consumes the buffer. */
module HttpContexts {
  import opened Common
  import opened Bytes
  import opened Buffers
  import opened HttpParser

  class HttpRequest {
    var verb: Verb
    var version: Version
    var path: Text
    var query: Text
    var headers: map<Text, Text>

    ghost function View(): Request
      reads this
    {
      Request(verb, version, path, query, headers)
    }

    constructor ()
      ensures View() == EMPTY_REQUEST
    {
      verb, version, path, query, headers := Invalid, Unknown, [], [], map[];
    }

    method SetMethod(name: Text) returns (ok: bool)
      requires verb == Invalid
      modifies this`verb
      ensures verb == VerbOf(name) && ok == (verb != Invalid)
    {
      if name == GET {
        verb := Get;
      } else if name == POST {
        verb := Post;
      } else if name == HEAD {
        verb := Head;
      } else if name == PUT {
        verb := Put;
      } else if name == DELETE {
        verb := Delete;
      } else {
        verb := Invalid;
      }
      return verb != Invalid;
    }

    /** The trimming loops of addHeader, over the bytes after the colon. */
    method TrimValue(s: Text) returns (value: Text)
      ensures value == Trim(s)
    {
      var i := 0;
      assert s[0..] == s;
      while i < |s| && IsSpace(s[i])
        invariant 0 <= i <= |s|
        invariant TrimLeft(s[i..]) == TrimLeft(s)
      {
        assert s[i..][1..] == s[i + 1..];
        i := i + 1;
      }
      value := s[i..];
      while value != [] && IsSpace(value[|value| - 1])
        invariant TrimRight(value) == Trim(s)
        decreases |value|
      {
        value := value[..|value| - 1];
      }
    }

    method AddHeader(line: Text, colon: nat)
      requires colon < |line|
      modifies this`headers
      ensures View() == HttpParser.AddHeader(old(View()), line, colon)
    {
      var value := TrimValue(line[colon + 1..]);
      headers := headers[line[..colon] := value];
    }

    method GetHeader(field: Text) returns (result: Text)
      ensures result == if field in headers then headers[field] else []
    {
      result := [];
      if field in headers {
        result := headers[field];
      }
    }
  }

  class HttpContext {
    var state: ParseState
    var request: HttpRequest

    ghost function View(): Context
      reads this, request
    {
      Context(state, request.View())
    }

    constructor ()
      ensures View() == FRESH && fresh(request)
    {
      state := ExpectRequestLine;
      request := new HttpRequest();
    }

    /** `reset`: the old request is swapped out for an empty one. */
    method Reset()
      modifies this
      ensures View() == FRESH && fresh(request)
    {
      state := ExpectRequestLine;
      request := new HttpRequest();
    }

    /** The path, and the query from the question mark on. */
    method SetTarget(target: Text)
      modifies request
      ensures request.View() == HttpParser.SetTarget(old(request.View()), target)
    {
      hide IndexOf;
      var question := IndexOf(target, QUESTION);
      if question != |target| {
        request.path := target[..question];
        request.query := target[question..];
      } else {
        request.path := target;
      }
    }

    method SetVersion(v: Text) returns (succeed: bool)
      modifies request
      ensures succeed == VersionOf(v).Some?
      ensures request.View() == if succeed then old(request.View()).(version := VersionOf(v).value) else old(request.View())
    {
      succeed := |v| == 8 && v[..7] == HTTP1;
      if succeed {
        if v[7] == 49 {
          request.version := Http11;
        } else if v[7] == 48 {
          request.version := Http10;
        } else {
          succeed := false;
        }
      }
    }

    method ProcessRequestLine(line: Text) returns (succeed: bool)
      requires request.verb == Invalid
      modifies request
      ensures (request.View(), succeed) == HttpParser.ProcessRequestLine(old(request.View()), line)
    {
      hide IndexOf, VerbOf, HttpParser.SetTarget, VersionOf;
      succeed := false;
      var space := IndexOf(line, SPACE);
      if space != |line| {
        var known := request.SetMethod(line[..space]);
        if known {
          var rest := line[space + 1..];
          var space2 := IndexOf(rest, SPACE);
          if space2 != |rest| {
            SetTarget(rest[..space2]);
            succeed := SetVersion(rest[space2 + 1..]);
          }
        }
      }
    }

    /** A complete header line: a field, or the end of the request. */
    method ProcessHeaderLine(line: Text) returns (hasMore: bool)
      requires state == ExpectHeaders
      modifies this`state, request
      ensures hasMore == (IndexOf(line, COLON) < |line|)
      ensures var colon := IndexOf(line, COLON);
        View() == if hasMore then Context(ExpectHeaders, HttpParser.AddHeader(old(request.View()), line, colon))
                  else Context(GotAll, old(request.View()))
    {
      hide IndexOf, HttpParser.AddHeader;
      var colon := IndexOf(line, COLON);
      hasMore := colon != |line|;
      if hasMore {
        request.AddHeader(line, colon);
      } else {
        state := GotAll;
      }
    }

    /** One line of the request in the buffer, if it is complete. */
    method ParseLine(buf: Buffer) returns (ok: bool, hasMore: bool)
      requires buf.Valid() && Ready(View())
      modifies this, request, buf`readerIndex, buf`writerIndex
      ensures buf.Valid() && request == old(request)
      ensures Round(View(), buf.Contents(), ok, hasMore) == OneRound(old(View()), old(buf.Contents()))
    {
      hide HttpParser.ProcessRequestLine, FindCrlf, IndexOf, HttpParser.AddHeader;
      ok, hasMore := true, false;
      FindCrlfFirst(buf.Contents());
      var crlf := buf.FindCRLF();
      if crlf.Some? {
        var line := buf.buffer[buf.readerIndex..buf.readerIndex + crlf.value];
        assert line == buf.Contents()[..crlf.value];
        if state == ExpectRequestLine {
          ok := ProcessRequestLine(line);
          if ok {
            buf.Retrieve(crlf.value + 2);
            state := ExpectHeaders;
            hasMore := true;
          }
        } else {
          hasMore := ProcessHeaderLine(line);
          buf.Retrieve(crlf.value + 2);
        }
      }
    }

    method ParseRequest(buf: Buffer) returns (ok: bool)
      requires buf.Valid() && Ready(View())
      modifies this, request, buf`readerIndex, buf`writerIndex
      ensures buf.Valid() && request == old(request)
      ensures Result(View(), ok, buf.Contents()) == HttpParser.ParseRequest(old(View()), old(buf.Contents()))
    {
      hide OneRound;
      ghost var whole := HttpParser.ParseRequest(View(), buf.Contents());
      var hasMore := true;
      ok := true;
      while hasMore
        invariant buf.Valid() && request == old(request)
        invariant hasMore ==> Ready(View()) && HttpParser.ParseRequest(View(), buf.Contents()) == whole
        invariant !hasMore ==> Result(View(), ok, buf.Contents()) == whole
        decreases hasMore, buf.ReadableBytes()
      {
        RoundProgress(View(), buf.Contents());
        RoundReady(View(), buf.Contents());
        ok, hasMore := ParseLine(buf);
      }
    }
  }

  lemma RoundReady(c: Context, s: Text)
    requires Ready(c)
    ensures OneRound(c, s).hasMore ==> Ready(OneRound(c, s).context)
  {
  }
}
