/** Where a request ends: at the first line without a colon, which is the empty line only if every header line has one. */
module HttpLines {
  import opened Common
  import opened Bytes
  import opened HttpParser
  import opened HttpPrinter

  /** Header lines, each with its line end. */
  function Lines(lines: seq<Text>): Text {
    if lines == [] then [] else lines[0] + CRLF + Lines(lines[1..])
  }

  predicate NoLineFeeds(lines: seq<Text>) {
    forall i | 0 <= i < |lines| :: LF !in lines[i]
  }

  predicate AllColons(lines: seq<Text>) {
    forall i | 0 <= i < |lines| :: COLON in lines[i]
  }

  /** The position of the first line without a colon, or the end. */
  function FirstColonless(lines: seq<Text>): (k: nat)
    ensures k <= |lines| && AllColons(lines[..k]) && (k < |lines| ==> COLON !in lines[k])
  {
    if lines == [] || COLON !in lines[0] then 0 else
    var k := FirstColonless(lines[1..]);
    assert lines[..k + 1] == [lines[0]] + lines[1..][..k];
    k + 1
  }

  /** The request with the fields of lines that have a colon. */
  function AddLines(r: Request, lines: seq<Text>): Request
    requires AllColons(lines)
    decreases |lines|
  {
    if lines == [] then r else
    var colon := IndexOf(lines[0], COLON);
    assert lines[0][..|lines[0]|] == lines[0];
    AddLines(AddHeader(r, lines[0], colon), lines[1..])
  }

  lemma ColonAt(line: Text)
    ensures IndexOf(line, COLON) < |line| <==> COLON in line
  {
    assert line[..|line|] == line;
  }

  lemma LineFound(line: Text, t: Text)
    requires LF !in line
    ensures var s := line + CRLF + t;
      FindCrlf(s) == Some(|line|) && s[..|line|] == line && s[|line| + 2..] == t
  {
    NoLfNoCrlf(line);
    FindCrlfAfter(line, t);
  }

  /** One round in the header state, given the line it finds. */
  lemma HeaderRoundAt(r: Request, s: Text, line: Text, t: Text)
    requires |line| + 2 <= |s| && FindCrlf(s) == Some(|line|) && s[..|line|] == line && s[|line| + 2..] == t
    ensures OneRound(Context(ExpectHeaders, r), s) ==
              if IndexOf(line, COLON) < |line|
              then Round(Context(ExpectHeaders, AddHeader(r, line, IndexOf(line, COLON))), t, true, true)
              else Round(Context(GotAll, r), t, true, false)
  {
    hide FindCrlf, AddHeader, ProcessRequestLine, IndexOf, CrlfAt;
  }

  lemma LineRead(r: Request, line: Text, t: Text)
    requires LF !in line
    ensures IndexOf(line, COLON) < |line| <==> COLON in line
    ensures OneRound(Context(ExpectHeaders, r), line + CRLF + t) ==
              if COLON in line then Round(Context(ExpectHeaders, AddHeader(r, line, IndexOf(line, COLON))), t, true, true)
              else Round(Context(GotAll, r), t, true, false)
  {
    hide FindCrlf, AddHeader, ProcessRequestLine, IndexOf, CrlfAt;
    ColonAt(line);
    LineFound(line, t);
    HeaderRoundAt(r, line + CRLF + t, line, t);
  }

  /** The parser takes the lines up to the first one without a colon, and leaves everything after that line unread. */
  lemma {:induction false} StopsAtColonless(r: Request, lines: seq<Text>, t: Text)
    requires NoLineFeeds(lines)
    ensures var k := FirstColonless(lines);
      ParseRequest(Context(ExpectHeaders, r), Lines(lines) + CRLF + t) ==
        Result(Context(GotAll, AddLines(r, lines[..k])), true, if k == |lines| then t else Lines(lines[k + 1..]) + CRLF + t)
    decreases |lines|
  {
    hide OneRound, IndexOf, AddHeader;
    if lines == [] {
      assert Lines(lines) + CRLF + t == [] + CRLF + t;
      LineRead(r, [], t);
    } else {
      var rest := Lines(lines[1..]) + CRLF + t;
      assert Lines(lines) + CRLF + t == lines[0] + CRLF + rest;
      LineRead(r, lines[0], rest);
      if COLON in lines[0] {
        StopsAtColonless(AddHeader(r, lines[0], IndexOf(lines[0], COLON)), lines[1..], t);
        TakeMore(r, lines);
      }
    }
  }

  lemma TakeMore(r: Request, lines: seq<Text>)
    requires lines != [] && COLON in lines[0]
    ensures var k := FirstColonless(lines[1..]);
      && FirstColonless(lines) == k + 1
      && IndexOf(lines[0], COLON) < |lines[0]|
      && AddLines(r, lines[..k + 1]) == AddLines(AddHeader(r, lines[0], IndexOf(lines[0], COLON)), lines[1..][..k])
      && (k < |lines[1..]| ==> lines[k + 2..] == lines[1..][k + 1..])
  {
    hide IndexOf, AddHeader;
    ColonAt(lines[0]);
    var k := FirstColonless(lines[1..]);
    assert lines[..k + 1][1..] == lines[1..][..k];
  }

  /** The request ends with the empty line, what follows it being all that is unread, exactly if every line has a colon. */
  lemma EndsAtEmptyLineIff(r: Request, lines: seq<Text>, t: Text)
    requires NoLineFeeds(lines)
    ensures ParseRequest(Context(ExpectHeaders, r), Lines(lines) + CRLF + t).rest == t <==> AllColons(lines)
  {
    StopsAtColonless(r, lines, t);
    var k := FirstColonless(lines);
    if k < |lines| {
      assert |Lines(lines[k + 1..]) + CRLF + t| > |t|;
    } else {
      assert lines[..k] == lines;
    }
  }

  /** "GET / HTTP/1.1", a line "foo", then "A:b" and the empty line: the request is complete, without its header, at "foo". */
  lemma ColonlessLineEndsRequest()
    ensures
      var line := RequestLine(Get, [47], [], Http11);
      ParseRequest(FRESH, line + CRLF + (Lines([[102, 111, 111], [65, COLON, 98]]) + CRLF)) ==
        Result(Context(GotAll, Request(Get, Http11, [47], [], map[])), true, [65, COLON, 98] + CRLF + CRLF)
  {
    hide OneRound, ProcessRequestLine, RequestLine;
    var line := RequestLine(Get, [47], [], Http11);
    var lines: seq<Text> := [[102, 111, 111], [65, COLON, 98]];
    var r := Request(Get, Http11, [47], [], map[]);
    LineRoundTrip(Get, [47], [], Http11);
    LineRound(line, r, Lines(lines) + CRLF);
    assert Lines(lines) + CRLF == Lines(lines) + CRLF + [];
    StopsAtColonless(r, lines, []);
    assert FirstColonless(lines) == 0 && AddLines(r, lines[..0]) == r;
    assert lines[1..] == [[65, COLON, 98]] && lines[1..][1..] == [];
    assert Lines(lines[1..]) == [65, COLON, 98] + CRLF + [];
    assert Lines(lines[1..]) + CRLF + [] == [65, COLON, 98] + CRLF + CRLF;
  }
}
