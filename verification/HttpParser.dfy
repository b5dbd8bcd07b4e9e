/**
  The HTTP request parser as a function of the bytes in the buffer, and its behaviour under any division of the input
  into chunks. The receive time stored with a request is left out.
 */
module HttpParser {
  import opened Common
  import opened Bytes

  const SPACE: Byte := 32
  const QUESTION: Byte := 63
  const COLON: Byte := 58

  const GET: seq<Byte> := [71, 69, 84]
  const POST: seq<Byte> := [80, 79, 83, 84]
  const HEAD: seq<Byte> := [72, 69, 65, 68]
  const PUT: seq<Byte> := [80, 85, 84]
  const DELETE: seq<Byte> := [68, 69, 76, 69, 84, 69]
  const HTTP1: seq<Byte> := [72, 84, 84, 80, 47, 49, 46] // "HTTP/1."

  datatype Verb = Invalid | Get | Post | Head | Put | Delete

  datatype Version = Unknown | Http10 | Http11

  type Text = seq<Byte>

  datatype Request = Request(verb: Verb, version: Version, path: Text, query: Text, headers: map<Text, Text>)

  datatype ParseState = ExpectRequestLine | ExpectHeaders | ExpectBody | GotAll

  datatype Context = Context(state: ParseState, request: Request)

  const EMPTY_REQUEST := Request(Invalid, Unknown, [], [], map[])
  const FRESH := Context(ExpectRequestLine, EMPTY_REQUEST)

  // ---------- pieces ----------

  /** `std::find`: the first position of a byte, or the end. */
  function IndexOf(s: Text, b: Byte): (k: nat)
    ensures k <= |s| && b !in s[..k] && (k < |s| ==> s[k] == b)
  {
    if s == [] || s[0] == b then 0 else
    var k := IndexOf(s[1..], b);
    assert s[..k + 1] == [s[0]] + s[1..][..k];
    k + 1
  }

  predicate IsSpace(b: Byte) {
    b == 32 || 9 <= b <= 13
  }

  function TrimLeft(s: Text): Text {
    if s != [] && IsSpace(s[0]) then TrimLeft(s[1..]) else s
  }

  function TrimRight(s: Text): Text {
    if s != [] && IsSpace(s[|s| - 1]) then TrimRight(s[..|s| - 1]) else s
  }

  function Trim(s: Text): Text {
    TrimRight(TrimLeft(s))
  }

  function VerbOf(name: Text): Verb {
    if name == GET then Get
    else if name == POST then Post
    else if name == HEAD then Head
    else if name == PUT then Put
    else if name == DELETE then Delete
    else Invalid
  }

  function VerbName(verb: Verb): Text
    requires verb != Invalid
  {
    match verb
    case Get => GET
    case Post => POST
    case Head => HEAD
    case Put => PUT
    case Delete => DELETE
  }

  /** The version field: its value, if it is one. */
  function VersionOf(v: Text): Option<Version> {
    if |v| != 8 || v[..7] != HTTP1 then None
    else if v[7] == 49 then Some(Http11)
    else if v[7] == 48 then Some(Http10)
    else None
  }

  /** `processRequestLine`: fields already set stay set when a later one is bad. */
  function ProcessRequestLine(r: Request, line: Text): (Request, bool) {
    var space := IndexOf(line, SPACE);
    if space == |line| then (r, false) else
    var r1 := r.(verb := VerbOf(line[..space]));
    if r1.verb == Invalid then (r1, false) else
    var rest := line[space + 1..];
    var space2 := IndexOf(rest, SPACE);
    if space2 == |rest| then (r1, false) else
    var r2 := SetTarget(r1, rest[..space2]);
    match VersionOf(rest[space2 + 1..])
    case None => (r2, false)
    case Some(version) => (r2.(version := version), true)
  }

  function SetTarget(r: Request, target: Text): Request {
    var question := IndexOf(target, QUESTION);
    if question < |target| then r.(path := target[..question], query := target[question..]) else r.(path := target)
  }

  /** `addHeader`. */
  function AddHeader(r: Request, line: Text, colon: nat): Request
    requires colon < |line|
  {
    r.(headers := r.headers[line[..colon] := Trim(line[colon + 1..])])
  }

  // ---------- the loop ----------

  /** One round of the loop in parseRequest: whether it is still ok, and whether it goes on. */
  datatype Round = Round(context: Context, rest: Text, ok: bool, hasMore: bool)

  function OneRound(c: Context, s: Text): Round {
    if c.state == ExpectBody || c.state == GotAll then Round(c, s, true, true) else
    FindCrlfFirst(s);
    match FindCrlf(s)
    case None => Round(c, s, true, false)
    case Some(crlf) =>
      var line, rest := s[..crlf], s[crlf + 2..];
      if c.state == ExpectRequestLine then
        var (r, ok) := ProcessRequestLine(c.request, line);
        if ok then Round(Context(ExpectHeaders, r), rest, true, true)
        else Round(Context(ExpectRequestLine, r), s, false, false)
      else
        var colon := IndexOf(line, COLON);
        if colon < |line| then Round(c.(request := AddHeader(c.request, line, colon)), rest, true, true)
        else Round(c.(state := GotAll), rest, true, false)
  }

  predicate Expecting(c: Context) {
    c.state == ExpectRequestLine || c.state == ExpectHeaders
  }

  lemma RoundProgress(c: Context, s: Text)
    requires Expecting(c)
    ensures var r := OneRound(c, s);
      && (r.hasMore ==> r.ok && Expecting(r.context) && |r.rest| < |s|)
      && (!r.hasMore ==> r.ok || r.context.state == ExpectRequestLine)
  {
    FindCrlfFirst(s);
  }

  /** The result of a call: the context it leaves, whether the input was acceptable, and the unread bytes. */
  datatype Result = Result(context: Context, ok: bool, rest: Text)

  /** `parseRequest`. */
  function ParseRequest(c: Context, s: Text): Result
    requires Expecting(c)
    decreases |s|
  {
    RoundProgress(c, s);
    var r := OneRound(c, s);
    if r.hasMore then ParseRequest(r.context, r.rest) else Result(r.context, r.ok, r.rest)
  }

  // ---------- termination ----------

  /** At most n rounds of the loop; the flag says whether it wants another. */
  function Rounds(c: Context, s: Text, n: nat): Round
    decreases n
  {
    if n == 0 then Round(c, s, true, true) else
    var r := OneRound(c, s);
    if r.hasMore then Rounds(r.context, r.rest, n - 1) else r
  }

  lemma {:induction false} ExpectingTerminates(c: Context, s: Text, n: nat)
    requires Expecting(c) && n > |s|
    ensures !Rounds(c, s, n).hasMore
    ensures var r := Rounds(c, s, n); ParseRequest(c, s) == Result(r.context, r.ok, r.rest)
    decreases n
  {
    hide OneRound;
    RoundProgress(c, s);
    var r := OneRound(c, s);
    if r.hasMore {
      ExpectingTerminates(r.context, r.rest, n - 1);
    }
  }

  lemma {:induction false} OtherwiseForever(c: Context, s: Text, n: nat)
    requires !Expecting(c)
    ensures Rounds(c, s, n) == Round(c, s, true, true)
    decreases n
  {
    if n > 0 {
      OtherwiseForever(c, s, n - 1);
    }
  }

  /** A call terminates exactly when it is entered expecting a request line or headers. */
  lemma TerminatesIff(c: Context, s: Text)
    ensures (exists n: nat :: !Rounds(c, s, n).hasMore) <==> Expecting(c)
  {
    if Expecting(c) {
      ExpectingTerminates(c, s, |s| + 1);
    } else {
      forall n: nat ensures Rounds(c, s, n).hasMore {
        OtherwiseForever(c, s, n);
      }
    }
  }

  // ---------- chunks ----------

  /** The call neither failed nor completed a request: it waits for more bytes. */
  predicate Waiting(r: Result) {
    r.ok && r.context.state != GotAll
  }

  lemma {:induction false} WaitingExpects(c: Context, s: Text)
    requires Expecting(c)
    ensures var r := ParseRequest(c, s); Waiting(r) ==> Expecting(r.context) && ParseRequest(r.context, r.rest) == r
    decreases |s|
  {
    RoundProgress(c, s);
    var r := OneRound(c, s);
    if r.hasMore {
      WaitingExpects(r.context, r.rest);
    }
  }

  function Continue(r: Result, t: Text): Result
    requires Waiting(r) ==> Expecting(r.context)
  {
    if Waiting(r) then ParseRequest(r.context, r.rest + t) else r.(rest := r.rest + t)
  }

  /** Bytes arriving later do not change a round that found its line. */
  lemma RoundStable(c: Context, s: Text, t: Text)
    requires Expecting(c) && FindCrlf(s).Some?
    ensures OneRound(c, s + t) == OneRound(c, s).(rest := OneRound(c, s).rest + t)
  {
    FindCrlfFirst(s);
    FindCrlfStable(s, t);
    var k := FindCrlf(s).value;
    assert (s + t)[..k] == s[..k];
    assert (s + t)[k + 2..] == s[k + 2..] + t;
    hide ProcessRequestLine, IndexOf, FindCrlf;
  }

  lemma {:induction false} ParseExtends(c: Context, s: Text, t: Text)
    requires Expecting(c)
    ensures Waiting(ParseRequest(c, s)) ==> Expecting(ParseRequest(c, s).context)
    ensures ParseRequest(c, s + t) == Continue(ParseRequest(c, s), t)
    decreases |s|
  {
    WaitingExpects(c, s);
    RoundProgress(c, s);
    var r := OneRound(c, s);
    if FindCrlf(s).Some? {
      RoundStable(c, s, t);
      RoundProgress(c, s + t);
      hide OneRound;
      if r.hasMore {
        ParseExtends(r.context, r.rest, t);
      } else {
        RoundEnds(c, s);
      }
    }
  }

  /** A line that ends the loop ends the request or fails. */
  lemma RoundEnds(c: Context, s: Text)
    requires Expecting(c) && FindCrlf(s).Some? && !OneRound(c, s).hasMore
    ensures !OneRound(c, s).ok || OneRound(c, s).context.state == GotAll
  {
    FindCrlfFirst(s);
  }

  /** A call after each chunk until failure or a complete request; the rest then includes the chunks not yet received. */
  function Feed(c: Context, buffer: Text, chunks: seq<Text>): Result
    requires Expecting(c)
    decreases |chunks|
  {
    if chunks == [] then Result(c, true, buffer) else
    var r := ParseRequest(c, buffer + chunks[0]);
    WaitingExpects(c, buffer + chunks[0]);
    if Waiting(r) then Feed(r.context, r.rest, chunks[1..]) else r.(rest := r.rest + Concat(chunks[1..]))
  }

  lemma {:induction false} FeedFrom(c: Context, buffer: Text, chunks: seq<Text>)
    requires Expecting(c) && ParseRequest(c, buffer) == Result(c, true, buffer)
    ensures Feed(c, buffer, chunks) == ParseRequest(c, buffer + Concat(chunks))
    decreases |chunks|
  {
    if chunks == [] {
      assert buffer + Concat(chunks) == buffer;
    } else {
      var s, t := buffer + chunks[0], Concat(chunks[1..]);
      assert buffer + Concat(chunks) == s + t;
      hide ParseRequest;
      ParseExtends(c, s, t);
      WaitingExpects(c, s);
      var r := ParseRequest(c, s);
      if Waiting(r) {
        FeedFrom(r.context, r.rest, chunks[1..]);
      }
    }
  }

  /** However the input is cut into chunks: same request, same state, same unread bytes as one call on it all. */
  lemma ChunkingInvariant(c: Context, chunks: seq<Text>)
    requires Expecting(c)
    ensures Feed(c, [], chunks) == ParseRequest(c, Concat(chunks))
  {
    assert OneRound(c, []) == Round(c, [], true, false);
    FeedFrom(c, [], chunks);
    assert [] + Concat(chunks) == Concat(chunks);
  }

  // ---------- HttpServer::onMessage ----------

  /** What onMessage finds on entry as long as no input was refused. */
  predicate Ready(c: Context) {
    Expecting(c) && (c.state == ExpectRequestLine ==> c.request == EMPTY_REQUEST)
  }
}
