/** Printing a request and parsing it back. */
module HttpPrinter {
  import opened Common
  import opened Bytes
  import opened HttpParser

  datatype Header = Header(field: Text, value: Text)

  const CRLF: Text := [CR, LF]

  function Digit(version: Version): Byte
    requires version != Unknown
  {
    if version == Http11 then 49 else 48
  }

  function Target(path: Text, query: Text, version: Version): Text
    requires version != Unknown
  {
    path + query + [SPACE] + (HTTP1 + [Digit(version)])
  }

  function RequestLine(verb: Verb, path: Text, query: Text, version: Version): Text
    requires verb != Invalid && version != Unknown
  {
    VerbName(verb) + [SPACE] + Target(path, query, version)
  }

  function HeaderLine(h: Header): Text {
    h.field + [COLON] + h.value
  }

  function PrintHeaders(hs: seq<Header>): Text {
    if hs == [] then CRLF else HeaderLine(hs[0]) + CRLF + PrintHeaders(hs[1..])
  }

  function Print(verb: Verb, path: Text, query: Text, version: Version, hs: seq<Header>): Text
    requires verb != Invalid && version != Unknown
  {
    RequestLine(verb, path, query, version) + CRLF + PrintHeaders(hs)
  }

  /** The headers a reader keeps: the last of each name, without the spaces around its value. */
  function Collect(m: map<Text, Text>, hs: seq<Header>): map<Text, Text>
    decreases |hs|
  {
    if hs == [] then m else Collect(m[hs[0].field := Trim(hs[0].value)], hs[1..])
  }

  predicate WellFormedTarget(path: Text, query: Text) {
    && SPACE !in path && QUESTION !in path && LF !in path
    && SPACE !in query && LF !in query && (query != [] ==> query[0] == QUESTION)
  }

  predicate WellFormedHeader(h: Header) {
    COLON !in h.field && LF !in h.field && LF !in h.value
  }

  // ---------- pieces ----------

  lemma {:induction false} IndexOfAfter(s: Text, b: Byte, t: Text)
    requires b !in s
    ensures IndexOf(s + [b] + t, b) == |s|
    decreases |s|
  {
    var u := s + [b] + t;
    if s != [] {
      assert u[1..] == s[1..] + [b] + t;
      IndexOfAfter(s[1..], b, t);
    }
  }

  lemma IndexOfAbsent(s: Text, b: Byte)
    requires b !in s
    ensures IndexOf(s, b) == |s|
  {
  }

  lemma NoLfNoCrlf(s: Text)
    requires LF !in s
    ensures FindCrlf(s).None?
  {
    FindCrlfFirst(s);
    forall i: nat ensures !CrlfAt(s, i) {
      assert i + 1 < |s| ==> s[i + 1] in s;
    }
  }

  lemma VerbRoundTrip(verb: Verb)
    requires verb != Invalid
    ensures VerbOf(VerbName(verb)) == verb && SPACE !in VerbName(verb) && LF !in VerbName(verb)
  {
  }

  lemma VersionRoundTrip(version: Version)
    requires version != Unknown
    ensures VersionOf(HTTP1 + [Digit(version)]) == Some(version) && LF !in HTTP1 + [Digit(version)]
  {
    assert (HTTP1 + [Digit(version)])[..7] == HTTP1;
  }

  lemma TargetRoundTrip(r: Request, path: Text, query: Text)
    requires WellFormedTarget(path, query) && r.query == []
    ensures SetTarget(r, path + query) == r.(path := path, query := query)
  {
    if query == [] {
      assert path + query == path;
      IndexOfAbsent(path, QUESTION);
    } else {
      assert path + query == path + [QUESTION] + query[1..];
      IndexOfAfter(path, QUESTION, query[1..]);
    }
  }

  lemma LineRoundTrip(verb: Verb, path: Text, query: Text, version: Version)
    requires verb != Invalid && version != Unknown && WellFormedTarget(path, query)
    ensures ProcessRequestLine(EMPTY_REQUEST, RequestLine(verb, path, query, version)) ==
              (Request(verb, version, path, query, map[]), true)
    ensures LF !in RequestLine(verb, path, query, version)
  {
    hide IndexOf, VerbOf, VersionOf, SetTarget;
    var target := Target(path, query, version);
    var line := RequestLine(verb, path, query, version);
    VerbRoundTrip(verb);
    VersionRoundTrip(version);
    IndexOfAfter(VerbName(verb), SPACE, target);
    assert line[..|VerbName(verb)|] == VerbName(verb) && line[|VerbName(verb)| + 1..] == target;
    var v := HTTP1 + [Digit(version)];
    IndexOfAfter(path + query, SPACE, v);
    assert target[..|path + query|] == path + query && target[|path + query| + 1..] == v;
    TargetRoundTrip(EMPTY_REQUEST.(verb := verb), path, query);
  }

  /** One header line is read into the map. */
  lemma HeaderRound(r: Request, h: Header, t: Text)
    requires WellFormedHeader(h)
    ensures OneRound(Context(ExpectHeaders, r), HeaderLine(h) + CRLF + t) ==
              Round(Context(ExpectHeaders, r.(headers := r.headers[h.field := Trim(h.value)])), t, true, true)
  {
    var line := HeaderLine(h);
    var s := line + CRLF + t;
    NoLfNoCrlf(line);
    FindCrlfAfter(line, t);
    IndexOfAfter(h.field, COLON, h.value);
    assert s[..|line|] == line && s[|line| + 2..] == t;
    assert line[..|h.field|] == h.field && line[|h.field| + 1..] == h.value;
    hide FindCrlf, IndexOf, Trim;
  }

  /** The empty line ends the request. */
  lemma EmptyRound(r: Request, t: Text)
    ensures OneRound(Context(ExpectHeaders, r), CRLF + t) == Round(Context(GotAll, r), t, true, false)
  {
    FindCrlfAfter([], t);
    var s := CRLF + t;
    assert [] + [CR, LF] + t == s;
    assert s[..0] == [] && s[2..] == t;
    hide FindCrlf;
  }

  lemma {:induction false} HeadersRoundTrip(r: Request, hs: seq<Header>, t: Text)
    requires forall i | 0 <= i < |hs| :: WellFormedHeader(hs[i])
    ensures ParseRequest(Context(ExpectHeaders, r), PrintHeaders(hs) + t) ==
              Result(Context(GotAll, r.(headers := Collect(r.headers, hs))), true, t)
    decreases |hs|
  {
    hide OneRound;
    var s := PrintHeaders(hs) + t;
    if hs == [] {
      EmptyRound(r, t);
    } else {
      var rest := PrintHeaders(hs[1..]) + t;
      assert s == HeaderLine(hs[0]) + CRLF + rest;
      HeaderRound(r, hs[0], rest);
      HeadersRoundTrip(r.(headers := r.headers[hs[0].field := Trim(hs[0].value)]), hs[1..], t);
    }
  }

  /**
    A well-formed request, printed and parsed, gives back its method, path, query, version and trimmed headers, and
    leaves what follows it unread.
   */
  lemma PrintThenParse(verb: Verb, path: Text, query: Text, version: Version, hs: seq<Header>, t: Text)
    requires verb != Invalid && version != Unknown && WellFormedTarget(path, query)
    requires forall i | 0 <= i < |hs| :: WellFormedHeader(hs[i])
    ensures ParseRequest(FRESH, Print(verb, path, query, version, hs) + t) ==
              Result(Context(GotAll, Request(verb, version, path, query, Collect(map[], hs))), true, t)
  {
    var line := RequestLine(verb, path, query, version);
    var rest := PrintHeaders(hs) + t;
    LineRoundTrip(verb, path, query, version);
    var s := Print(verb, path, query, version, hs) + t;
    hide RequestLine, ProcessRequestLine, PrintHeaders, OneRound;
    assert s == line + CRLF + rest;
    var r := Request(verb, version, path, query, map[]);
    LineRound(line, r, rest);
    HeadersRoundTrip(r, hs, t);
  }

  lemma LineRound(line: Text, r: Request, rest: Text)
    requires ProcessRequestLine(EMPTY_REQUEST, line) == (r, true) && LF !in line
    ensures OneRound(FRESH, line + CRLF + rest) == Round(Context(ExpectHeaders, r), rest, true, true)
  {
    hide ProcessRequestLine, FindCrlf;
    NoLfNoCrlf(line);
    FindCrlfAfter(line, rest);
    var s := line + CRLF + rest;
    assert s[..|line|] == line && s[|line| + 2..] == rest;
  }

  // ---------- trimming ----------

  predicate AllSpaces(s: Text) {
    forall b | b in s :: IsSpace(b)
  }

  predicate NoOuterSpaces(s: Text) {
    s == [] || (!IsSpace(s[0]) && !IsSpace(s[|s| - 1]))
  }

  lemma {:induction false} TrimLeftExact(a: Text, v: Text)
    requires AllSpaces(a) && (v == [] || !IsSpace(v[0]))
    ensures TrimLeft(a + v) == v
    decreases |a|
  {
    if a == [] {
      assert a + v == v;
    } else {
      assert (a + v)[1..] == a[1..] + v;
      TrimLeftExact(a[1..], v);
    }
  }

  lemma {:induction false} TrimRightExact(v: Text, b: Text)
    requires AllSpaces(b) && (v == [] || !IsSpace(v[|v| - 1]))
    ensures TrimRight(v + b) == v
    decreases |b|
  {
    if b == [] {
      assert v + b == v;
    } else {
      var n := |b| - 1;
      assert (v + b)[..|v| + n] == v + b[..n];
      TrimRightExact(v, b[..n]);
    }
  }

  /** Trimming removes the spaces around a value and nothing else. */
  lemma TrimExact(a: Text, v: Text, b: Text)
    requires AllSpaces(a) && AllSpaces(b) && NoOuterSpaces(v)
    ensures Trim(a + v + b) == v
  {
    if v == [] {
      assert a + v + b == (a + b) + [];
      TrimLeftExact(a + b, []);
    } else {
      assert a + v + b == a + (v + b);
      TrimLeftExact(a, v + b);
      TrimRightExact(v, b);
    }
  }
}
