/** Which request lines are accepted, and what of them is kept. */
module HttpRequestLines {
  import opened Common
  import opened Bytes
  import opened HttpParser
  import opened HttpPrinter

  /** A verb, a target without spaces and a version, with one space between them. */
  function LineOf(verb: Verb, target: Text, version: Version): Text
    requires verb != Invalid && version != Unknown
  {
    VerbName(verb) + [SPACE] + (target + [SPACE] + (HTTP1 + [Digit(version)]))
  }

  predicate Reads(line: Text, verb: Verb, target: Text, version: Version) {
    verb != Invalid && version != Unknown && SPACE !in target && line == LineOf(verb, target, version)
  }

  lemma VerbNameOf(name: Text)
    requires VerbOf(name) != Invalid
    ensures VerbName(VerbOf(name)) == name
  {
  }

  lemma VersionTextOf(v: Text)
    requires VersionOf(v).Some?
    ensures VersionOf(v).value != Unknown && v == HTTP1 + [Digit(VersionOf(v).value)]
  {
    assert v == v[..7] + [v[7]];
  }

  /** What is kept of a line that reads so. */
  lemma LineKept(r: Request, line: Text, verb: Verb, target: Text, version: Version)
    requires Reads(line, verb, target, version)
    ensures ProcessRequestLine(r, line) == (SetTarget(r.(verb := verb), target).(version := version), true)
  {
    hide IndexOf, VerbOf, VersionOf, SetTarget, VerbName, Digit;
    var v := HTTP1 + [Digit(version)];
    var rest := target + [SPACE] + v;
    VerbRoundTrip(verb);
    VersionRoundTrip(version);
    SplitAtSpace(VerbName(verb), rest);
    SplitAtSpace(target, v);
  }

  lemma SplitAtSpace(a: Text, b: Text)
    requires SPACE !in a
    ensures var s := a + [SPACE] + b;
      IndexOf(s, SPACE) == |a| && s[..|a|] == a && s[|a| + 1..] == b
  {
    IndexOfAfter(a, SPACE, b);
  }

  lemma AcceptedReads(r: Request, line: Text) returns (verb: Verb, target: Text, version: Version)
    requires ProcessRequestLine(r, line).1
    ensures Reads(line, verb, target, version)
  {
    hide IndexOf, VerbOf, VersionOf, SetTarget, VerbName;
    var space := IndexOf(line, SPACE);
    var rest := line[space + 1..];
    var space2 := IndexOf(rest, SPACE);
    verb, target, version := VerbOf(line[..space]), rest[..space2], VersionOf(rest[space2 + 1..]).value;
    VerbNameOf(line[..space]);
    VersionTextOf(rest[space2 + 1..]);
    assert line == line[..space] + [SPACE] + rest;
    assert rest == target + [SPACE] + rest[space2 + 1..];
  }

  /** A line is accepted exactly if it is a verb, a target without spaces and a version. */
  lemma AcceptedIff(r: Request, line: Text)
    ensures ProcessRequestLine(r, line).1 <==>
              exists verb, target, version :: Reads(line, verb, target, version)
  {
    if ProcessRequestLine(r, line).1 {
      var verb, target, version := AcceptedReads(r, line);
      assert Reads(line, verb, target, version);
    }
    forall verb, target, version | Reads(line, verb, target, version) ensures ProcessRequestLine(r, line).1 {
      LineKept(r, line, verb, target, version);
    }
  }

  /** The target is split at its first question mark, which begins the query. */
  lemma TargetSplit(r: Request, target: Text)
    requires r.query == []
    ensures var r' := SetTarget(r, target);
      && r'.path + r'.query == target && QUESTION !in r'.path && (r'.query != [] ==> r'.query[0] == QUESTION)
      && r' == r.(path := r'.path, query := r'.query)
  {
    var k := IndexOf(target, QUESTION);
    assert target == target[..k] + target[k..];
    hide IndexOf;
  }

  /** A refused request line stays in the buffer. */
  lemma RefusalConsumesNothing(c: Context, s: Text)
    requires c.state == ExpectRequestLine && !OneRound(c, s).ok
    ensures ParseRequest(c, s).rest == s && !ParseRequest(c, s).ok && ParseRequest(c, s).context.state == ExpectRequestLine
  {
    hide ProcessRequestLine, FindCrlf;
    RoundProgress(c, s);
  }
}
