/**
 * What string_to_request does with any input, not only with rendered
 * requests: where it cuts the text, which exception each start-line
 * token raises, what a request without header lines becomes, and that a
 * later header line overrides an earlier one with the same key.
 */
module HttpParsing {
  import opened Ascii
  import opened HttpTypes
  import opened Headers
  import opened Strings
  import opened Wrappers
  import opened HttpMessage
  import opened HttpCodec
  import opened HttpRoundTrip

  /** The fields the header loop builds from a header block. */
  function BlockFields(block: string): (r: seq<Field>)
    ensures Sorted(r)
  {
    ParseFieldLines(FieldState([], []), Lines(block)).headers
  }

  // ---- the layout of any input ----

  /**
   * Once the start line's CRLF is found at rpos, the request fails exactly
   * as its start line does; otherwise it carries the start line's method and
   * path, and its body is everything after the first "\r\n\r\n" at or after
   * rpos + 2 (nothing when there is none, and then no header lines either).
   */
  lemma ParseRequestLayout(s: string, rpos: nat)
    requires Find(s, CRLF, 0) == Some(rpos)
    ensures ParseRequest(s).Success? <==> ParseStartLine(s[..rpos]).Success?
    ensures ParseStartLine(s[..rpos]).Failure? ==> ParseRequest(s) == Failure(ParseStartLine(s[..rpos]).error)
    ensures ParseRequest(s).Success? ==>
              (ParseRequest(s).value.httpMethod, ParseRequest(s).value.uri) == ParseStartLine(s[..rpos]).value
    ensures ParseRequest(s).Success? && Find(s, BlankLine, rpos + 2).None? ==>
              ParseRequest(s).value.content == [] && ParseRequest(s).value.headers == [Field(ContentLengthKey, "0")]
    ensures ParseRequest(s).Success? && Find(s, BlankLine, rpos + 2).Some? ==>
              var p := Find(s, BlankLine, rpos + 2).value;
              ParseRequest(s).value.content == s[p + 4..] &&
              ParseRequest(s).value.headers == SyncedHeaders(BlockFields(s[rpos + 2..p]), s[p + 4..])
  {
    if Find(s, BlankLine, rpos + 2).None? {
      assert Lines([]) == [];
      assert NatToString(0) == "0";
    }
  }

  /** A later line for a key overrides whatever the earlier lines stored under it. */
  lemma LastLineWins(st: FieldState, lines: seq<string>, key: string, value: string)
    requires Sorted(st.headers) && ':' !in key
    ensures Lookup(ParseFieldLines(st, lines + [key + ":" + value]).headers, RemoveSpace(key)) == Some(RemoveSpace(value))
  {
    ParseFieldLinesSnoc(st, lines, key + ":" + value);
    var line := key + ":" + value;
    assert forall j :: 0 <= j < |key| ==> line[j] == key[j];
    FindCharFirst(line, ':', |key|);
    assert line[..|key|] == key && line[|key| + 1..] == value;
  }

  lemma {:induction false} ParseFieldLinesSnoc(st: FieldState, lines: seq<string>, line: string)
    requires Sorted(st.headers)
    ensures ParseFieldLines(st, lines + [line]) == ParseFieldLine(ParseFieldLines(st, lines), line)
    decreases |lines|
  {
    if lines == [] {
      assert lines + [line] == [line];
    } else {
      assert (lines + [line])[1..] == lines[1..] + [line];
      ParseFieldLinesSnoc(ParseFieldLine(st, lines[0]), lines[1..], line);
    }
  }

  /** A block that sets the same key twice keeps the second value. */
  lemma RepeatedKeyKeepsLast(key: string, a: string, b: string)
    requires NoSpace(key) && ':' !in key && NoSpace(a) && NoSpace(b)
    ensures HeaderValue(BlockFields(key + ":" + a + "\n" + key + ":" + b), key) == b
  {
    var l1, l2 := key + ":" + a, key + ":" + b;
    assert '\n' !in l1 by {
      assert forall i :: 0 <= i < |l1| ==> l1[i] == ':' || l1[i] in key || l1[i] in a;
    }
    assert '\n' !in l2 by {
      assert forall i :: 0 <= i < |l2| ==> l2[i] == ':' || l2[i] in key || l2[i] in b;
    }
    LinesAfterLine(l1, l2);
    LinesSingle(l2);
    assert l1 + "\n" + l2 == key + ":" + a + "\n" + key + ":" + b;
    assert [l1] + [l2] == [l1] + [key + ":" + b];
    LastLineWins(FieldState([], []), [l1], key, b);
  }

  // ---- which exception the start line raises ----

  /** A start line of three tokens ending at the first CRLF is checked as those tokens. */
  lemma StartLineOfRequest(m: string, u: string, v: string, rest: string)
    requires m != [] && NoSpace(m) && u != [] && NoSpace(u) && v != [] && NoSpace(v)
    ensures ParseRequest(m + " " + u + " " + v + CRLF + rest).Failure? <==>
            ParseStartLine(m + " " + u + " " + v).Failure?
    ensures ParseStartLine(m + " " + u + " " + v).Failure? ==>
            ParseRequest(m + " " + u + " " + v + CRLF + rest) == Failure(ParseStartLine(m + " " + u + " " + v).error)
    ensures ParseStartLine(m + " " + u + " " + v) == CheckStartLine(StringToMethod(m), u, StringToVersion(v))
  {
    var line := m + " " + u + " " + v;
    var s := line + CRLF + rest;
    NoCRInStartLine(m, u, v);
    FirstCRLF(line, rest);
    assert s[..|line|] == line;
    StartLineChecks(m, u, v);
    ParseRequestLayout(s, |line|);
  }

  /** An unknown method token is rejected with invalid_argument, whatever the version. */
  lemma MethodTokenRejected(m: string, u: string, v: string, rest: string)
    requires m != [] && NoSpace(m) && u != [] && NoSpace(u) && v != [] && NoSpace(v)
    requires StringToMethod(m).Failure?
    ensures ParseRequest(m + " " + u + " " + v + CRLF + rest) == Failure(Exception(InvalidArgument, "Unexpected HTTP method"))
  {
    StartLineOfRequest(m, u, v, rest);
  }

  /** A known method with an unknown version token is rejected with invalid_argument. */
  lemma VersionTokenRejected(m: string, u: string, v: string, rest: string)
    requires m != [] && NoSpace(m) && u != [] && NoSpace(u) && v != [] && NoSpace(v)
    requires StringToMethod(m).Success? && StringToVersion(v).Failure?
    ensures ParseRequest(m + " " + u + " " + v + CRLF + rest) == Failure(Exception(InvalidArgument, "Unexpected HTTP version"))
  {
    StartLineOfRequest(m, u, v, rest);
  }

  /** A known method with a known version other than 1.1 raises the logic_error. */
  lemma VersionUnsupported(m: string, u: string, v: string, rest: string)
    requires m != [] && NoSpace(m) && u != [] && NoSpace(u) && v != [] && NoSpace(v)
    requires StringToMethod(m).Success? && StringToVersion(v).Success? && StringToVersion(v).value != HTTP_1_1
    ensures ParseRequest(m + " " + u + " " + v + CRLF + rest) == Failure(VersionNotSupported)
  {
    StartLineOfRequest(m, u, v, rest);
  }

  /** "HTTP/1.0" is a known version but not 1.1: the logic_error that is answered 505. */
  lemma VersionOneZeroRequest(rest: string)
    ensures var v := "HTTP/1.0"; ParseRequest("GET" + " " + "/" + " " + v + CRLF + rest) == Failure(VersionNotSupported)
  {
    var v := "HTTP/1.0";
    MethodRoundTrip(GET);
    VersionRoundTrip(HTTP_1_0);
    MethodNameShape(GET);
    assert NoSpace(v) by { assert forall i :: 0 <= i < |v| ==> v[i] != ' ' && v[i] as int > 32; }
    VersionUnsupported("GET", "/", v, rest);
  }

  /** "HTTP/3.0" is no known version: the invalid_argument that is answered 400. */
  lemma VersionThreeZeroRequest(rest: string)
    ensures var v := "HTTP/3.0";
            ParseRequest("GET" + " " + "/" + " " + v + CRLF + rest) == Failure(Exception(InvalidArgument, "Unexpected HTTP version"))
  {
    var v := "HTTP/3.0";
    MethodRoundTrip(GET);
    VersionThreeRejected();
    MethodNameShape(GET);
    assert NoSpace(v) by { assert forall i :: 0 <= i < |v| ==> v[i] != ' ' && v[i] as int > 32; }
    VersionTokenRejected("GET", "/", v, rest);
  }

  // ---- a request without header lines ----

  /** A start line followed by an empty line: no header lines, an empty body and only Content-Length 0. */
  lemma NoHeaderLines(r: Request)
    requires r.version == HTTP_1_1 && r.uri != [] && NoSpace(r.uri) && Lowercase(r.uri) == r.uri
    ensures ParseRequest(RequestLine(r) + CRLF + CRLF) ==
            Success(Request(r.httpMethod, r.uri, HTTP_1_1, [Field(ContentLengthKey, "0")], []))
  {
    var line := RequestLine(r);
    var s := line + CRLF + CRLF;
    StartLineParses(r);
    FirstCRLF(line, CRLF);
    assert s[..|line|] == line;
    assert Find(s, BlankLine, |line| + 2).None?;
    ParseRequestLayout(s, |line|);
  }
}
