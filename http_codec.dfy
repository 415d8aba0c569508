/**
 * Textual encoding of messages: the request and response serialisers
 * and the request parser string_to_request, each given as a function
 * and as the loop-based method that is proved to compute it.
 */
module HttpCodec {
  import opened Ascii
  import opened HttpTypes
  import opened Headers
  import opened Strings
  import opened Wrappers
  import opened HttpMessage
  import Uris

  const CRLF := "\r\n"
  const BlankLine := "\r\n\r\n"

  // ---- serialisation ----

  function FieldText(f: Field): string
  {
    f.key + ": " + f.value
  }

  /** One "key: value" CRLF line per header, in key order. */
  function RenderFields(hs: seq<Field>): string
  {
    if hs == [] then [] else FieldText(hs[0]) + CRLF + RenderFields(hs[1..])
  }

  function RequestLine(r: Request): string
  {
    MethodToString(r.httpMethod) + " " + r.uri + " " + VersionToString(r.version)
  }

  /** to_string(HttpRequest). */
  function RenderRequest(r: Request): string
  {
    RequestLine(r) + CRLF + RenderFields(r.headers) + CRLF + r.content
  }

  function StatusLine(r: Response): string
  {
    VersionToString(r.version) + " " + NatToString(Code(r.status)) + " " + ReasonPhrase(r.status)
  }

  /** to_string(HttpResponse, send_content): the body is emitted only when sendContent holds. */
  function RenderResponse(r: Response, sendContent: bool): string
  {
    StatusLine(r) + CRLF + RenderFields(r.headers) + CRLF + (if sendContent then r.content else [])
  }

  lemma {:induction false} RenderFieldsAppend(a: seq<Field>, b: seq<Field>)
    ensures RenderFields(a + b) == RenderFields(a) + RenderFields(b)
  {
    if a == [] {
      assert a + b == b;
    } else {
      assert (a + b)[0] == a[0];
      assert (a + b)[1..] == a[1..] + b;
      RenderFieldsAppend(a[1..], b);
    }
  }

  /** The rendering of a prefix grows by one line per header. */
  lemma RenderFieldsSnoc(hs: seq<Field>, i: nat)
    requires i < |hs|
    ensures RenderFields(hs[..i + 1]) == RenderFields(hs[..i]) + (FieldText(hs[i]) + CRLF)
  {
    assert hs[..i + 1] == hs[..i] + [hs[i]];
    RenderFieldsAppend(hs[..i], [hs[i]]);
    assert RenderFields([hs[i]]) == FieldText(hs[i]) + CRLF + RenderFields([]);
  }

  /** Appends one CRLF-terminated line per header to the output, as the ostringstream loop does. */
  method AppendFields(prefix: string, hs: seq<Field>) returns (s: string)
    ensures s == prefix + RenderFields(hs)
  {
    s := prefix;
    var i := 0;
    while i < |hs|
      invariant i <= |hs|
      invariant s == prefix + RenderFields(hs[..i])
    {
      RenderFieldsSnoc(hs, i);
      s := s + (hs[i].key + ": " + hs[i].value + CRLF);
      i := i + 1;
    }
    assert hs[..i] == hs;
  }

  /** to_string(const HttpRequest&). */
  method RequestToString(request: HttpRequest) returns (s: string)
    ensures s == RenderRequest(request.Value())
  {
    s := MethodToString(request.httpMethod) + " " + request.uri + " " + VersionToString(request.message.version) + CRLF;
    s := AppendFields(s, request.message.headers);
    s := s + CRLF + request.message.content;
  }

  /** to_string(const HttpResponse&, bool send_content). */
  method ResponseToString(response: HttpResponse, sendContent: bool) returns (s: string)
    ensures s == RenderResponse(response.Value(), sendContent)
  {
    s := VersionToString(response.message.version) + " " + NatToString(Code(response.status)) + " "
         + ReasonPhrase(response.status) + CRLF;
    s := AppendFields(s, response.message.headers);
    s := s + CRLF;
    if sendContent {
      s := s + response.message.content;
    }
  }

  /** Leaving the body out drops exactly the trailing body bytes. */
  lemma {:induction false} ResponseWithoutBody(r: Response)
    ensures RenderResponse(r, true) == RenderResponse(r, false) + r.content
    ensures |RenderResponse(r, false)| + |r.content| == |RenderResponse(r, true)|
  {
    var head := StatusLine(r) + CRLF + RenderFields(r.headers) + CRLF;
    assert RenderResponse(r, false) == head + [];
  }

  // ---- parsing ----

  predicate NoSpace(s: string)
  {
    forall i :: 0 <= i < |s| ==> !IsSpace(s[i])
  }

  /** The whitespace a `>>` extraction skips. */
  function SkipSpace(s: string): (r: string)
    ensures |r| <= |s|
  {
    if s != [] && IsSpace(s[0]) then SkipSpace(s[1..]) else s
  }

  /** SkipSpace drops a prefix made only of whitespace and stops at a non-space or the end. */
  lemma {:induction false} SkipSpaceSkips(s: string)
    ensures SkipSpace(s) == s[|s| - |SkipSpace(s)|..]
    ensures SkipSpace(s) != [] ==> !IsSpace(SkipSpace(s)[0])
    ensures forall i :: 0 <= i < |s| - |SkipSpace(s)| ==> IsSpace(s[i])
  {
    if s != [] && IsSpace(s[0]) {
      SkipSpaceSkips(s[1..]);
      assert forall i :: 1 <= i < |s| ==> s[i] == s[1..][i - 1];
    }
  }

  /** The longest whitespace-free prefix. */
  function TakeWord(s: string): (r: string)
    ensures |r| <= |s|
  {
    if s == [] || IsSpace(s[0]) then [] else [s[0]] + TakeWord(s[1..])
  }

  /** TakeWord is a whitespace-free prefix followed by whitespace or the end. */
  lemma {:induction false} TakeWordTakes(s: string)
    ensures TakeWord(s) == s[..|TakeWord(s)|]
    ensures NoSpace(TakeWord(s))
    ensures |TakeWord(s)| < |s| ==> IsSpace(s[|TakeWord(s)|])
  {
    if s != [] && !IsSpace(s[0]) {
      TakeWordTakes(s[1..]);
      var w := TakeWord(s[1..]);
      assert [s[0]] + w == s[..|w| + 1];
    }
  }

  /**
   * One `iss >> word`: skip whitespace, take the next run of non-whitespace.
   * When only whitespace is left the word stays empty (the target string
   * is not touched and started out empty).
   */
  function ExtractWord(s: string): (r: (string, string))
    ensures |r.1| <= |s|
  {
    var t := SkipSpace(s);
    var w := TakeWord(t);
    (w, t[|w|..])
  }

  /** The extracted word holds no whitespace: the word and the rest of the input around it. */
  lemma ExtractWordSplits(s: string)
    ensures NoSpace(ExtractWord(s).0)
    ensures ExtractWord(s).1 == s[|s| - |ExtractWord(s).1|..]
    ensures ExtractWord(s).0 == s[|s| - |ExtractWord(s).1| - |ExtractWord(s).0|..|s| - |ExtractWord(s).1|]
  {
    var t := SkipSpace(s);
    SkipSpaceSkips(s);
    TakeWordTakes(t);
  }

  /** `iss >> method >> path >> version` on the start line; missing tokens are empty. */
  function StartLineTokens(line: string): (r: (string, string, string))
  {
    var (m, rest1) := ExtractWord(line);
    var (p, rest2) := ExtractWord(rest1);
    var (v, _) := ExtractWord(rest2);
    (m, p, v)
  }

  /** The lines `while (std::getline(iss, line))` yields: split at '\n', no final empty line. */
  function Lines(s: string): (r: seq<string>)
    ensures forall i :: 0 <= i < |r| ==> '\n' !in r[i]
    decreases |s|
  {
    if s == [] then []
    else
      match FindChar(s, '\n')
      case None => [s]
      case Some(i) => [s[..i]] + Lines(s[i + 1..])
  }

  /**
   * The erase/remove_if idiom with isspace: every whitespace character is
   * deleted and every other one kept.  Together with RemoveSpaceAppend
   * (the deletion distributes over concatenation, so the kept characters
   * stay in order) this fixes the result for every input.
   */
  function RemoveSpace(s: string): (r: string)
    ensures NoSpace(r)
    ensures |r| <= |s|
    ensures NoSpace(s) ==> r == s
    ensures |s| == 1 ==> r == (if IsSpace(s[0]) then [] else s)
  {
    if s == [] then []
    else if IsSpace(s[0]) then RemoveSpace(s[1..])
    else
      var t := RemoveSpace(s[1..]);
      assert NoSpace(s) ==> NoSpace(s[1..]);
      assert NoSpace(s) ==> s == [s[0]] + s[1..];
      [s[0]] + t
  }

  /** Deleting whitespace from a concatenation deletes it from each part, in order. */
  lemma {:induction false} RemoveSpaceAppend(a: string, b: string)
    ensures RemoveSpace(a + b) == RemoveSpace(a) + RemoveSpace(b)
  {
    if a != [] {
      assert (a + b)[1..] == a[1..] + b;
      RemoveSpaceAppend(a[1..], b);
    } else {
      assert a + b == b;
    }
  }

  /**
   * The header loop's state: the fields so far, and the `value` variable,
   * which keeps its previous contents when a line has no ':' (the second
   * getline then reads from a stream already at its end and leaves it alone).
   */
  datatype FieldState = FieldState(headers: seq<Field>, value: string)

  /** One header line: split at the first ':', delete whitespace, SetHeader. */
  function ParseFieldLine(st: FieldState, line: string): (r: FieldState)
    requires Sorted(st.headers)
    ensures Sorted(r.headers)
  {
    var colon := FindChar(line, ':');
    var key := if colon.Some? then line[..colon.value] else line;
    var value := if colon.Some? then line[colon.value + 1..] else st.value;
    var k := RemoveSpace(key);
    var v := RemoveSpace(value);
    FieldState(Insert(st.headers, k, v), v)
  }

  function ParseFieldLines(st: FieldState, lines: seq<string>): (r: FieldState)
    requires Sorted(st.headers)
    ensures Sorted(r.headers)
    decreases |lines|
  {
    if lines == [] then st else ParseFieldLines(ParseFieldLine(st, lines[0]), lines[1..])
  }

  /** Where string_to_request cuts its input. */
  datatype Parts = Parts(startLine: string, headerLines: string, body: string)

  /**
   * Start line up to the first CRLF; then, searching from just after that
   * CRLF, header block up to the first blank line and body after it.
   * Without a blank line there are no header lines and no body.
   */
  function SplitRequest(s: string): Option<Parts>
  {
    match Find(s, CRLF, 0)
    case None => None
    case Some(rpos) =>
      var lpos := rpos + 2;
      match Find(s, BlankLine, lpos)
      case None => Some(Parts(s[..rpos], [], []))
      case Some(p) => Some(Parts(s[..rpos], s[lpos..p], s[p + 4..]))
  }

  const NoStartLine := Exception(InvalidArgument, "Could not find request start line")
  const VersionNotSupported := Exception(OtherLogicError, "HTTP version not supported")

  /** The start line's checks: the method and path it names, or the exception thrown on it. */
  function ParseStartLine(line: string): (r: Result<(Method, string), Exception>)
    ensures var (m, path, v) := StartLineTokens(line);
            (StringToMethod(m).Failure? ==> r == Failure(Exception(InvalidArgument, "Unexpected HTTP method"))) &&
            (StringToMethod(m).Success? && StringToVersion(v).Failure? ==>
               r == Failure(Exception(InvalidArgument, "Unexpected HTTP version"))) &&
            (StringToMethod(m).Success? && StringToVersion(v).Success? && StringToVersion(v).value != HTTP_1_1 ==>
               r == Failure(VersionNotSupported)) &&
            (r.Success? <==> StringToMethod(m).Success? && StringToVersion(v) == Success(HTTP_1_1)) &&
            (r.Success? ==> r.value == (StringToMethod(m).value, Lowercase(path)))
    ensures r.Success? ==> Lowercase(r.value.1) == r.value.1
    ensures r.Failure? ==> r.error.kind == InvalidArgument || r.error == VersionNotSupported
  {
    var (m, path, v) := StartLineTokens(line);
    CheckStartLine(StringToMethod(m), path, StringToVersion(v))
  }

  /** The order of the checks: method first (then the path is stored), then the version. */
  function CheckStartLine(verb: Result<Method, Exception>, path: string, version: Result<Version, Exception>)
    : (r: Result<(Method, string), Exception>)
    requires verb.Failure? ==> verb.error.kind == InvalidArgument
    requires version.Failure? ==> version.error.kind == InvalidArgument
    ensures verb.Failure? ==> r == Failure(verb.error)
    ensures verb.Success? && version.Failure? ==> r == Failure(version.error)
    ensures verb.Success? && version.Success? && version.value != HTTP_1_1 ==> r == Failure(VersionNotSupported)
    ensures r.Success? <==> verb.Success? && version == Success(HTTP_1_1)
    ensures r.Success? ==> r.value == (verb.value, Lowercase(path)) && Lowercase(r.value.1) == r.value.1
    ensures r.Failure? ==> r.error.kind == InvalidArgument || r.error == VersionNotSupported
  {
    match verb
    case Failure(e) => Failure(e)
    case Success(verb) =>
      match version
      case Failure(e) => Failure(e)
      case Success(version) =>
        if version != HTTP_1_1 then Failure(VersionNotSupported)
        else
          LowercaseIdempotent(path);
          Success((verb, Lowercase(path)))
  }

  /** The request built from the pieces once the start line has been accepted. */
  function BuildRequest(verb: Method, path: string, parts: Parts): (r: Request)
    ensures r.version == HTTP_1_1 && Sorted(r.headers)
    ensures HeaderValue(r.headers, ContentLengthKey) == NatToString(|r.content|)
  {
    var fields := ParseFieldLines(FieldState([], []), Lines(parts.headerLines)).headers;
    Request(verb, path, HTTP_1_1, SyncedHeaders(fields, parts.body), parts.body)
  }

  /** string_to_request: the parsed request, or the exception it throws. */
  function ParseRequest(s: string): (r: Result<Request, Exception>)
    ensures r.Success? ==> r.value.version == HTTP_1_1 && Sorted(r.value.headers)
    ensures r.Success? ==> Lowercase(r.value.uri) == r.value.uri
    ensures r.Success? ==> HeaderValue(r.value.headers, ContentLengthKey) == NatToString(|r.value.content|)
    ensures r.Failure? ==> r.error.kind == InvalidArgument || r.error == VersionNotSupported
    ensures Find(s, CRLF, 0).None? ==> r == Failure(NoStartLine)
  {
    match SplitRequest(s)
    case None => Failure(NoStartLine)
    case Some(parts) => ParseParts(parts)
  }

  /** The request built from the pieces: start-line checks first, then header lines and body. */
  function ParseParts(parts: Parts): (r: Result<Request, Exception>)
  {
    match ParseStartLine(parts.startLine)
    case Failure(e) => Failure(e)
    case Success((verb, path)) => Success(BuildRequest(verb, path, parts))
  }

  /** The two find calls that cut the input into start line, header block and body. */
  method CutRequest(s: string) returns (r: Option<Parts>)
    ensures r == SplitRequest(s)
  {
    var headerLines: string, body: string := [], [];
    var lpos: nat := 0;
    var rpos := Find(s, CRLF, lpos);
    if rpos.None? {
      return None;
    }
    var startLine := s[lpos..rpos.value];
    lpos := rpos.value + 2;
    var blank := Find(s, BlankLine, lpos);
    if blank.Some? {
      headerLines := s[lpos..blank.value];
      lpos := blank.value + 4;
      if lpos < |s| {
        body := s[lpos..];
      } else {
        assert OccursAt(s, BlankLine, blank.value);
        assert s[lpos..] == [];
      }
    }
    return Some(Parts(startLine, headerLines, body));
  }

  /**
   * One header line: std::getline(header_stream, key, ':'), then
   * std::getline(header_stream, value), which leaves value as it was when
   * the line has no ':', then SetHeader of both with whitespace removed.
   */
  method ParseHeaderLine(message: HttpMessage, line: string, value: string) returns (newValue: string)
    requires message.Valid()
    modifies message
    ensures message.Valid()
    ensures FieldState(message.headers, newValue) == ParseFieldLine(FieldState(old(message.headers), value), line)
    ensures message.version == old(message.version) && message.content == old(message.content)
  {
    var key: string;
    newValue := value;
    var colon := FindChar(line, ':');
    if colon.Some? {
      key := line[..colon.value];
      newValue := line[colon.value + 1..];
    } else {
      key := line;
    }
    key := RemoveSpace(key);
    newValue := RemoveSpace(newValue);
    message.SetHeader(key, newValue);
  }

  /** The header loop of string_to_request: one SetHeader per line of the header block. */
  method ParseHeaderLines(message: HttpMessage, headerLines: string)
    requires message.Valid()
    modifies message
    ensures message.Valid()
    ensures message.headers == ParseFieldLines(FieldState(old(message.headers), []), Lines(headerLines)).headers
    ensures message.version == old(message.version) && message.content == old(message.content)
  {
    ghost var target := ParseFieldLines(FieldState(message.headers, []), Lines(headerLines));
    var value: string := [];
    var pos := 0;
    while pos < |headerLines|
      invariant pos <= |headerLines|
      invariant message.Valid()
      invariant message.version == old(message.version) && message.content == old(message.content)
      invariant ParseFieldLines(FieldState(message.headers, value), Lines(headerLines[pos..])) == target
      decreases |headerLines| - pos
    {
      ghost var st := FieldState(message.headers, value);
      var line, next := GetLine(headerLines, pos);
      ParseFieldLinesCons(st, line, Lines(headerLines[next..]));
      pos := next;
      value := ParseHeaderLine(message, line, value);
    }
    assert headerLines[pos..] == [];
  }

  /** The first line getline yields, and what is left after it. */
  lemma LinesCons(rest: string)
    requires rest != []
    ensures FindChar(rest, '\n').Some? ==>
              Lines(rest) == [rest[..FindChar(rest, '\n').value]] + Lines(rest[FindChar(rest, '\n').value + 1..])
    ensures FindChar(rest, '\n').None? ==> Lines(rest) == [rest]
  {
  }

  lemma ParseFieldLinesCons(st: FieldState, line: string, lines: seq<string>)
    requires Sorted(st.headers)
    ensures ParseFieldLines(st, [line] + lines) == ParseFieldLines(ParseFieldLine(st, line), lines)
  {
    assert ([line] + lines)[1..] == lines;
  }

  /** std::getline(iss, line): the text up to the next line feed, which is consumed. */
  method GetLine(s: string, pos: nat) returns (line: string, next: nat)
    requires pos < |s|
    ensures pos < next <= |s|
    ensures Lines(s[pos..]) == [line] + Lines(s[next..])
  {
    var rest := s[pos..];
    LinesCons(rest);
    var newline := FindChar(rest, '\n');
    if newline.Some? {
      line := rest[..newline.value];
      next := pos + newline.value + 1;
      assert rest[newline.value + 1..] == s[next..];
    } else {
      line := rest;
      next := |s|;
      assert s[next..] == [];
    }
  }

  /**
   * The start line of string_to_request: `iss >> method >> path >> version`,
   * then the method is decoded and stored, the path stored through a Uri,
   * and the version decoded and compared with the request's own (1.1).
   */
  method ReadStartLine(request: HttpRequest, m: string, path: string, v: string) returns (err: Option<Exception>)
    requires request.Valid() && request.message.version == HTTP_1_1
    modifies request
    ensures request.Valid()
    ensures match CheckStartLine(StringToMethod(m), path, StringToVersion(v))
            case Failure(e) => err == Some(e)
            case Success((verb, path)) => err.None? && request.httpMethod == verb && request.uri == path
  {
    var verb := StringToMethod(m);
    if verb.Failure? {
      return Some(verb.error);
    }
    request.SetMethod(verb.value);
    var uri := new Uris.Uri(path);
    request.SetUri(uri);
    var version := StringToVersion(v);
    if version.Failure? {
      return Some(version.error);
    }
    if version.value != request.message.version {
      return Some(VersionNotSupported);
    }
    return None;
  }

  /** string_to_request after the cut: a fresh request filled from the start line, header lines and body. */
  method PartsToRequest(parts: Parts) returns (r: Result<HttpRequest, Exception>)
    ensures ParseParts(parts).Failure? ==> r == Failure(ParseParts(parts).error)
    ensures ParseParts(parts).Success? ==>
              r.Success? && fresh(r.value) && fresh(r.value.message) &&
              r.value.Valid() && r.value.Value() == ParseParts(parts).value
  {
    var request := new HttpRequest();
    var (m, path, v) := StartLineTokens(parts.startLine);
    ghost var start := ParseStartLine(parts.startLine);
    assert start == CheckStartLine(StringToMethod(m), path, StringToVersion(v));
    var err := ReadStartLine(request, m, path, v);
    if err.Some? {
      return Failure(err.value);
    }
    ghost var fields := ParseFieldLines(FieldState([], []), Lines(parts.headerLines)).headers;
    ParseHeaderLines(request.message, parts.headerLines);
    assert request.message.headers == fields;
    request.message.SetContent(parts.body);
    assert request.Value() == BuildRequest(start.value.0, start.value.1, parts);
    r := Success(request);
  }

  /** string_to_request, cursor by cursor and header line by header line. */
  method StringToRequest(s: string) returns (r: Result<HttpRequest, Exception>)
    ensures ParseRequest(s).Failure? ==> r == Failure(ParseRequest(s).error)
    ensures ParseRequest(s).Success? ==>
              r.Success? && fresh(r.value) && fresh(r.value.message) &&
              r.value.Valid() && r.value.Value() == ParseRequest(s).value
  {
    var cut := CutRequest(s);
    if cut.None? {
      return Failure(NoStartLine);
    }
    r := PartsToRequest(cut.value);
  }
}
