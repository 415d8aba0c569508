/**
 * The HTTP message model.  HttpMessage is the part every message has
 * (version, header mapping, body); HttpRequest and HttpResponse each
 * own one and add the method and target path, or the status code.
 * Request and Response are the values these objects stand for.
 */
module HttpMessage {
  import opened Ascii
  import opened HttpTypes
  import opened Headers
  import opened Strings
  import opened Wrappers
  import Uris

  datatype Request = Request(httpMethod: Method, uri: string, version: Version, headers: seq<Field>, content: string)

  datatype Response = Response(status: StatusCode, version: Version, headers: seq<Field>, content: string)

  const ContentLengthKey := "Content-Length"

  /** The value header(key) returns: the stored value, or the empty string when the key is absent. */
  function HeaderValue(hs: seq<Field>, k: string): (r: string)
    ensures k in AsMap(hs) ==> r == AsMap(hs)[k]
    ensures k !in AsMap(hs) ==> r == ""
  {
    match Lookup(hs, k)
    case Some(v) => v
    case None => ""
  }

  /** The header mapping after SetContent(c): Content-Length holds the decimal length of c. */
  function SyncedHeaders(hs: seq<Field>, c: string): (r: seq<Field>)
    requires Sorted(hs)
    ensures Sorted(r)
    ensures HeaderValue(r, ContentLengthKey) == NatToString(|c|)
    ensures DecimalValue(HeaderValue(r, ContentLengthKey)) == |c|
    ensures forall k :: k != ContentLengthKey ==> HeaderValue(r, k) == HeaderValue(hs, k)
  {
    DecimalRoundTrip(|c|);
    Insert(hs, ContentLengthKey, NatToString(|c|))
  }

  /** The response HttpResponse(status) followed by SetContent(body), as the core's error paths build it. */
  function ResponseWithBody(status: StatusCode, body: string): (r: Response)
    ensures r.status == status && r.version == HTTP_1_1 && r.content == body
    ensures AsMap(r.headers) == map[ContentLengthKey := NatToString(|body|)]
  {
    Response(status, HTTP_1_1, SyncedHeaders([], body), body)
  }

  /** HttpMessageInterface: version, header mapping and body. */
  class HttpMessage {
    var version: Version
    var headers: seq<Field>
    var content: string

    ghost predicate Valid()
      reads this
    {
      Sorted(headers)
    }

    /** A new message is HTTP/1.1 with no headers and an empty body. */
    constructor ()
      ensures version == HTTP_1_1 && headers == [] && content == [] && Valid()
    {
      version := HTTP_1_1;
      headers := [];
      content := [];
    }

    /** SetHeader: key now maps to value; the other keys keep their values. */
    method SetHeader(key: string, value: string)
      requires Valid()
      modifies this
      ensures Valid()
      ensures headers == Insert(old(headers), key, value)
      ensures AsMap(headers) == AsMap(old(headers))[key := value]
      ensures version == old(version) && content == old(content)
    {
      headers := Insert(headers, key, value);
    }

    /** RemoveHeader: key is gone; the other keys keep their values. */
    method RemoveHeader(key: string)
      requires Valid()
      modifies this
      ensures Valid()
      ensures headers == Erase(old(headers), key)
      ensures AsMap(headers) == AsMap(old(headers)) - {key}
      ensures version == old(version) && content == old(content)
    {
      headers := Erase(headers, key);
    }

    /** SetContent: installs the body and re-synchronises Content-Length. */
    method SetContent(c: string)
      requires Valid()
      modifies this
      ensures Valid()
      ensures content == c
      ensures headers == SyncedHeaders(old(headers), c)
      ensures AsMap(headers) == AsMap(old(headers))[ContentLengthKey := NatToString(|c|)]
      ensures version == old(version)
    {
      content := c;
      SetHeader(ContentLengthKey, NatToString(|content|));
    }

    /** ClearContent: empties the body and sets Content-Length to "0"; its argument is not used. */
    method ClearContent(c: string)
      requires Valid()
      modifies this
      ensures Valid()
      ensures content == []
      ensures headers == SyncedHeaders(old(headers), [])
      ensures AsMap(headers) == AsMap(old(headers))[ContentLengthKey := "0"]
      ensures version == old(version)
    {
      content := [];
      SetHeader(ContentLengthKey, NatToString(|content|));
    }

    /** header(key): the stored value, or "" when key is absent. */
    function Header(key: string): string
      reads this
    {
      HeaderValue(headers, key)
    }

    /** content_length(): the body length. */
    function ContentLength(): nat
      reads this
    {
      |content|
    }
  }

  /** HttpRequest: method, target path, and the shared message part. */
  class HttpRequest {
    var httpMethod: Method
    /** The path of the Uri the request holds, already lowercased. */
    var uri: string
    const message: HttpMessage

    ghost predicate Valid()
      reads this, message
    {
      message.Valid() && Lowercase(uri) == uri
    }

    /** The value this object stands for. */
    function Value(): Request
      reads this, message
    {
      Request(httpMethod, uri, message.version, message.headers, message.content)
    }

    /** HttpRequest(): GET, empty path, HTTP/1.1, no headers, empty body. */
    constructor ()
      ensures fresh(message)
      ensures Value() == Request(GET, [], HTTP_1_1, [], []) && Valid()
    {
      httpMethod := GET;
      uri := [];
      message := new HttpMessage();
    }

    method SetMethod(m: Method)
      modifies this
      ensures httpMethod == m && uri == old(uri)
    {
      httpMethod := m;
    }

    /** SetUri copies the Uri's (already lowercased) path. */
    method SetUri(u: Uris.Uri)
      requires u.Valid()
      modifies this
      ensures uri == u.path && httpMethod == old(httpMethod)
    {
      uri := u.path;
    }
  }

  /** HttpResponse: status code and the shared message part. */
  class HttpResponse {
    var status: StatusCode
    const message: HttpMessage

    ghost predicate Valid()
      reads this, message
    {
      message.Valid()
    }

    function Value(): Response
      reads this, message
    {
      Response(status, message.version, message.headers, message.content)
    }

    /** HttpResponse(): 200 OK. */
    constructor Default()
      ensures fresh(message)
      ensures Value() == Response(StatusCode.Ok, HTTP_1_1, [], []) && Valid()
    {
      status := StatusCode.Ok;
      message := new HttpMessage();
    }

    /** HttpResponse(status): no headers, not even Content-Length, and an empty body. */
    constructor (s: StatusCode)
      ensures fresh(message)
      ensures Value() == Response(s, HTTP_1_1, [], []) && Valid()
    {
      status := s;
      message := new HttpMessage();
    }

    method SetStatusCode(s: StatusCode)
      modifies this
      ensures status == s
    {
      status := s;
    }
  }

  /** SetContent followed by reading back: body, length and Content-Length all agree. */
  lemma SetContentReadBack(hs: seq<Field>, c: string, other: string)
    requires Sorted(hs)
    ensures HeaderValue(SyncedHeaders(hs, c), ContentLengthKey) == NatToString(|c|)
    ensures other != ContentLengthKey ==> HeaderValue(SyncedHeaders(hs, c), other) == HeaderValue(hs, other)
    ensures HeaderValue(SyncedHeaders(hs, []), ContentLengthKey) == "0"
  {
  }

  /** A client of the classes: SetContent keeps Content-Length in sync, ClearContent resets it. */
  method ContentLengthExample() returns (before: string, after: string)
    ensures before == "4" && after == "0"
  {
    var response := new HttpResponse(StatusCode.Ok);
    response.message.SetHeader("Content-Type", "text/plain");
    response.message.SetContent("pong");
    before := response.message.Header(ContentLengthKey);
    response.message.ClearContent("ignored");
    after := response.message.Header(ContentLengthKey);
  }
}
