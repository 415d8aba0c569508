/**
 * The enumerations of the HTTP message model (method, version, status
 * code), their textual forms, and the exceptions the parser raises.
 */
module HttpTypes {
  import opened Ascii
  import opened Wrappers

  datatype Method = GET | HEAD | POST | PUT | DELETE | CONNECT | OPTIONS | TRACE | PATCH

  datatype Version = HTTP_0_9 | HTTP_1_0 | HTTP_1_1 | HTTP_2_0

  datatype StatusCode =
    | Continue | SwitchingProtocols | EarlyHints
    | Ok | Created | Accepted | NonAuthoritativeInformation | NoContent | ResetContent | PartialContent
    | MultipleChoices | MovedPermanently | Found | NotModified
    | BadRequest | Unauthorized | Forbidden | NotFound | MethodNotAllowed | RequestTimeout | ImATeapot
    | InternalServerError | NotImplemented | BadGateway | ServiceUnvailable | GatewayTimeout
    | HttpVersionNotSupported

  /** The numeric value of each status enumerator. */
  function Code(s: StatusCode): (n: nat)
    ensures 100 <= n <= 505
  {
    match s
    case Continue => 100
    case SwitchingProtocols => 101
    case EarlyHints => 103
    case Ok => 200
    case Created => 201
    case Accepted => 202
    case NonAuthoritativeInformation => 203
    case NoContent => 204
    case ResetContent => 205
    case PartialContent => 206
    case MultipleChoices => 300
    case MovedPermanently => 301
    case Found => 302
    case NotModified => 304
    case BadRequest => 400
    case Unauthorized => 401
    case Forbidden => 403
    case NotFound => 404
    case MethodNotAllowed => 405
    case RequestTimeout => 408
    case ImATeapot => 418
    case InternalServerError => 500
    case NotImplemented => 501
    case BadGateway => 502
    case ServiceUnvailable => 503
    case GatewayTimeout => 504
    case HttpVersionNotSupported => 505
  }

  /** Distinct enumerators have distinct numeric values. */
  lemma CodeInjective(s: StatusCode, t: StatusCode)
    requires Code(s) == Code(t)
    ensures s == t
  {
  }

  /** Canonical upper-case name of a method. */
  function MethodToString(m: Method): string
  {
    match m
    case GET => "GET"
    case HEAD => "HEAD"
    case POST => "POST"
    case PUT => "PUT"
    case DELETE => "DELETE"
    case CONNECT => "CONNECT"
    case OPTIONS => "OPTIONS"
    case TRACE => "TRACE"
    case PATCH => "PATCH"
  }

  /** Canonical protocol token of a version. */
  function VersionToString(v: Version): string
  {
    match v
    case HTTP_0_9 => "HTTP/0.9"
    case HTTP_1_0 => "HTTP/1.0"
    case HTTP_1_1 => "HTTP/1.1"
    case HTTP_2_0 => "HTTP/2.0"
  }

  /** The codes that to_string(HttpStatusCode) gives a reason phrase. */
  predicate HasPhrase(s: StatusCode)
  {
    s in {Continue, StatusCode.Ok, Accepted, MovedPermanently, Found, BadRequest, Forbidden, NotFound,
          MethodNotAllowed, ImATeapot, InternalServerError, NotImplemented, BadGateway}
  }

  /** to_string(HttpStatusCode): the reason phrase, empty for the codes the switch does not list. */
  function ReasonPhrase(s: StatusCode): (r: string)
    ensures r != [] <==> HasPhrase(s)
  {
    match s
    case Continue => "Continue"
    case Ok => "OK"
    case Accepted => "Accepted"
    case MovedPermanently => "Moved Permanently"
    case Found => "Found"
    case BadRequest => "Bad Request"
    case Forbidden => "Forbidden"
    case NotFound => "Not Found"
    case MethodNotAllowed => "Method Not Allowed"
    case ImATeapot => "I'm a Teapot"
    case InternalServerError => "Internal Server Error"
    case NotImplemented => "Not Implemented"
    case BadGateway => "Bad Gateway"
    case _ => ""
  }

  /**
   * The C++ exception classes the core throws and catches.  An
   * invalid_argument is also a logic_error; OtherLogicError stands for any
   * other logic_error (the parser throws a plain one), OtherException for
   * any other std::exception a handler may throw.
   */
  datatype ExceptionKind = InvalidArgument | OtherLogicError | OtherException

  datatype Exception = Exception(kind: ExceptionKind, what: string)

  /** catch (const std::logic_error&) matches invalid_argument and the other logic errors. */
  predicate IsLogicError(e: Exception)
  {
    e.kind == InvalidArgument || e.kind == OtherLogicError
  }

  /** string_to_method: case-insensitive, throws invalid_argument for an unknown token. */
  function StringToMethod(s: string): (r: Result<Method, Exception>)
    ensures r.Success? ==> MethodToString(r.value) == Uppercase(s)
    ensures r.Failure? ==> r.error == Exception(InvalidArgument, "Unexpected HTTP method")
  {
    var u := Uppercase(s);
    if u == "GET" then Success(GET)
    else if u == "HEAD" then Success(HEAD)
    else if u == "POST" then Success(POST)
    else if u == "PUT" then Success(PUT)
    else if u == "DELETE" then Success(DELETE)
    else if u == "CONNECT" then Success(CONNECT)
    else if u == "OPTIONS" then Success(OPTIONS)
    else if u == "TRACE" then Success(TRACE)
    else if u == "PATCH" then Success(PATCH)
    else Failure(Exception(InvalidArgument, "Unexpected HTTP method"))
  }

  /** string_to_version: case-insensitive, "HTTP/2" is accepted for 2.0, otherwise throws invalid_argument. */
  function StringToVersion(s: string): (r: Result<Version, Exception>)
    ensures r.Success? ==> VersionToString(r.value) == Uppercase(s) || (r.value == HTTP_2_0 && Uppercase(s) == "HTTP/2")
    ensures r.Failure? ==> r.error == Exception(InvalidArgument, "Unexpected HTTP version")
  {
    var u := Uppercase(s);
    if u == "HTTP/0.9" then Success(HTTP_0_9)
    else if u == "HTTP/1.0" then Success(HTTP_1_0)
    else if u == "HTTP/1.1" then Success(HTTP_1_1)
    else if u == "HTTP/2" || u == "HTTP/2.0" then Success(HTTP_2_0)
    else Failure(Exception(InvalidArgument, "Unexpected HTTP version"))
  }

  /** Canonical names contain no lower-case letter, so their uppercase form is themselves. */
  lemma MethodNameIsUpper(m: Method)
    ensures Uppercase(MethodToString(m)) == MethodToString(m)
  {
    var s := MethodToString(m);
    assert forall i :: 0 <= i < |s| ==> !IsLower(s[i]);
  }

  lemma VersionNameIsUpper(v: Version)
    ensures Uppercase(VersionToString(v)) == VersionToString(v)
  {
    var s := VersionToString(v);
    assert forall i :: 0 <= i < |s| ==> !IsLower(s[i]);
  }

  /** Decoding the canonical name gives the method back. */
  lemma MethodRoundTrip(m: Method)
    ensures StringToMethod(MethodToString(m)) == Success(m)
  {
    MethodNameIsUpper(m);
  }

  /** Decoding the canonical token gives the version back. */
  lemma VersionRoundTrip(v: Version)
    ensures StringToVersion(VersionToString(v)) == Success(v)
  {
    VersionNameIsUpper(v);
  }

  /** Method decoding ignores ASCII case. */
  lemma MethodDecodeIgnoresCase(s: string, t: string)
    requires EqualIgnoringCase(s, t)
    ensures StringToMethod(s) == StringToMethod(t)
  {
    UppercaseEqualIff(s, t);
  }

  /** Version decoding ignores ASCII case. */
  lemma VersionDecodeIgnoresCase(s: string, t: string)
    requires EqualIgnoringCase(s, t)
    ensures StringToVersion(s) == StringToVersion(t)
  {
    UppercaseEqualIff(s, t);
  }

  /** A token decodes to a method exactly when it is a method name ignoring case. */
  lemma MethodDecodeIff(s: string)
    ensures StringToMethod(s).Success? <==> exists m: Method :: EqualIgnoringCase(s, MethodToString(m))
  {
    if StringToMethod(s).Success? {
      var m := StringToMethod(s).value;
      MethodNameIsUpper(m);
      UppercaseEqualIff(s, MethodToString(m));
    }
    if exists m: Method :: EqualIgnoringCase(s, MethodToString(m)) {
      var m: Method :| EqualIgnoringCase(s, MethodToString(m));
      MethodDecodeIgnoresCase(s, MethodToString(m));
      MethodRoundTrip(m);
    }
  }

  /** "HTTP/2" is accepted as an alias of 2.0. */
  lemma VersionTwoAlias()
    ensures StringToVersion("HTTP/2") == Success(HTTP_2_0)
  {
    var u := Uppercase("HTTP/2");
    assert u == "HTTP/2" by {
      assert forall i :: 0 <= i < |u| ==> u[i] == ToUpper("HTTP/2"[i]);
    }
  }

  /** A version token outside the table, such as "HTTP/3.0", is rejected. */
  lemma VersionThreeRejected()
    ensures StringToVersion("HTTP/3.0") == Failure(Exception(InvalidArgument, "Unexpected HTTP version"))
  {
    var u := Uppercase("HTTP/3.0");
    assert u == "HTTP/3.0" by {
      assert forall i :: 0 <= i < |u| ==> u[i] == ToUpper("HTTP/3.0"[i]);
    }
  }

  /** A missing method or version token (the empty string) is rejected. */
  lemma EmptyTokensRejected()
    ensures StringToMethod("") == Failure(Exception(InvalidArgument, "Unexpected HTTP method"))
    ensures StringToVersion("") == Failure(Exception(InvalidArgument, "Unexpected HTTP version"))
  {
  }
}
