/**
 * The server's logic without the operating system: the route table and
 * dispatch, the exception-to-status mapping of one request/response
 * exchange, the per-connection read/write state machine driven by the
 * outcomes of recv and send, the classification of ready events, and
 * the round-robin hand-out of accepted connections to the workers.
 */
module HttpServer {
  import opened Ascii
  import opened HttpTypes
  import opened Headers
  import opened Strings
  import opened HttpMessage
  import opened HttpCodec
  import opened HttpParsing
  import opened Wrappers

  const ThreadPoolSize := 5

  const EPOLLIN: bv32 := 0x001
  const EPOLLOUT: bv32 := 0x004
  const EPOLLERR: bv32 := 0x008
  const EPOLLHUP: bv32 := 0x010

  /** The errno values of the Microsoft C runtime the server is built against. */
  const EAGAIN := 11
  const EWOULDBLOCK := 140

  /** SOCKET is an unsigned pointer-sized integer; all ones is INVALID_SOCKET. */
  type Socket = x: int | 0 <= x < 0x1_0000_0000_0000_0000
  const InvalidSocket: Socket := 0xffff_ffff_ffff_ffff

  type Port = x: int | 0 <= x < 0x1_0000

  /** What a handler does with a request: return a response or throw. */
  datatype HandlerResult = Returned(response: Response) | Threw(exception: Exception)

  type Handler = Request -> HandlerResult

  /** request_handlers_: normalised path, then method, to handler. */
  type Routes = map<string, map<Method, Handler>>

  // ---- routing ----

  /** request_handlers_[Uri(path)].insert({method, callback}): an existing handler is kept. */
  function Register(routes: Routes, path: string, m: Method, h: Handler): (r: Routes)
    ensures r.Keys == routes.Keys + {Lowercase(path)}
    ensures forall k :: k in routes && k != Lowercase(path) ==> r[k] == routes[k]
    ensures m in r[Lowercase(path)]
    ensures Lowercase(path) in routes ==> r[Lowercase(path)].Keys == routes[Lowercase(path)].Keys + {m}
    ensures Lowercase(path) !in routes ==> r[Lowercase(path)].Keys == {m}
    ensures forall m' :: Lowercase(path) in routes && m' in routes[Lowercase(path)] ==>
              r[Lowercase(path)][m'] == routes[Lowercase(path)][m']
    ensures (Lowercase(path) !in routes || m !in routes[Lowercase(path)]) ==> r[Lowercase(path)][m] == h
  {
    var key := Lowercase(path);
    var inner := if key in routes then routes[key] else map[];
    routes[key := if m in inner then inner else inner[m := h]]
  }

  /** HttpResponse(status) as the router returns it: no headers and an empty body. */
  function Bare(status: StatusCode): Response
  {
    Response(status, HTTP_1_1, [], [])
  }

  /** HandleHttpRequest: 404 for an unknown path, 405 for an unknown method, otherwise the handler. */
  function Dispatch(routes: Routes, request: Request): HandlerResult
  {
    if request.uri !in routes then Returned(Bare(NotFound))
    else if request.httpMethod !in routes[request.uri] then Returned(Bare(MethodNotAllowed))
    else routes[request.uri][request.httpMethod](request)
  }

  /** The three routing outcomes, each exactly when its condition holds. */
  lemma DispatchOutcomes(routes: Routes, request: Request)
    ensures request.uri !in routes ==> Dispatch(routes, request) == Returned(Response(NotFound, HTTP_1_1, [], []))
    ensures request.uri in routes && request.httpMethod !in routes[request.uri] ==>
              Dispatch(routes, request) == Returned(Response(MethodNotAllowed, HTTP_1_1, [], []))
    ensures request.uri in routes && request.httpMethod in routes[request.uri] ==>
              Dispatch(routes, request) == routes[request.uri][request.httpMethod](request)
  {
  }

  /** A registered handler answers every request whose path equals the registered one ignoring case. */
  lemma {:induction false} RegisteredHandlerAnswers(routes: Routes, path: string, m: Method, h: Handler, request: Request)
    requires Lowercase(path) !in routes || m !in routes[Lowercase(path)]
    requires request.httpMethod == m && Lowercase(request.uri) == request.uri
    requires EqualIgnoringCase(path, request.uri)
    ensures Dispatch(Register(routes, path, m, h), request) == h(request)
  {
    LowercaseEqualIff(path, request.uri);
    LowercaseOfLower(request.uri);
  }

  /** Registering a second handler for the same path (in any case) and method changes nothing. */
  lemma {:induction false} RegisterFirstWins(routes: Routes, path: string, path': string, m: Method, h: Handler, h': Handler,
                                             request: Request)
    requires EqualIgnoringCase(path, path')
    ensures Dispatch(Register(Register(routes, path, m, h), path', m, h'), request) ==
            Dispatch(Register(routes, path, m, h), request)
  {
    LowercaseEqualIff(path, path');
    var r1 := Register(routes, path, m, h);
    var r2 := Register(r1, path', m, h');
    assert r2 == r1;
  }

  /** A method that was not registered for a path is refused, whatever else the path has. */
  lemma UnregisteredMethodRefused(routes: Routes, request: Request)
    requires request.uri in routes && request.httpMethod !in routes[request.uri]
    ensures Dispatch(routes, request).Returned?
    ensures Dispatch(routes, request).response.status == MethodNotAllowed
    ensures Dispatch(routes, request).response.headers == [] && Dispatch(routes, request).response.content == []
  {
  }

  // ---- one exchange ----

  /** The catch clauses of HandleHttpData, tried in order. */
  function ErrorResponse(e: Exception): (r: Response)
    ensures e.kind == InvalidArgument ==> r == ResponseWithBody(BadRequest, "Bad Request.")
    ensures e.kind == OtherLogicError ==> r == ResponseWithBody(HttpVersionNotSupported, "Http Version Not Supported.")
    ensures e.kind == OtherException ==> r == ResponseWithBody(InternalServerError, "Internal Server Error.")
  {
    if e.kind == InvalidArgument then ResponseWithBody(BadRequest, "Bad Request.")
    else if IsLogicError(e) then ResponseWithBody(HttpVersionNotSupported, "Http Version Not Supported.")
    else ResponseWithBody(InternalServerError, "Internal Server Error.")
  }

  /**
   * The response HandleHttpData sends for the received text, and whether
   * its body is sent: the body is left out only for a parsed HEAD request;
   * when parsing throws, the request object keeps its default method GET.
   */
  function Reply(routes: Routes, text: string): (Response, bool)
  {
    match ParseRequest(text)
    case Failure(e) => (ErrorResponse(e), true)
    case Success(request) =>
      var send := request.httpMethod != HEAD;
      match Dispatch(routes, request)
      case Returned(response) => (response, send)
      case Threw(e) => (ErrorResponse(e), send)
  }

  function ReplyText(routes: Routes, text: string): string
  {
    var (response, send) := Reply(routes, text);
    RenderResponse(response, send)
  }

  lemma ReplyTextOf(routes: Routes, text: string, response: Response, send: bool)
    requires Reply(routes, text) == (response, send)
    ensures ReplyText(routes, text) == RenderResponse(response, send)
  {
  }

  /** A request the parser rejects is answered 400 or 505, never 500, always with its body. */
  lemma ParseFailureReply(routes: Routes, text: string)
    requires ParseRequest(text).Failure?
    ensures Reply(routes, text).1
    ensures Reply(routes, text).0.status == BadRequest || Reply(routes, text).0.status == HttpVersionNotSupported
    ensures ParseRequest(text).error.kind == InvalidArgument <==> Reply(routes, text).0.status == BadRequest
  {
  }

  /** A request for HTTP/1.0 is answered 505 and one for HTTP/3.0 is answered 400, each with its body. */
  lemma VersionReplies(routes: Routes, rest: string)
    ensures var t := "GET" + " " + "/" + " " + "HTTP/1.0" + CRLF + rest;
            Reply(routes, t).1 && Reply(routes, t).0.status == HttpVersionNotSupported
    ensures var t := "GET" + " " + "/" + " " + "HTTP/3.0" + CRLF + rest;
            Reply(routes, t).1 && Reply(routes, t).0.status == BadRequest
  {
    var one := "GET" + " " + "/" + " " + "HTTP/1.0" + CRLF + rest;
    var three := "GET" + " " + "/" + " " + "HTTP/3.0" + CRLF + rest;
    VersionOneZeroRequest(rest);
    ParseFailureReply(routes, one);
    VersionThreeZeroRequest(rest);
    ParseFailureReply(routes, three);
  }

  /** For a parsed HEAD request the reply is the full rendering minus the body. */
  lemma HeadOmitsBody(routes: Routes, text: string)
    requires ParseRequest(text).Success? && ParseRequest(text).value.httpMethod == HEAD
    ensures !Reply(routes, text).1
    ensures ReplyText(routes, text) + Reply(routes, text).0.content == RenderResponse(Reply(routes, text).0, true)
  {
    ResponseWithoutBody(Reply(routes, text).0);
  }

  /** For any other parsed request the handler's response is sent whole. */
  lemma HandledReply(routes: Routes, text: string)
    requires ParseRequest(text).Success? && ParseRequest(text).value.httpMethod != HEAD
    requires Dispatch(routes, ParseRequest(text).value).Returned?
    ensures ReplyText(routes, text) == RenderResponse(Dispatch(routes, ParseRequest(text).value).response, true)
  {
  }

  // ---- connections ----

  /** The state an EventData holds: socket, bytes left to send, where they start, the buffer. */
  datatype ConnData = ConnData(fd: Socket, length: nat, cursor: nat, buffer: string)
  {
    predicate Valid() { cursor + length <= |buffer| }

    /** The bytes still to be sent. */
    function Pending(): string
      requires Valid()
    {
      buffer[cursor..cursor + length]
    }
  }

  /** A fresh EventData for the given socket: nothing buffered. */
  function Reader(fd: Socket): ConnData
  {
    ConnData(fd, 0, 0, [])
  }

  /** An EventData that holds a whole response to send. */
  function Writer(fd: Socket, text: string): (d: ConnData)
    ensures d.Valid() && d.Pending() == text
  {
    ConnData(fd, |text|, 0, text)
  }

  /** The outcome of the recv or send call HandleEpollEvent makes. */
  datatype Io = Received(bytes: string) | Sent(count: nat) | Failed(errno: int)

  /** Which call an event leads to: recv on EPOLLIN, send otherwise. */
  predicate Matches(events: bv32, io: Io)
  {
    (events == EPOLLIN ==> !io.Sent?) && (events != EPOLLIN ==> !io.Received?)
  }

  /** What becomes of a connection: closed and deregistered, or re-armed with an interest and a state. */
  datatype Action = Close(fd: Socket) | Rearm(fd: Socket, events: bv32, conn: ConnData)

  function ReadStep(routes: Routes, d: ConnData, io: Io): Action
    requires !io.Sent?
  {
    match io
    case Received(bytes) =>
      if |bytes| > 0 then Rearm(d.fd, EPOLLOUT, Writer(d.fd, ReplyText(routes, bytes)))
      else Close(d.fd)
    case Failed(errno) =>
      if errno == EAGAIN || errno == EWOULDBLOCK then Rearm(d.fd, EPOLLIN, d) else Close(d.fd)
  }

  function WriteStep(d: ConnData, io: Io): Action
    requires !io.Received?
  {
    match io
    case Sent(n) =>
      if n < d.length then Rearm(d.fd, EPOLLOUT, d.(cursor := d.cursor + n, length := d.length - n))
      else Rearm(d.fd, EPOLLIN, Reader(d.fd))
    case Failed(errno) =>
      if errno == EAGAIN || errno == EWOULDBLOCK then Rearm(d.fd, EPOLLOUT, d) else Close(d.fd)
  }

  /** HandleEpollEvent on values. */
  function Step(routes: Routes, d: ConnData, events: bv32, io: Io): Action
    requires Matches(events, io)
  {
    if events == EPOLLIN then ReadStep(routes, d, io) else WriteStep(d, io)
  }

  /** Every step keeps the socket and the buffer bookkeeping consistent. */
  lemma StepKeepsValid(routes: Routes, d: ConnData, events: bv32, io: Io)
    requires d.Valid() && Matches(events, io)
    ensures Step(routes, d, events, io).fd == d.fd
    ensures Step(routes, d, events, io).Rearm? ==> Step(routes, d, events, io).conn.Valid()
    ensures Step(routes, d, events, io).Rearm? ==> Step(routes, d, events, io).conn.fd == d.fd
  {
  }

  /** Reading a request arms the socket for writing the whole serialised reply, from cursor 0. */
  lemma ReadThenWrite(routes: Routes, d: ConnData, bytes: string)
    requires |bytes| > 0
    ensures var a := Step(routes, d, EPOLLIN, Received(bytes));
            a.Rearm? && a.events == EPOLLOUT && a.conn.cursor == 0 &&
            a.conn.length == |ReplyText(routes, bytes)| && a.conn.Pending() == ReplyText(routes, bytes)
  {
  }

  /** A short send moves the cursor on by the count sent and keeps cursor + length. */
  lemma PartialSend(d: ConnData, n: nat)
    requires d.Valid() && n < d.length
    ensures var a := Step(map[], d, EPOLLOUT, Sent(n));
            a.Rearm? && a.events == EPOLLOUT && a.conn.cursor == d.cursor + n &&
            a.conn.cursor + a.conn.length == d.cursor + d.length &&
            d.Pending() == d.buffer[d.cursor..d.cursor + n] + a.conn.Pending()
  {
  }

  // ---- epoll registration ----

  /** The epoll_ctl operations control_epoll_event issues. */
  datatype CtlOp = CtlAdd | CtlMod | CtlDel

  const CtlAddFailed := Exception(OtherException, "Failed to add file descriptor")
  const CtlRemoveFailed := Exception(OtherException, "Failed to remove file descriptor")

  /**
   * control_epoll_event on the sockets registered with one epoll instance:
   * epoll_ctl refuses to add a socket that is already registered and to
   * modify or remove one that is not, and the wrapper turns the refusal
   * into a runtime_error.
   */
  function Control(registered: set<Socket>, op: CtlOp, fd: Socket): (r: Result<set<Socket>, Exception>)
    ensures r.Success? <==> (op == CtlAdd <==> fd !in registered)
    ensures r.Success? ==> r.value == (if op == CtlDel then registered - {fd} else registered + {fd})
    ensures r.Failure? ==> r.error.kind == OtherException
  {
    match op
    case CtlAdd => if fd in registered then Failure(CtlAddFailed) else Success(registered + {fd})
    case CtlMod => if fd in registered then Success(registered) else Failure(CtlAddFailed)
    case CtlDel => if fd in registered then Success(registered - {fd}) else Failure(CtlRemoveFailed)
  }

  /** The operation HandleEpollEvent issues as written: EPOLL_CTL_ADD to retry after a failed send. */
  function WrittenOp(events: bv32, io: Io, a: Action): CtlOp
  {
    if a.Close? then CtlDel
    else if events != EPOLLIN && io.Failed? then CtlAdd
    else CtlMod
  }

  /** The operation the event loop needs: remove a closed connection, modify a re-armed one. */
  function IntendedOp(a: Action): CtlOp
  {
    if a.Close? then CtlDel else CtlMod
  }

  /**
   * As written, retrying a send that failed with EAGAIN or EWOULDBLOCK
   * re-adds a socket that is still registered, so control_epoll_event
   * throws instead of re-arming the connection.
   */
  lemma SendRetryThrows(registered: set<Socket>, routes: Routes, d: ConnData, errno: int)
    requires d.fd in registered && (errno == EAGAIN || errno == EWOULDBLOCK)
    ensures Step(routes, d, EPOLLOUT, Failed(errno)) == Rearm(d.fd, EPOLLOUT, d)
    ensures Control(registered, WrittenOp(EPOLLOUT, Failed(errno), Step(routes, d, EPOLLOUT, Failed(errno))), d.fd)
            == Failure(CtlAddFailed)
  {
  }

  /** The retry after a failed send is the only step where the written operation is not the intended one. */
  lemma WrittenOpOtherwiseIntended(routes: Routes, d: ConnData, events: bv32, io: Io)
    requires Matches(events, io)
    ensures var a := Step(routes, d, events, io);
            WrittenOp(events, io, a) != IntendedOp(a) <==> events != EPOLLIN && io.Failed? && a.Rearm?
  {
  }

  /**
   * With the intended operation every step on a registered connection
   * succeeds: a closed connection is deregistered, a re-armed one stays
   * registered, and no other socket is touched.
   */
  lemma IntendedOpKeepsRegistration(registered: set<Socket>, routes: Routes, d: ConnData, events: bv32, io: Io)
    requires d.Valid() && Matches(events, io) && d.fd in registered
    ensures var a := Step(routes, d, events, io);
            Control(registered, IntendedOp(a), d.fd) == Success(if a.Close? then registered - {d.fd} else registered)
  {
    StepKeepsValid(routes, d, events, io);
  }

  /** The bytes one send puts on the wire: no more than were pending. */
  function Chunk(d: ConnData, n: nat): string
    requires d.Valid()
  {
    d.buffer[d.cursor..d.cursor + (if n < d.length then n else d.length)]
  }

  /**
   * A run of sends on a writing connection, stopping once it goes back to
   * reading or is closed: the bytes sent, in order, and the last action.
   */
  function Sends(d: ConnData, ns: seq<nat>): (r: (string, Action))
    requires d.Valid() && ns != []
    ensures r.1.Rearm? ==> r.1.conn.Valid() && r.1.fd == d.fd
    decreases |ns|
  {
    var chunk := Chunk(d, ns[0]);
    var a := WriteStep(d, Sent(ns[0]));
    if |ns| == 1 || a.events != EPOLLOUT then (chunk, a)
    else
      var (rest, last) := Sends(a.conn, ns[1..]);
      (chunk + rest, last)
  }

  /**
   * What a run of sends promises: the connection is re-armed; when it is
   * back to reading everything pending was sent, otherwise what was sent
   * followed by what is still pending is what was pending at the start.
   */
  predicate Delivered(d: ConnData, r: (string, Action))
    requires d.Valid()
    requires r.1.Rearm? ==> r.1.conn.Valid()
  {
    r.1.Rearm? &&
    (r.1.events == EPOLLIN ==> r.0 == d.Pending() && r.1.conn == Reader(d.fd)) &&
    (r.1.events == EPOLLOUT ==> r.0 + r.1.conn.Pending() == d.Pending())
  }

  /** Sends deliver the pending bytes in order. */
  lemma {:induction false} SendsDeliver(d: ConnData, ns: seq<nat>)
    requires d.Valid() && ns != []
    ensures Delivered(d, Sends(d, ns))
    decreases |ns|
  {
    var a := WriteStep(d, Sent(ns[0]));
    var chunk := Chunk(d, ns[0]);
    if ns[0] < d.length {
      ShortSend(d, ns[0]);
      if |ns| > 1 {
        SendsDeliver(a.conn, ns[1..]);
        var r := Sends(a.conn, ns[1..]);
        assert Sends(d, ns) == (chunk + r.0, r.1);
        DeliveredAfterChunk(d, ns[0], r);
      }
    } else {
      assert chunk == d.Pending();
    }
  }

  /** A short send followed by a delivering run delivers from the start. */
  lemma DeliveredAfterChunk(d: ConnData, n: nat, r: (string, Action))
    requires d.Valid() && n < d.length
    requires r.1.Rearm? ==> r.1.conn.Valid()
    requires Delivered(WriteStep(d, Sent(n)).conn, r)
    ensures Delivered(d, (Chunk(d, n) + r.0, r.1))
  {
    ShortSend(d, n);
    if r.1.events == EPOLLOUT {
      assert Chunk(d, n) + r.0 + r.1.conn.Pending() == Chunk(d, n) + (r.0 + r.1.conn.Pending());
    }
  }

  /** A short send splits what is pending into the chunk sent and what is still pending. */
  lemma ShortSend(d: ConnData, n: nat)
    requires d.Valid() && n < d.length
    ensures WriteStep(d, Sent(n)).events == EPOLLOUT
    ensures d.Pending() == Chunk(d, n) + WriteStep(d, Sent(n)).conn.Pending()
  {
    var e := d.(cursor := d.cursor + n, length := d.length - n);
    assert d.Pending() == d.buffer[d.cursor..d.cursor + n] + e.Pending();
  }

  /** Sends whose counts add up to the pending length always finish the reply. */
  lemma {:induction false} SendsFinish(d: ConnData, ns: seq<nat>)
    requires d.Valid() && ns != [] && Sum(ns) >= d.length
    ensures Sends(d, ns).1 == Rearm(d.fd, EPOLLIN, Reader(d.fd))
    decreases |ns|
  {
    if |ns| > 1 && ns[0] < d.length {
      SendsFinish(WriteStep(d, Sent(ns[0])).conn, ns[1..]);
    }
  }

  function Sum(ns: seq<nat>): nat
  {
    if ns == [] then 0 else ns[0] + Sum(ns[1..])
  }

  // ---- event classification ----

  datatype Disposition = Drop | Handle

  /** HUP or ERR closes; exactly EPOLLIN or exactly EPOLLOUT is handled; anything else closes. */
  function Classify(mask: bv32): (r: Disposition)
    ensures mask & (EPOLLHUP | EPOLLERR) != 0 ==> r == Drop
    ensures mask == EPOLLIN || mask == EPOLLOUT ==> r == Handle
    ensures r == Handle ==> mask == EPOLLIN || mask == EPOLLOUT
  {
    if mask & EPOLLHUP != 0 || mask & EPOLLERR != 0 then Drop
    else if mask == EPOLLIN || mask == EPOLLOUT then Handle
    else Drop
  }

  // ---- the round-robin in Listen ----

  /** The accepted connections among the accept outcomes, in order. */
  function AcceptedSockets(outcomes: seq<Socket>): (r: seq<Socket>)
    ensures |r| <= |outcomes|
    ensures forall i :: 0 <= i < |r| ==> r[i] != InvalidSocket
  {
    if outcomes == [] then []
    else
      var init := AcceptedSockets(outcomes[..|outcomes| - 1]);
      if outcomes[|outcomes| - 1] == InvalidSocket then init else init + [outcomes[|outcomes| - 1]]
  }

  /** One more accept outcome adds its socket to the accepted ones unless the accept failed. */
  lemma AcceptedStep(outcomes: seq<Socket>, i: nat)
    requires i < |outcomes|
    ensures AcceptedSockets(outcomes[..i + 1]) ==
            AcceptedSockets(outcomes[..i]) + (if outcomes[i] == InvalidSocket then [] else [outcomes[i]])
  {
    assert outcomes[..i + 1][..i] == outcomes[..i];
  }

  /** The EventData class: one connection's socket, buffer and send cursor. */
  class EventData {
    var fd: Socket
    var length: nat
    var cursor: nat
    var buffer: string

    /** EventData(): socket 0, nothing buffered. */
    constructor ()
      ensures Value() == Reader(0)
    {
      fd := 0;
      length := 0;
      cursor := 0;
      buffer := [];
    }

    function Value(): ConnData
      reads this
    {
      ConnData(fd, length, cursor, buffer)
    }
  }

  /** What HandleEpollEvent did with the connection. */
  datatype Rearmed = Closed(fd: Socket) | Armed(fd: Socket, events: bv32, data: EventData)

  /** A ready event as epoll_wait reports it: the mask and the registered EventData. */
  datatype Ready = Ready(mask: bv32, data: EventData)

  /** The outcome of handling a batch of events matches the value-level step, event by event. */
  ghost predicate Agrees(routes: Routes, mask: bv32, d: ConnData, io: Io, out: Rearmed)
    reads if out.Armed? then {out.data} else {}
  {
    match Classify(mask)
    case Drop => out == Closed(d.fd)
    case Handle =>
      Matches(mask, io) &&
      match Step(routes, d, mask, io)
      case Close(fd) => out == Closed(fd)
      case Rearm(fd, events, conn) => out.Armed? && out.fd == fd && out.events == events && out.data.Value() == conn
  }

  class HttpServer {
    const host: string
    const port: Port
    var routes: Routes

    /** HttpServer(host, port): no handlers yet (the socket set-up is not modelled). */
    constructor (host: string, port: Port)
      ensures this.host == host && this.port == port && routes == map[]
    {
      this.host := host;
      this.port := port;
      routes := map[];
    }

    method RegisterHttpRequestHandler(path: string, m: Method, callback: Handler)
      modifies this
      ensures routes == Register(old(routes), path, m, callback)
    {
      var uri := new Uris.Uri(path);
      var key := uri.path;
      var inner := if key in routes then routes[key] else map[];
      if m !in inner {
        inner := inner[m := callback];
      }
      routes := routes[key := inner];
    }

    function HandleHttpRequest(request: Request): HandlerResult
      reads this
    {
      Dispatch(routes, request)
    }

    /** Parses the received text and runs the handler, mapping exceptions to error responses. */
    method RespondTo(requestString: string) returns (responseString: string)
      ensures responseString == ReplyText(routes, requestString)
    {
      var response: Response;
      var sendContent := true;
      var parsed := StringToRequest(requestString);
      if parsed.Failure? {
        response := ErrorResponse(parsed.error);
      } else {
        var request := parsed.value.Value();
        sendContent := request.httpMethod != HEAD;
        var result := HandleHttpRequest(request);
        if result.Returned? {
          response := result.response;
        } else {
          response := ErrorResponse(result.exception);
        }
      }
      responseString := RenderResponse(response, sendContent);
      ReplyTextOf(routes, requestString, response, sendContent);
    }

    /** Parses the received text, runs the handler and leaves the serialised reply in rawResponse. */
    method HandleHttpData(rawRequest: EventData, rawResponse: EventData)
      modifies rawResponse
      ensures var text := ReplyText(routes, old(rawRequest.buffer));
              rawResponse.Value() == ConnData(old(rawResponse.fd), |text|, old(rawResponse.cursor), text)
    {
      var responseString := RespondTo(rawRequest.buffer);
      rawResponse.buffer := responseString;
      rawResponse.length := |responseString|;
    }

    /** One read or write event on a connection, given what recv or send returned. */
    method HandleEpollEvent(data: EventData, events: bv32, io: Io) returns (action: Rearmed)
      requires Matches(events, io)
      modifies data
      ensures var a := Step(routes, old(data.Value()), events, io);
              (a.Close? ==> action == Closed(a.fd)) &&
              (a.Rearm? ==> action.Armed? && action.fd == a.fd && action.events == a.events &&
                            action.data.Value() == a.conn)
      ensures action.Armed? ==> action.data == data || fresh(action.data)
    {
      var fd := data.fd;
      if events == EPOLLIN {
        var request := data;
        match io {
          case Received(bytes) =>
            if |bytes| > 0 {
              request.buffer := bytes;
              var response := new EventData();
              response.fd := fd;
              HandleHttpData(request, response);
              action := Armed(fd, EPOLLOUT, response);
            } else {
              action := Closed(fd);
            }
          case Failed(errno) =>
            if errno == EAGAIN || errno == EWOULDBLOCK {
              action := Armed(fd, EPOLLIN, request);
            } else {
              action := Closed(fd);
            }
        }
      } else {
        var response := data;
        match io {
          case Sent(n) =>
            if n < response.length {
              response.cursor := response.cursor + n;
              response.length := response.length - n;
              action := Armed(fd, EPOLLOUT, response);
            } else {
              var request := new EventData();
              request.fd := fd;
              action := Armed(fd, EPOLLIN, request);
            }
          case Failed(errno) =>
            if errno == EAGAIN || errno == EWOULDBLOCK {
              action := Armed(fd, EPOLLOUT, response);
            } else {
              action := Closed(fd);
            }
        }
      }
    }

    /** One ready event: dropped when its mask says so, otherwise handled. */
    method HandleReady(r: Ready, io: Io) returns (action: Rearmed)
      requires Classify(r.mask) == Handle ==> Matches(r.mask, io)
      modifies r.data
      ensures Agrees(routes, r.mask, old(r.data.Value()), io, action)
      ensures action.Armed? ==> action.data == r.data || fresh(action.data)
    {
      if Classify(r.mask) == Drop {
        action := Closed(r.data.fd);
      } else {
        action := HandleEpollEvent(r.data, r.mask, io);
      }
    }

    /** One batch of ready events, with the recv/send outcome for each. */
    method ProcessEvents(ready: seq<Ready>, ios: seq<Io>) returns (actions: seq<Rearmed>)
      requires |ios| == |ready|
      requires forall i, j :: 0 <= i < j < |ready| ==> ready[i].data != ready[j].data
      requires forall i :: 0 <= i < |ready| && Classify(ready[i].mask) == Handle ==> Matches(ready[i].mask, ios[i])
      modifies set i | 0 <= i < |ready| :: ready[i].data
      ensures |actions| == |ready|
      ensures forall i :: 0 <= i < |ready| ==>
                Agrees(routes, ready[i].mask, old(ready[i].data.Value()), ios[i], actions[i])
    {
      actions := [];
      var i := 0;
      while i < |ready|
        invariant i <= |ready| && |actions| == i
        invariant forall j :: i <= j < |ready| ==> ready[j].data.Value() == old(ready[j].data.Value())
        invariant forall j :: 0 <= j < i && actions[j].Armed? ==>
                    actions[j].data == ready[j].data || fresh(actions[j].data)
        invariant forall j :: 0 <= j < i ==>
                    Agrees(routes, ready[j].mask, old(ready[j].data.Value()), ios[j], actions[j])
      {
        var action := HandleReady(ready[i], ios[i]);
        actions := actions + [action];
        i := i + 1;
      }
    }

    /**
     * The accept loop over a finite run of accept outcomes: every
     * accepted socket goes to the current worker, which then advances
     * round-robin; a failed accept leaves the worker where it is.
     */
    method Listen(outcomes: seq<Socket>) returns (handedOut: seq<(Socket, nat)>, currentWorker: nat)
      ensures currentWorker < ThreadPoolSize
      ensures |handedOut| == |AcceptedSockets(outcomes)|
      ensures forall k :: 0 <= k < |handedOut| ==> handedOut[k] == (AcceptedSockets(outcomes)[k], k % ThreadPoolSize)
      ensures currentWorker == |handedOut| % ThreadPoolSize
    {
      handedOut := [];
      currentWorker := 0;
      var active := true;
      var i := 0;
      while i < |outcomes|
        invariant i <= |outcomes|
        invariant currentWorker < ThreadPoolSize
        invariant |handedOut| == |AcceptedSockets(outcomes[..i])|
        invariant forall k :: 0 <= k < |handedOut| ==> handedOut[k] == (AcceptedSockets(outcomes[..i])[k], k % ThreadPoolSize)
        invariant currentWorker == |handedOut| % ThreadPoolSize
      {
        AcceptedStep(outcomes, i);
        var clientFd := outcomes[i];
        i := i + 1;
        if clientFd == InvalidSocket {
          active := false;
          continue;
        }
        active := true;
        handedOut := handedOut + [(clientFd, currentWorker)];
        currentWorker := currentWorker + 1;
        if currentWorker == ThreadPoolSize {
          currentWorker := 0;
        }
      }
      assert outcomes[..i] == outcomes;
    }
  }
}
