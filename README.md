# image-caption: the HTTP server core and the caption data path, in Dafny

This project models two parts of the image-caption repository and proves
properties about them.

The first part is the C++ HTTP server in `backend/cc_server`:

- the `Uri` routing key, stored lowercased;
- the message classes, with their header mapping (a `std::map`, so its
  fields are ordered by key) and the `Content-Length` bookkeeping;
- the request and response serialisers and the request parser
  `string_to_request`;
- the route table and dispatch, and the mapping from exceptions to 400,
  505 and 500 responses;
- the per-connection read/write state machine driven by what `recv` and
  `send` return;
- the classification of ready events, and the round-robin hand-out of
  accepted sockets to the five workers.

The second part is the Python caption pipeline in `backend/AI_module`:

- `encode_caption` and the flat-index arithmetic of the data loader;
- the word-frequency `Counter`, the list of kept words, and the word map
  that numbers them.

Where the C++ mutates objects, the model uses classes with `modifies`
clauses:

- `Uris.Uri`;
- `HttpMessage.HttpMessage`, `HttpRequest` and `HttpResponse`;
- `HttpServer.EventData` and `HttpServer.HttpServer`.

Where the source loops, the model has a `while` loop with invariants:

- lowercasing a path;
- emitting header lines;
- the header-line loop of the parser;
- the event batch;
- the accept loop;
- the frequency count.

Each such method is proved against a specification function. The
properties are then proved about those functions. The main ones:

- parsing the serialised form of a request gives the request back;
- every request the parser rejects is answered 400 or 505;
- a run of sends delivers the reply in order;
- the word map is a bijection onto `0 .. n+3`, and every encoded
  caption uses ids below the vocabulary size.

Modules, one per file:

| module | file | contents |
|---|---|---|
| `Wrappers` | wrappers.dfy | `Option`, `Result` |
| `Ascii` | ascii.dfy | `tolower`, `toupper`, `isspace` in the C locale |
| `Strings` | strings.dfy | `std::string` order, `find`, `std::to_string` |
| `Uris` | uri.dfy | the `Uri` class |
| `HttpTypes` | http_types.dfy | enumerations, `to_string`, `string_to_method`, `string_to_version`, the exception kinds |
| `Headers` | headers.dfy | the header map as a key-sorted association list |
| `HttpMessage` | http_message.dfy | message values and classes |
| `HttpCodec` | http_codec.dfy | serialisers and parser |
| `HttpRoundTrip` | http_roundtrip.dfy | the parse-after-render theorem |
| `HttpParsing` | http_parsing.dfy | what the parser does with any input: layout, exceptions per token, repeated keys |
| `HttpServer` | http_server.dfy | routing, one exchange, connections, epoll registration, the worker and accept loops |
| `CaptionData` | caption.dfy | `encode_caption`, index mapping |
| `Vocabulary` | vocabulary.dfy | `Counter`, kept words, word map |

## Modelling decisions

- **C++ exceptions** become `Result` values carrying an `Exception`. Its
  kind is one of:
  - `InvalidArgument`, which is also a `logic_error`;
  - `OtherLogicError`;
  - `OtherException`.

  The `catch` clauses of `HandleHttpData` test these kinds in the
  source's order.
- **Handlers** are total functions from a `Request` to `HandlerResult`:
  either a returned response or a thrown exception.
- **`HttpRequest` and `HttpResponse`** each own an `HttpMessage` (the
  `message` field) instead of inheriting from it.
- **Characters stand for bytes.** Strings are `seq<char>`, while the
  C++ strings hold bytes. `IsSpace`, `ToLower`, `ToUpper` and the
  `Content-Length` count agree with the source only when each `char` is
  read as one byte (a value below 256); the model does not encode or
  decode text.
- **The operating system is an input.** The result of each `recv` or
  `send` call is given as an input value `Io`. So is the sequence of
  `accept` results. `errno` is part of `Io`.
- **Constants** follow the source: `EPOLLIN` = 0x001, `EPOLLOUT` = 0x004,
  `EPOLLERR` = 0x008, `EPOLLHUP` = 0x010. `EAGAIN` = 11 and
  `EWOULDBLOCK` = 140 are the values of the Microsoft C runtime.
  `INVALID_SOCKET` is 2^64-1. The worker pool has 5 threads.
  `max_len` = 40, `captions_per_image` = 5 and `min_word_freq` = 3
  (`backend/AI_module/config.py`).
- **The epoll instance** is the set of sockets registered with it.
  `epoll_ctl` refuses to add a socket that is already there, and refuses
  to modify or remove one that is not.
- **Python**:
  - `Counter` keeps insertion order, and `keys()` lists keys in that
    order.
  - `[x] * n` is empty for `n <= 0`.
  - `i // 5` and `i % 5` on a non-negative index are Dafny's `/` and `%`.
  - A `KeyError` becomes a `Failure` that names the key. The keys are
    tried in the order Python evaluates the expression. `<unk>` is looked
    up only when the caption has a token.

## Where the code departs from its documented behaviour (the model follows the code)

- An unknown version token such as `HTTP/3.0` makes `string_to_version`
  throw `invalid_argument`. The server answers 400 (`HttpParsing.VersionThreeZeroRequest`,
  `HttpServer.VersionReplies`). Only a recognised version other than
  1.1 gives the `logic_error` that is answered 505 (`HttpParsing.VersionUnsupported`).
- Header lines have every whitespace character deleted, not trimmed at
  the ends (`HttpCodec.RemoveSpace`, `HttpCodec.RemoveSpaceAppend`).
- Registering a handler for a path and method that already have one
  keeps the first handler: `map::insert` does not overwrite
  (`HttpServer.RegisterFirstWins`).
- `ClearContent` ignores its argument.
- The header block and the body are found only when `"\r\n\r\n"` occurs
  after the CRLF that ends the start line. Otherwise there are no
  headers and no body (`HttpParsing.ParseRequestLayout`).
- A header line without `':'` is stored with the previous line's value.
  The second `getline` reads from a stream already at its end and
  leaves `value` unchanged (`HttpCodec.FieldState`).
- The check `!iss.good() && !iss.eof()` after reading the start line can
  never fire. A missing token stays empty and is then rejected by
  `string_to_method` or `string_to_version`.

## Model

| member | source | states |
|---|---|---|
| Ascii.Lowercase | backend/cc_server/uri.h:35-39 | same length; every character is `tolower` of the input character |
| Ascii.Uppercase | backend/cc_server/http_message.h:138-142 | same length; every character is `toupper` of the input character |
| Ascii.EqualIgnoringCaseAt | backend/cc_server/uri.h:35-39 | the recursive definition of case-insensitive equality is the pointwise one |
| Ascii.LowercaseIdempotent | backend/cc_server/uri.h:35-39 | lowercasing twice is lowercasing once |
| Ascii.LowercaseHasNoUpper | backend/cc_server/uri.h:35-39 | a lowercased path holds no upper-case letter |
| Ascii.LowercaseOfLower | backend/cc_server/uri.h:35-39 | a string without upper-case letters is unchanged by lowercasing |
| Ascii.LowercaseEqualIff | backend/cc_server/uri.h:11-21 | two paths lowercase to the same key exactly when they are equal ignoring ASCII case |
| Ascii.UppercaseEqualIff | backend/cc_server/http_message.h:137-185 | two tokens uppercase to the same string exactly when they are equal ignoring ASCII case |
| Strings.StrLessIrreflexive | backend/cc_server/uri.h:16-18 | no path is below itself in `std::string` order |
| Strings.StrLessTransitive | backend/cc_server/uri.h:16-18 | `std::string` order is transitive |
| Strings.StrLessTrichotomy | backend/cc_server/uri.h:16-21 | exactly one of a < b, a == b, b < a holds |
| Strings.Find | backend/cc_server/http_message.h:326-333 | `find(pat, from)` gives the first occurrence at or after `from`, or none at all |
| Strings.FindFirst | backend/cc_server/http_message.h:326-333 | an occurrence with none before it is the one `find` returns |
| Strings.FindChar | backend/cc_server/http_message.h:361-364 | the delimiter `getline` stops at: the first occurrence of the character, or none |
| Strings.FindCharFirst | backend/cc_server/http_message.h:361-364 | a character with none before it is the one found |
| Strings.NatToString | backend/cc_server/http_message.h:202 | `std::to_string`: a non-empty string of decimal digits |
| Strings.DecimalRoundTrip | backend/cc_server/http_message.h:202 | reading the decimal rendering back gives the number |
| Strings.NatToStringInjective | backend/cc_server/http_message.h:202 | different lengths give different `Content-Length` strings |
| Uris.Uri.Empty | backend/cc_server/uri.h:10 | the default `Uri` has the empty path |
| Uris.Uri.constructor | backend/cc_server/uri.h:11-13 | stores the lowercased path |
| Uris.Uri.SetPath | backend/cc_server/uri.h:23-26 | replaces the path with its lowercased form |
| Uris.Uri.SetPathToLowercase | backend/cc_server/uri.h:35-39 | the in-place transform leaves `Lowercase` of the old path |
| Uris.UriEqualsIff | backend/cc_server/uri.h:11-21 | two constructed `Uri`s are equal exactly when their paths agree ignoring case |
| Uris.UriOrder | backend/cc_server/uri.h:16-21 | `operator<` is a strict total order whose incomparable pairs are exactly the `operator==` pairs |
| Uris.SameKeyExample | backend/cc_server/uri.h:11-13 | `/Foo` and `/foo` give the same key |
| HttpTypes.Code | backend/cc_server/http_message.h:34-62 | each status enumerator's numeric value, between 100 and 505 |
| HttpTypes.CodeInjective | backend/cc_server/http_message.h:34-62 | distinct status codes have distinct numbers |
| HttpTypes.ReasonPhrase | backend/cc_server/http_message.h:104-135 | the reason phrase is non-empty exactly for the 13 codes the switch lists |
| HttpTypes.StringToMethod | backend/cc_server/http_message.h:137-165 | on success the method's name is the uppercased token; otherwise `invalid_argument("Unexpected HTTP method")` |
| HttpTypes.StringToVersion | backend/cc_server/http_message.h:167-185 | on success the version's token is the uppercased input, or the input is `HTTP/2`; otherwise `invalid_argument("Unexpected HTTP version")` |
| HttpTypes.MethodNameIsUpper | backend/cc_server/http_message.h:64-87 | the canonical method names are already upper case |
| HttpTypes.VersionNameIsUpper | backend/cc_server/http_message.h:89-102 | the canonical version tokens are already upper case |
| HttpTypes.MethodRoundTrip | backend/cc_server/http_message.h:64-87 | decoding `to_string(method)` gives the method back |
| HttpTypes.VersionRoundTrip | backend/cc_server/http_message.h:89-102 | decoding `to_string(version)` gives the version back |
| HttpTypes.MethodDecodeIgnoresCase | backend/cc_server/http_message.h:137-165 | tokens equal ignoring case decode the same way |
| HttpTypes.VersionDecodeIgnoresCase | backend/cc_server/http_message.h:167-185 | tokens equal ignoring case decode the same way |
| HttpTypes.MethodDecodeIff | backend/cc_server/http_message.h:137-165 | a token is accepted exactly when it is some method's name ignoring case |
| HttpTypes.VersionTwoAlias | backend/cc_server/http_message.h:180 | `HTTP/2` is accepted as 2.0 |
| HttpTypes.VersionThreeRejected | backend/cc_server/http_message.h:182-184 | `HTTP/3.0` is rejected with `invalid_argument` |
| HttpTypes.EmptyTokensRejected | backend/cc_server/http_message.h:162-164 | an empty token is neither a method nor a version |
| Headers.AsMapKeys | backend/cc_server/http_message.h:234 | the keys of the list are exactly the keys of the mapping |
| Headers.BelowFirstAbsent | backend/cc_server/http_message.h:234 | a key below the least key is absent |
| Headers.HeadKeyUnique | backend/cc_server/http_message.h:234 | the least key occurs once |
| Headers.Lookup | backend/cc_server/http_message.h:214-218 | the value stored under the key, or none when it is absent |
| Headers.Insert | backend/cc_server/http_message.h:192-194 | `headers_[key] = value`: the list stays sorted, the mapping becomes `old[key := value]`, and no other field appears |
| Headers.Erase | backend/cc_server/http_message.h:196-198 | `erase(key)`: the list stays sorted, the mapping becomes `old - {key}`, and every remaining field was there before |
| Headers.InsertAbove | backend/cc_server/http_message.h:192-194 | a key above every key is appended, so fields are kept in key order |
| Headers.InsertPresent | backend/cc_server/http_message.h:192-194 | re-setting a binding that is already there changes nothing |
| Headers.InsertOthersUnchanged | backend/cc_server/http_message.h:192-194 | after setting, the key reads back its value and every other key is unchanged |
| Headers.EraseOthersUnchanged | backend/cc_server/http_message.h:196-198 | after erasing, the key is absent and every other key is unchanged |
| HttpMessage.HeaderValue | backend/cc_server/http_message.h:214-218 | `header(key)`: the stored value, or `""` when the key is absent |
| HttpMessage.SyncedHeaders | backend/cc_server/http_message.h:200-203 | after `SetContent(c)` the `Content-Length` value is the decimal length of `c`, reads back as that number, and no other header changes |
| HttpMessage.ResponseWithBody | backend/cc_server/http_server.h:316-324 | `HttpResponse(status)` then `SetContent(body)`: 1.1, that body, and one header, the body's `Content-Length` |
| HttpMessage.HttpMessage.constructor | backend/cc_server/http_message.h:189 | a new message is HTTP/1.1, with no headers and no body |
| HttpMessage.HttpMessage.SetHeader | backend/cc_server/http_message.h:192-194 | the key maps to the value; the rest of the message is unchanged |
| HttpMessage.HttpMessage.RemoveHeader | backend/cc_server/http_message.h:196-198 | the key is gone; the rest of the message is unchanged |
| HttpMessage.HttpMessage.SetContent | backend/cc_server/http_message.h:200-203 | installs the body and sets `Content-Length` to its decimal length |
| HttpMessage.HttpMessage.ClearContent | backend/cc_server/http_message.h:205-208 | empties the body and sets `Content-Length` to `"0"`, whatever the argument |
| HttpMessage.HttpRequest.constructor | backend/cc_server/http_message.h:240 | GET, empty path, HTTP/1.1, no headers, empty body |
| HttpMessage.HttpRequest.SetMethod | backend/cc_server/http_message.h:243-245 | sets the method only |
| HttpMessage.HttpRequest.SetUri | backend/cc_server/http_message.h:247-249 | copies the `Uri`'s lowercased path only |
| HttpMessage.HttpResponse.Default | backend/cc_server/http_message.h:269 | `HttpResponse()` is 200 with nothing else |
| HttpMessage.HttpResponse.constructor | backend/cc_server/http_message.h:270 | `HttpResponse(status)` has that status, no headers (not even `Content-Length`) and no body |
| HttpMessage.HttpResponse.SetStatusCode | backend/cc_server/http_message.h:273-275 | sets the status |
| HttpMessage.SetContentReadBack | backend/cc_server/http_message.h:200-218 | after `SetContent(c)`, `header("Content-Length")` is the decimal length of `c` and the other headers read as before; after clearing it is `"0"` |
| HttpMessage.ContentLengthExample | backend/cc_server/http_message.h:200-208 | setting `pong` gives `Content-Length` `"4"`; clearing gives `"0"` |
| HttpCodec.AppendFields | backend/cc_server/http_message.h:294-295 | the header loop emits exactly one `key: value` CRLF line per field, in key order |
| HttpCodec.RenderFieldsAppend | backend/cc_server/http_message.h:294-295 | the header lines of a concatenation are the lines of each part |
| HttpCodec.RequestToString | backend/cc_server/http_message.h:288-300 | the `ostringstream` serialisation equals `RenderRequest` of the request's value |
| HttpCodec.ResponseToString | backend/cc_server/http_message.h:302-315 | the serialisation equals `RenderResponse`, with the body only when `send_content` holds |
| HttpCodec.ResponseWithoutBody | backend/cc_server/http_message.h:312-313 | leaving the body out drops exactly the trailing body bytes |
| HttpCodec.SkipSpaceSkips | backend/cc_server/http_message.h:348 | `>>` skips a whitespace-only prefix and stops at a non-space or the end |
| HttpCodec.TakeWordTakes | backend/cc_server/http_message.h:348 | `>>` reads a whitespace-free prefix that ends at whitespace or the end |
| HttpCodec.ExtractWordSplits | backend/cc_server/http_message.h:348 | one extraction gives a whitespace-free slice of the input, and the rest is a suffix |
| HttpCodec.Lines | backend/cc_server/http_message.h:361 | no line `getline` yields contains a line feed |
| HttpCodec.GetLine | backend/cc_server/http_message.h:361 | one `getline` consumes a line and its line feed: the lines of the rest are the lines of the input after the first |
| HttpCodec.RemoveSpace | backend/cc_server/http_message.h:367-368 | no whitespace is left; an input without whitespace comes back unchanged; a one-character input is kept exactly when it is not whitespace |
| HttpCodec.RemoveSpaceAppend | backend/cc_server/http_message.h:367-368 | deleting whitespace from a concatenation deletes it from each part in turn, so with `RemoveSpace`'s one-character case the result is the non-whitespace characters of the input, in order |
| HttpCodec.ParseHeaderLine | backend/cc_server/http_message.h:362-370 | one header line is split at the first `':'` (reusing the previous value when there is none), has its whitespace removed, and is set; version and body are unchanged |
| HttpCodec.ParseHeaderLines | backend/cc_server/http_message.h:358-371 | the header loop leaves the headers `ParseFieldLines` gives for the lines of the block |
| HttpCodec.CutRequest | backend/cc_server/http_message.h:324-343 | the two `find` calls cut out the start line, the header block and the body as `SplitRequest` says; with no CRLF there is no request |
| HttpCodec.ParseStartLine | backend/cc_server/http_message.h:345-356 | on the three `>>` tokens: an unknown method gives `invalid_argument("Unexpected HTTP method")`; a known method with an unknown version gives `invalid_argument("Unexpected HTTP version")`; a known version other than 1.1 gives the `logic_error`; it succeeds exactly when the method is known and the version is 1.1, with that method and the lowercased path |
| HttpCodec.CheckStartLine | backend/cc_server/http_message.h:352-356 | the method's exception comes first, then the version's, then "HTTP version not supported" for any version but 1.1; success exactly for a known method and 1.1, giving the method and the lowercased path |
| HttpCodec.ReadStartLine | backend/cc_server/http_message.h:352-356 | stores the method and the lowercased path, or reports the exception `CheckStartLine` gives |
| HttpCodec.BuildRequest | backend/cc_server/http_message.h:358-373 | the built request is 1.1, with sorted headers and a `Content-Length` equal to the body's length |
| HttpCodec.ParseRequest | backend/cc_server/http_message.h:317-375 | a parsed request is 1.1, has a lowercase path and a synchronised `Content-Length`; a failure is `invalid_argument` or the version `logic_error`; no CRLF gives "Could not find request start line" |
| HttpParsing.ParseRequestLayout | backend/cc_server/http_message.h:326-375 | for any input whose first CRLF is at `rpos`: the request fails exactly as its start line does, else it has the start line's method and path; its body is everything after the first `"\r\n\r\n"` at or after `rpos + 2` and its fields are those of the lines between, with `Content-Length` synchronised; with no such blank line the body is empty and `Content-Length: 0` is the only field |
| HttpParsing.NoHeaderLines | backend/cc_server/http_message.h:326-343 | a start line followed by an empty line parses to that method and path, HTTP/1.1, only `Content-Length: 0` and an empty body |
| HttpParsing.ParseFieldLinesSnoc | backend/cc_server/http_message.h:361-371 | the header lines are applied first to last: one more line is one more `SetHeader` on the result so far |
| HttpParsing.LastLineWins | backend/cc_server/http_message.h:361-371 | after any earlier lines, a last line `key:value` leaves `key` (whitespace deleted) bound to `value` (whitespace deleted) |
| HttpParsing.RepeatedKeyKeepsLast | backend/cc_server/http_message.h:361-371 | a block setting the same key twice keeps the second value |
| HttpParsing.StartLineOfRequest | backend/cc_server/http_message.h:326-356 | a request whose first line is three tokens fails exactly when those tokens fail the start-line checks, with the same exception |
| HttpParsing.MethodTokenRejected | backend/cc_server/http_message.h:347-352 | an unknown method token makes the request fail with `invalid_argument("Unexpected HTTP method")`, whatever the version |
| HttpParsing.VersionTokenRejected | backend/cc_server/http_message.h:352-356 | a known method and an unknown version token make it fail with `invalid_argument("Unexpected HTTP version")` |
| HttpParsing.VersionUnsupported | backend/cc_server/http_message.h:353-356 | a known method and a known version other than 1.1 make it fail with the `logic_error` "HTTP version not supported" |
| HttpParsing.VersionOneZeroRequest | backend/cc_server/http_message.h:353-356 | `GET / HTTP/1.0` followed by a CRLF fails with the version `logic_error` |
| HttpParsing.VersionThreeZeroRequest | backend/cc_server/http_message.h:352-356 | `GET / HTTP/3.0` followed by a CRLF fails with `invalid_argument("Unexpected HTTP version")` |
| HttpCodec.PartsToRequest | backend/cc_server/http_message.h:345-374 | fills a fresh request from the start line, the header lines and the body, exactly as `ParseParts` specifies |
| HttpCodec.StringToRequest | backend/cc_server/http_message.h:317-375 | returns a fresh request whose value is `ParseRequest(s)`, or exactly its exception |
| HttpRoundTrip.StartLineParses | backend/cc_server/http_message.h:288-293 | the rendered start line holds no CR, and parsing it gives back the method and the path |
| HttpRoundTrip.SplitRendered | backend/cc_server/http_message.h:288-300 | a rendered request is cut into its start line, its header block and its body |
| HttpRoundTrip.ValueCleaned | backend/cc_server/http_message.h:367-368 | removing whitespace from `" value"` and a trailing CR leaves the value |
| HttpRoundTrip.FieldLineParses | backend/cc_server/http_message.h:294-295 | one rendered field line parses back to that field, appended in key order |
| HttpRoundTrip.BlockParses | backend/cc_server/http_message.h:294-295 | the rendered header block parses back to the headers |
| HttpRoundTrip.RequestRoundTrip | backend/cc_server/http_message.h:288-300 | `string_to_request(to_string(r)) == r` for every request the parser can produce whose fields carry no whitespace, and whose keys carry no `':'` |
| HttpServer.Register | backend/cc_server/http_server.h:118-121 | adds the lowercased path and the method, keeps every existing handler, and installs the new one only when the method was free |
| HttpServer.RegisteredHandlerAnswers | backend/cc_server/http_server.h:118-121 | a newly registered handler answers every request for the same path in any case |
| HttpServer.RegisterFirstWins | backend/cc_server/http_server.h:120 | registering the same path (in any case) and method again changes no dispatch |
| HttpServer.DispatchOutcomes | backend/cc_server/http_server.h:345-358 | 404 for an unknown path, 405 for an unregistered method, otherwise the handler's result |
| HttpServer.UnregisteredMethodRefused | backend/cc_server/http_server.h:351-355 | an unregistered method on a known path gives a bare 405 |
| HttpServer.ErrorResponse | backend/cc_server/http_server.h:316-325 | `invalid_argument` gives 400 "Bad Request."; another `logic_error` gives 505; any other exception gives 500 |
| HttpServer.ParseFailureReply | backend/cc_server/http_server.h:313-328 | a request the parser rejects is answered 400 or 505, never 500, with its body; 400 exactly for `invalid_argument` |
| HttpServer.VersionReplies | backend/cc_server/http_server.h:313-328 | an HTTP/1.0 request is answered 505 and an HTTP/3.0 request 400, each with its body |
| HttpServer.HeadOmitsBody | backend/cc_server/http_server.h:328 | for a HEAD request the reply is the full rendering without the body |
| HttpServer.HandledReply | backend/cc_server/http_server.h:313-328 | for any other parsed request the handler's response is sent whole |
| HttpServer.Writer | backend/cc_server/http_server.h:329-331 | the response `EventData` holds exactly the reply as its pending bytes |
| HttpServer.StepKeepsValid | backend/cc_server/http_server.h:245-306 | every step keeps the socket and keeps cursor + length within the buffer |
| HttpServer.ReadThenWrite | backend/cc_server/http_server.h:252-259 | a non-empty `recv` arms the socket for writing the whole reply from cursor 0 |
| HttpServer.PartialSend | backend/cc_server/http_server.h:282-286 | a short `send` moves the cursor on by the count sent, keeps cursor + length, and splits what is pending |
| HttpServer.ShortSend | backend/cc_server/http_server.h:282-286 | a short `send` keeps writing, and what was pending is the chunk sent followed by what is still pending |
| HttpServer.Sends | backend/cc_server/http_server.h:280-293 | a run of sends keeps the connection valid and on its socket |
| HttpServer.SendsDeliver | backend/cc_server/http_server.h:280-293 | sends deliver the pending bytes in order: a connection back to reading has sent them all, otherwise what was sent followed by what is pending is what was pending |
| HttpServer.DeliveredAfterChunk | backend/cc_server/http_server.h:282-286 | a short send followed by a run that delivers also delivers from the start |
| HttpServer.SendsFinish | backend/cc_server/http_server.h:287-293 | sends whose counts add up to the pending length finish and re-arm for reading with a fresh `EventData` |
| HttpServer.Control | backend/cc_server/http_server.h:360-373 | `control_epoll_event` succeeds exactly when the add/modify/remove fits the registration; a failure is a `runtime_error` |
| HttpServer.SendRetryThrows | backend/cc_server/http_server.h:295-297 | as written, the retry after EAGAIN re-adds a registered socket and throws |
| HttpServer.WrittenOpOtherwiseIntended | backend/cc_server/http_server.h:245-306 | the written operation differs from the intended one exactly on the send-retry path |
| HttpServer.IntendedOpKeepsRegistration | backend/cc_server/http_server.h:245-306 | with `EPOLL_CTL_MOD` for the retry, every step on a registered socket succeeds; it deregisters exactly the closed connections |
| HttpServer.Classify | backend/cc_server/http_server.h:227-240 | HUP or ERR closes; exactly `EPOLLIN` or exactly `EPOLLOUT` is handled; any other mask closes |
| HttpServer.AcceptedSockets | backend/cc_server/http_server.h:187-191 | the accepted sockets are the successful accepts, in order |
| HttpServer.AcceptedStep | backend/cc_server/http_server.h:187-198 | one more accept adds its socket unless it failed |
| HttpServer.EventData.constructor | backend/cc_server/http_server.h:26 | socket 0, nothing buffered |
| HttpServer.HttpServer.constructor | backend/cc_server/http_server.h:50-56 | the host and port given, and no handlers |
| HttpServer.HttpServer.RegisterHttpRequestHandler | backend/cc_server/http_server.h:118-121 | the route table becomes `Register(old, path, method, callback)` |
| HttpServer.HttpServer.RespondTo | backend/cc_server/http_server.h:308-328 | the response string is `ReplyText` of the received text |
| HttpServer.HttpServer.HandleHttpData | backend/cc_server/http_server.h:308-331 | the response `EventData` holds the serialised reply and its length; its socket and cursor are unchanged |
| HttpServer.HttpServer.HandleEpollEvent | backend/cc_server/http_server.h:245-306 | the connection is closed or re-armed exactly as `Step` says, and a re-armed `EventData` has `Step`'s state |
| HttpServer.HttpServer.HandleReady | backend/cc_server/http_server.h:227-240 | a dropped event closes the connection; otherwise it is handled as `Step` says |
| HttpServer.HttpServer.ProcessEvents | backend/cc_server/http_server.h:223-241 | each ready event of a batch is dropped or handled as `Step` says, one result per event |
| HttpServer.HttpServer.Listen | backend/cc_server/http_server.h:172-203 | the k-th accepted socket goes to worker k mod 5; failed accepts are skipped, and the current worker ends at the count mod 5 |
| CaptionData.TokenIds | backend/AI_module/data_generator.py:12 | one id per token: its own id, or the id of `<unk>` |
| CaptionData.Repeat | backend/AI_module/data_generator.py:14 | `[x] * n` has `max(n, 0)` copies of `x` |
| CaptionData.EncodeCaption | backend/AI_module/data_generator.py:10-14 | succeeds exactly when `<start>`, `<end>`, `<pad>` (and `<unk>` for a non-empty caption) are keys; otherwise it names a missing one |
| CaptionData.EncodedLayout | backend/AI_module/data_generator.py:10-14 | the length is 42 for a caption of at most 40 tokens, otherwise the caption's length + 2; then `<start>`, the token ids, `<end>`, and `<pad>` up to the end |
| CaptionData.LeadingNonPad | backend/AI_module/data_generator.py:78 | the number of elements before the first pad |
| CaptionData.LeadingNonPadAt | backend/AI_module/data_generator.py:78 | that number is the position of the first pad |
| CaptionData.CaplenIsUnpaddedLength | backend/AI_module/data_generator.py:76-78 | when `<pad>`'s id is unique, the reported `caplen` (caption length + 2) is where the padding starts |
| CaptionData.IndexMapping | backend/AI_module/data_generator.py:51-72 | index i < 5N selects sample i // 5 < N and caption i % 5 < 5, with i = 5 * sample + caption |
| CaptionData.IndexMappingOnto | backend/AI_module/data_generator.py:51-72 | every (sample, caption) pair is selected by some index |
| CaptionData.IndexMappingInjective | backend/AI_module/data_generator.py:51-72 | different indices select different pairs |
| Vocabulary.FirstIndex | backend/AI_module/pre_process.py:63 | the position of the first occurrence |
| Vocabulary.FirstIndexAt | backend/AI_module/pre_process.py:63 | a position holding w with no w before it is the first occurrence |
| Vocabulary.UpdateAppend | backend/AI_module/pre_process.py:57 | updating a `Counter` with a concatenation is updating with each part in turn |
| Vocabulary.CountStep | backend/AI_module/pre_process.py:55-57 | one `update` of the loop extends the tally by one caption |
| Vocabulary.CountWords | backend/AI_module/pre_process.py:52-57 | the nested loop leaves the `Counter` of all tokens of all captions, in order |
| Vocabulary.TallyCounts | backend/AI_module/pre_process.py:52-57 | the `Counter`'s keys are exactly the tokens seen, each counted by its number of occurrences |
| Vocabulary.TallyKeysDistinct | backend/AI_module/pre_process.py:52-57 | `keys()` lists the tokens seen, each once |
| Vocabulary.TallyOrder | backend/AI_module/pre_process.py:52-57 | `keys()` lists tokens in the order they were first seen |
| Vocabulary.TallyKeys | backend/AI_module/pre_process.py:52-57 | every listed key has a count |
| Vocabulary.Kept | backend/AI_module/pre_process.py:63 | a word is kept exactly when it is listed and its count exceeds 3; no word is kept twice |
| Vocabulary.WordsIff | backend/AI_module/pre_process.py:63 | the words are exactly the tokens occurring more than 3 times, each once |
| Vocabulary.WordsInFirstSeenOrder | backend/AI_module/pre_process.py:63 | the words come in the order they were first seen |
| Vocabulary.KeptSubsequence | backend/AI_module/pre_process.py:63 | filtering keeps first-seen order |
| Vocabulary.Numbered | backend/AI_module/pre_process.py:64 | the keys of `{k: index + 1}` are the words |
| Vocabulary.NumberedIds | backend/AI_module/pre_process.py:64 | distinct words are numbered by their 1-based position, one key per word |
| Vocabulary.NumberWords | backend/AI_module/pre_process.py:64-68 | the four assignments build `WithSpecials(Numbered(words))` |
| Vocabulary.CreateWordMap | backend/AI_module/pre_process.py:52-68 | the kept words are `Words` of all tokens, and the map built from them is `WithSpecials(Numbered(words))` |
| Vocabulary.WithSpecialsFresh | backend/AI_module/pre_process.py:65-68 | `<unk>`, `<start>`, `<end>` get n+1, n+2, n+3 (each `len + 1` after the previous one) and `<pad>` gets 0; the word ids are kept |
| Vocabulary.NumberedNoSpecial | backend/AI_module/pre_process.py:64 | numbering non-special words adds no special key |
| Vocabulary.WordMapIds | backend/AI_module/pre_process.py:64-68 | words get 1..n in order, the special tokens n+1, n+2, n+3 and 0, and the map has n + 4 keys |
| Vocabulary.WordMapBijective | backend/AI_module/pre_process.py:64-68 | distinct keys get distinct ids, and the ids are exactly 0..n+3 |
| Vocabulary.IdOf | backend/AI_module/pre_process.py:64-68 | each key's id: a word's position + 1, or a special token's fixed id |
| Vocabulary.IdsBijective | backend/AI_module/pre_process.py:64-68 | a map laid out that way is a bijection onto 0..n+3 |
| Vocabulary.WordMapEncodes | backend/AI_module/data_generator.py:10-14 | with this word map `encode_caption` never raises `KeyError`, every id is below `len(word_map)`, and without a literal `<pad>` token the padding starts at `caplen` |
| Vocabulary.KeysOfWordMap | backend/AI_module/pre_process.py:63-68 | the non-special keys are exactly the tokens occurring more than 3 times |
| Vocabulary.CreatedWordMap | backend/AI_module/pre_process.py:52-68 | the saved map has one key per kept word plus four, and a non-special token is a key exactly when it occurs more than 3 times |

## Findings

| source | as written | input that shows it | evidently intended | confidence | as-written member | corrected member |
|---|---|---|---|---|---|---|
| backend/cc_server/http_server.h:295-297 | a `send` that fails with EAGAIN or EWOULDBLOCK is retried with `EPOLL_CTL_ADD` on the socket, which is still registered with the worker's epoll instance | a writing connection whose `send` returns -1 with `errno` 11 (EAGAIN): `epoll_ctl` refuses the duplicate add, and `control_epoll_event` throws `runtime_error("Failed to add file descriptor")`, which nothing in the worker catches | `EPOLL_CTL_MOD` with `EPOLLOUT`, as the read path's retry at line 269 does, so the connection stays registered and is retried | medium, not executed | HttpServer.SendRetryThrows | HttpServer.IntendedOpKeepsRegistration |

The rest of the model uses the corrected behaviour.
`HttpServer.HttpServer.HandleEpollEvent` re-arms a send that failed with
EAGAIN as the same connection with `EPOLLOUT`, that is, with
`IntendedOp`. `HttpServer.WrittenOpOtherwiseIntended` shows that this is
the only step where the two definitions differ.

## Left out

- Sockets, Winsock set-up, `bind`/`listen`/`accept` themselves, `epoll_wait`, threads, `Start`/`Stop`, the random sleeps between idle polls, and `ConvertToLPCWSTR`. These are operating-system calls. Their outcomes are inputs: `Io` for `recv`/`send`, a sequence of accept results for `Listen`, and the ready events for `ProcessEvents`.
- HttpServer.HttpServer.Listen: models a finite run of the `while (running_)` loop and the worker choice. It does not model the `EPOLL_CTL_ADD` registration or the allocation of the `EventData`.
- HttpServer.HttpServer.ProcessEvents: models one batch of `epoll_wait` results. It does not model the outer `while (running_)` loop, the idle sleep, or `delete data`.
- HttpServer.HttpServer.HandleHttpData: the fixed `char buffer[0x7fffffff]` is a string, so neither the NUL truncation nor the 0x7fffffff cap is modelled. On the request side, the request string is built from the buffer as a C string (http_server.h:309), so it stops at the first NUL byte received, while the model parses every received character. On the reply side, `strlen`/`memcpy` (http_server.h:329-331) would copy a reply containing a NUL byte short while its full length is recorded.
- The `errno` check after a failed `recv` or `send` is modelled on the given value. Winsock reports these failures through `WSAGetLastError`, which is outside this model.
- The console logging of POST requests in `HandleHttpData` (output only), and the `std::cout` in `Start`.
- `string_to_response` always throws "Method not implemented" and is not called by the core. `backend/cc_server/image_handler.h` and `backend/cc_server/main.cc` (the application's handlers and start-up) are not part of this model.
- `jieba.cut` word segmentation: captions enter the model already segmented into tokens.
- JSON reading and writing, `tqdm`, `print`, image loading and resizing, and the tensor conversions in `__getitem__` (I/O and numeric libraries).
- Vocabulary.WordMapIds, Vocabulary.WordMapBijective, Vocabulary.WordMapEncodes and Vocabulary.CreatedWordMap require that no kept word is literally `<unk>`, `<start>`, `<end>` or `<pad>`. Such a word would have its id overwritten by the special-token assignments, breaking the numbering.
- CaptionData.CaplenIsUnpaddedLength is stated for captions without a literal `<pad>` token. For any other caption the padding can start earlier than `caplen`.
- HttpRoundTrip.RequestRoundTrip is stated for requests whose path is non-empty and whose header keys and values contain no whitespace, and whose keys contain no `':'`. The parser deletes or splits at those characters, so other requests cannot survive a round trip.
