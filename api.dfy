/** The request executor of src/api/index.ts (makeApiRequest). The HTTPS transport is an
    input: how the one exchange ended (a response delivered as text chunks, a socket error
    or the socket timeout). JSON.stringify and JSON.parse are inputs too. */
module Api {
  import opened Wrappers
  import opened Utf8
  import opened Types

  const ApiHost := "api.clickup.com"
  const ApiPort := 443
  const DefaultTimeoutMs := 30000
  const MissingKeyMessage := "CLICKUP_API_KEY environment variable not found"

  /** How the promise of one call settles: exactly once, resolved or rejected. */
  datatype Outcome<+T> = Resolved(value: T) | Rejected(error: JsError)

  datatype HeaderValue = Text(text: string) | Number(number: int)

  /** The https.RequestOptions the executor builds. */
  datatype RequestOptions = RequestOptions(
    hostname: string,
    port: int,
    path: string,
    httpMethod: string,
    headers: map<string, HeaderValue>,
    timeout: int)

  /** What goes on the wire: the options and the body written, if any. */
  datatype Request = Request(options: RequestOptions, body: Option<string>)

  /** How the exchange ended, as the transport reports it. */
  datatype Transport =
    | Responded(statusCode: Option<int>, chunks: seq<string>)
    | SocketError(error: JsError)
    | TimedOut

  /** The JSON text sent for `data`: `data ? JSON.stringify(data) : null`, kept only when
      the text is truthy. None stands for every falsy `data`. */
  function BodyText<J>(data: Option<J>, stringify: J -> string): Option<string> {
    if data.Some? && stringify(data.value) != "" then Some(stringify(data.value)) else None
  }

  /** The request the executor sends: fixed host and port, the caller's method, path and
      timeout, the key as Authorization, a JSON content type, and a Content-Length equal
      to the UTF-8 byte count of the body exactly when there is a body. */
  predicate WellFormedRequest(req: Request, apiKey: string, httpMethod: string, path: string, timeout: int) {
    var o := req.options;
    && o.hostname == ApiHost && o.port == ApiPort
    && o.path == path && o.httpMethod == httpMethod && o.timeout == timeout
    && o.headers.Keys == {"Authorization", "Content-Type"} + (if req.body.Some? then {"Content-Length"} else {})
    && o.headers["Authorization"] == Text(apiKey)
    && o.headers["Content-Type"] == Text("application/json")
    && (req.body.Some? ==> o.headers["Content-Length"] == Number(ByteLength(req.body.value)))
  }

  /** Node.js checks the options of https.request before anything is written and throws
      (synchronously, so the promise executor rejects with it): the path must consist of
      U+0021..U+00FF, a non-empty method must be an HTTP token (RFC 9110 section 5.6.2),
      and a header value may hold only tab, U+0020..U+007E and U+0080..U+00FF. */
  predicate PathChar(c: char) {
    '\U{21}' <= c <= '\U{FF}'
  }

  predicate TokenChar(c: char) {
    'a' <= c <= 'z' || 'A' <= c <= 'Z' || '0' <= c <= '9' || c in "!#$%&'*+-.^_`|~"
  }

  predicate HeaderValueChar(c: char) {
    c == '\t' || ' ' <= c <= '~' || '\U{80}' <= c <= '\U{FF}'
  }

  predicate EscapedPath(path: string) {
    forall i :: 0 <= i < |path| ==> PathChar(path[i])
  }

  predicate MethodToken(httpMethod: string) {
    forall i :: 0 <= i < |httpMethod| ==> TokenChar(httpMethod[i])
  }

  predicate ValidHeaderValue(v: string) {
    forall i :: 0 <= i < |v| ==> HeaderValueChar(v[i])
  }

  const UnescapedPath := JsError("TypeError", "Request path contains unescaped characters",
    NodeCode("ERR_UNESCAPED_CHARACTERS"))

  const InvalidAuthorization := JsError("TypeError", "Invalid character in header content [\"Authorization\"]",
    NodeCode("ERR_INVALID_CHAR"))

  function InvalidMethod(httpMethod: string): JsError {
    JsError("TypeError", "Method must be a valid HTTP token [\"" + httpMethod + "\"]", NodeCode("ERR_INVALID_HTTP_TOKEN"))
  }

  /** The error https.request throws for these options, in the order Node checks them:
      the path, then the method, then the headers (Authorization is the only one whose
      value comes from outside). None when the request goes out. */
  function RequestRefusal(apiKey: string, httpMethod: string, path: string): (r: Option<JsError>)
    ensures r.None? <==> EscapedPath(path) && MethodToken(httpMethod) && ValidHeaderValue(apiKey)
  {
    if !EscapedPath(path) then Some(UnescapedPath)
    else if !MethodToken(httpMethod) then Some(InvalidMethod(httpMethod))
    else if !ValidHeaderValue(apiKey) then Some(InvalidAuthorization)
    else None
  }

  /** 2xx, RFC 9110 section 15.3; a missing status is not. */
  predicate IsSuccessStatus(statusCode: Option<int>) {
    statusCode.Some? && 200 <= statusCode.value < 300
  }

  function ParseErrorText(reason: string, raw: string): string {
    "Parse error: " + reason + ". Raw: " + raw
  }

  /** The end-of-response decision. The body is parsed first: a body that does not parse
      is a parse error whatever the status, and its message ends with the raw body. A body
      that parses resolves to the parsed value on a 2xx status, and otherwise becomes a
      ClickUpApiError carrying the raw body and the status (0 when there is none). */
  function Classify<J>(statusCode: Option<int>, raw: string, parsed: Result<J, string>): (r: Outcome<J>)
    ensures r.Resolved? <==> parsed.Ok? && IsSuccessStatus(statusCode)
    ensures r.Resolved? ==> r.value == parsed.value
    ensures parsed.Err? ==> r.Rejected? && r.error.name == "Error" && r.error.kind == Generic
    ensures parsed.Err? ==> |r.error.message| >= |raw| && r.error.message[|r.error.message| - |raw|..] == raw
    ensures parsed.Err? ==> r == Rejected(PlainError(ParseErrorText(parsed.error, raw)))
    ensures parsed.Ok? && !IsSuccessStatus(statusCode) ==>
      r.Rejected? && r.error.name == "ClickUpApiError"
      && r.error.kind == ApiFailure(if statusCode.Some? then statusCode.value else 0, raw)
    ensures parsed.Ok? && !IsSuccessStatus(statusCode) ==>
      r == Rejected(NewClickUpApiError(if statusCode.Some? then statusCode.value else 0, raw))
  {
    match parsed
    case Err(reason) => Rejected(PlainError(ParseErrorText(reason, raw)))
    case Ok(value) =>
      if IsSuccessStatus(statusCode) then Resolved(value)
      else Rejected(NewClickUpApiError(if statusCode.Some? then statusCode.value else 0, raw))
  }

  /** The response text the chunks add up to. */
  function Concat(chunks: seq<string>): string {
    if chunks == [] then "" else Concat(chunks[..|chunks| - 1]) + chunks[|chunks| - 1]
  }

  /** How the promise settles once the request is on the wire. */
  function Settle<J>(transport: Transport, parse: string -> Result<J, string>, timeout: int): Outcome<J> {
    match transport
    case Responded(statusCode, chunks) => Classify(statusCode, Concat(chunks), parse(Concat(chunks)))
    case SocketError(error) => Rejected(error)
    case TimedOut => Rejected(NewClickUpTimeoutError(timeout))
  }

  /** The options and body makeApiRequest writes once the key is known: the JSON text of
      `data` as the body when it is not empty, with its UTF-8 byte count as Content-Length. */
  method BuildRequest<J>(apiKey: string, httpMethod: string, path: string, data: Option<J>,
                         stringify: J -> string, timeout: int)
    returns (req: Request)
    ensures WellFormedRequest(req, apiKey, httpMethod, path, timeout)
    ensures req.body == BodyText(data, stringify)
  {
    var jsonData: Option<string> := if data.Some? then Some(stringify(data.value)) else None;
    var options := RequestOptions(ApiHost, ApiPort, path, httpMethod,
      map["Authorization" := Text(apiKey), "Content-Type" := Text("application/json")], timeout);
    var body: Option<string> := None;
    if jsonData.Some? && jsonData.value != "" {
      options := options.(headers := options.headers["Content-Length" := Number(ByteLength(jsonData.value))]);
      body := jsonData;
    }
    req := Request(options, body);
  }

  /** The `data` handler: the chunks appended in arrival order. */
  method ReadResponse(chunks: seq<string>) returns (responseData: string)
    ensures responseData == Concat(chunks)
    ensures |responseData| == SumLengths(chunks)
  {
    responseData := "";
    for i := 0 to |chunks|
      invariant responseData == Concat(chunks[..i])
    {
      assert chunks[..i + 1][..i] == chunks[..i];
      responseData := responseData + chunks[i];
    }
    assert chunks[..|chunks|] == chunks;
    ConcatLength(chunks);
  }

  function SumLengths(chunks: seq<string>): nat {
    if chunks == [] then 0 else |chunks[0]| + SumLengths(chunks[1..])
  }

  /** The response text is as long as its chunks together. */
  lemma {:induction false} ConcatLength(chunks: seq<string>)
    ensures |Concat(chunks)| == SumLengths(chunks)
  {
    if chunks != [] {
      ConcatLength(chunks[..|chunks| - 1]);
      SumLengthsLast(chunks);
    }
  }

  lemma {:induction false} SumLengthsLast(chunks: seq<string>)
    requires chunks != []
    ensures SumLengths(chunks) == SumLengths(chunks[..|chunks| - 1]) + |chunks[|chunks| - 1]|
  {
    if |chunks| > 1 {
      assert chunks[1..][..|chunks| - 2] == chunks[..|chunks| - 1][1..];
      SumLengthsLast(chunks[1..]);
    }
  }

  /** makeApiRequest(method, path, data, timeout), with the key read from the environment
      passed in as apiKey. Without a key nothing is sent and the call fails with a
      configuration error. With a key that Node refuses, or a path or method it refuses,
      nothing is sent and the call rejects with Node's error. Otherwise exactly one
      well-formed request is sent and the call settles as the transport's report decides. */
  method MakeApiRequest<J>(
    apiKey: Option<string>, httpMethod: string, path: string, data: Option<J>,
    stringify: J -> string, parse: string -> Result<J, string>, transport: Transport,
    timeout: int := DefaultTimeoutMs)
    returns (outcome: Outcome<J>, sent: Option<Request>)
    ensures !Present(apiKey) ==> sent == None && outcome == Rejected(PlainError(MissingKeyMessage))
    ensures Present(apiKey) ==> (sent.Some? <==> RequestRefusal(apiKey.value, httpMethod, path).None?)
    ensures Present(apiKey) && RequestRefusal(apiKey.value, httpMethod, path).Some? ==>
      sent == None && outcome == Rejected(RequestRefusal(apiKey.value, httpMethod, path).value)
    ensures sent.Some? ==> Present(apiKey) && WellFormedRequest(sent.value, apiKey.value, httpMethod, path, timeout)
    ensures sent.Some? ==> sent.value.body == BodyText(data, stringify)
    ensures sent.Some? ==> outcome == Settle(transport, parse, timeout)
    ensures sent.Some? && transport.TimedOut? ==>
      outcome.Rejected? && outcome.error.name == "ClickUpTimeoutError" && outcome.error.kind == Timeout(timeout)
    ensures sent.Some? && transport.SocketError? ==> outcome == Rejected(transport.error)
  {
    if !Present(apiKey) {
      return Rejected(PlainError(MissingKeyMessage)), None;
    }
    var refusal := RequestRefusal(apiKey.value, httpMethod, path);
    if refusal.Some? {
      return Rejected(refusal.value), None;
    }
    var req := BuildRequest(apiKey.value, httpMethod, path, data, stringify, timeout);
    sent := Some(req);

    match transport {
      case Responded(statusCode, chunks) =>
        var responseData := ReadResponse(chunks);
        outcome := Classify(statusCode, responseData, parse(responseData));
      case SocketError(error) =>
        outcome := Rejected(error);
      case TimedOut =>
        outcome := Rejected(NewClickUpTimeoutError(timeout));
    }
  }
}
