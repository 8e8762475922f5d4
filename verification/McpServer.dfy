/** The MCP server loop (`run_mcp_server` in `src/agent.rs`): it reads framed messages, answers the
    ones that want an answer, and writes framed replies. JSON text and the tools are uninterpreted. */
module McpServer {
  import opened Prelude
  import opened HttpText
  import opened McpFraming
  import Utf8

  /** The null value, or a value whose text is not looked into. */
  datatype Json = Null | Value(text: bytes)

  /** A request object with its members, None for a member that is missing. */
  datatype Request = Request(
    jsonrpcMember: Option<string>, idMember: Option<Json>, methodMember: Option<string>, paramsMember: Option<Json>,
    tool: Option<string>, args: Option<Json>)

  /** The fields of the source, with its defaults. */
  function Version(request: Request): string { OrElse(request.jsonrpcMember, "2.0") }

  function Name(request: Request): string { OrElse(request.methodMember, "") }

  function Params(request: Request): Json { OrElse(request.paramsMember, Null) }

  /** The optional id of the source: a null member reads like a missing one. */
  function IdField(request: Request): Option<Json> {
    if request.idMember == Some(Null) then None else request.idMember
  }

  /** The id an answer carries. */
  function AnswerId(request: Request): Json { OrElse(IdField(request), Null) }

  datatype Parsed = Valid(request: Request) | Malformed(message: string)

  datatype Call = Call(name: string, arguments: Json)

  datatype ToolResult = Returned(value: Json) | Threw(message: string)

  datatype Outcome =
    | McpTools | Tools | ToolValue(value: Json) | ToolContent(result: ToolResult, isError: bool)
    | Prompts | Resources | ResourceTemplates | ServerInfo | Empty
    | Error(code: int, message: string)

  datatype Response = Response(jsonrpc: string, id: Json, outcome: Outcome)

  /** The surroundings of the server. A tool's result may depend on every call so far, the last of
      which is its own. */
  datatype Host = Host(
    parse: bytes -> Parsed,
    field: (Json, string) -> Option<Json>,
    asString: Json -> Option<string>,
    emptyObject: Json,
    isId: Json -> bool,
    isStructured: Json -> bool,
    call: seq<Call> -> ToolResult,
    render: Response -> bytes)

  const NOTIFICATION: string := "notifications/"

  predicate Blank(body: bytes) { Trim(body) == [] }

  // ------------------------------------------------------------------ one request

  function Or<T>(first: Option<T>, second: Option<T>): Option<T> {
    if first.Some? then first else second
  }

  function OrElse<T>(first: Option<T>, default: T): T {
    if first.Some? then first.value else default
  }

  /** The tool call of `tools/call`: its name and arguments, with the defaults of the source. */
  function McpCall(host: Host, params: Json): Call {
    var name := host.field(params, "name");
    Call(OrElse(if name.Some? then host.asString(name.value) else None, ""),
         OrElse(host.field(params, "arguments"), host.emptyObject))
  }

  /** The tool call of `call`, which also knows `tool` and `args`. */
  function PlainCall(host: Host, params: Json): Call {
    var name := Or(host.field(params, "name"), host.field(params, "tool"));
    Call(OrElse(if name.Some? then host.asString(name.value) else None, ""),
         OrElse(Or(host.field(params, "arguments"), host.field(params, "args")), host.emptyObject))
  }

  /** The tool call that the dispatch makes for a request: by its tool field, else by its method. */
  function DispatchCall(host: Host, request: Request): Option<Call> {
    if request.tool.Some? then Some(Call(request.tool.value, OrElse(request.args, host.emptyObject)))
    else if Name(request) == "tools/call" || Name(request) == "call" then Some(PlainCall(host, Params(request)))
    else None
  }

  /** The tool call that the server makes: it handles the two MCP methods before the dispatch. */
  function CallOf(host: Host, request: Request): Option<Call> {
    if Name(request) == "tools/list" then None
    else if Name(request) == "tools/call" then Some(McpCall(host, Params(request)))
    else DispatchCall(host, request)
  }

  function Listed(name: string): Outcome {
    match name
    case "tools/list" => Tools
    case "list" => Tools
    case "prompts/list" => Prompts
    case "resources/list" => Resources
    case "resources/templates/list" => ResourceTemplates
    case "initialize" => ServerInfo
    case "ping" => Empty
    case "" => Error(-32600, "missing method")
    case other => Error(-32601, "unknown method: " + other)
  }

  function CallOutcome(mcp: bool, result: ToolResult): Outcome {
    if mcp then ToolContent(result, result.Threw?)
    else if result.Threw? then Error(-32000, result.message)
    else ToolValue(result.value)
  }

  /** The answer to a request that makes this call, and the calls made so far. */
  function CallAnswer(host: Host, calls: seq<Call>, request: Request, call: Call, mcp: bool): (Response, seq<Call>) {
    (Response(Version(request), AnswerId(request), CallOutcome(mcp, host.call(calls + [call]))), calls + [call])
  }

  function Dispatch(host: Host, calls: seq<Call>, request: Request): (Response, seq<Call>) {
    match DispatchCall(host, request)
    case Some(call) => CallAnswer(host, calls, request, call, false)
    case None => (Response(Version(request), AnswerId(request), Listed(Name(request))), calls)
  }

  function Answer(host: Host, calls: seq<Call>, request: Request): (Response, seq<Call>) {
    if Name(request) == "tools/list" then (Response(Version(request), AnswerId(request), McpTools), calls)
    else if Name(request) == "tools/call" then CallAnswer(host, calls, request, McpCall(host, Params(request)), true)
    else Dispatch(host, calls, request)
  }

  // ------------------------------------------------------------------ the replies to a stream

  predicate Notifies(request: Request) { NOTIFICATION <= Name(request) }

  /** Whether a message is answered: it is neither blank nor a notification. */
  predicate WantsReply(host: Host, body: bytes) {
    !Blank(body) && (host.parse(body).Valid? ==> !Notifies(host.parse(body).request))
  }

  function ReplyTo(host: Host, calls: seq<Call>, body: bytes): (Response, seq<Call>)
    requires WantsReply(host, body)
  {
    match host.parse(body)
    case Malformed(message) => (Response("2.0", Null, Error(-32700, message)), calls)
    case Valid(request) => Answer(host, calls, request)
  }

  /** The replies to a list of messages, and the calls made in the end. */
  function Serve(host: Host, calls: seq<Call>, bodies: seq<bytes>): (seq<Response>, seq<Call>)
    decreases |bodies|
  {
    if bodies == [] then ([], calls)
    else if !WantsReply(host, bodies[0]) then Serve(host, calls, bodies[1..])
    else
      var (reply, now) := ReplyTo(host, calls, bodies[0]);
      var (more, end) := Serve(host, now, bodies[1..]);
      ([reply] + more, end)
  }

  function Rendered(host: Host, replies: seq<Response>): (r: seq<bytes>)
    ensures |r| == |replies| && forall k | 0 <= k < |r| :: r[k] == host.render(replies[k])
  {
    seq(|replies|, k requires 0 <= k < |replies| => host.render(replies[k]))
  }

  /** The frames of the replies to a list of messages. */
  function Output(host: Host, bodies: seq<bytes>): bytes { Frames(Rendered(host, Serve(host, [], bodies).0)) }

  // ------------------------------------------------------------------ the loop

  method CallTool(host: Host, calls: seq<Call>, call: Call) returns (result: ToolResult, now: seq<Call>)
    ensures now == calls + [call] && result == host.call(now)
  {
    now := calls + [call];
    result := host.call(now);
  }

  /** `dispatch_jsonrpc`. The server does not pass it the two MCP methods, the line-based session does. */
  method DispatchJsonRpc(host: Host, calls: seq<Call>, request: Request) returns (response: Response, now: seq<Call>)
    ensures (response, now) == Dispatch(host, calls, request)
  {
    var id := AnswerId(request);
    now := calls;
    var result: ToolResult;
    if request.tool.Some? {
      result, now := CallTool(host, calls, Call(request.tool.value, OrElse(request.args, host.emptyObject)));
      response := if result.Returned? then Response(Version(request), id, ToolValue(result.value))
                  else Response(Version(request), id, Error(-32000, result.message));
    } else if Name(request) == "tools/call" || Name(request) == "call" {
      result, now := CallTool(host, calls, PlainCall(host, Params(request)));
      response := if result.Returned? then Response(Version(request), id, ToolValue(result.value))
                  else Response(Version(request), id, Error(-32000, result.message));
    } else {
      response := Response(Version(request), id, Listed(Name(request)));
    }
  }

  /** One message of the loop: None where the source goes on with the next message. */
  method HandleMessage(host: Host, calls: seq<Call>, body: bytes) returns (reply: Option<Response>, now: seq<Call>)
    ensures reply.Some? <==> WantsReply(host, body)
    ensures if reply.Some? then (reply.value, now) == ReplyTo(host, calls, body) else now == calls
  {
    now := calls;
    if Blank(body) { return None, now; }
    var parsed := host.parse(body);
    if parsed.Malformed? {
      return Some(Response("2.0", Null, Error(-32700, parsed.message))), now;
    }
    var request := parsed.request;
    if Name(request) == "notifications/initialized" || NOTIFICATION <= Name(request) { return None, now; }
    if Name(request) == "tools/list" {
      return Some(Response(Version(request), AnswerId(request), McpTools)), now;
    }
    var response: Response;
    if Name(request) == "tools/call" {
      var result;
      result, now := CallTool(host, calls, McpCall(host, Params(request)));
      response := Response(Version(request), AnswerId(request), ToolContent(result, result.Threw?));
    } else {
      response, now := DispatchJsonRpc(host, calls, request);
    }
    reply := Some(response);
  }

  /** The part of the loop after a message has been read; it is message `k` of `all`. */
  method AnswerMessage(host: Host, room: Option<nat>, ghost all: seq<bytes>, ghost k: nat,
                       calls: seq<Call>, output: bytes, body: bytes)
    returns (longer: bytes, now: seq<Call>, ok: bool)
    requires k < |all| && body == all[k]
    requires calls == Serve(host, [], all[..k]).1 && output == Output(host, all[..k]) && HasRoom(room, output)
    ensures now == Serve(host, [], all[..k + 1]).1
    ensures ok ==> longer == Output(host, all[..k + 1]) && HasRoom(room, longer)
    ensures !ok ==> longer == Written(room, Output(host, all)) && !HasRoom(room, Output(host, all))
  {
    OutputGrows(host, all[..k], body);
    assert all[..k + 1] == all[..k] + [body];
    var reply;
    reply, now := HandleMessage(host, calls, body);
    longer, ok := output, true;
    if reply.Some? {
      longer, ok := WriteMcpMessage(output, room, host.render(reply.value));
      if !ok { NoRoomLater(host, room, all, k + 1); }
    }
  }

  /** What the server has written in the end, and its error. */
  function RunOutcome(host: Host, room: Option<nat>, all: seq<bytes>, end: Option<McpError>)
    : (bytes, Option<McpError>)
  {
    (Written(room, Output(host, all)), if HasRoom(room, Output(host, all)) then end else Some(WriteFailed))
  }

  /** The server writes, in order, a frame for each reply to the messages of its input. If the output
      has room for them it ends as reading ends; otherwise it fails after the bytes there is room for. */
  method RunMcpServer(host: Host, input: Input, room: Option<nat>) returns (output: bytes, error: Option<McpError>)
    requires input.Valid()
    modifies input`pos
    ensures input.Valid()
    ensures var (messages, end) := Messages(old(input.Rest()), input.broken);
      (output, error) == RunOutcome(host, room, messages, end)
    ensures var (messages, end) := Messages(old(input.Rest()), input.broken);
      var wanted := Frames(Rendered(host, Serve(host, [], messages).0));
      if room.None? || |wanted| <= room.value then output == wanted && error == end
      else output == wanted[..room.value] && error == Some(WriteFailed)
  {
    ghost var (all, end) := Messages(input.Rest(), input.broken);
    output, error := ServeAll(host, input, room, all, end);
  }

  /** The state of the loop when `k` of the messages have been served. */
  ghost predicate Serving(host: Host, input: Input, room: Option<nat>, all: seq<bytes>, end: Option<McpError>,
                          k: nat, calls: seq<Call>, output: bytes)
    reads input
  {
    && input.Valid() && k <= |all| && Messages(input.Rest(), input.broken) == (all[k..], end)
    && calls == Serve(host, [], all[..k]).1 && output == Output(host, all[..k]) && HasRoom(room, output)
  }

  /** One round of the loop. */
  method ServeNext(host: Host, input: Input, room: Option<nat>, ghost all: seq<bytes>, ghost end: Option<McpError>,
                   ghost k: nat, calls: seq<Call>, output: bytes)
    returns (more: bool, longer: bytes, now: seq<Call>, error: Option<McpError>)
    requires Serving(host, input, room, all, end, k, calls, output)
    modifies input`pos
    ensures input.Valid()
    ensures more ==> k < |all| && Serving(host, input, room, all, end, k + 1, now, longer)
    ensures !more ==> (longer, error) == RunOutcome(host, room, all, end)
  {
    longer, now, error := output, calls, None;
    var message := NextMessage(input, all, k, end);
    if !message.Message? {
      return false, output, calls, if message.Failed? then Some(message.error) else None;
    }
    longer, now, more := AnswerMessage(host, room, all, k, calls, output, message.body);
    error := if more then None else Some(WriteFailed);
  }

  method ServeAll(host: Host, input: Input, room: Option<nat>, ghost all: seq<bytes>, ghost end: Option<McpError>)
    returns (output: bytes, error: Option<McpError>)
    requires input.Valid() && Messages(input.Rest(), input.broken) == (all, end)
    modifies input`pos
    ensures input.Valid() && (output, error) == RunOutcome(host, room, all, end)
  {
    ghost var k := 0;
    output, error := [], None;
    var calls: seq<Call> := [];
    var more := true;
    while more
      invariant input.Valid()
      invariant if more then Serving(host, input, room, all, end, k, calls, output)
                else (output, error) == RunOutcome(host, room, all, end)
      decreases more, |all| - k
    {
      more, output, calls, error := ServeNext(host, input, room, all, end, k, calls, output);
      k := k + 1;
    }
  }

  lemma NoRoomLater(host: Host, room: Option<nat>, all: seq<bytes>, k: nat)
    requires k <= |all| && !HasRoom(room, Output(host, all[..k]))
    ensures !HasRoom(room, Output(host, all))
    ensures Written(room, Output(host, all)) == Written(room, Output(host, all[..k]))
  {
    OutputPrefix(host, all, k);
    PrefixWritten(room, Output(host, all[..k]), Output(host, all));
  }

  lemma PrefixWritten(room: Option<nat>, a: bytes, b: bytes)
    requires a <= b && !HasRoom(room, a)
    ensures !HasRoom(room, b) && Written(room, b) == Written(room, a)
  {
  }

  /** The output for the first messages starts the whole output. */
  lemma OutputPrefix(host: Host, all: seq<bytes>, k: nat)
    requires k <= |all|
    ensures Output(host, all[..k]) <= Output(host, all)
  {
    var a, b := all[..k], all[k..];
    assert all == a + b;
    ServeAppend(host, [], a, b);
    var (first, now) := Serve(host, [], a);
    var more := Serve(host, now, b).0;
    assert Rendered(host, first + more) == Rendered(host, first) + Rendered(host, more);
    FramesConcat(Rendered(host, first), Rendered(host, more));
  }

  lemma ServeOne(host: Host, calls: seq<Call>, body: bytes)
    ensures Serve(host, calls, [body]).0 == if WantsReply(host, body) then [ReplyTo(host, calls, body).0] else []
    ensures Serve(host, calls, [body]).1 == if WantsReply(host, body) then ReplyTo(host, calls, body).1 else calls
  {
    assert [body][1..] == [];
  }

  /** What one more message adds to the output. */
  lemma OutputGrows(host: Host, bodies: seq<bytes>, body: bytes)
    ensures var (replies, calls) := Serve(host, [], bodies);
      if WantsReply(host, body) then
        var (reply, now) := ReplyTo(host, calls, body);
        && Output(host, bodies + [body]) == Output(host, bodies) + Frame(host.render(reply))
        && Serve(host, [], bodies + [body]).1 == now
      else Output(host, bodies + [body]) == Output(host, bodies) && Serve(host, [], bodies + [body]).1 == calls
  {
    ServeAppend(host, [], bodies, [body]);
    var (replies, calls) := Serve(host, [], bodies);
    ServeOne(host, calls, body);
    if WantsReply(host, body) {
      var reply := ReplyTo(host, calls, body).0;
      FramesAppend(Rendered(host, replies), host.render(reply));
      assert Rendered(host, replies + [reply]) == Rendered(host, replies) + [host.render(reply)];
    } else {
      assert replies + [] == replies;
    }
  }

  // ------------------------------------------------------------------ what the replies are

  /** The messages that are answered, in order. */
  function Answered(host: Host, bodies: seq<bytes>): (r: seq<bytes>)
    ensures forall b | b in r :: WantsReply(host, b)
  {
    if bodies == [] then []
    else (if WantsReply(host, bodies[0]) then [bodies[0]] else []) + Answered(host, bodies[1..])
  }

  /** The id that the answer to a message must carry. */
  function IdOf(host: Host, body: bytes): Json {
    match host.parse(body)
    case Malformed(_) => Null
    case Valid(request) => AnswerId(request)
  }

  /** The calls that the answered messages ask for, in order. */
  function CallsOf(host: Host, bodies: seq<bytes>): seq<Call> {
    if bodies == [] then []
    else CallsOfOne(host, bodies[0]) + CallsOf(host, bodies[1..])
  }

  function CallsOfOne(host: Host, body: bytes): seq<Call> {
    if !WantsReply(host, body) || host.parse(body).Malformed? then []
    else
      match CallOf(host, host.parse(body).request)
      case None => []
      case Some(call) => [call]
  }

  /** Exactly one reply for each answered message, in order and with its id; the tools are called
      exactly as those messages ask, in order. */
  lemma {:induction false} OneReplyEach(host: Host, calls: seq<Call>, bodies: seq<bytes>)
    ensures var (replies, end) := Serve(host, calls, bodies);
      && |replies| == |Answered(host, bodies)|
      && (forall k | 0 <= k < |replies| :: replies[k].id == IdOf(host, Answered(host, bodies)[k]))
      && end == calls + CallsOf(host, bodies)
    decreases |bodies|
  {
    if bodies != [] {
      var body, more := bodies[0], bodies[1..];
      if WantsReply(host, body) {
        var (reply, now) := ReplyTo(host, calls, body);
        OneReplyEach(host, now, more);
        assert now == calls + CallsOfOne(host, body);
        assert Answered(host, bodies) == [body] + Answered(host, more);
      } else {
        OneReplyEach(host, calls, more);
        assert Answered(host, bodies) == Answered(host, more);
      }
    }
  }

  /** The replies to a stream never depend on what comes later. */
  lemma {:induction false} ServeAppend(host: Host, calls: seq<Call>, a: seq<bytes>, b: seq<bytes>)
    ensures var (first, now) := Serve(host, calls, a);
      && Serve(host, calls, a + b).0 == first + Serve(host, now, b).0
      && Serve(host, calls, a + b).1 == Serve(host, now, b).1
    decreases |a|
  {
    if a == [] {
      assert a + b == b;
    } else {
      assert (a + b)[1..] == a[1..] + b && (a + b)[0] == a[0];
      ServeAppend(host, if WantsReply(host, a[0]) then ReplyTo(host, calls, a[0]).1 else calls, a[1..], b);
    }
  }

  /** The server's output reads back as the rendered replies, so on framed messages the k-th frame
      out carries the reply with the id of the k-th answered message. */
  lemma ServerOutputDecodes(host: Host, bodies: seq<bytes>)
    requires forall b | b in bodies :: IsBody(b)
    requires forall r: Response :: IsBody(host.render(r))
    ensures Messages(Frames(bodies), false) == (bodies, None)
    ensures var replies := Serve(host, [], bodies).0;
      && Messages(Output(host, bodies), false) == (Rendered(host, replies), None)
      && |replies| == |Answered(host, bodies)|
      && forall k | 0 <= k < |replies| :: replies[k].id == IdOf(host, Answered(host, bodies)[k])
  {
    FramesRoundTrip(bodies, false);
    OneReplyEach(host, [], bodies);
    var rendered := Rendered(host, Serve(host, [], bodies).0);
    forall b | b in rendered ensures IsBody(b) {}
    FramesRoundTrip(rendered, false);
  }

  /** A text is answered exactly when it is not all white space and does not parse as a request whose
      method starts with `notifications/`. */
  lemma WantsReplyIff(host: Host, text: seq<Utf8.Scalar>)
    ensures var body := Utf8.EncodeAll(text);
      WantsReply(host, body) <==>
        && (exists c :: c in text && !Utf8.IsWhite(c))
        && (host.parse(body).Malformed? ||
            var name := host.parse(body).request.methodMember;
            name.None? || |name.value| < 14 || name.value[..14] != "notifications/")
  {
    Utf8.TrimIsEmptyIff(text);
    var parsed := host.parse(Utf8.EncodeAll(text));
    if parsed.Valid? && parsed.request.methodMember.Some? {
      PrefixIs(parsed.request.methodMember.value);
    }
  }

  /** Text that does not parse gets the parse error, of version 2.0 and with a null id, and calls no tool. */
  lemma MalformedIsAnswered(host: Host, calls: seq<Call>, body: bytes)
    requires !Blank(body) && host.parse(body).Malformed?
    ensures Serve(host, calls, [body]) ==
      ([Response("2.0", Null, Error(-32700, host.parse(body).message))], calls)
  {
    ServeOne(host, calls, body);
  }

  lemma PrefixIs(name: string)
    ensures NOTIFICATION <= name <==> |name| >= 14 && name[..14] == "notifications/"
  {
    assert |NOTIFICATION| == 14;
  }

  // ------------------------------------------------------------------ the methods

  /** The answer has the version and the id of the request, 2.0 and null without them, and this outcome. */
  predicate IsAnswer(request: Request, answer: Response, outcome: Outcome) {
    && answer.jsonrpc == (if request.jsonrpcMember.Some? then request.jsonrpcMember.value else "2.0")
    && answer.id == (if request.idMember.Some? then request.idMember.value else Null)
    && answer.outcome == outcome
  }

  /** The methods that call no tool, each with its outcome. The MCP list of tools goes before a tool field,
      every other method after it. */
  lemma MethodTable(host: Host, calls: seq<Call>, request: Request)
    requires request.methodMember == Some("tools/list") || request.tool.None?
    ensures var (answer, now) := Answer(host, calls, request);
      match request.methodMember
      case None => IsAnswer(request, answer, Error(-32600, "missing method")) && now == calls
      case Some(name) => name !in {"tools/call", "call"} ==>
        && now == calls
        && (name == "tools/list" ==> IsAnswer(request, answer, McpTools))
        && (name == "list" ==> IsAnswer(request, answer, Tools))
        && (name == "prompts/list" ==> IsAnswer(request, answer, Prompts))
        && (name == "resources/list" ==> IsAnswer(request, answer, Resources))
        && (name == "resources/templates/list" ==> IsAnswer(request, answer, ResourceTemplates))
        && (name == "initialize" ==> IsAnswer(request, answer, ServerInfo))
        && (name == "ping" ==> IsAnswer(request, answer, Empty))
        && (name == "" ==> IsAnswer(request, answer, Error(-32600, "missing method")))
        && (name != "" && !Known(name) ==> IsAnswer(request, answer, Error(-32601, "unknown method: " + name)))
  {
  }

  /** The three ways to call a tool. The MCP method reads `name` and `arguments` and wraps the result as
      content, marked as an error if the tool failed; a tool field names the tool and `args` its
      arguments; the plain method also reads `tool` and `args`. A name that is no string reads as
      the empty one, and missing arguments as an empty object. */
  lemma CallTable(host: Host, calls: seq<Call>, request: Request)
    ensures var (answer, now) := Answer(host, calls, request);
      var params := if request.paramsMember.Some? then request.paramsMember.value else Null;
      if request.methodMember == Some("tools/call") then
        && CallsWith(host, calls, now, host.field(params, "name"), host.field(params, "arguments"))
        && var result := host.call(now); IsAnswer(request, answer, ToolContent(result, result.Threw?))
      else if request.tool.Some? && request.methodMember != Some("tools/list") then
        && now == calls +
             [Call(request.tool.value, if request.args.Some? then request.args.value else host.emptyObject)]
        && IsPlainAnswer(host, now, request, answer)
      else if request.methodMember == Some("call") then
        var name, arguments := host.field(params, "name"), host.field(params, "arguments");
        && CallsWith(host, calls, now, if name.Some? then name else host.field(params, "tool"),
                     if arguments.Some? then arguments else host.field(params, "args"))
        && IsPlainAnswer(host, now, request, answer)
      else now == calls
  {
  }

  /** One more call has been made, with this name and these arguments. */
  predicate CallsWith(host: Host, calls: seq<Call>, now: seq<Call>, name: Option<Json>, arguments: Option<Json>) {
    var text := if name.Some? then host.asString(name.value) else None;
    now == calls + [Call(if text.Some? then text.value else "",
                         if arguments.Some? then arguments.value else host.emptyObject)]
  }

  predicate IsPlainAnswer(host: Host, now: seq<Call>, request: Request, answer: Response) {
    match host.call(now)
    case Returned(value) => IsAnswer(request, answer, ToolValue(value))
    case Threw(message) => IsAnswer(request, answer, Error(-32000, message))
  }

  /** The method names that the server knows. */
  predicate Known(name: string) {
    name in ["tools/list", "tools/call", "list", "call", "prompts/list", "resources/list",
               "resources/templates/list", "initialize", "ping"]
  }

  /** When each error code of JSON-RPC is answered. */
  lemma ErrorCodesIff(host: Host, calls: seq<Call>, body: bytes)
    requires WantsReply(host, body)
    ensures var outcome := ReplyTo(host, calls, body).0.outcome;
      var code := if outcome.Error? then outcome.code else 0;
      && (code == -32700 <==> host.parse(body).Malformed?)
      && (host.parse(body).Valid? ==>
        var request := host.parse(body).request;
        var plain := request.tool.None? || Name(request) in ["tools/list", "tools/call"];
        && (code == -32601 <==> plain && Name(request) != "" && !Known(Name(request)))
        && (code == -32600 <==> plain && Name(request) == "")
        && (code == -32000 <==>
          && CallOf(host, request).Some? && Name(request) != "tools/call"
          && host.call(calls + [CallOf(host, request).value]).Threw?))
  {
  }

  /** Section 4 of JSON-RPC 2.0: the version is exactly 2.0, there is a method, the id is a string, a
      number or null, and the params are an array or an object. */
  predicate IsRequestObject(host: Host, request: Request) {
    && request.jsonrpcMember == Some("2.0") && request.methodMember.Some?
    && (request.idMember.Some? ==> request.idMember.value == Null || host.isId(request.idMember.value))
    && (request.paramsMember.Some? ==> host.isStructured(request.paramsMember.value))
  }

  /** Section 4.1: a request object without an id member is a notification. */
  predicate IsNotification(host: Host, request: Request) { IsRequestObject(host, request) && request.idMember.None? }

  /** Section 5: what the answer to a parsed object, if there is one, must be. A notification gets none;
      any other object gets one of version 2.0, with the id of a request object, or with the error of
      section 5.1 for an object that is none, whose id may be null. */
  predicate Conforms(host: Host, request: Request, reply: Option<Response>) {
    if IsNotification(host, request) then reply.None?
    else
      && reply.Some? && reply.value.jsonrpc == "2.0"
      && if IsRequestObject(host, request) then Some(reply.value.id) == request.idMember
         else
           && reply.value.outcome.Error? && reply.value.outcome.code == -32600
           && (reply.value.id == Null || (Some(reply.value.id) == request.idMember && host.isId(reply.value.id)))
  }

  /** What the server sends for one object. */
  function Reply(host: Host, calls: seq<Call>, request: Request): Option<Response> {
    if Notifies(request) then None else Some(Answer(host, calls, request).0)
  }

  lemma ServeParsed(host: Host, calls: seq<Call>, body: bytes)
    requires !Blank(body) && host.parse(body).Valid?
    ensures var reply := Reply(host, calls, host.parse(body).request);
      Serve(host, calls, [body]).0 == if reply.Some? then [reply.value] else []
  {
    ServeOne(host, calls, body);
  }

  /** The server treats the object as the standard asks. */
  predicate ServerConforms(host: Host, calls: seq<Call>, request: Request) {
    Conforms(host, request, Reply(host, calls, request))
  }

  /** The server answers a request object as the standard asks exactly when its name has the
      notification prefix just in case it has no id member, and any other object exactly when it has no
      method, no tool, no other version, and no id that is none. */
  lemma ConformsIff(host: Host, calls: seq<Call>, request: Request)
    ensures ServerConforms(host, calls, request) <==>
      if IsRequestObject(host, request) then request.idMember.None? <==> Notifies(request)
      else
        && Name(request) == "" && request.tool.None? && Version(request) == "2.0"
        && (request.idMember.Some? ==> request.idMember.value == Null || host.isId(request.idMember.value))
  {
    assert Name(request) == "" ==> !Notifies(request);
  }

  /** One object for each way to differ: a notification that is answered, a request with a null id that
      is not, an object of another version that is not, and one that is answered with a result; and an
      object without a method that is answered as it should be. */
  lemma ConformanceExamples(host: Host, calls: seq<Call>, one: Json)
    requires one != Null && host.isId(one)
    ensures !ServerConforms(host, calls, Request(Some("2.0"), None, Some("ping"), None, None, None))
    ensures !ServerConforms(host, calls, Request(Some("2.0"), Some(Null), Some("notifications/x"), None, None, None))
    ensures !ServerConforms(host, calls, Request(Some("1.0"), None, Some("notifications/x"), None, None, None))
    ensures !ServerConforms(host, calls, Request(Some("1.0"), Some(one), Some("ping"), None, None, None))
    ensures ServerConforms(host, calls, Request(Some("2.0"), None, None, None, None, None))
  {
    assert "ping"[0] != NOTIFICATION[0];
    assert NOTIFICATION <= "notifications/x";
    assert "1.0"[0] != "2.0"[0];
  }

  /** A null id and a missing id get the same answer, with a null id. */
  lemma NullIdReadsAsMissing(host: Host, calls: seq<Call>, request: Request)
    requires request.idMember == Some(Null)
    ensures Answer(host, calls, request) == Answer(host, calls, request.(idMember := None))
    ensures Answer(host, calls, request).0.id == Null
  {
  }
}
