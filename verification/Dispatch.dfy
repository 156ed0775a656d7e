/** What a message is answered with (core/mcp/mcp_server_protocol.c). */
module Dispatch {
  import opened Json
  import opened JsonRpc
  import opened Properties
  import opened ToolSchema
  import opened Registry
  import opened Paging

  const MESSAGE_LENGTH: nat := 127 // a 128-byte buffer, NUL included

  /** Formatted into a fixed buffer. */
  function Clipped(text: string): (r: string)
    ensures r <= text && |r| == if |text| < 128 then |text| else 127
  {
    if |text| <= MESSAGE_LENGTH then text else text[..MESSAGE_LENGTH]
  }

  function ReplyResult(id: int32, result: Json): Json {
    Object([Member("jsonrpc", Text("2.0")), Member("id", Number(id as real)), Member("result", result)])
  }

  function ReplyError(id: int32, message: string): Json {
    Object([Member("jsonrpc", Text("2.0")), Member("id", Number(id as real)),
            Member("error", Object([Member("message", Text(message))]))])
  }

  function InitializeResult(serverName: string): Json {
    Object([Member("protocolVersion", Text("2024-11-05")),
            Member("capabilities", Object([Member("tools", Object([]))])),
            Member("serverInfo", Object([Member("name", Text(if serverName == "" then "MCP_SERVER" else serverName)),
                                         Member("version", Text("1.0.0"))]))])
  }

  function ToolsListResult(page: Page): Json {
    Object([Member("tools", Array(seq(|page.tools|, i requires 0 <= i < |page.tools| => ToolJson(page.tools[i]))))] +
           if page.next == "" then [] else [Member("nextCursor", Text(page.next))])
  }

  /** The optional members of tools/list parameters. */
  function CursorParam(params: Option<Json>): string {
    match if params.Some? then GetItem(params.value, "cursor") else None
    case Some(Text(s)) => s
    case _ => ""
  }

  function WithUserTools(params: Option<Json>): bool {
    match if params.Some? then GetItem(params.value, "withUserTools") else None
    case Some(Bool(b)) => b
    case _ => false
  }

  function OutcomeReply(id: int32, outcome: CallOutcome): Json {
    match outcome
    case Returned(content) => ReplyResult(id, content)
    case Rejected(property) => ReplyError(id, Clipped("Invalid argument: " + property))
    case Failed => ReplyError(id, "Tool call failed")
  }

  /** Lookup through the index, as the call path does it. */
  function Resolve(s: State, name: string): Option<Tool> {
    LinearFind(Bucket(s.indexed, NameHash(name)), name)
  }

  function CallReply(s: State, id: int32, name: string, arguments: Option<Json>): Json {
    match Resolve(s, name)
    case None => ReplyError(id, Clipped("Unknown tool: " + name))
    case Some(tool) => OutcomeReply(id, CallWith(tool.properties, tool.callback, arguments))
  }

  function CallAnswer(s: State, id: int32, params: Option<Json>): Json {
    if params.None? then ReplyError(id, "Missing params")
    else match GetItem(params.value, "name")
         case Some(Text(name)) =>
           var arguments := GetItem(params.value, "arguments");
           if arguments.Some? && !arguments.value.Object? then ReplyError(id, "Invalid arguments")
           else CallReply(s, id, name, arguments)
         case _ => ReplyError(id, "Missing tool name")
  }

  /** The answer to a valid request. */
  function Answer(s: State, serverName: string, size: Size, id: int32, methodName: string, params: Option<Json>): Json {
    if methodName == "initialize" then ReplyResult(id, InitializeResult(serverName))
    else if methodName == "tools/list" then
      ReplyResult(id, ToolsListResult(PageAt(Visible(s.tools, WithUserTools(params)), CursorParam(params), size)))
    else if methodName == "tools/call" then CallAnswer(s, id, params)
    else ReplyError(id, Clipped("Method not implemented: " + methodName))
  }

  /** The reply to a message, if it gets one. */
  function ReplyTo(s: State, serverName: string, size: Size, json: Json): Option<Json> {
    match (GetItem(json, "jsonrpc"), GetItem(json, "method"), GetItem(json, "id"))
    case (Some(Text(version)), Some(Text(methodName)), Some(Number(id))) =>
      if version == "2.0" then Some(Answer(s, serverName, size, ValueInt(id), methodName, GetItem(json, "params"))) else None
    case _ => None
  }

  /** What handling a message sends; None stands for text that is not JSON. */
  function Replies(s: State, serverName: string, size: Size, message: Option<Json>): seq<Json> {
    match message
    case None => []
    case Some(json) =>
      match ReplyTo(s, serverName, size, json)
      case Some(reply) => [reply]
      case None => []
  }

  /** A reply as the server builds one: version, id, then a result or an error. */
  predicate Shaped(reply: Json, id: int32) {
    && reply.Object? && |reply.members| == 3
    && reply.members[0] == Member("jsonrpc", Text("2.0")) && reply.members[1] == Member("id", Number(id as real))
    && var body := reply.members[2];
       body.key == "result" || (body.key == "error" && IsErrorBody(body.value))
  }

  predicate IsErrorBody(e: Json) {
    e.Object? && |e.members| == 1 && e.members[0].key == "message" && e.members[0].value.Text?
  }

  lemma CallAnswerShape(s: State, id: int32, params: Option<Json>)
    ensures Shaped(CallAnswer(s, id, params), id)
  {
  }

  lemma AnswerShape(s: State, serverName: string, size: Size, id: int32, methodName: string, params: Option<Json>)
    ensures Shaped(Answer(s, serverName, size, id, methodName, params), id)
  {
    CallAnswerShape(s, id, params);
  }

  /** A peer's exact lookups in a shaped reply. */
  lemma ShapedMembers(reply: Json, id: int32)
    requires Shaped(reply, id)
    ensures GetExact(reply, "jsonrpc") == Some(Text("2.0")) && GetExact(reply, "id") == Some(Number(id as real))
    ensures var body := reply.members[2];
            && GetExact(reply, "result") == (if body.key == "result" then Some(body.value) else None)
            && GetExact(reply, "error") == (if body.key == "error" then Some(body.value) else None)
  {
  }

  /** A message is answered exactly when, its envelope keys spelt exactly, it has
      the version, method and id of a request with a number for its id; and the
      answer has a result or an error but not both (section 5). */
  lemma AnsweredIffEnvelope(s: State, serverName: string, size: Size, json: Json)
    ensures ReplyTo(s, serverName, size, json).Some? <==> NumberedEnvelope(Respelt(json))
    ensures NumberedEnvelope(Respelt(json)) ==>
              var reply := ReplyTo(s, serverName, size, json).value;
              && GetExact(reply, "jsonrpc") == Some(Text("2.0"))
              && (HasMember(reply, "result") <==> !HasMember(reply, "error"))
              && GetExact(reply, "id") == Some(Number(ValueInt(GetExact(Respelt(json), "id").value.v) as real))
  {
    EnvelopeFound(json);
    if NumberedEnvelope(Respelt(json)) {
      var id := ValueInt(GetItem(json, "id").value.v);
      AnswerShape(s, serverName, size, id, GetItem(json, "method").value.s, GetItem(json, "params"));
      ShapedMembers(ReplyTo(s, serverName, size, json).value, id);
    }
  }

  lemma EnvelopeFound(json: Json)
    ensures GetItem(json, "jsonrpc") == GetExact(Respelt(json), "jsonrpc")
    ensures GetItem(json, "method") == GetExact(Respelt(json), "method")
    ensures GetItem(json, "id") == GetExact(Respelt(json), "id")
  {
    assert ENVELOPE_KEYS[0] == "jsonrpc" && ENVELOPE_KEYS[1] == "method" && ENVELOPE_KEYS[2] == "id";
    GetRespelt(json, "jsonrpc");
    GetRespelt(json, "method");
    GetRespelt(json, "id");
  }

  /** The messages answered against the requests of section 4, which are read
      without respelling.  With exactly spelt envelope keys the two are the same
      exactly when, given version, method and id, the id is a number just if the
      parameters are structured. */
  lemma AnsweredAsSpecified(s: State, serverName: string, size: Size, json: Json)
    ensures (ReplyTo(s, serverName, size, json).Some? <==> SpecRequest(json))
       <==> if SpecRequest(json) then NumberedEnvelope(Respelt(json)) else !NumberedEnvelope(Respelt(json))
    ensures ExactEnvelope(json) ==> (ReplyTo(s, serverName, size, json).Some? <==> NumberedEnvelope(json))
    ensures ExactEnvelope(json) ==>
              ((ReplyTo(s, serverName, size, json).Some? <==> SpecRequest(json))
               <==> (Envelope(json) ==> (GetExact(json, "id").value.Number? <==> StructuredParams(json))))
  {
    AnsweredIffEnvelope(s, serverName, size, json);
    if ExactEnvelope(json) {
      RespellingExact(json);
    }
  }

  /** Neither half holds of all messages.  A request with a string for its id gets
      no reply: */
  lemma TextIdUnanswered(s: State, serverName: string, size: Size)
    ensures var json := Object([Member("jsonrpc", Text("2.0")), Member("method", Text("initialize")), Member("id", Text("a"))]);
            SpecRequest(json) && ReplyTo(s, serverName, size, json) == None
  {
    var json := Object([Member("jsonrpc", Text("2.0")), Member("method", Text("initialize")), Member("id", Text("a"))]);
    var ms := json.members;
    assert ms[1..][1..] == [ms[2]] && ms[1..][1..][1..] == [];
    EnvelopeKeysDiffer();
    assert |Fold("jsonrpc")| == 7 && |Fold("method")| == 6 && |Fold("id")| == 2 && |Fold("params")| == 6;
    assert GetItem(json, "id") == Some(Text("a"));
  }

  /** and what is no request, its member names being misspelt, gets one. */
  lemma RespeltAnswered(s: State, serverName: string, size: Size)
    ensures var json := Object([Member("JSONRPC", Text("2.0")), Member("METHOD", Text("initialize")), Member("ID", Number(1.0))]);
            !SpecRequest(json) && ReplyTo(s, serverName, size, json).Some?
  {
    var json := Object([Member("JSONRPC", Text("2.0")), Member("METHOD", Text("initialize")), Member("ID", Number(1.0))]);
    UpperCaseRespelt(json);
    AnsweredIffEnvelope(s, serverName, size, json);
  }

  /** The reply carries the request's own id exactly when that is an integer a C
      int can hold; any other number comes back changed. */
  lemma IdEchoed(s: State, serverName: string, size: Size, json: Json)
    requires NumberedEnvelope(Respelt(json))
    ensures ReplyTo(s, serverName, size, json).Some?
    ensures GetExact(ReplyTo(s, serverName, size, json).value, "id") == GetExact(Respelt(json), "id")
       <==> var id := GetExact(Respelt(json), "id").value.v; Integral(id) && INT_MIN as real <= id <= INT_MAX as real
  {
    AnsweredIffEnvelope(s, serverName, size, json);
    ValueIntExact(GetExact(Respelt(json), "id").value.v);
  }

  /** The calls that reach a callback. */
  predicate CallGoesThrough(s: State, params: Json) {
    match GetItem(params, "name")
    case Some(Text(name)) =>
      var arguments := GetItem(params, "arguments");
      && (arguments.Some? ==> arguments.value.Object?)
      && var t := Resolve(s, name);
         t.Some? && t.value.callback.Some? && Accepts(t.value.properties, arguments)
    case _ => false
  }

  /** The requests that get a result. */
  predicate GetsResult(s: State, methodName: string, params: Option<Json>) {
    methodName == "initialize" || methodName == "tools/list"
    || (methodName == "tools/call" && params.Some? && CallGoesThrough(s, params.value))
  }

  lemma CallGetsResult(s: State, id: int32, params: Json)
    ensures CallAnswer(s, id, Some(params)).members[2].key == "result" <==> CallGoesThrough(s, params)
  {
  }

  lemma ConformsIffResult(reply: Json, id: int32)
    requires Shaped(reply, id)
    ensures HasMember(reply, "result") <==> reply.members[2].key == "result"
    ensures ConformingResponse(reply) <==> reply.members[2].key == "result"
  {
    ShapedMembers(reply, id);
    var body := reply.members[2];
    if body.key == "error" {
      assert body.value.members[1..] == [];
    }
  }

  /** Error replies never have the "code" section 5.1 requires, so the requests
      answered as it asks are exactly those that get a result: initialize,
      tools/list, and calls of an indexed tool with a callback whose arguments pass. */
  lemma ErrorsLackCode(s: State, serverName: string, size: Size, json: Json)
    requires NumberedEnvelope(Respelt(json))
    ensures ReplyTo(s, serverName, size, json).Some?
    ensures var reply := ReplyTo(s, serverName, size, json).value;
            var methodName := GetExact(Respelt(json), "method").value.s;
            && (HasMember(reply, "result") <==> GetsResult(s, methodName, GetItem(json, "params")))
            && (ConformingResponse(reply) <==> GetsResult(s, methodName, GetItem(json, "params")))
  {
    EnvelopeFound(json);
    var id := ValueInt(GetItem(json, "id").value.v);
    var params := GetItem(json, "params");
    AnswerShape(s, serverName, size, id, GetItem(json, "method").value.s, params);
    ConformsIffResult(ReplyTo(s, serverName, size, json).value, id);
    if params.Some? {
      CallGetsResult(s, id, params.value);
    }
  }

  /** Listed and callable: a listed tool is what a call by its name reaches exactly
      when its index insertion succeeded. */
  lemma CallableIffIndexed(s: State, t: Tool)
    requires Invariant(s) && t in s.tools
    ensures Resolve(s, t.name) == Some(t) <==> t in s.indexed
  {
    BucketFind(s.indexed, t.name);
    if t in s.indexed {
      var i :| 0 <= i < |s.indexed| && s.indexed[i] == t;
      var found := LinearFind(s.indexed, t.name);
      var j :| 0 <= j < |s.indexed| && s.indexed[j] == found.value;
      assert s.indexed[i].name == s.indexed[j].name;
    }
  }

  /** Otherwise it is unknown, or another listed tool of that name answers in its place. */
  lemma UnindexedAnswers(s: State, t: Tool, id: int32, arguments: Option<Json>)
    requires Invariant(s) && t in s.tools && t !in s.indexed
    ensures (forall u <- s.indexed :: u.name != t.name) <==> Resolve(s, t.name) == None
    ensures match Resolve(s, t.name)
            case None => CallReply(s, id, t.name, arguments) == ReplyError(id, Clipped("Unknown tool: " + t.name))
            case Some(u) => u != t && u in s.tools && u.name == t.name
                            && CallReply(s, id, t.name, arguments) == OutcomeReply(id, CallWith(u.properties, u.callback, arguments))
  {
    BucketFind(s.indexed, t.name);
    SubsequenceMembers(s.indexed, s.tools);
  }

  /** In any registry that registrations lead to: a tool on a tools/list page,
      whatever the cursor and flag, is reached by calls under its listed name
      exactly when it is indexed, so always while every insertion succeeds. */
  lemma ListedIsCallable(rs: seq<Registration>, size: Size, withUserTools: bool, cursor: string, t: Tool)
    requires var s := RegisterAll(State([], [], 0), rs); t in PageAt(Visible(s.tools, withUserTools), cursor, size).tools
    ensures var s := RegisterAll(State([], [], 0), rs);
            && (Resolve(s, t.name) == Some(t) <==> t in s.indexed)
            && ((forall r <- rs :: r.indexOk) ==> Resolve(s, t.name) == Some(t))
  {
    var s := RegisterAll(State([], [], 0), rs);
    RunKeepsInvariant(State([], [], 0), rs);
    assert t in Visible(s.tools, withUserTools);
    CallableIffIndexed(s, t);
    if forall r <- rs :: r.indexOk {
      AllIndexed(State([], [], 0), rs);
    }
  }
}
