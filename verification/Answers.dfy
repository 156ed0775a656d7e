/** What the server's replies say, read by a peer. */
module Answers {
  import opened Json
  import opened JsonRpc
  import opened Properties
  import opened ToolSchema
  import opened Registry
  import opened Paging
  import opened Dispatch

  /** A message the server answers, with its method and parameters as it finds them. */
  predicate Asks(json: Json, methodName: string, params: Option<Json>) {
    && NumberedEnvelope(Respelt(json)) && GetExact(Respelt(json), "method") == Some(Text(methodName))
    && params == GetItem(json, "params")
  }

  lemma AnswerTo(s: State, serverName: string, size: Size, json: Json, methodName: string, params: Option<Json>) returns (id: int32)
    requires Asks(json, methodName, params)
    ensures ReplyTo(s, serverName, size, json) == Some(Answer(s, serverName, size, id, methodName, params))
    ensures GetExact(Respelt(json), "id").Some? && id == ValueInt(GetExact(Respelt(json), "id").value.v)
  {
    EnvelopeFound(json);
    id := ValueInt(GetItem(json, "id").value.v);
  }

  function ResultIn(reply: Option<Json>): Option<Json> {
    if reply.Some? then GetExact(reply.value, "result") else None
  }

  function MemberIn(j: Option<Json>, key: string): Option<Json> {
    if j.Some? then GetExact(j.value, key) else None
  }

  function ErrorIn(reply: Option<Json>): Option<Json> {
    MemberIn(if reply.Some? then GetExact(reply.value, "error") else None, "message")
  }

  lemma ResultReadBack(id: int32, result: Json)
    ensures ResultIn(Some(ReplyResult(id, result))) == Some(result)
  {
    ShapedMembers(ReplyResult(id, result), id);
  }

  lemma ErrorReadBack(id: int32, text: string)
    ensures ErrorIn(Some(ReplyError(id, text))) == Some(Text(text))
  {
    ShapedMembers(ReplyError(id, text), id);
  }

  /** initialize: the protocol version, the tools capability, and the server's name
      or the default one. */
  lemma InitializeSays(s: State, serverName: string, size: Size, json: Json, params: Option<Json>)
    requires Asks(json, "initialize", params)
    ensures var result := ResultIn(ReplyTo(s, serverName, size, json));
            && MemberIn(result, "protocolVersion") == Some(Text("2024-11-05"))
            && MemberIn(MemberIn(result, "capabilities"), "tools") == Some(Object([]))
            && MemberIn(MemberIn(result, "serverInfo"), "version") == Some(Text("1.0.0"))
            && MemberIn(MemberIn(result, "serverInfo"), "name") == Some(Text(if serverName == "" then "MCP_SERVER" else serverName))
  {
    var id := AnswerTo(s, serverName, size, json, "initialize", params);
    ResultReadBack(id, InitializeResult(serverName));
    InitializeReadBack(serverName);
  }

  lemma InitializeReadBack(serverName: string)
    ensures var result := Some(InitializeResult(serverName));
            && MemberIn(result, "protocolVersion") == Some(Text("2024-11-05"))
            && MemberIn(MemberIn(result, "capabilities"), "tools") == Some(Object([]))
            && MemberIn(MemberIn(result, "serverInfo"), "version") == Some(Text("1.0.0"))
            && MemberIn(MemberIn(result, "serverInfo"), "name") == Some(Text(if serverName == "" then "MCP_SERVER" else serverName))
  {
    var ms := InitializeResult(serverName).members;
    ThirdMember(ms[0], ms[1], ms[2]);
    assert ms == [ms[0], ms[1], ms[2]];
    TwoMembers(Member("name", Text(if serverName == "" then "MCP_SERVER" else serverName)), Member("version", Text("1.0.0")));
  }

  lemma TwoMembers(a: Member, b: Member)
    requires a.key != b.key
    ensures GetExact(Object([a, b]), a.key) == Some(a.value) && GetExact(Object([a, b]), b.key) == Some(b.value)
  {
    assert [a, b][1..] == [b];
  }

  lemma ThirdMember(a: Member, b: Member, c: Member)
    requires a.key != b.key && a.key != c.key && b.key != c.key
    ensures FindExact([a, b, c], a.key) == Some(a.value)
    ensures FindExact([a, b, c], b.key) == Some(b.value)
    ensures FindExact([a, b, c], c.key) == Some(c.value)
  {
    assert [a, b, c][1..] == [b, c] && [b, c][1..] == [c];
  }

  /** tools/list, whatever its parameters: a cursor that is no string counts as none,
      and user tools are listed only for the boolean true. */
  lemma ListSays(s: State, serverName: string, size: Size, json: Json, params: Option<Json>)
    requires Asks(json, "tools/list", params)
    ensures var cursor := if params.Some? then GetItem(params.value, "cursor") else None;
            var from := if cursor.Some? && cursor.value.Text? then cursor.value.s else "";
            var all := params.Some? && GetItem(params.value, "withUserTools") == Some(Bool(true));
            ResultIn(ReplyTo(s, serverName, size, json)) == Some(ToolsListResult(PageAt(Visible(s.tools, all), from, size)))
  {
    var id := AnswerTo(s, serverName, size, json, "tools/list", params);
    ResultReadBack(id, ToolsListResult(PageAt(Visible(s.tools, WithUserTools(params)), CursorParam(params), size)));
  }

  /** A call that goes through: what the callback makes of the filled arguments. */
  lemma CallSays(s: State, serverName: string, size: Size, json: Json, params: Json, name: string)
    requires Asks(json, "tools/call", Some(params)) && GetItem(params, "name") == Some(Text(name)) && CallGoesThrough(s, params)
    ensures var t := Resolve(s, name);
            && t.Some? && t.value.callback.Some?
            && ResultIn(ReplyTo(s, serverName, size, json))
            == Some(t.value.callback.value(Filled(t.value.properties, GetItem(params, "arguments"))))
  {
    var id := AnswerTo(s, serverName, size, json, "tools/call", Some(params));
    var t := Resolve(s, name).value;
    var content := t.callback.value(Filled(t.properties, GetItem(params, "arguments")));
    assert CallAnswer(s, id, Some(params)) == ReplyResult(id, content);
    ResultReadBack(id, content);
  }

  /** `text` as it fits a buffer of 128 bytes. */
  predicate Fits127(said: string, text: string) {
    said <= text && |said| == if |text| < 127 then |text| else 127
  }

  /** What is wrong with a call of `name` that does not go through: no such tool, or
      the blamed property, or a tool without a callback. */
  ghost predicate ReachError(s: State, name: string, arguments: Option<Json>, said: string) {
    if forall t <- s.indexed :: t.name != name then Fits127(said, "Unknown tool: " + name)
    else
      var t := Resolve(s, name);
      && t.Some?
      && var blamed := Blamed(t.value.properties, arguments);
         if blamed.Some? then Fits127(said, "Invalid argument: " + blamed.value) else said == "Tool call failed"
  }

  /** What is wrong with its parameters, or else with the call. */
  ghost predicate CallError(s: State, params: Option<Json>, said: string) {
    if params.None? then said == "Missing params"
    else
      var name, arguments := GetItem(params.value, "name"), GetItem(params.value, "arguments");
      if name.None? || !name.value.Text? then said == "Missing tool name"
      else if arguments.Some? && !arguments.value.Object? then said == "Invalid arguments"
      else ReachError(s, name.value.s, arguments, said)
  }

  lemma ReachErrorSays(s: State, id: int32, name: string, arguments: Option<Json>) returns (said: string)
    requires var t := Resolve(s, name);
             t.Some? ==> t.value.callback.None? || !Accepts(t.value.properties, arguments)
    ensures CallReply(s, id, name, arguments) == ReplyError(id, said) && ReachError(s, name, arguments, said)
  {
    BucketFind(s.indexed, name);
    var t := Resolve(s, name);
    if t.None? {
      said := Clipped("Unknown tool: " + name);
    } else {
      RejectedMeansBlamed(t.value.properties, arguments);
      var blamed := Blamed(t.value.properties, arguments);
      said := if blamed.Some? then Clipped("Invalid argument: " + blamed.value) else "Tool call failed";
    }
  }

  lemma CallErrorSays(s: State, id: int32, params: Option<Json>) returns (said: string)
    requires params.Some? ==> !CallGoesThrough(s, params.value)
    ensures CallAnswer(s, id, params) == ReplyError(id, said) && CallError(s, params, said)
  {
    if params.None? {
      return "Missing params";
    }
    var name, arguments := GetItem(params.value, "name"), GetItem(params.value, "arguments");
    if name.None? || !name.value.Text? {
      said := "Missing tool name";
    } else if arguments.Some? && !arguments.value.Object? {
      said := "Invalid arguments";
    } else {
      said := ReachErrorSays(s, id, name.value.s, arguments);
    }
  }

  /** The text of every error reply. */
  lemma ErrorSays(s: State, serverName: string, size: Size, json: Json, methodName: string, params: Option<Json>)
    returns (said: string)
    requires Asks(json, methodName, params) && !GetsResult(s, methodName, params)
    ensures ErrorIn(ReplyTo(s, serverName, size, json)) == Some(Text(said))
    ensures if methodName == "tools/call" then CallError(s, params, said) else Fits127(said, "Method not implemented: " + methodName)
  {
    var id := AnswerTo(s, serverName, size, json, methodName, params);
    if methodName == "tools/call" {
      said := CallErrorSays(s, id, params);
    } else {
      said := Clipped("Method not implemented: " + methodName);
    }
    ErrorReadBack(id, said);
  }
}
