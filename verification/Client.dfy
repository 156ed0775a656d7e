/** The protocol as a client sees it: requests it writes, replies it reads. */
module Client {
  import opened Json
  import opened JsonRpc
  import opened Properties
  import opened ToolSchema
  import opened Registry
  import opened Paging
  import opened Dispatch

  function Request(id: int32, methodName: string, params: seq<Member>): Json {
    Object([Member("jsonrpc", Text("2.0")), Member("id", Number(id as real)), Member("method", Text(methodName)),
            Member("params", Object(params))])
  }

  function ListRequest(id: int32, cursor: string, withUserTools: bool): Json {
    Request(id, "tools/list", [Member("cursor", Text(cursor)), Member("withUserTools", Bool(withUserTools))])
  }

  function CallRequest(id: int32, name: string, arguments: Json): Json {
    Request(id, "tools/call", [Member("name", Text(name)), Member("arguments", arguments)])
  }

  /** No two of the keys are equal up to letter case. */
  lemma KeysDiffer()
    ensures Fold("jsonrpc") !in [Fold("id"), Fold("method"), Fold("params")]
    ensures Fold("id") !in [Fold("method"), Fold("params")] && Fold("method") != Fold("params")
    ensures Fold("cursor") != Fold("withUserTools") && Fold("name") != Fold("arguments")
  {
    assert Fold("params")[0] != Fold("method")[0];
  }

  lemma FindNext(members: seq<Member>, key: string)
    requires members != [] && Fold(members[0].key) != Fold(key)
    ensures Find(members, key) == Find(members[1..], key)
  {
  }

  lemma RequestParts(id: int32, methodName: string, params: seq<Member>)
    ensures var r := Request(id, methodName, params);
            && GetItem(r, "jsonrpc") == Some(Text("2.0")) && GetItem(r, "id") == Some(Number(id as real))
            && GetItem(r, "method") == Some(Text(methodName)) && GetItem(r, "params") == Some(Object(params))
  {
    KeysDiffer();
    var ms := Request(id, methodName, params).members;
    FindNext(ms, "id");
    FindNext(ms, "method");
    FindNext(ms[1..], "method");
    FindNext(ms, "params");
    FindNext(ms[1..], "params");
    FindNext(ms[1..][1..], "params");
  }

  lemma PairParts(key0: string, v0: Json, key1: string, v1: Json)
    requires Fold(key0) != Fold(key1)
    ensures var j := Object([Member(key0, v0), Member(key1, v1)]);
            GetItem(j, key0) == Some(v0) && GetItem(j, key1) == Some(v1)
  {
    FindNext([Member(key0, v0), Member(key1, v1)], key1);
  }

  lemma RequestAnswered(s: State, serverName: string, size: Size, id: int32, methodName: string, params: seq<Member>)
    ensures ReplyTo(s, serverName, size, Request(id, methodName, params))
         == Some(Answer(s, serverName, size, id, methodName, Some(Object(params))))
  {
    RequestParts(id, methodName, params);
    var version, n := GetItem(Request(id, methodName, params), "jsonrpc"), ValueInt(id as real);
    assert version.value.s == "2.0" && n == id;
  }

  /** A tools/list request is answered with the page it asks for. */
  lemma ListAnswered(s: State, serverName: string, size: Size, id: int32, cursor: string, withUserTools: bool)
    ensures ReplyTo(s, serverName, size, ListRequest(id, cursor, withUserTools))
         == Some(ReplyResult(id, ToolsListResult(PageAt(Visible(s.tools, withUserTools), cursor, size))))
  {
    var params := [Member("cursor", Text(cursor)), Member("withUserTools", Bool(withUserTools))];
    KeysDiffer();
    PairParts("cursor", Text(cursor), "withUserTools", Bool(withUserTools));
    assert CursorParam(Some(Object(params))) == cursor && WithUserTools(Some(Object(params))) == withUserTools;
    RequestAnswered(s, serverName, size, id, "tools/list", params);
  }

  /** A tools/call request is answered with the outcome of the call. */
  lemma CallAnswered(s: State, serverName: string, size: Size, id: int32, name: string, arguments: Json)
    requires arguments.Object?
    ensures ReplyTo(s, serverName, size, CallRequest(id, name, arguments)) == Some(CallReply(s, id, name, Some(arguments)))
  {
    var params := [Member("name", Text(name)), Member("arguments", arguments)];
    KeysDiffer();
    PairParts("name", Text(name), "arguments", arguments);
    assert CallAnswer(s, id, Some(Object(params))) == CallReply(s, id, name, Some(arguments));
    RequestAnswered(s, serverName, size, id, "tools/call", params);
  }

  /** The client reads back the page: each tool's name and schema, in order, and
      the cursor exactly when there is one. */
  lemma ListRoundTrip(s: State, serverName: string, size: Size, id: int32, cursor: string, withUserTools: bool)
    ensures var page := PageAt(Visible(s.tools, withUserTools), cursor, size);
            var reply := ReplyTo(s, serverName, size, ListRequest(id, cursor, withUserTools));
            reply.Some? && ReadsAs(GetExact(reply.value, "result"), page)
  {
    var page := PageAt(Visible(s.tools, withUserTools), cursor, size);
    ListAnswered(s, serverName, size, id, cursor, withUserTools);
    ShapedMembers(ReplyResult(id, ToolsListResult(page)), id);
    PageReadsBack(page);
  }

  predicate ReadsAs(result: Option<Json>, page: Page) {
    && result.Some?
    && (if page.next == "" then GetExact(result.value, "nextCursor") == None
        else GetExact(result.value, "nextCursor") == Some(Text(page.next)))
    && match GetExact(result.value, "tools")
       case Some(Array(items)) =>
         |items| == |page.tools| && forall i :: 0 <= i < |items| ==> Describes(items[i], page.tools[i])
       case _ => false
  }

  predicate Describes(item: Json, t: Tool) {
    && GetExact(item, "name") == Some(Text(t.name))
    && GetExact(item, "description") == Some(Text(t.description))
    && GetExact(item, "inputSchema") == Some(InputSchema(t.properties))
    && (if t.userOnly then GetExact(item, "annotations") == Some(Object([Member("audience", Array([Text("user")]))]))
        else GetExact(item, "annotations") == None)
  }

  lemma FindExactNext(members: seq<Member>, key: string)
    requires members != [] && members[0].key != key
    ensures FindExact(members, key) == FindExact(members[1..], key)
  {
  }

  lemma ToolReadsBack(t: Tool)
    ensures Describes(ToolJson(t), t)
  {
    var ms := ToolJson(t).members;
    var rest, schema, last := ms[1..], ms[2..], ms[3..];
    assert rest[1..] == schema && schema[1..] == last;
    FindExactNext(ms, "description");
    FindExactNext(ms, "inputSchema");
    FindExactNext(rest, "inputSchema");
    FindExactNext(ms, "annotations");
    FindExactNext(rest, "annotations");
    FindExactNext(schema, "annotations");
    assert if t.userOnly then last == [Member("annotations", USER_AUDIENCE)] else last == [];
  }

  lemma PageReadsBack(page: Page)
    ensures ReadsAs(Some(ToolsListResult(page)), page)
  {
    var ms := ToolsListResult(page).members;
    if page.next == "" {
      assert ms[1..] == [];
    } else {
      assert ms[1] == Member("nextCursor", Text(page.next));
    }
    forall i | 0 <= i < |page.tools|
      ensures Describes(ToolJson(page.tools[i]), page.tools[i])
    {
      ToolReadsBack(page.tools[i]);
    }
  }

  /** From listing to calling: an indexed tool on any page, called under its listed
      name with arguments the listed schema allows, replies with what its callback
      makes of them. */
  lemma ListedCallSucceeds(s: State, serverName: string, size: Size, id: int32, cursor: string, withUserTools: bool,
                           t: Tool, arguments: Json)
    requires Invariant(s) && t in s.indexed
    requires t in PageAt(Visible(s.tools, withUserTools), cursor, size).tools && t.callback.Some?
    requires arguments.Object? && ExactKeys(t.properties, arguments)
    requires Validates(InputSchema(t.properties), arguments)
    ensures var reply := ReplyTo(s, serverName, size, CallRequest(id, t.name, arguments));
            && reply.Some? && GetExact(reply.value, "id") == Some(Number(id as real))
            && GetExact(reply.value, "result") == Some(t.callback.value(Filled(t.properties, Some(arguments))))
  {
    CheckerAgreesWithSchema(t.properties, arguments);
    assert t in Visible(s.tools, withUserTools);
    CallableIffIndexed(s, t);
    CallAnswered(s, serverName, size, id, t.name, arguments);
    ShapedMembers(CallReply(s, id, t.name, Some(arguments)), id);
  }
}
