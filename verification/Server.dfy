/** The server object of core/mcp/mcp_server.c: registration, lookup and
    message handling as updates of its fields. */
module Server {
  import opened Json
  import opened Properties
  import opened ToolSchema
  import opened Registry
  import opened Growth
  import opened Paging
  import opened Dispatch

  class McpServer {
    var tools: seq<Tool>
    var capacity: nat
    var toolHash: array<seq<Tool>>
    var serverName: string
    var sent: seq<Json> // what mcp_server_send has been given
    ghost var indexed: seq<Tool>

    ghost function View(): State
      reads this
    {
      State(tools, indexed, capacity)
    }

    /** Each bucket is the in-order part of the indexed tools with its hash. */
    ghost predicate Valid()
      reads this, toolHash
    {
      && toolHash.Length == BUCKETS
      && (forall h :: 0 <= h < BUCKETS ==> toolHash[h] == Bucket(indexed, h))
      && Invariant(View())
    }

    constructor (name: string)
      ensures Valid() && fresh(toolHash) && View() == State([], [], 0) && sent == [] && serverName == name
    {
      tools, capacity, serverName, sent, indexed := [], 0, name, [], [];
      toolHash := new seq<Tool>[BUCKETS](_ => []);
    }

    /** mcp_server_find_tool_by_hash. */
    method FindTool(name: string) returns (r: Option<Tool>)
      requires Valid()
      ensures r == Resolve(View(), name)
      ensures r == LinearFind(indexed, name)
      ensures r.Some? ==> r.value in tools && r.value.name == name
    {
      BucketFind(indexed, name);
      SubsequenceMembers(indexed, tools);
      var bucket := toolHash[NameHash(name)];
      assert bucket[0..] == bucket;
      for i := 0 to |bucket|
        invariant LinearFind(bucket[i..], name) == LinearFind(bucket, name)
      {
        if bucket[i].name == name {
          return Some(bucket[i]);
        }
        assert bucket[i..][1..] == bucket[i + 1..];
      }
      return None;
    }

    /** mcp_server_add_tool_to_hash; the bucket's reallocation may fail. */
    method AddToHash(tool: Tool, ok: bool) returns (added: bool)
      requires toolHash.Length == BUCKETS
      modifies toolHash
      ensures added == ok
      ensures forall h :: 0 <= h < BUCKETS ==>
                toolHash[h] == if ok && h == NameHash(tool.name) then old(toolHash[h]) + [tool] else old(toolHash[h])
    {
      if !ok {
        return false;
      }
      toolHash[NameHash(tool.name)] := toolHash[NameHash(tool.name)] + [tool];
      return true;
    }

    /** mcp_server_reserve_tools: doubling; the reallocation may fail. */
    method Reserve(required: nat, ok: bool) returns (done: bool)
      modifies this`capacity
      ensures done == (ok || required <= old(capacity))
      ensures capacity == if done then Grown(old(capacity), required) else old(capacity)
    {
      if required <= capacity {
        return true;
      }
      var newCapacity := if capacity == 0 then 4 else capacity * 2;
      while newCapacity < required
        invariant newCapacity > 0 && Doubled(newCapacity, required) == Grown(capacity, required)
      {
        newCapacity := newCapacity * 2;
      }
      if !ok {
        return false;
      }
      capacity := newCapacity;
      return true;
    }

    /** mcp_server_add_tool. */
    method AddTool(r: Registration) returns (added: bool)
      requires Valid()
      modifies this`tools, this`capacity, this`indexed, toolHash
      ensures Valid()
      ensures View() == Register(old(View()), r) && added == Admits(old(View()), r)
    {
      var found := FindTool(r.tool.name);
      if found.Some? {
        return false;
      }
      GrownSized(capacity, |tools| + 1);
      var reserved := Reserve(|tools| + 1, r.reserveOk);
      if !reserved {
        return false;
      }
      Append(r, old(View()));
      return true;
    }

    /** The tail of mcp_server_add_tool: the tool goes on the list, then into its bucket. */
    method Append(r: Registration, ghost before: State)
      requires Valid()
      requires Invariant(before) && Admits(before, r)
      requires View() == before.(capacity := Grown(before.capacity, |before.tools| + 1))
      modifies this`tools, this`indexed, toolHash
      ensures Valid() && View() == Register(before, r)
    {
      RegisterKeepsInvariant(before, r);
      tools := tools + [r.tool];
      var inHash := AddToHash(r.tool, r.indexOk);
      if inHash {
        forall h: nat | h < BUCKETS
          ensures toolHash[h] == Bucket(indexed + [r.tool], h)
        {
          BucketAppend(indexed, r.tool, h);
        }
        indexed := indexed + [r.tool];
      }
    }

    method Send(payload: Json)
      modifies this`sent
      ensures sent == old(sent) + [payload]
    {
      sent := sent + [payload];
    }

    /** mcp_server_do_tool_call. */
    method DoToolCall(id: int32, name: string, arguments: Option<Json>)
      requires Valid()
      modifies this`sent
      ensures sent == old(sent) + [CallReply(View(), id, name, arguments)]
    {
      var tool := FindTool(name);
      match tool {
        case None =>
          Send(ReplyError(id, Clipped("Unknown tool: " + name)));
        case Some(t) =>
          Send(OutcomeReply(id, CallWith(t.properties, t.callback, arguments)));
      }
    }

    /** mcp_server_parse_message_json: at most one reply, and the registry is not touched. */
    method ParseMessageJson(json: Json, size: Size)
      requires Valid()
      modifies this`sent
      ensures Valid()
      ensures sent == old(sent) + Replies(View(), serverName, size, Some(json))
    {
      var version := GetItem(json, "jsonrpc");
      if version != Some(Text("2.0")) {
        return;
      }
      var name := GetItem(json, "method");
      if name.None? || !name.value.Text? {
        return;
      }
      var params, id := GetItem(json, "params"), GetItem(json, "id");
      if id.None? || !id.value.Number? {
        return;
      }
      HandleRequest(ValueInt(id.value.v), name.value.s, params, size);
    }

    /** mcp_server_parse_message: what a worker task does with its message. */
    method ParseMessage(message: Option<Json>, size: Size)
      requires Valid()
      modifies this`sent
      ensures Valid()
      ensures sent == old(sent) + Replies(View(), serverName, size, message)
    {
      if message.Some? {
        ParseMessageJson(message.value, size);
      }
    }

    method HandleRequest(id: int32, methodName: string, params: Option<Json>, size: Size)
      requires Valid()
      modifies this`sent
      ensures sent == old(sent) + [Answer(View(), serverName, size, id, methodName, params)]
    {
      if methodName == "initialize" {
        Send(ReplyResult(id, InitializeResult(serverName)));
      } else if methodName == "tools/list" {
        var page, next := BuildToolsList(tools, CursorParam(params), WithUserTools(params), size);
        Send(ReplyResult(id, ToolsListResult(Page(page, next))));
      } else if methodName == "tools/call" {
        if params.None? {
          Send(ReplyError(id, "Missing params"));
          return;
        }
        var name := GetItem(params.value, "name");
        if name.None? || !name.value.Text? {
          Send(ReplyError(id, "Missing tool name"));
          return;
        }
        var arguments := GetItem(params.value, "arguments");
        if arguments.Some? && !arguments.value.Object? {
          Send(ReplyError(id, "Invalid arguments"));
          return;
        }
        DoToolCall(id, name.value.s, arguments);
      } else {
        Send(ReplyError(id, Clipped("Method not implemented: " + methodName)));
      }
    }
  }
}
