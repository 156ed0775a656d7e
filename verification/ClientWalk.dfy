/** A client walking the tool list over the wire: it writes tools/list requests and
    goes by nothing but the replies. */
module ClientWalk {
  import opened Json
  import opened JsonRpc
  import opened ToolSchema
  import opened Registry
  import opened Paging
  import opened Dispatch
  import opened CursorWalk
  import opened Client

  function TextOf(j: Option<Json>): string {
    match j
    case Some(Text(s)) => s
    case _ => ""
  }

  /** The cursor a client finds in a reply. */
  function CursorRead(reply: Json): string {
    match GetExact(reply, "result")
    case Some(result) => TextOf(GetExact(result, "nextCursor"))
    case None => ""
  }

  function NamesOf(items: seq<Json>): seq<string> {
    if items == [] then [] else NamesOf(items[..|items| - 1]) + [TextOf(GetExact(items[|items| - 1], "name"))]
  }

  /** The tool names it finds there. */
  function NamesRead(reply: Json): seq<string> {
    match GetExact(reply, "result")
    case Some(result) =>
      (match GetExact(result, "tools")
       case Some(Array(items)) => NamesOf(items)
       case _ => [])
    case None => []
  }

  function Names(tools: seq<Tool>): seq<string> {
    if tools == [] then [] else Names(tools[..|tools| - 1]) + [tools[|tools| - 1].name]
  }

  /** What was registered since the last request, the request's id, and its reply. */
  datatype Exchange = Exchange(registrations: seq<Registration>, id: int32, reply: Json)

  function Registered(exchanges: seq<Exchange>): State {
    if exchanges == [] then State([], [], 0)
    else RegisterAll(Registered(exchanges[..|exchanges| - 1]), exchanges[|exchanges| - 1].registrations)
  }

  function LastCursor(exchanges: seq<Exchange>): string {
    if exchanges == [] then "" else CursorRead(exchanges[|exchanges| - 1].reply)
  }

  function AllNames(exchanges: seq<Exchange>): seq<string> {
    if exchanges == [] then []
    else AllNames(exchanges[..|exchanges| - 1]) + NamesRead(exchanges[|exchanges| - 1].reply)
  }

  /** How requests are answered when the registry is in some state. */
  type Answerer = (State, Json) -> Option<Json>

  function AnswererOf(serverName: string, size: Size): Answerer {
    (s: State, request: Json) => ReplyTo(s, serverName, size, request)
  }

  /** Each request asks for the cursor read from the last reply, the first for none,
      until a reply has no cursor. */
  ghost predicate Conversation(exchanges: seq<Exchange>, answers: Answerer, withUserTools: bool, size: Size) {
    exchanges != [] ==>
      var before, last := exchanges[..|exchanges| - 1], exchanges[|exchanges| - 1];
      && Conversation(before, answers, withUserTools, size)
      && (before != [] ==> LastCursor(before) != "")
      && (forall r <- last.registrations :: r.indexOk && Pageable(r.tool, size))
      && answers(Registered(exchanges), ListRequest(last.id, LastCursor(before), withUserTools)) == Some(last.reply)
  }

  /** The walk behind it. */
  function Rounds(exchanges: seq<Exchange>, withUserTools: bool, size: Size): seq<Round> {
    if exchanges == [] then []
    else
      var before := exchanges[..|exchanges| - 1];
      var page := PageAt(Visible(Registered(exchanges).tools, withUserTools), LastCursor(before), size);
      Rounds(before, withUserTools, size) + [Round(exchanges[|exchanges| - 1].registrations, page.tools, page.next)]
  }

  lemma {:induction false} NamesRoundTrip(items: seq<Json>, tools: seq<Tool>)
    requires |items| == |tools| && forall i :: 0 <= i < |items| ==> Describes(items[i], tools[i])
    ensures NamesOf(items) == Names(tools)
  {
    if items != [] {
      NamesRoundTrip(items[..|items| - 1], tools[..|tools| - 1]);
    }
  }

  /** What a client reads in a reply is the page. */
  predicate ReadsPage(reply: Json, page: Page) {
    CursorRead(reply) == page.next && NamesRead(reply) == Names(page.tools)
  }

  lemma PageReplyReads(id: int32, page: Page)
    ensures ReadsPage(ReplyResult(id, ToolsListResult(page)), page)
  {
    ShapedMembers(ReplyResult(id, ToolsListResult(page)), id);
    PageReadsBack(page);
    NamesRoundTrip(GetExact(ToolsListResult(page), "tools").value.items, page.tools);
  }

  /** Every list request is answered by a reply that reads as its page. */
  ghost predicate AnswersRead(answers: Answerer, withUserTools: bool, size: Size) {
    forall s: State, id: int32, cursor: string, reply: Json ::
      answers(s, ListRequest(id, cursor, withUserTools)) == Some(reply) ==>
        ReadsPage(reply, PageAt(Visible(s.tools, withUserTools), cursor, size))
  }

  lemma ServerAnswersRead(serverName: string, withUserTools: bool, size: Size)
    ensures AnswersRead(AnswererOf(serverName, size), withUserTools, size)
  {
    forall s: State, id: int32, cursor: string
      ensures var page := PageAt(Visible(s.tools, withUserTools), cursor, size);
              var answer := AnswererOf(serverName, size)(s, ListRequest(id, cursor, withUserTools));
              answer.Some? && ReadsPage(answer.value, page)
    {
      ListAnswered(s, serverName, size, id, cursor, withUserTools);
      PageReplyReads(id, PageAt(Visible(s.tools, withUserTools), cursor, size));
    }
  }

  lemma {:induction false} NamesConcat(a: seq<Tool>, b: seq<Tool>)
    ensures Names(a + b) == Names(a) + Names(b)
  {
    if b == [] {
      assert a + b == a;
    } else {
      NamesConcat(a, b[..|b| - 1]);
      assert (a + b)[..|a + b| - 1] == a + b[..|b| - 1];
    }
  }

  /** The page the last request is about. */
  function LastPage(exchanges: seq<Exchange>, withUserTools: bool, size: Size): Page
    requires exchanges != []
  {
    PageAt(Visible(Registered(exchanges).tools, withUserTools), LastCursor(exchanges[..|exchanges| - 1]), size)
  }

  lemma LastRound(exchanges: seq<Exchange>, withUserTools: bool, size: Size)
    requires exchanges != []
    ensures var rounds, page := Rounds(exchanges, withUserTools, size), LastPage(exchanges, withUserTools, size);
            && rounds != [] && rounds[..|rounds| - 1] == Rounds(exchanges[..|exchanges| - 1], withUserTools, size)
            && rounds[|rounds| - 1] == Round(exchanges[|exchanges| - 1].registrations, page.tools, page.next)
  {
  }

  /** A conversation by what its replies read as. */
  ghost predicate Reading(exchanges: seq<Exchange>, withUserTools: bool, size: Size) {
    exchanges != [] ==>
      var before, last := exchanges[..|exchanges| - 1], exchanges[|exchanges| - 1];
      && Reading(before, withUserTools, size)
      && (before != [] ==> LastCursor(before) != "")
      && (forall r <- last.registrations :: r.indexOk && Pageable(r.tool, size))
      && ReadsPage(last.reply, LastPage(exchanges, withUserTools, size))
  }

  lemma {:induction false} ConversationReads(exchanges: seq<Exchange>, answers: Answerer, withUserTools: bool, size: Size)
    requires AnswersRead(answers, withUserTools, size) && Conversation(exchanges, answers, withUserTools, size)
    ensures Reading(exchanges, withUserTools, size)
    decreases |exchanges|
  {
    if exchanges != [] {
      var before, last := exchanges[..|exchanges| - 1], exchanges[|exchanges| - 1];
      ConversationReads(before, answers, withUserTools, size);
      assert answers(Registered(exchanges), ListRequest(last.id, LastCursor(before), withUserTools)) == Some(last.reply);
    }
  }

  lemma {:induction false} SameRegistry(exchanges: seq<Exchange>, withUserTools: bool, size: Size)
    ensures RegistryAfter(Rounds(exchanges, withUserTools, size)) == Registered(exchanges)
    ensures |Rounds(exchanges, withUserTools, size)| == |exchanges|
  {
    if exchanges != [] {
      SameRegistry(exchanges[..|exchanges| - 1], withUserTools, size);
      LastRound(exchanges, withUserTools, size);
    }
  }

  lemma SameCursor(exchanges: seq<Exchange>, withUserTools: bool, size: Size)
    requires Reading(exchanges, withUserTools, size)
    ensures CursorAfter(Rounds(exchanges, withUserTools, size)) == LastCursor(exchanges)
  {
    if exchanges != [] {
      LastRound(exchanges, withUserTools, size);
    }
  }

  lemma {:induction false} SameNames(exchanges: seq<Exchange>, withUserTools: bool, size: Size)
    requires Reading(exchanges, withUserTools, size)
    ensures Names(Received(Rounds(exchanges, withUserTools, size))) == AllNames(exchanges)
    decreases |exchanges|
  {
    if exchanges != [] {
      var before := exchanges[..|exchanges| - 1];
      SameNames(before, withUserTools, size);
      LastRound(exchanges, withUserTools, size);
      NamesConcat(Received(Rounds(before, withUserTools, size)), LastPage(exchanges, withUserTools, size).tools);
    }
  }

  /** A conversation is a walk, told by its replies. */
  lemma {:induction false} ConversationIsWalk(exchanges: seq<Exchange>, withUserTools: bool, size: Size)
    requires Reading(exchanges, withUserTools, size)
    ensures Walk(Rounds(exchanges, withUserTools, size), withUserTools, size)
    decreases |exchanges|
  {
    if exchanges != [] {
      var before := exchanges[..|exchanges| - 1];
      ConversationIsWalk(before, withUserTools, size);
      SameCursor(before, withUserTools, size);
      SameRegistry(exchanges, withUserTools, size);
      SameRegistry(before, withUserTools, size);
      LastRound(exchanges, withUserTools, size);
    }
  }

  lemma {:induction false} NamesAt(tools: seq<Tool>)
    ensures |Names(tools)| == |tools| && forall i :: 0 <= i < |tools| ==> Names(tools)[i] == tools[i].name
  {
    if tools != [] {
      NamesAt(tools[..|tools| - 1]);
    }
  }

  lemma NamesOfPrefix(got: seq<Tool>, visible: seq<Tool>)
    requires got <= visible && DistinctNames(got)
    ensures Names(got) <= Names(visible) && |Names(visible)| == |visible|
    ensures forall i, j :: 0 <= i < j < |Names(got)| ==> Names(got)[i] != Names(got)[j]
    ensures Names(got) == Names(visible) <==> got == visible
  {
    NamesAt(got);
    NamesAt(visible);
  }

  /** From replies alone, while tools keep being registered: the names read so far
      are the first of the visible tools' names, in order of registration, none
      twice; and the client sees no further cursor exactly when it has them all. */
  lemma NamesReadAreVisible(exchanges: seq<Exchange>, serverName: string, withUserTools: bool, size: Size)
    requires Conversation(exchanges, AnswererOf(serverName, size), withUserTools, size) && exchanges != []
    ensures var visible := Names(Visible(Registered(exchanges).tools, withUserTools));
            && AllNames(exchanges) <= visible
            && (forall i, j :: 0 <= i < j < |AllNames(exchanges)| ==> AllNames(exchanges)[i] != AllNames(exchanges)[j])
            && (LastCursor(exchanges) == "" <==> AllNames(exchanges) == visible)
            && (|exchanges| <= |visible| || (|exchanges| == 1 && visible == []))
  {
    var rounds := Rounds(exchanges, withUserTools, size);
    ServerAnswersRead(serverName, withUserTools, size);
    ConversationReads(exchanges, AnswererOf(serverName, size), withUserTools, size);
    ConversationIsWalk(exchanges, withUserTools, size);
    SameRegistry(exchanges, withUserTools, size);
    SameCursor(exchanges, withUserTools, size);
    SameNames(exchanges, withUserTools, size);
    WalkIsComplete(rounds, withUserTools, size);
    NamesOfPrefix(Received(rounds), VisibleAfter(rounds, withUserTools));
  }
}
