# Verified model of the MCP device server

The repository is a C server for the Model Context Protocol: tools are
registered under a name, described to a client as JSON (`tools/list`, in pages)
and called with checked arguments (`tools/call`), over JSON-RPC 2.0.  Messages
travel from a transport callback through a background worker; small monitors
(a byte queue, an event group, two schedulers) and a growable list lie
underneath.  This project models that core in Dafny and proves what it does.

`dafny verify dfyconfig.toml` checks everything.

## How it is organised

Code that updates objects in place is modelled by classes and methods, each
proved against a specification function; what the source promises is then
proved about that function.  Threads are modelled as machines: a step is one
pass through a locked region, and a run is any legal interleaving of any number
of threads, with spurious wakeups, timeouts and late signals.  A class method
and the machine step for the same pass share one specification function
(`Put`/`Take` for the queue, `TurnFor` for the worker, `Check` for the event
group), so the machines speak about the same operations as the heap code; what a
machine's threads do is then stated by the steps of the run alone.

| file | what it holds |
|---|---|
| `Json.dfy` | JSON trees, the case-insensitive key lookup, conversion of numbers to a C int |
| `Properties.dfy`, `PropertyHeap.dfy` | argument checking as a meaning, and as heap code with strings that are allocated, copied and freed |
| `ToolSchema.dfy` | the schema a tool advertises, and an independent JSON Schema validator that reads it |
| `DynamicList.dfy` | the doubling array, its growth and its cost |
| `Registry.dfy`, `Server.dfy` | the tool list with its 256-bucket index; the server object and its dispatch |
| `Paging.dfy`, `PageSizes.dfy` | cutting the list into pages; how much goes on a page and how many pages there are |
| `CursorWalk.dfy`, `SettledWalk.dfy` | following cursors while tools are still being registered; over a list that has settled, whatever its names and sizes |
| `JsonRpc.dfy`, `Dispatch.dfy`, `Answers.dfy` | JSON-RPC 2.0 as a peer reads it; which reply a message gets, and what it says |
| `Client.dfy`, `ClientWalk.dfy` | requests written and replies read by a client; its whole walk, from replies alone |
| `RingQueue.dfy`, `QueueMonitor.dfy` | the byte ring buffer; its senders and receivers as threads |
| `Tasks.dfy`, `BackgroundSched.dfy`, `WorkerProtocol.dfy` | the worker's linked queue; posters, worker and shutdown as threads |
| `Pipeline.dfy`, `ReplyOrder.dfy` | from received messages to replies, through the worker or inline; the order of the replies |
| `EventGroup.dfy` | event bits, waiters, and bits used as tokens |
| `Schedule.dfy` | the scheduler with the tail walk and the unlocked test |

## Main results

* **A cursor walk is complete under growth** (`CursorWalk.WalkIsComplete`, and
  from replies alone `ClientWalk.NamesReadAreVisible`).  Registrations may come
  between any two pages; the pages received are always exactly the first visible
  tools in registration order, each once, the walk ends exactly when they are
  all, and every page advances (but for the one page of an empty list), so the
  number of pages is bounded by the number of tools.  For arbitrary lists that
  have settled, `SettledWalk.SettledWalkCompletesIff` says exactly when a walk
  completes.
* **Greedy pages are fewest** (`CursorWalk.WalkIsGreedy`): no cut of the tools
  into pages within the estimate uses fewer than the walk took.
* **No stranded waiter, no lost item** in the queue
  (`QueueMonitor.RunKeepsInvariant`), over every interleaving, on top of a byte
  buffer whose slots never overlap (`RingQueue.ByteQueue`).
* **The worker conserves tasks and drains** (`WorkerProtocol.RunKeepsInvariant`,
  `DrainedAtExit`), and shutdown ends within a stated number of steps
  (`ShutdownTerminates`, `ShutdownProgresses`).
* **The checker against the advertised schema**
  (`ToolSchema.CheckerAgreesWithSchema`, `AgreeOnEveryList`): exactly when two
  pieces of code that never meet accept the same arguments.
* **Calls are isolated and leak nothing** (`PropertyHeap.CallInTurn`): over any
  sequence of calls the template is untouched and each outcome is its own.
* **End to end** (`Pipeline.RepliesInOrder`, `ReplyOrder.ReplyOrderIff`,
  `Client.ListedCallSucceeds`): replies come in order of arrival, with the exact
  condition when some messages bypass the worker, and a listed tool called with
  arguments its schema allows answers with what its callback makes of them.

## Where the code does less than one would think

Each of these is a lemma, with the exact condition under which the expected
property does hold.

* A page may exceed 8000 characters.  For JSON of at most L characters and
  estimates of at least E (no estimate is below 200), every page keeps the limit
  if and only if, K being 7950 / E rounded down, K < 2 or K * (L + 1) < 7990 (`PagesKeepLimitIff`; an
  instance with 10814 characters is `PageCanExceedLimit`).
* A walk can stop short or go round for ever.  It completes if and only if each
  page's first tool fits alone and, after the first page, is the first of its
  name and has a name of 1 to 63 characters (`SettledWalkCompletesIff`).  Names
  stay distinct if and only if no name is registered again after its index
  insertion failed (`NamesStayDistinctIff`).
* A listed tool is what a call by its name reaches if and only if it was indexed
  (`CallableIffIndexed`); otherwise it is unknown, or another tool of that name
  answers (`UnindexedAnswers`).
* The checker accepts fractions, numbers beyond a C int, and keys of another
  spelling that the schema refuses, and refuses some the schema accepts
  (`AgreeOnEveryList`, with instances).  Defaults are not held to the bounds
  (`BoundsUnlessDefaulted`, `DefaultRoundTrip`).
* The server finds "jsonrpc", "method" and "id" in any spelling and wants a number
  for the id.  So some requests of section 4 of JSON-RPC 2.0 get no reply
  (`TextIdUnanswered`) and some messages that are none get one
  (`RespeltAnswered`); `AnsweredIffEnvelope` and `AnsweredAsSpecified` say which.
  Messages that are not requests get no error reply either.
* A reply echoes the request's id if and only if that is an integer a C int holds
  (`IdEchoed`).  Error replies lack the `code` member that section 5.1 requires,
  so the requests answered as it asks are exactly initialize, tools/list, and the
  calls that reach a callback (`ErrorsLackCode`).
* `queue_create` multiplies two 32-bit sizes (`SlotsInBufferIffNoWrap`), and
  exactly a queue of no slots blocks every sender (`StoresIffSlots`).
* `event_group_wait` may return bits it has not cleared after a timeout
  (`UntakenOnlyOnExpiry`, `TimeoutReturnsUntakenBit`); `event_group_get_bit`
  refuses the eighth bit that `event_group_set_bit` takes (`GetAfterSet`).
* `schedule_run` is safe exactly for a single runner (`SafeIffSingleRunner`).
* A message handled inline because it could not be posted keeps the order of
  replies if and only if it gets no reply or the worker holds no message that
  gets one (`InlineKeepsReplyOrderIff`, and over whole runs `ReplyOrderIff`).
  A message whose task `bg_sched_destroy` frees unrun is neither answered nor
  freed (`BuffersFreedOnce`).

## Model

| member | source | states |
|---|---|---|
| Json.LookupsAgree | core/mcp/mcp_server_protocol.c:156 | the case-insensitive lookup and the exact one find the same value whenever every matching key is spelt exactly |
| Json.FoldEqualIff | core/mcp/mcp_server_protocol.c:156 | keys are found equal if and only if they differ in the case of ASCII letters at most |
| Json.FindFirst | core/mcp/mcp_server_protocol.c:156 | among several matching members both lookups take the first |
| Json.ValueIntExact | core/mcp/mcp_property.c:287-289 | a number survives conversion to a C int exactly when it is an integer in its range |
| Json.ValueIntTruncates | core/mcp/mcp_property.c:287-289 | within the int range the conversion cuts the fraction off towards zero |
| Properties.RejectedMeansBlamed | core/mcp/mcp_server_protocol.c:151-170 | a call is rejected exactly when some property is blamed: the first badly supplied one, else the last missing one |
| Properties.BlamedIs | core/mcp/mcp_server_protocol.c:154-169 | the property blamed is the first badly supplied one, and without any the last missing one |
| Properties.ScanEnds | core/mcp/mcp_server_protocol.c:154-169 | the argument loop, with its early break, decides acceptance, leaves the filled arguments behind and blames the specified property |
| Properties.FilledShape | core/mcp/mcp_server_protocol.c:154-169 | on success names, types, bounds and order are the template's, every property has a value, absent ones keep their default |
| Properties.CallbackReadsInt | core/mcp/mcp_property.c:249-262 | on an accepted call the integer getter returns the supplied number, within its bounds, or the default |
| Properties.CallbackReadsString | core/mcp/mcp_property.c:264-274 | on an accepted call the string getter returns exactly the supplied text, default or not, or else the default |
| Properties.CallbackReadsBool | core/mcp/mcp_property.c:234-247 | the boolean getter returns exactly the supplied boolean, or else the default |
| Properties.LookupFirst | core/mcp/mcp_property.c:88-102 | the getters' lookup takes the first property of the name |
| Properties.BoundsUnlessDefaulted | core/mcp/mcp_property.c:114-128 | an accepted integer is within bounds exactly when it was supplied or its default already was |
| PropertyHeap.CopyProperty | core/mcp/mcp_property.c:14-32 | the copy has the same value in new storage and owns every string allocated for it |
| PropertyHeap.CloneList | core/mcp/mcp_property.c:357-371 | a deep clone: same values and order, disjoint from the source |
| PropertyHeap.SetString | core/mcp/mcp_property.c:130-139 | replaces a string in place, freeing the old one and owning the new one; refused on other types with nothing changed |
| PropertyHeap.SetInt | core/mcp/mcp_property.c:114-128 | stores exactly the integers within the bounds, and changes nothing otherwise |
| PropertyHeap.SetBool | core/mcp/mcp_property.c:104-112 | stores a boolean on a boolean property only |
| PropertyHeap.StoreJson | core/mcp/mcp_property.c:276-301 | the heap update has exactly the effect and verdict of the value-level specification |
| PropertyHeap.CheckAll | core/mcp/mcp_server_protocol.c:151-169 | the loop over the private clone accepts exactly the acceptable calls, computes the filled arguments or blames the right property, and loses no string |
| PropertyHeap.ParseArguments | core/mcp/mcp_server_protocol.c:147-171 | verdict, arguments and error property as specified, and nothing that existed before is written or freed |
| PropertyHeap.FreeProperty | core/mcp/mcp_property.c:35-46 | frees the strings the property owns, whatever else is alive |
| PropertyHeap.FreeList | core/mcp/mcp_property.c:56-62 | frees every string owned by the list, none twice |
| PropertyHeap.CallTool | core/mcp/mcp_server_protocol.c:185-202 | one call has the specified outcome, leaves the template alone and has freed every string it allocated |
| PropertyHeap.CallInTurn | core/mcp/mcp_server_protocol.c:173-203 | over any sequence of calls the template is unchanged and each outcome is that of the call alone |
| ToolSchema.BuildInputSchema | core/mcp/mcp_tool.c:59-87 | the property loop yields the schema whose required names are those without a default, in order, and omits an empty list |
| ToolSchema.ToolToJson | core/mcp/mcp_tool.c:50-100 | the whole advertised JSON, annotated exactly for user-only tools |
| ToolSchema.RequiredInOrder | core/mcp/mcp_tool.c:71-74 | required names come in the order of the properties |
| ToolSchema.RequiredAdvertised | core/mcp/mcp_tool.c:83-87 | each property without a default is required once, and the list is there if and only if there is one |
| ToolSchema.DefaultAdvertised | core/mcp/mcp_property.c:312-332 | the default read from the schema is the property's |
| ToolSchema.PropertyValidates | core/mcp/mcp_property.c:303-340 | what an independent validator makes of the emitted property schema: type and exactly the declared bounds |
| ToolSchema.PropertyAgrees | core/mcp/mcp_property.c:276-301 | per property the checker takes all the schema takes, and beyond that only fractions and saturated numbers |
| ToolSchema.DefaultRoundTrip | core/mcp/mcp_property.c:312-332 | supplying the advertised default explicitly equals omitting the argument, exactly unless the default breaks the bounds |
| ToolSchema.InputValidates | core/mcp/mcp_tool.c:59-87 | the whole emitted schema stands for: an object whose parts fit and whose required members are present |
| ToolSchema.CheckerAgreesWithSchema | core/mcp/mcp_server_protocol.c:147-171 | with exactly spelt keys valid arguments are always accepted, and accepted ones are valid exactly when no number was lenient |
| ToolSchema.SchemaExactOnIntegers | core/mcp/mcp_server_protocol.c:147-171 | on integers in the int range acceptance and validity coincide |
| ToolSchema.NoArgumentsIsEmptyObject | core/mcp/mcp_server_protocol.c:156-162 | omitted arguments are accepted exactly when the empty object is valid |
| ToolSchema.AgreeOnEveryList | core/mcp/mcp_server_protocol.c:147-171 | for arbitrary arguments: agreement on every property list over some names holds if and only if the two lookups fare alike for each name |
| ToolSchema.AgreeOnList | core/mcp/mcp_server_protocol.c:147-171 | agreement on one list when the lookups fare alike for its names |
| ToolSchema.DifferOnOne | core/mcp/mcp_server_protocol.c:147-171 | otherwise a single property of the name on which the two disagree |
| ToolSchema.FractionAccepted | core/mcp/mcp_property.c:287-289 | instance: 9.5 passes for an integer of at most 9 |
| ToolSchema.RespeltAccepted | core/mcp/mcp_server_protocol.c:156 | instance: a required argument under another spelling passes though invalid |
| ToolSchema.ExtraSpellingRefused | core/mcp/mcp_server_protocol.c:156 | instance: valid arguments refused because of a respelt extra key |
| Growth.AppendsAmortised | core/posix/list.c:40-85 | n appends: capacity 4 times a power of two and below twice the need, fewer than max(4, 2n) elements moved altogether |
| Growth.GrownSized | core/mcp/mcp_server.c:110-113 | the growth loop keeps capacities at 0 or 4 times a power of two |
| Growth.GrownTight | core/posix/list.c:53-56 | capacities never shrink, and are doubled no further than needed |
| DynamicList.List.constructor | core/posix/list.c:10-19 | an empty list without storage |
| DynamicList.List.Reserve | core/posix/list.c:40-63 | contents kept across reallocation, capacity as grown, or nothing changed on failure |
| DynamicList.List.Add | core/posix/list.c:65-85 | appends, or changes nothing when memory runs out; the cost is that of one append |
| DynamicList.List.Get | core/posix/list.c:87-93 | the element at an index, or nothing beyond the count |
| DynamicList.List.Clear | core/posix/list.c:113-127 | hands every element to the free function, empties the list and keeps its storage |
| DynamicList.List.Free | core/posix/list.c:21-38 | hands every element to the free function, in order, and drops the storage |
| DynamicList.List.Clone | core/posix/list.c:129-146 | equal contents in fresh storage at the cost of that many appends; when a reallocation fails, the elements copied so far are freed and nothing is left |
| Growth.AppendedStops | core/posix/list.c:138-143 | the copy is complete if and only if every reallocation it needs succeeds, and else stops at one that fails |
| Registry.BucketFind | core/mcp/mcp_server.c:51-64 | searching a name's bucket finds what a search of the whole list finds |
| Registry.BucketSizesAddUp | core/mcp/mcp_server.c:67-94 | the sizes of the 256 buckets add up to the number of tools |
| Registry.RegisterKeepsInvariant | core/mcp/mcp_server.c:123-147 | one registration, whatever allocation fails, keeps the index an in-order part of the list with distinct names, within capacity |
| Registry.RunKeepsInvariant | core/mcp/mcp_server.c:123-147 | so does any run of registrations, which only ever appends |
| Registry.RegistersUnless | core/mcp/mcp_server.c:129-146 | in any state a registration changes nothing if and only if an indexed tool has the name, or the list is full and cannot be reallocated; otherwise the tool is listed last, and indexed last if its insertion succeeds |
| Registry.FreshNamesAllRegistered | core/mcp/mcp_server.c:123-147 | registrations of distinct names with memory to spare leave exactly their tools, in order, listed and indexed |
| Registry.LookupSound | core/mcp/mcp_server.c:51-64 | a lookup returns only listed tools of the right name even after failures, and equals linear search when index insertions succeeded |
| Registry.DuplicateOnlyIfUnindexed | core/mcp/mcp_server.c:128-144 | an admitted registration keeps names distinct if and only if the name is not listed without being indexed |
| Registry.NamesStayDistinctIff | core/mcp/mcp_server.c:128-144 | over any run the listed names stay distinct if and only if no name is registered again after its index insertion failed |
| Registry.FirstRegistrationWins | core/mcp/mcp_server.c:128-132 | once a tool is indexed, whatever follows, lookups of its name find it and another registration of that name changes nothing |
| Server.McpServer.FindTool | core/mcp/mcp_server.c:51-64 | the bucket loop returns the result of linear search over the indexed tools |
| Server.McpServer.AddToHash | core/mcp/mcp_server.c:67-94 | appends to one bucket only, or changes none |
| Server.McpServer.Reserve | core/mcp/mcp_server.c:105-121 | the doubling loop reaches the specified capacity, or changes nothing |
| Server.McpServer.AddTool | core/mcp/mcp_server.c:123-147 | keeps every bucket the in-order part of the indexed tools with its hash, and changes the registry as specified |
| Server.McpServer.DoToolCall | core/mcp/mcp_server_protocol.c:173-203 | sends exactly one reply, the outcome of the tool the index finds |
| Server.McpServer.HandleRequest | core/mcp/mcp_server_protocol.c:231-282 | each request method is answered by exactly one reply, and the registry is not written |
| Server.McpServer.ParseMessageJson | core/mcp/mcp_server_protocol.c:205-283 | sends the reply of a valid request and nothing for any other message |
| Server.McpServer.ParseMessage | core/mcp/mcp_server_protocol.c:349-358 | text that is not JSON sends nothing |
| Paging.BuildToolsList | core/mcp/mcp_server_protocol.c:81-145 | the single pass with its running estimate, skipping and early break yields the page and cursor of the declarative specification |
| Paging.FitsMeasured | core/mcp/mcp_server_protocol.c:104-127 | the estimate check and the measured check together decide as specified |
| Paging.ResumeIsPage | core/mcp/mcp_server_protocol.c:87-136 | the loop's continuation from the start is the page at the cursor |
| Paging.VisibleIs | core/mcp/mcp_server_protocol.c:93-95 | everything is visible to a client that asks for user tools, and else exactly what is not for users only, in order and as often as listed |
| PageSizes.TakenExactly | core/mcp/mcp_server_protocol.c:104-127 | in figures: what every tool on a page satisfies, by estimate and by measured length, and the first tool left out does not |
| PageSizes.OverlongOnlyUnmeasured | core/mcp/mcp_server_protocol.c:116-127 | a page exceeds 8001 characters only if its last tool stayed below the measuring threshold |
| PageSizes.OverlongSecondLeftOut | core/mcp/mcp_server_protocol.c:116-127 | instance: tools of 1000 and 7000 characters do not share a page |
| PageSizes.EstimateIs | core/mcp/mcp_server_protocol.c:89-105 | the running estimate is 50 and, for each tool, 200 with its name and description |
| PageSizes.BodyLengthIsPrinted | core/mcp/mcp_server_protocol.c:118-119 | the measured length is that of the printed text, commas and frame included |
| PageSizes.PageIs | core/mcp/mcp_server_protocol.c:87-140 | the page begins at the first tool of the cursor's name, and its cursor is the first 63 characters of the next tool's name |
| PageSizes.PageTakesFirst | core/mcp/mcp_server_protocol.c:104-127 | a page takes its first candidate if and only if name and description stay within 7750 and the JSON within 7988 |
| CursorWalk.CursorResolves | core/mcp/mcp_server_protocol.c:88-107 | the cursor naming a tool leads back to it if and only if the name has 1 to 63 characters |
| CursorWalk.OversizedToolRepeats | core/mcp/mcp_server_protocol.c:104-125 | the page a tool heads is empty and points at itself if and only if the tool does not fit alone |
| CursorWalk.UnknownCursorEndsWalk | core/mcp/mcp_server_protocol.c:96-102 | a cursor naming no visible tool yields an empty last page |
| CursorWalk.PageExtends | core/mcp/mcp_server_protocol.c:87-140 | one page continues the tools received by at least one, without repeats, and its cursor names the next |
| CursorWalk.CursorCarriesOver | core/mcp/mcp_server.c:137 | a cursor keeps its position when tools are appended |
| CursorWalk.RegistryDuringWalk | core/mcp/mcp_server.c:123-147 | registrations during a walk keep names distinct, tools pageable and the earlier list a prefix |
| CursorWalk.WalkIsComplete | core/mcp/mcp_server_protocol.c:87-140 | after any number of pages, with registrations in between: exactly the first visible tools, in order, each once; finished exactly when all; no more pages than tools, but for the one page of an empty list |
| CursorWalk.WalkBringsRegistered | core/mcp/mcp_server_protocol.c:87-140 | a finished walk brings every tool registered before or during it under distinct names that the client may see, in order, and nothing else |
| PageSizes.MeasureNeverFires | core/mcp/mcp_server_protocol.c:116-127 | where the JSON stays within its estimate the measured check never turns a tool away |
| PageSizes.PageIsBounded | core/mcp/mcp_server_protocol.c:89-136 | such a page has at most 39 tools and 8000 characters before the cursor |
| PageSizes.PageIsLongest | core/mcp/mcp_server_protocol.c:104-109 | no longer prefix of the remaining tools stays within the estimate |
| PageSizes.GreedyIsMinimal | core/mcp/mcp_server_protocol.c:91-136 | no in-order cut into pages within the estimate has fewer pages than the greedy cut |
| CursorWalk.WalkSoFarIsGreedy | core/mcp/mcp_server_protocol.c:87-140 | pages received and greedy pages still needed add up to the greedy total |
| CursorWalk.WalkIsGreedy | core/mcp/mcp_server_protocol.c:87-140 | a finished walk over a settled list took no more pages than any cut within the estimate |
| PageSizes.PagesKeepLimitIff | core/mcp/mcp_server_protocol.c:104-127 | for JSON of at most L characters and estimates of at least E, with E at least 200: every page of every list keeps 8000 characters before the cursor if and only if 7950 / E < 2 or (7950 / E) * (L + 1) < 7990 |
| PageSizes.UnmeasuredAllTaken | core/mcp/mcp_server_protocol.c:116-117 | tools whose estimates plus the longest JSON stay within 7200 all share a page, whatever their JSON adds up to |
| PageSizes.PageCanExceedLimit | core/mcp/mcp_server_protocol.c:116-117 | instance: three tools of 3600 characters make a page of 10814 |
| SettledWalk.SettledWalkCompletesIff | core/mcp/mcp_server_protocol.c:87-140 | over any settled list the walk brings every tool once, in order, and ends, if and only if each page's first tool fits alone and, after the first page, is the first of its name, of 1 to 63 characters |
| SettledWalk.PageBetween | core/mcp/mcp_server_protocol.c:87-140 | the pages that walk is about are the pages of tools/list |
| SettledWalk.PageableComplete | core/mcp/mcp_server_protocol.c:87-140 | pageable tools of distinct names satisfy that condition |
| SettledWalk.DuplicateNeverEnds | core/mcp/mcp_server_protocol.c:96-102 | instance: three tools of one page each, the last with the first's name, alternate for ever and the last is never shown |
| Dispatch.AnsweredIffEnvelope | core/mcp/mcp_server_protocol.c:205-283 | a message is answered if and only if, its envelope keys respelt exactly, a peer reads version, method and a number for its id in it; the reply has the version, and a result or an error but not both |
| Dispatch.AnsweredAsSpecified | core/mcp/mcp_server_protocol.c:211-229 | the messages answered against the requests of JSON-RPC 2.0 section 4: with exactly spelt envelope keys the two agree if and only if, given an envelope, the id is a number just when the parameters are structured |
| Dispatch.TextIdUnanswered | core/mcp/mcp_server_protocol.c:224-228 | instance: a request with a string for its id gets no reply |
| Dispatch.RespeltAnswered | core/mcp/mcp_server_protocol.c:211-229 | instance: a message with misspelt member names, no request, gets one |
| Dispatch.IdEchoed | core/mcp/mcp_server_protocol.c:224-229 | the reply carries the message's own id if and only if that is an integer a C int holds |
| Answers.InitializeSays | core/mcp/mcp_server_protocol.c:65-79 | the initialize result as a peer reads it: protocol version, tools capability, the server's name or the default |
| Answers.ListSays | core/mcp/mcp_server_protocol.c:238-259 | tools/list with any parameters: a cursor that is no string counts as none, and user tools are listed for the boolean true only |
| Answers.CallSays | core/mcp/mcp_server_protocol.c:195-198 | a call that goes through replies with what the callback makes of the filled arguments |
| Answers.ErrorSays | core/mcp/mcp_server_protocol.c:173-283 | the text of every error reply, by what is wrong with the request, cut at 127 characters |
| Dispatch.ErrorsLackCode | core/mcp/mcp_server_protocol.c:40-54 | a reply is a result, and conforms to sections 5 and 5.1 of JSON-RPC 2.0, if and only if the request is initialize, tools/list, or a call of an indexed tool with a callback whose arguments pass |
| Dispatch.CallableIffIndexed | core/mcp/mcp_server_protocol.c:173-203 | in every registry a listed tool is what a call by its name reaches if and only if its index insertion succeeded |
| Dispatch.ListedIsCallable | core/mcp/mcp_server_protocol.c:173-203 | after any registrations, a tool on any page is reached exactly when indexed, so always while insertions succeed |
| Dispatch.UnindexedAnswers | core/mcp/mcp_server.c:139-144 | a listed tool the index missed is answered as unknown exactly when no tool of its name was indexed; otherwise another listed tool of that name answers in its place |
| Client.ListAnswered | core/mcp/mcp_server_protocol.c:238-259 | a tools/list request is answered with the page for its cursor and flag |
| Client.CallAnswered | core/mcp/mcp_server_protocol.c:261-278 | a tools/call request is answered with the outcome for its name and arguments |
| Client.ListRoundTrip | core/mcp/mcp_server_protocol.c:238-259 | the client reads back each tool's name, description, schema and audience in order, and a cursor exactly when there is a next page |
| Client.ListedCallSucceeds | core/mcp/mcp_server_protocol.c:173-203 | a listed and indexed tool called with arguments its listed schema allows replies with its callback's result on them |
| ClientWalk.NamesReadAreVisible | core/mcp/mcp_server_protocol.c:81-145 | going by replies alone, while tools keep being registered: the names read are the first of the visible ones, in order, none twice, and the cursors end exactly when they are all |
| RingQueue.SlotIsModulo | core/posix/queue.c:70 | the tail is (head + count) modulo the queue size |
| RingQueue.SlotsDistinct | core/posix/queue.c:67-72 | live slots are distinct |
| RingQueue.AreasInOrder | core/posix/queue.c:67-68 | slots occupy disjoint byte ranges of the item size |
| RingQueue.SlotsInBufferIffNoWrap | core/posix/queue.c:31-33 | every slot lies in the allocated buffer if and only if the 32-bit size product does not wrap |
| RingQueue.ByteQueue.constructor | core/posix/queue.c:25-44 | a new queue is well-formed exactly when the product does not wrap, and then empty |
| RingQueue.ByteQueue.SendPass | core/posix/queue.c:63-72 | appends the item's bytes to the FIFO contents, or waits when full with nothing changed |
| RingQueue.ByteQueue.Copy | core/posix/queue.c:67-68 | writing one slot leaves all others as they were |
| RingQueue.ByteQueue.RecvPass | core/posix/queue.c:113-120 | takes the oldest item's bytes, or returns nothing when empty |
| RingQueue.ByteQueue.Reset | core/posix/queue.c:127-144 | empties the queue and zeroes its bytes |
| QueueMonitor.StepKeepsInvariant | core/posix/queue.c:57-144 | every step of sending, receiving, waking, expiring and resetting keeps the waiter counts and the FIFO |
| QueueMonitor.RunKeepsInvariant | core/posix/queue.c:57-144 | over every interleaving: a receiver sleeps only while woken receivers cover all items, a sender only while woken senders cover all free slots, and sent equals received then queued since the last reset |
| QueueMonitor.NobodyStranded | core/posix/queue.c:61-76 | with a slot at least, once nobody is woken sleepers of both kinds never coexist, and they sleep on an empty or a full queue |
| QueueMonitor.LeaveOnlyServed | core/posix/queue.c:57-125 | over every run, by what each thread asked for on entering: a sender leaves exactly when a slot is free, which its own item takes; a receiver takes the oldest item if there is one, and else leaves exactly when it was not to wait or its timed wait has expired; nobody else leaves |
| QueueMonitor.OnlyTimedExpires | core/posix/queue.c:102-110 | a timed wait on an empty queue can expire and end empty-handed, one for ever cannot expire |
| QueueMonitor.ResetEmpties | core/posix/queue.c:127-144 | a reset leaves the queue empty, everybody inside and nobody asleep |
| QueueMonitor.CanGoOn | core/posix/queue.c:57-144 | which steps are open to a thread in any state |
| QueueMonitor.NoSlotsNoItems | core/posix/queue.c:63-65 | a queue of no slots never stores an item |
| QueueMonitor.StoresIffSlots | core/posix/queue.c:63-65 | some run stores an item if and only if there is a slot |
| BackgroundSched.Sched.Post | core/posix/background_sched.c:89-114 | links a new node behind the tail: the queue gains the task at its end and the counter counts it |
| BackgroundSched.Sched.TakeTurn | core/posix/background_sched.c:32-48 | the worker's locked look takes the head, sleeps or exits, and keeps list, tail pointer and counters right |
| BackgroundSched.Sched.WorkerMain | core/posix/background_sched.c:28-59 | once stopped, with nobody posting, the worker runs everything queued once, in order, and exits with empty list and both counters back where they belong |
| BackgroundSched.Sched.FreeQueued | core/posix/background_sched.c:127-132 | the closing loop visits every queued node once, in order |
| WorkerProtocol.StepKeepsInvariant | core/posix/background_sched.c:28-138 | every step keeps conservation, the counters and the no-missed-signal property |
| WorkerProtocol.RunKeepsInvariant | core/posix/background_sched.c:28-138 | over every interleaving: posted = finished, in flight, queued, dropped, in order; pending and active agree; the worker sleeps only on an empty running queue |
| WorkerProtocol.TasksConserved | core/posix/background_sched.c:28-138 | the tasks of a run's posts are those that have run, run, are queued or were dropped, in that order |
| WorkerProtocol.DrainedAtExit | core/posix/background_sched.c:36-39 | at the look by which the worker leaves, the tasks of all posts before it have run once, in order, and whatever is freed unrun was posted after it |
| WorkerProtocol.LookLeadsTo | core/posix/background_sched.c:32-48 | the worker takes the oldest task, sleeps without one while running, and else leaves |
| WorkerProtocol.CanGoOn | core/posix/background_sched.c:28-138 | which steps are open in any state |
| WorkerProtocol.ShutdownTerminates | core/posix/background_sched.c:116-138 | after destroy was called a run with p more posts has a bounded number of steps |
| WorkerProtocol.ShutdownProgresses | core/posix/background_sched.c:116-138 | until everything is freed the worker or destroy itself can step |
| Pipeline.RunKeepsInvariant | core/mcp/mcp_server.c:177-228 | on every run each message buffer is freed or held, never both, and the log is the replies to the freed ones in that order |
| Pipeline.BuffersFreedOnce | core/mcp/mcp_server.c:177-228 | no buffer is freed twice, and one not freed is held by the worker or was dropped by its teardown |
| Pipeline.ReceivedIsMessages | core/mcp/mcp_server.c:199-226 | what a run has received is the messages of its steps, in order |
| Pipeline.RepliesInOrder | core/mcp/mcp_server.c:177-228 | when all messages go through the worker, what is sent is what dispatching the first of the received messages sends, in order: all but those the worker holds |
| Pipeline.RepliesAtExit | core/mcp/mcp_server.c:177-228 | once the worker has left, what is sent is what dispatching the messages received before that look sends |
| Pipeline.RepliesPerMessage | core/mcp/mcp_server_protocol.c:205-283 | one reply per message whose respelt envelope has a number for its id, none for any other; with exactly spelt keys it carries the message's id if and only if a C int holds it |
| Pipeline.InlineKeepsFreeingOrderIffIdle | core/mcp/mcp_server.c:208-222 | the inline fallback keeps the order in which buffers are freed if and only if the worker holds nothing |
| ReplyOrder.InlineKeepsReplyOrderIff | core/mcp/mcp_server.c:208-222 | it keeps the order of replies if and only if its message gets no reply or the worker holds no message that gets one |
| ReplyOrder.ReplyOrderIff | core/mcp/mcp_server.c:177-228 | over whole runs replies come in order if and only if that held at every inline message; an order once lost stays lost |
| ReplyOrder.OrderedLog | core/mcp/mcp_server.c:177-228 | in order means: the log is the first of the replies to the messages as received, and all of them when the worker holds none that gets one |
| ReplyOrder.HarmlessRunSends | core/mcp/mcp_server.c:177-228 | over a run whose inline messages were harmless, what is sent begins what dispatching the received messages sends, and is all of it when the worker holds none that gets a reply |
| EventGroup.Group.SetBit | core/posix/event_group.c:41-49 | sets just those bits, and makes no waiting condition false |
| EventGroup.Group.ClearBit | core/posix/event_group.c:51-58 | clears just those bits, and makes no waiting condition true |
| EventGroup.Group.WaitPass | core/posix/event_group.c:77-96 | one round of the wait loop takes, gives up or sleeps as specified |
| EventGroup.Group.GetBit | core/posix/event_group.c:106-117 | nonzero exactly where a wait for any of the bits would not sleep, whole exactly where a wait for all would not, and nothing for a mask with the top bit |
| EventGroup.GetAfterSet | core/posix/event_group.c:106-117 | what was just set reads back if and only if the mask lacks the top bit |
| EventGroup.WaitEndsAsAsked | core/posix/event_group.c:59-105 | over every run, by what each thread asked for on entering: with its condition met it returns exactly its bits and clears exactly what it was to clear; otherwise it returns if not to wait, sleeps if to wait, and after an expiry returns its bits, changing none |
| EventGroup.SetSets | core/posix/event_group.c:41-49 | the step of a set sets just those bits |
| EventGroup.SetWakes | core/posix/event_group.c:46 | and leaves everybody inside and nobody asleep |
| EventGroup.ClearClears | core/posix/event_group.c:51-58 | the step of a clear clears just those bits and wakes nobody |
| EventGroup.NoMissedWakeup | core/posix/event_group.c:41-105 | over every interleaving a sleeping waiter's condition is false on the current bits |
| EventGroup.TokensNeverMultiply | core/posix/event_group.c:77-91 | successful waits on a bit used as a token, plus the bit if set, never exceed the sets of it |
| EventGroup.UntakenOnlyOnExpiry | core/posix/event_group.c:98-103 | a wait returns the token without taking it if and only if it had timed out and the bit is set |
| EventGroup.TimeoutReturnsUntakenBit | core/posix/event_group.c:98-103 | instance: one set, two nonzero returns |
| Schedule.Scheduler.Post | core/posix/schedule.c:52-74 | the tail walk appends the task at the end of the list |
| Schedule.Scheduler.Pop | core/posix/schedule.c:90-93 | the locked pop takes the oldest task |
| Schedule.Scheduler.RunQueued | core/posix/schedule.c:76-100 | run alone: queued tasks and those their callbacks post run once, in order; those left when running is cleared are still queued |
| Schedule.SingleRunnerSafe | core/posix/schedule.c:82-99 | with one runner and any posters the pop after the unlocked test always finds a task, and the tasks of a run's posts are those that have run, run or are queued, in that order |
| Schedule.RunnerGoesOn | core/posix/schedule.c:82-99 | a runner goes on exactly while its test finds a task, and in any state can go on |
| Schedule.SafeIffSingleRunner | core/posix/schedule.c:82-99 | for n runners no run pops an empty queue if and only if n is at most 1 |

## Left out

- Sockets, receive threads, connection setup, hello messages, notifications, session ids and logging: no property beyond plumbing. One received chunk is one message, and sending appends to a log.
- The text of JSON: parsing and printing belong to the cJSON library, which is not part of this model. Messages are trees, and the printed length of a tool is a parameter.
- The content a callback's return value is wrapped in (`core/mcp/mcp_return_value.c`): a callback is an arbitrary function from its arguments to JSON content, without side effects.
- Allocation failure, except in the registry and the list, where it is part of what is claimed. In particular the clone of the argument list and the printing of a tool succeed.
- Null-pointer guards of the public functions: a null server, tool, list, group or queue does not arise. A missing task callback does, as `None`.
- Bytes are characters: names and messages are compared code by code, without encodings, and contain no NUL.
- The server holds its tools, and each bucket its entries, as sequences that are reassigned; that the arrays are reallocated in place is modelled for the generic list only.
- The registry is fixed while messages are in the pipeline: registration takes no lock against the worker, so no interleaving of the two is promised. Registrations between requests are in `CursorWalk` and `ClientWalk`.
- Batches of JSON-RPC requests: the server answers none, an array having no members.
- The server's dispatch uses argument checking on values; that the heap code has the same outcome is `PropertyHeap.CallTool`.
- The add functions that build a template, and the getters' loops: the getters are functions.
- The server name and its copying into a fixed buffer: it is a field.
- Mutexes and condition variables: a pass through a locked region is one step, a signal wakes at least one waiter if there is any. Unlocked reads (`schedule_run`) are steps of their own, but read the current value.
- Time: a timed wait may expire at any moment; the arithmetic on timestamps is not part of this model.
- `schedule_destroy`, and using a scheduler, queue or group after it was deleted.
- Liveness of the monitors under a fair scheduler: the results are safety, progress and bounds on steps.
- CursorWalk.WalkIsComplete: assumes successful index insertions, pageable tools and an unchanged `withUserTools`, because the walk can fail without them; for a settled list `SettledWalkCompletesIff` has the exact condition.
- PageSizes.GreedyIsMinimal: measures pages by the estimate, as the code does, because only where the estimates hold does the estimate decide.
