/** A client following nextCursor while tools keep being registered. */
module CursorWalk {
  import opened Json
  import opened ToolSchema
  import opened Registry
  import opened Paging
  import opened PageSizes

  /** A tool every page has room for and whose name fits the cursor. */
  predicate Pageable(t: Tool, size: Size) {
    1 <= |t.name| <= 63 && FitsAlone(t, size)
  }

  lemma IndexOfDistinct(tools: seq<Tool>, k: nat)
    requires DistinctNames(tools) && k < |tools|
    ensures IndexOf(tools, tools[k].name) == k
  {
  }

  /** The cursor of a page that stops at tool `k` leads back to tool `k` exactly
      when its name is 1 to 63 characters long. */
  lemma CursorResolves(visible: seq<Tool>, k: nat)
    requires DistinctNames(visible) && k < |visible|
    ensures var cursor := CursorFor(visible[k].name);
            cursor != "" && Start(visible, cursor) == k <==> 1 <= |visible[k].name| <= 63
  {
  }

  /** A tool too large for any page stops the walk for good: the page it heads is
      empty and points at itself. */
  lemma OversizedToolRepeats(visible: seq<Tool>, k: nat, size: Size)
    requires DistinctNames(visible) && k < |visible| && 1 <= |visible[k].name| <= 63
    ensures PageAt(visible, visible[k].name, size) == Page([], visible[k].name) <==> !FitsAlone(visible[k], size)
  {
  }

  /** A cursor naming no visible tool, say a user-only tool after the flag was
      dropped, ends the walk with an empty page. */
  lemma UnknownCursorEndsWalk(visible: seq<Tool>, cursor: string, size: Size)
    requires cursor != "" && forall i :: 0 <= i < |visible| ==> visible[i].name != cursor
    ensures PageAt(visible, cursor, size) == Page([], "")
  {
  }

  lemma {:induction false} VisibleDistinct(tools: seq<Tool>, withUserTools: bool)
    requires DistinctNames(tools)
    ensures DistinctNames(Visible(tools, withUserTools))
  {
    if tools != [] {
      var init, last := tools[..|tools| - 1], tools[|tools| - 1];
      VisibleDistinct(init, withUserTools);
      forall t | t in Visible(init, withUserTools)
        ensures t.name != last.name
      {
        var i :| 0 <= i < |init| && init[i] == t;
        assert tools[i].name != tools[|init|].name;
      }
    }
  }

  /** One page of the walk. */
  lemma PageExtends(visible: seq<Tool>, before: seq<Tool>, cursor: string, size: Size, page: seq<Tool>, next: string)
    requires DistinctNames(visible) && forall t <- visible :: Pageable(t, size)
    requires before <= visible && Start(visible, cursor) == |before|
    requires Page(page, next) == PageAt(visible, cursor, size)
    ensures before + page <= visible && DistinctNames(before + page)
    ensures next == "" <==> before + page == visible
    ensures next != "" ==> |before + page| < |visible| && visible[|before + page|].name == next
    ensures page == [] <==> before == visible
  {
    var from := |before|;
    var end := from + Taken(visible[from..], [], size);
    if from < |visible| {
      PageTakesFirst(visible[from..], size);
      assert visible[from] in visible;
    }
    if end < |visible| {
      assert visible[end] in visible;
    }
    assert visible[..from] + visible[from..end] == visible[..end];
  }

  /** One round of a walk: the registrations attempted since the previous
      request, and the page and cursor the request is answered with. */
  datatype Round = Round(registrations: seq<Registration>, page: seq<Tool>, next: string)

  /** The registry when the last page was built. */
  function RegistryAfter(walk: seq<Round>): State {
    if walk == [] then State([], [], 0)
    else RegisterAll(RegistryAfter(walk[..|walk| - 1]), walk[|walk| - 1].registrations)
  }

  function CursorAfter(walk: seq<Round>): string {
    if walk == [] then "" else walk[|walk| - 1].next
  }

  /** All pages, one after the other. */
  function Received(walk: seq<Round>): seq<Tool> {
    if walk == [] then [] else Received(walk[..|walk| - 1]) + walk[|walk| - 1].page
  }

  function VisibleAfter(walk: seq<Round>, withUserTools: bool): seq<Tool> {
    Visible(RegistryAfter(walk).tools, withUserTools)
  }

  /** A walk: the client starts with an empty cursor, follows each cursor it is
      given, and stops at an empty one.  Registrations may come between any two
      pages; index insertions succeed and the tools are pageable. */
  ghost predicate Walk(walk: seq<Round>, withUserTools: bool, size: Size) {
    walk != [] ==>
      var before, last := walk[..|walk| - 1], walk[|walk| - 1];
      && Walk(before, withUserTools, size)
      && (before != [] ==> CursorAfter(before) != "")
      && (forall r <- last.registrations :: r.indexOk && Pageable(r.tool, size))
      && Page(last.page, last.next) == PageAt(VisibleAfter(walk, withUserTools), CursorAfter(before), size)
  }

  lemma {:induction false} TheyArePageable(s: State, rs: seq<Registration>, size: Size)
    requires forall t <- s.tools :: Pageable(t, size)
    requires forall r <- rs :: Pageable(r.tool, size)
    ensures forall t <- RegisterAll(s, rs).tools :: Pageable(t, size)
    decreases |rs|
  {
    if rs != [] {
      TheyArePageable(Register(s, rs[0]), rs[1..], size);
    }
  }

  /** What the registrations of a walk maintain. */
  lemma {:induction false} RegistryDuringWalk(walk: seq<Round>, withUserTools: bool, size: Size)
    requires Walk(walk, withUserTools, size)
    ensures var s := RegistryAfter(walk);
            && Invariant(s) && s.indexed == s.tools && DistinctNames(s.tools)
            && (forall t <- s.tools :: Pageable(t, size))
            && (walk != [] ==> RegistryAfter(walk[..|walk| - 1]).tools <= s.tools)
  {
    if walk != [] {
      var before, last := walk[..|walk| - 1], walk[|walk| - 1];
      RegistryDuringWalk(before, withUserTools, size);
      var s := RegistryAfter(before);
      RunKeepsInvariant(s, last.registrations);
      AllIndexed(s, last.registrations);
      TheyArePageable(s, last.registrations, size);
    }
  }

  /** The cursor carries over to the grown registry. */
  lemma CursorCarriesOver(older: seq<Tool>, newer: seq<Tool>, withUserTools: bool, k: nat)
    requires older <= newer && DistinctNames(newer) && k < |Visible(older, withUserTools)|
    ensures var visible := Visible(newer, withUserTools);
            Visible(older, withUserTools) <= visible && IndexOf(visible, Visible(older, withUserTools)[k].name) == k
  {
    assert newer[..|older|] == older;
    VisibleSplit(newer, |older|, withUserTools);
    VisibleDistinct(newer, withUserTools);
    IndexOfDistinct(Visible(newer, withUserTools), k);
  }

  /** What a walk has achieved: the pages so far are exactly the first of the
      visible tools, each once; the cursor is empty exactly when these are all
      the tools visible at the last page, and otherwise names the next; and every
      page advanced, but for a sole page of no tools. */
  ghost predicate Progress(walk: seq<Round>, withUserTools: bool) {
    var visible, got, cursor := VisibleAfter(walk, withUserTools), Received(walk), CursorAfter(walk);
    && got <= visible && DistinctNames(got)
    && (cursor == "" <==> got == visible)
    && (cursor != "" ==> |got| < |visible| && visible[|got|].name == cursor)
    && (|walk| <= |got| || (|walk| == 1 && visible == []))
  }

  /** Where the next page begins: right after what has been received. */
  lemma NextStart(walk: seq<Round>, withUserTools: bool, size: Size)
    requires Walk(walk, withUserTools, size) && walk != []
    requires var before := walk[..|walk| - 1]; before != [] ==> Progress(before, withUserTools)
    ensures var before, visible := walk[..|walk| - 1], VisibleAfter(walk, withUserTools);
            && Received(before) <= visible && Start(visible, CursorAfter(before)) == |Received(before)|
            && (before != [] ==> Received(before) != visible)
            && DistinctNames(visible) && forall t <- visible :: Pageable(t, size)
  {
    var before := walk[..|walk| - 1];
    RegistryDuringWalk(walk, withUserTools, size);
    VisibleDistinct(RegistryAfter(walk).tools, withUserTools);
    if before != [] {
      CursorCarriesOver(RegistryAfter(before).tools, RegistryAfter(walk).tools, withUserTools, |Received(before)|);
    }
  }

  /** Completeness under growth, after any number of pages. */
  lemma {:induction false} WalkIsComplete(walk: seq<Round>, withUserTools: bool, size: Size)
    requires Walk(walk, withUserTools, size) && walk != []
    ensures Progress(walk, withUserTools)
    decreases |walk|
  {
    var before, last := walk[..|walk| - 1], walk[|walk| - 1];
    if before != [] {
      WalkIsComplete(before, withUserTools, size);
    }
    NextStart(walk, withUserTools, size);
    PageExtends(VisibleAfter(walk, withUserTools), Received(before), CursorAfter(before), size, last.page, last.next);
  }

  lemma OnePageNeeded(visible: seq<Tool>, before: seq<Tool>, cursor: string, size: Size, page: seq<Tool>, next: string)
    requires DistinctNames(visible) && forall t <- visible :: Pageable(t, size)
    requires before <= visible && before != visible && Start(visible, cursor) == |before|
    requires Page(page, next) == PageAt(visible, cursor, size)
    ensures |before + page| <= |visible|
    ensures PagesNeeded(visible[|before|..], size) == 1 + PagesNeeded(visible[|before + page|..], size)
  {
    var from := |before|;
    var rest := visible[from..];
    PageTakesFirst(rest, size);
    assert rest[0] in visible;
    var k := Taken(rest, [], size);
    assert page == visible[from..from + k];
    assert rest[k..] == visible[|before + page|..];
  }

  /** Without registrations after the first request, the pages so far and those
      the greedy cut needs for the rest are as many as it needs for all. */
  lemma {:induction false} WalkSoFarIsGreedy(walk: seq<Round>, withUserTools: bool, size: Size)
    requires Walk(walk, withUserTools, size) && walk != []
    requires forall i :: 0 < i < |walk| ==> walk[i].registrations == []
    requires VisibleAfter(walk, withUserTools) != []
    ensures |Received(walk)| <= |VisibleAfter(walk, withUserTools)|
    ensures PagesNeeded(VisibleAfter(walk, withUserTools), size)
         == |walk| + PagesNeeded(VisibleAfter(walk, withUserTools)[|Received(walk)|..], size)
    decreases |walk|
  {
    var before, last := walk[..|walk| - 1], walk[|walk| - 1];
    var visible := VisibleAfter(walk, withUserTools);
    if before != [] {
      assert RegistryAfter(before) == RegistryAfter(walk);
      WalkIsComplete(before, withUserTools, size);
      WalkSoFarIsGreedy(before, withUserTools, size);
    } else {
      assert visible[0..] == visible;
    }
    NextStart(walk, withUserTools, size);
    OnePageNeeded(visible, Received(before), CursorAfter(before), size, last.page, last.next);
  }

  /** A finished walk without late registrations has exactly the pages the greedy
      cut needs, hence no more than any other cut. */
  lemma WalkIsGreedy(walk: seq<Round>, withUserTools: bool, size: Size, cut: seq<seq<Tool>>)
    requires Walk(walk, withUserTools, size) && walk != [] && CursorAfter(walk) == ""
    requires forall i :: 0 < i < |walk| ==> walk[i].registrations == []
    requires VisibleAfter(walk, withUserTools) != []
    ensures |walk| == PagesNeeded(VisibleAfter(walk, withUserTools), size)
    ensures Flatten(cut) == VisibleAfter(walk, withUserTools) && EstimatesHold(Flatten(cut), size)
            && (forall page <- cut :: EstimateOf(page) <= 8000)
            ==> |walk| <= |cut|
  {
    var visible := VisibleAfter(walk, withUserTools);
    WalkIsComplete(walk, withUserTools, size);
    WalkSoFarIsGreedy(walk, withUserTools, size);
    assert visible[|Received(walk)|..] == [];
    NextStart(walk, withUserTools, size) by {
      if |walk| > 1 {
        WalkIsComplete(walk[..|walk| - 1], withUserTools, size);
      }
    }
    if Flatten(cut) == visible && EstimatesHold(visible, size) && forall page <- cut :: EstimateOf(page) <= 8000 {
      GreedyIsMinimal(cut, size);
    }
  }

  /** All registrations attempted up to the last request. */
  function AllRegistrations(walk: seq<Round>): seq<Registration> {
    if walk == [] then [] else AllRegistrations(walk[..|walk| - 1]) + walk[|walk| - 1].registrations
  }

  lemma {:induction false} RegistryOfAll(walk: seq<Round>)
    ensures RegistryAfter(walk) == RegisterAll(State([], [], 0), AllRegistrations(walk))
  {
    if walk != [] {
      var before := walk[..|walk| - 1];
      RegistryOfAll(before);
      RegisterInTwo(State([], [], 0), AllRegistrations(before), walk[|walk| - 1].registrations);
    }
  }

  /** A finished walk brings what was registered: with distinct names and room in
      memory, every tool of a registration before or during the walk that the
      client may see, in order of registration, and nothing else. */
  lemma WalkBringsRegistered(walk: seq<Round>, withUserTools: bool, size: Size)
    requires Walk(walk, withUserTools, size) && walk != [] && CursorAfter(walk) == ""
    requires var rs := AllRegistrations(walk);
             && (forall r <- rs :: r.reserveOk)
             && (forall i, j :: 0 <= i < j < |rs| ==> rs[i].tool.name != rs[j].tool.name)
    ensures Received(walk) == Visible(ToolsOf(AllRegistrations(walk)), withUserTools)
    ensures withUserTools ==> Received(walk) == ToolsOf(AllRegistrations(walk))
  {
    AllIndexOk(walk, withUserTools, size);
    RegistryOfAll(walk);
    FreshNamesAllRegistered(AllRegistrations(walk));
    WalkIsComplete(walk, withUserTools, size);
    AllVisible(ToolsOf(AllRegistrations(walk)));
  }

  lemma {:induction false} AllIndexOk(walk: seq<Round>, withUserTools: bool, size: Size)
    requires Walk(walk, withUserTools, size)
    ensures forall r <- AllRegistrations(walk) :: r.indexOk
    decreases |walk|
  {
    if walk != [] {
      AllIndexOk(walk[..|walk| - 1], withUserTools, size);
    }
  }
}
