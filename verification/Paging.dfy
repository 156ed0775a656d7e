/** Cutting the tool list into pages (mcp_server_build_tools_list in
    core/mcp/mcp_server_protocol.c) and following the cursor from page to page. */
module Paging {
  import opened Json
  import opened ToolSchema
  import opened Registry

  const MAX_PAYLOAD: nat := 8000
  const MEASURE_ABOVE: nat := 7200 // nine tenths of it
  const BASE_ESTIMATE: nat := 50
  const EMPTY_BODY: nat := 12 // {"tools":[]}
  const CURSOR_LENGTH: nat := 63 // a 64-byte buffer, NUL included

  /** Length of a tool's printed JSON. */
  type Size = Tool -> nat

  function Estimate(t: Tool): nat {
    |t.name| + |t.description| + 200
  }

  function EstimateOf(page: seq<Tool>): nat {
    if page == [] then BASE_ESTIMATE else EstimateOf(page[..|page| - 1]) + Estimate(page[|page| - 1])
  }

  /** Length of the printed page without a cursor: brackets, tools and commas. */
  function BodyLength(page: seq<Tool>, size: Size): nat {
    if page == [] then EMPTY_BODY
    else BodyLength(page[..|page| - 1], size) + size(page[|page| - 1]) + if |page| == 1 then 0 else 1
  }

  function Visible(tools: seq<Tool>, withUserTools: bool): (r: seq<Tool>)
    ensures forall t <- r :: t in tools
  {
    if tools == [] then []
    else
      var last := tools[|tools| - 1];
      Visible(tools[..|tools| - 1], withUserTools) + if withUserTools || !last.userOnly then [last] else []
  }

  /** Whether `t` still goes on the page `sofar`: the estimate first, and near
      the limit the measured length. */
  predicate Fits(sofar: seq<Tool>, t: Tool, size: Size) {
    && EstimateOf(sofar) + Estimate(t) <= MAX_PAYLOAD
    && (EstimateOf(sofar) + size(t) > MEASURE_ABOVE ==> size(t) + BodyLength(sofar, size) <= MAX_PAYLOAD)
  }

  /** How many more tools the page takes. */
  function Taken(rest: seq<Tool>, sofar: seq<Tool>, size: Size): (k: nat)
    ensures k <= |rest|
  {
    if rest == [] || !Fits(sofar, rest[0], size) then 0
    else 1 + Taken(rest[1..], sofar + [rest[0]], size)
  }

  /** Position of the first tool of that name, or the end. */
  function IndexOf(tools: seq<Tool>, name: string): (k: nat)
    ensures k <= |tools| && (k < |tools| ==> tools[k].name == name)
    ensures forall j :: 0 <= j < k ==> tools[j].name != name
  {
    if tools == [] || tools[0].name == name then 0 else 1 + IndexOf(tools[1..], name)
  }

  function Start(visible: seq<Tool>, cursor: string): (k: nat)
    ensures k <= |visible|
  {
    if cursor == "" then 0 else IndexOf(visible, cursor)
  }

  /** The name as it survives in the cursor buffer. */
  function CursorFor(name: string): string {
    if |name| <= CURSOR_LENGTH then name else name[..CURSOR_LENGTH]
  }

  datatype Page = Page(tools: seq<Tool>, next: string)

  function PageAt(visible: seq<Tool>, cursor: string, size: Size): Page {
    var from := Start(visible, cursor);
    var end := from + Taken(visible[from..], [], size);
    Page(visible[from..end], if end < |visible| then CursorFor(visible[end].name) else "")
  }

  lemma {:induction false} VisibleSplit(tools: seq<Tool>, i: nat, withUserTools: bool)
    requires i <= |tools|
    ensures Visible(tools[..i], withUserTools) <= Visible(tools, withUserTools)
  {
    if i < |tools| {
      VisibleSplit(tools[..|tools| - 1], i, withUserTools);
      assert tools[..|tools| - 1][..i] == tools[..i];
    } else {
      assert tools[..i] == tools;
    }
  }

  /** What is visible: everything, or what is not for users only; in order, and as
      often as it is listed. */
  lemma VisibleIs(a: seq<Tool>, b: seq<Tool>, t: Tool, withUserTools: bool)
    ensures Visible(a, true) == a
    ensures Visible([t], false) == if t.userOnly then [] else [t]
    ensures Visible(a + b, withUserTools) == Visible(a, withUserTools) + Visible(b, withUserTools)
  {
    assert [t][..0] == [];
    AllVisible(a);
    VisibleConcat(a, b, withUserTools);
  }

  lemma {:induction false} AllVisible(a: seq<Tool>)
    ensures Visible(a, true) == a
  {
    if a != [] {
      AllVisible(a[..|a| - 1]);
    }
  }

  lemma {:induction false} VisibleConcat(a: seq<Tool>, b: seq<Tool>, withUserTools: bool)
    ensures Visible(a + b, withUserTools) == Visible(a, withUserTools) + Visible(b, withUserTools)
  {
    if b == [] {
      assert a + b == a;
    } else {
      var last := b[|b| - 1];
      VisibleConcat(a, b[..|b| - 1], withUserTools);
      assert (a + b)[..|a + b| - 1] == a + b[..|b| - 1] && (a + b)[|a + b| - 1] == last;
      Regroup(Visible(a, withUserTools), Visible(b[..|b| - 1], withUserTools), if withUserTools || !last.userOnly then [last] else []);
    }
  }

  /** The page loop's continuation: the page it ends with when it still has `rest` to go through. */
  ghost function Resume(rest: seq<Tool>, start: bool, page: seq<Tool>, cursor: string, size: Size): Page {
    if rest == [] then Page(page, "")
    else if !start && rest[0].name != cursor then Resume(rest[1..], start, page, cursor, size)
    else if Fits(page, rest[0], size) then Resume(rest[1..], true, page + [rest[0]], cursor, size)
    else Page(page, CursorFor(rest[0].name))
  }

  lemma MovedOver<T>(done: seq<T>, rest: seq<T>, j: nat)
    requires 0 < j <= |rest|
    ensures done + [rest[0]] + rest[1..][..j - 1] == done + rest[..j]
  {
  }

  lemma {:induction false} ResumeStarted(rest: seq<Tool>, page: seq<Tool>, cursor: string, size: Size)
    ensures var k := Taken(rest, page, size);
            Resume(rest, true, page, cursor, size) == Page(page + rest[..k], if k < |rest| then CursorFor(rest[k].name) else "")
  {
    if rest != [] && Fits(page, rest[0], size) {
      ResumeStarted(rest[1..], page + [rest[0]], cursor, size);
      var k := Taken(rest[1..], page + [rest[0]], size);
      MovedOver(page, rest, k + 1);
    }
  }

  lemma {:induction false} ResumeSearching(rest: seq<Tool>, cursor: string, size: Size)
    ensures Resume(rest, false, [], cursor, size) == Resume(rest[IndexOf(rest, cursor)..], true, [], cursor, size)
  {
    if rest != [] && rest[0].name != cursor {
      ResumeSearching(rest[1..], cursor, size);
      assert rest[1..][IndexOf(rest[1..], cursor)..] == rest[IndexOf(rest, cursor)..];
    }
  }

  lemma ResumeIsPage(visible: seq<Tool>, cursor: string, size: Size)
    ensures Resume(visible, cursor == "", [], cursor, size) == PageAt(visible, cursor, size)
  {
    var from := Start(visible, cursor);
    if cursor != "" {
      ResumeSearching(visible, cursor, size);
    } else {
      assert visible[from..] == visible;
    }
    ResumeStarted(visible[from..], [], cursor, size);
    var k := Taken(visible[from..], [], size);
    assert [] + visible[from..][..k] == visible[from..from + k];
  }

  lemma NextVisible(tools: seq<Tool>, i: nat, withUserTools: bool)
    requires i < |tools|
    ensures var seen := |Visible(tools[..i], withUserTools)|;
            var visible := Visible(tools, withUserTools);
            if withUserTools || !tools[i].userOnly
            then seen < |visible| && visible[seen] == tools[i] && |Visible(tools[..i + 1], withUserTools)| == seen + 1
            else |Visible(tools[..i + 1], withUserTools)| == seen
  {
    VisibleSplit(tools, i + 1, withUserTools);
    assert tools[..i + 1][..i] == tools[..i];
  }

  /** mcp_server_build_tools_list, as the single pass it is. */
  method BuildToolsList(tools: seq<Tool>, cursor: string, includeUserTools: bool, size: Size)
    returns (page: seq<Tool>, nextCursor: string)
    ensures Page(page, nextCursor) == PageAt(Visible(tools, includeUserTools), cursor, size)
  {
    var start := cursor == "";
    var estimated := BASE_ESTIMATE;
    page, nextCursor := [], "";
    ghost var visible := Visible(tools, includeUserTools);
    ghost var seen := 0;
    ResumeIsPage(visible, cursor, size);
    assert visible[0..] == visible;
    for i := 0 to |tools|
      invariant estimated == EstimateOf(page) && nextCursor == ""
      invariant seen == |Visible(tools[..i], includeUserTools)| <= |visible|
      invariant Resume(visible[seen..], start, page, cursor, size) == PageAt(visible, cursor, size)
    {
      var tool := tools[i];
      NextVisible(tools, i, includeUserTools);
      if includeUserTools || !tool.userOnly {
        start := start || tool.name == cursor;
        if start {
          var fits := FitsMeasured(page, estimated, tool, size);
          if !fits {
            nextCursor := CursorFor(tool.name);
            break;
          }
          page := page + [tool];
          estimated := estimated + Estimate(tool);
          assert page[..|page| - 1] + [tool] == page;
        }
        assert visible[seen..][1..] == visible[seen + 1..];
        seen := seen + 1;
      }
    }
    assert tools[..|tools|] == tools;
  }

  /** The two size checks: the running estimate, then the measured length. */
  method FitsMeasured(page: seq<Tool>, estimated: nat, tool: Tool, size: Size) returns (fits: bool)
    requires estimated == EstimateOf(page)
    ensures fits == Fits(page, tool, size)
  {
    if estimated + (|tool.name| + |tool.description| + 200) > MAX_PAYLOAD {
      return false;
    }
    if estimated + size(tool) > MEASURE_ABOVE {
      var rootLength := BodyLength(page, size);
      if size(tool) + rootLength > MAX_PAYLOAD {
        return false;
      }
    }
    return true;
  }
}
