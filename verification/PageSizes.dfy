/** How much goes on a page of mcp_server_build_tools_list, and how many pages there are. */
module PageSizes {
  import opened Json
  import opened ToolSchema
  import opened Paging

  predicate FitsAlone(t: Tool, size: Size) {
    |t.name| + |t.description| <= 7750 && size(t) <= 7988
  }

  /** A page with a first candidate takes it exactly when it would fit alone. */
  lemma PageTakesFirst(rest: seq<Tool>, size: Size)
    requires rest != []
    ensures Taken(rest, [], size) >= 1 <==> FitsAlone(rest[0], size)
  {
  }

  /** Each tool's JSON, with the comma before it, is within its estimate. */
  ghost predicate EstimatesHold(tools: seq<Tool>, size: Size) {
    forall t <- tools :: size(t) + 1 <= Estimate(t)
  }

  lemma {:induction false} BodyWithinEstimate(page: seq<Tool>, size: Size)
    requires EstimatesHold(page, size)
    ensures BodyLength(page, size) <= EstimateOf(page) - 50 + 12
    ensures page != [] ==> BodyLength(page, size) < EstimateOf(page) - 50 + 12
    ensures EstimateOf(page) >= 50 + 200 * |page|
  {
    if page != [] {
      BodyWithinEstimate(page[..|page| - 1], size);
      assert page[|page| - 1] in page;
    }
  }

  /** Where the estimates hold the measured check never turns a tool away. */
  lemma MeasureNeverFires(sofar: seq<Tool>, t: Tool, size: Size)
    requires EstimatesHold(sofar, size) && size(t) + 1 <= Estimate(t)
    ensures Fits(sofar, t, size) <==> EstimateOf(sofar) + Estimate(t) <= 8000
  {
    BodyWithinEstimate(sofar, size);
  }

  lemma {:induction false} EstimateOfConcat(a: seq<Tool>, b: seq<Tool>)
    ensures EstimateOf(a + b) == EstimateOf(a) + EstimateOf(b) - 50
  {
    if b == [] {
      assert a + b == a;
    } else {
      EstimateOfConcat(a, b[..|b| - 1]);
      assert (a + b)[..|a + b| - 1] == a + b[..|b| - 1];
    }
  }

  /** What the greedy choice is: every tool taken fits on what precedes it, ... */
  lemma {:induction false} TakenFits(rest: seq<Tool>, sofar: seq<Tool>, size: Size, j: nat)
    requires j < Taken(rest, sofar, size)
    ensures Fits(sofar + rest[..j], rest[j], size)
  {
    if j == 0 {
      assert sofar + rest[..0] == sofar;
    } else {
      TakenFits(rest[1..], sofar + [rest[0]], size, j - 1);
      MovedOver(sofar, rest, j);
    }
  }

  /** ... and the next one does not. */
  lemma {:induction false} TakenStops(rest: seq<Tool>, sofar: seq<Tool>, size: Size)
    ensures var k := Taken(rest, sofar, size);
            k < |rest| ==> !Fits(sofar + rest[..k], rest[k], size)
  {
    if rest != [] && Fits(sofar, rest[0], size) {
      TakenStops(rest[1..], sofar + [rest[0]], size);
      var k := Taken(rest[1..], sofar + [rest[0]], size);
      MovedOver(sofar, rest, k + 1);
    } else {
      assert sofar + rest[..0] == sofar;
    }
  }

  /** What goes on a page, in figures: every tool on it keeps the running estimate
      within 8000, and was either not measured, its JSON and the estimate staying
      within 7200, or measured to keep the body before it within 8000; and the
      first tool left out fails this. */
  lemma TakenExactly(rest: seq<Tool>, size: Size)
    ensures forall j :: 0 <= j < Taken(rest, [], size) ==>
              && EstimateOf(rest[..j]) + |rest[j].name| + |rest[j].description| + 200 <= 8000
              && (EstimateOf(rest[..j]) + size(rest[j]) <= 7200 || size(rest[j]) + BodyLength(rest[..j], size) <= 8000)
    ensures var k := Taken(rest, [], size);
            k < |rest| ==>
              || EstimateOf(rest[..k]) + |rest[k].name| + |rest[k].description| + 200 > 8000
              || (EstimateOf(rest[..k]) + size(rest[k]) > 7200 && size(rest[k]) + BodyLength(rest[..k], size) > 8000)
  {
    var k := Taken(rest, [], size);
    forall j | 0 <= j < k
      ensures Fits(rest[..j], rest[j], size)
    {
      TakenFits(rest, [], size, j);
      assert [] + rest[..j] == rest[..j];
    }
    TakenStops(rest, [], size);
    assert [] + rest[..k] == rest[..k];
  }

  /** So a page is more than a comma too long only if its last tool was not measured. */
  lemma OverlongOnlyUnmeasured(rest: seq<Tool>, size: Size)
    requires BodyLength(rest[..Taken(rest, [], size)], size) > 8001
    ensures var k := Taken(rest, [], size);
            k > 0 && EstimateOf(rest[..k - 1]) + size(rest[k - 1]) <= 7200
  {
    var k := Taken(rest, [], size);
    TakenExactly(rest, size);
    if k > 0 {
      assert rest[..k][..k - 1] == rest[..k - 1];
    }
  }

  /** The page at a cursor: it begins at the first tool of that name, with no cursor
      at the first tool, and at the end when there is none of that name; and if
      tools are left its cursor is the first 63 characters of the next one's name. */
  lemma PageIs(visible: seq<Tool>, cursor: string, from: nat, size: Size)
    requires from <= |visible| && (cursor == "" ==> from == 0)
    requires cursor != "" ==> (from < |visible| ==> visible[from].name == cursor) && forall i :: 0 <= i < from ==> visible[i].name != cursor
    ensures var end := from + Taken(visible[from..], [], size);
            && PageAt(visible, cursor, size).tools == visible[from..end]
            && (end == |visible| ==> PageAt(visible, cursor, size).next == "")
            && (end < |visible| ==>
                  var name, next := visible[end].name, PageAt(visible, cursor, size).next;
                  next <= name && |next| == if |name| < 63 then |name| else 63)
  {
    assert Start(visible, cursor) == from;
  }

  /** For instance a short tool that prints 1000 characters and one that prints 7000
      do not share a page. */
  lemma OverlongSecondLeftOut(a: Tool, b: Tool, size: Size)
    requires size(a) == 1000 && size(b) == 7000 && |b.name| <= 63
    requires |a.name| + |a.description| + |b.name| + |b.description| <= 7550
    ensures PageAt([a, b], "", size) == Page([a], b.name)
  {
    var rest := [a, b];
    var k := Taken(rest, [], size);
    TakenExactly(rest, size);
    PageTakesFirst(rest, size);
    assert rest[..1] == [a] && [a][..0] == [];
    assert EstimateOf([a]) == 250 + |a.name| + |a.description| && BodyLength([a], size) == 1012;
    assert rest[0..] == rest && rest[0..1] == [a];
  }

  /** The running estimate: 50 for the frame, and 200 for each tool besides its name
      and description. */
  lemma EstimateIs(page: seq<Tool>, t: Tool)
    ensures EstimateOf([]) == 50
    ensures EstimateOf(page + [t]) == EstimateOf(page) + |t.name| + |t.description| + 200
  {
    assert (page + [t])[..|page|] == page;
  }

  /** The printed page without a cursor. */
  function Printed(page: seq<Tool>, text: Tool -> string): string {
    "{\"tools\":[" + Joined(page, text) + "]}"
  }

  function Joined(page: seq<Tool>, text: Tool -> string): string {
    if page == [] then ""
    else Joined(page[..|page| - 1], text) + (if |page| == 1 then "" else ",") + text(page[|page| - 1])
  }

  /** The measured length is that of the text. */
  lemma BodyLengthIsPrinted(page: seq<Tool>, text: Tool -> string)
    ensures BodyLength(page, t => |text(t)|) == |Printed(page, text)|
  {
    JoinedLength(page, text);
  }

  lemma {:induction false} JoinedLength(page: seq<Tool>, text: Tool -> string)
    ensures BodyLength(page, t => |text(t)|) == 12 + |Joined(page, text)|
  {
    if page != [] {
      JoinedLength(page[..|page| - 1], text);
    }
  }

  /** A page whose estimates hold has at most 39 tools, and at most 8000
      characters before the cursor. */
  lemma PageIsBounded(rest: seq<Tool>, size: Size)
    requires EstimatesHold(rest, size)
    ensures var k := Taken(rest, [], size);
            k <= 39 && BodyLength(rest[..k], size) <= 8000 && EstimateOf(rest[..k]) <= 8000
  {
    var k := Taken(rest, [], size);
    assert EstimatesHold(rest[..k], size);
    BodyWithinEstimate(rest[..k], size);
    if k > 0 {
      TakenFits(rest, [], size, k - 1);
      assert [] + rest[..k - 1] == rest[..k - 1] == rest[..k][..k - 1];
    }
  }

  lemma {:induction false} LongerCostsMore(rest: seq<Tool>, k: nat, j: nat)
    requires k < j <= |rest|
    ensures EstimateOf(rest[..j]) >= EstimateOf(rest[..k]) + Estimate(rest[k])
  {
    assert rest[..j][..j - 1] == rest[..j - 1];
    if k < j - 1 {
      LongerCostsMore(rest, k, j - 1);
    }
  }

  /** The page is the longest prefix within an estimate of 8000. */
  lemma PageIsLongest(rest: seq<Tool>, size: Size, j: nat)
    requires EstimatesHold(rest, size) && Taken(rest, [], size) < j <= |rest|
    ensures EstimateOf(rest[..j]) > 8000
  {
    var k := Taken(rest, [], size);
    TakenStops(rest, [], size);
    assert [] + rest[..k] == rest[..k];
    assert EstimatesHold(rest[..k], size) && rest[k] in rest;
    MeasureNeverFires(rest[..k], rest[k], size);
    LongerCostsMore(rest, k, j);
  }

  lemma EstimatePositive(page: seq<Tool>)
    ensures EstimateOf(page) >= 50
  {
  }

  /** Pages the greedy cut needs. */
  function PagesNeeded(rest: seq<Tool>, size: Size): nat
    decreases |rest|
  {
    if rest == [] then 0
    else var k := Taken(rest, [], size);
         if k == 0 then 0 else 1 + PagesNeeded(rest[k..], size)
  }

  /** A page started later ends no earlier. */
  lemma LaterReachesAsFar(rest: seq<Tool>, i: nat, size: Size)
    requires EstimatesHold(rest, size) && i <= Taken(rest, [], size)
    ensures Taken(rest, [], size) <= i + Taken(rest[i..], [], size)
  {
    var k, k' := Taken(rest, [], size), Taken(rest[i..], [], size);
    PageIsBounded(rest, size);
    if i + k' < k {
      assert rest[..k] == rest[..i] + rest[i..k];
      EstimateOfConcat(rest[..i], rest[i..k]);
      EstimatePositive(rest[..i]);
      assert rest[i..][..k - i] == rest[i..k];
      PageIsLongest(rest[i..], size, k - i);
    }
  }

  /** Starting later never needs more pages. */
  lemma {:induction false} FewerFromLater(rest: seq<Tool>, i: nat, size: Size)
    requires i <= |rest| && EstimatesHold(rest, size) && forall t <- rest :: FitsAlone(t, size)
    ensures PagesNeeded(rest[i..], size) <= PagesNeeded(rest, size)
    decreases |rest|
  {
    if i < |rest| {
      var k, k' := Taken(rest, [], size), Taken(rest[i..], [], size);
      PageTakesFirst(rest, size);
      assert rest[0] in rest;
      PageTakesFirst(rest[i..], size);
      assert rest[i] in rest;
      if i < k {
        LaterReachesAsFar(rest, i, size);
        FewerFromLater(rest[k..], i + k' - k, size);
        assert rest[k..][i + k' - k..] == rest[i..][k'..];
      } else {
        FewerFromLater(rest[k..], i - k, size);
        assert rest[k..][i - k..] == rest[i..];
      }
    }
  }

  /** No cut of the visible tools, in order, into pages of estimate 8000 at most
      uses fewer pages than the greedy one. */
  lemma {:induction false} GreedyIsMinimal(cut: seq<seq<Tool>>, size: Size)
    requires EstimatesHold(Flatten(cut), size) && forall t <- Flatten(cut) :: FitsAlone(t, size)
    requires forall page <- cut :: EstimateOf(page) <= 8000
    ensures PagesNeeded(Flatten(cut), size) <= |cut|
  {
    if cut != [] {
      var visible, later := Flatten(cut), Flatten(cut[1..]);
      assert visible == cut[0] + later;
      assert forall t <- later :: t in visible;
      GreedyIsMinimal(cut[1..], size);
      FirstPageReachesPast(visible, |cut[0]|, size);
      assert visible[..|cut[0]|] == cut[0] && visible[|cut[0]|..] == later;
    }
  }

  /** The greedy first page ends past any other admissible one. */
  lemma FirstPageReachesPast(visible: seq<Tool>, n: nat, size: Size)
    requires n <= |visible| && EstimateOf(visible[..n]) <= 8000
    requires EstimatesHold(visible, size) && forall t <- visible :: FitsAlone(t, size)
    ensures PagesNeeded(visible, size) <= 1 + PagesNeeded(visible[n..], size)
  {
    var k := Taken(visible, [], size);
    if n > k {
      PageIsLongest(visible, size, n);
    }
    var later := visible[n..];
    assert forall t <- later :: t in visible;
    FewerFromLater(later, k - n, size);
    assert later[k - n..] == visible[k..];
  }

  function Flatten(pages: seq<seq<Tool>>): seq<Tool> {
    if pages == [] then [] else pages[0] + Flatten(pages[1..])
  }

  // What a page's length comes to.

  /** Printed and estimated lengths of a list of tools: at most `longest`, at least `least`. */
  ghost predicate Within(tools: seq<Tool>, size: Size, longest: nat, least: nat) {
    forall t <- tools :: size(t) <= longest && Estimate(t) >= least
  }

  /** The most tools of such estimates on a page; no estimate is below 200. */
  function MostTools(least: nat): nat {
    7950 / if least < 200 then 200 else least
  }

  /** What page sizes come to: with JSON of at most `longest` characters and
      estimates of at least `least`, every page of every list keeps the limit of
      8000 characters before its cursor exactly when as many longest tools as the
      estimates let on a page, with a comma each, stay below 7990.  (At 7990 the
      last tool is measured to fill the page, and its comma makes 8001.) */
  lemma PagesKeepLimitIff(longest: nat, least: nat)
    ensures (forall rest: seq<Tool>, size: Size ::
               Within(rest, size, longest, least) ==> BodyLength(rest[..Taken(rest, [], size)], size) <= 8000)
       <==> MostTools(least) < 2 || MostTools(least) * (longest + 1) < 7990
  {
    var atLeast := if least < 200 then 200 else least;
    if MostTools(least) < 2 || MostTools(least) * (longest + 1) < 7990 {
      forall rest: seq<Tool>, size: Size | Within(rest, size, longest, least)
        ensures BodyLength(rest[..Taken(rest, [], size)], size) <= 8000
      {
        PageKeepsLimit(rest, size, longest, atLeast);
      }
    } else {
      var rest, size := PageOverLimit(longest, atLeast);
      assert Within(rest, size, longest, least);
    }
  }

  lemma TimesMore(j: nat, k: nat, n: nat)
    requires j <= k
    ensures j * n <= k * n && n * j <= n * k
  {
  }

  lemma OneMoreTime(k: nat, n: nat)
    ensures (k + 1) * n == k * n + n
  {
  }

  lemma {:induction false} SizesWithin(page: seq<Tool>, size: Size, longest: nat, least: nat)
    requires Within(page, size, longest, least)
    ensures BodyLength(page, size) <= 12 + |page| * (longest + 1) - if page == [] then 0 else 1
    ensures EstimateOf(page) >= 50 + |page| * least
  {
    if page != [] {
      SizesWithin(page[..|page| - 1], size, longest, least);
      assert page[|page| - 1] in page;
      OneMoreTime(|page| - 1, longest + 1);
      OneMoreTime(|page| - 1, least);
    }
  }

  lemma PageKeepsLimit(rest: seq<Tool>, size: Size, longest: nat, least: nat)
    requires least >= 200 && Within(rest, size, longest, least)
    requires var most := (7950) / least; most < 2 || most * (longest + 1) < 7990
    ensures BodyLength(rest[..Taken(rest, [], size)], size) <= 8000
  {
    var k := Taken(rest, [], size);
    var page := rest[..k];
    if k > 0 {
      TakenFits(rest, [], size, k - 1);
      assert [] + rest[..k - 1] == page[..k - 1];
      assert page[k - 1] == rest[k - 1];
      assert EstimateOf(page) <= MAX_PAYLOAD;
      if k == 1 {
        assert page[..0] == [];
      } else {
        assert Within(page, size, longest, least);
        SizesWithin(page, size, longest, least);
        AtMost(k, longest, least);
      }
    }
  }

  lemma AtMost(k: nat, longest: nat, least: nat)
    requires k >= 2 && least > 0 && k * least <= 7950
    requires var most := (7950) / least; most < 2 || most * (longest + 1) < 7990
    ensures k * (longest + 1) < 7990
  {
    var most := (MAX_PAYLOAD - BASE_ESTIMATE) / least;
    assert (most + 1) * least > MAX_PAYLOAD - BASE_ESTIMATE;
    if k > most {
      TimesMore(most + 1, k, least);
    } else {
      TimesMore(k, most, longest + 1);
    }
  }

  /** The first `longer` tools print one character more than the others. */
  ghost predicate Neighbouring(rest: seq<Tool>, size: Size, short: nat, longer: nat, least: nat) {
    forall i :: 0 <= i < |rest| ==> Estimate(rest[i]) == least && size(rest[i]) == if i < longer then short + 1 else short
  }

  /** Body of the first `j` of them. */
  function NeighbouringBody(j: nat, short: nat, longer: nat): int {
    EMPTY_BODY + j * (short + 1) + (if j < longer then j else longer) - if j > 0 then 1 else 0
  }

  lemma {:induction false} NeighbouringLengths(rest: seq<Tool>, size: Size, short: nat, longer: nat, least: nat, j: nat)
    requires Neighbouring(rest, size, short, longer, least) && j <= |rest|
    ensures BodyLength(rest[..j], size) == NeighbouringBody(j, short, longer)
    ensures EstimateOf(rest[..j]) == 50 + j * least
  {
    if j > 0 {
      NeighbouringLengths(rest, size, short, longer, least, j - 1);
      assert rest[..j][..j - 1] == rest[..j - 1];
      OneMoreTime(j - 1, short + 1);
      OneMoreTime(j - 1, least);
    }
  }

  lemma RoomForNext(j: nat, n: nat, short: nat, longer: nat, least: nat)
    requires j < n && 2 <= n && longer < n && n * (short + 1) + longer == 7990 && n * least <= 7950
    ensures 50 + j * least + least <= 8000
    ensures (if j < longer then short + 1 else short) + NeighbouringBody(j, short, longer) <= 8000
  {
    OneMoreTime(j, least);
    OneMoreTime(j, short + 1);
    TimesMore(j + 1, n, least);
    TimesMore(j + 1, n, short + 1);
    TimesMore(2, n, short + 1);
  }

  lemma AllFit(rest: seq<Tool>, size: Size)
    requires forall j :: 0 <= j < |rest| ==> Fits(rest[..j], rest[j], size)
    ensures Taken(rest, [], size) == |rest|
  {
    var k := Taken(rest, [], size);
    TakenStops(rest, [], size);
    assert [] + rest[..k] == rest[..k];
  }

  /** As many tools as the estimates allow, of two neighbouring lengths that add
      up to one character too many. */
  lemma PageOverLimit(longest: nat, least: nat) returns (rest: seq<Tool>, size: Size)
    requires least >= 200
    requires var most := (7950) / least; most >= 2 && most * (longest + 1) >= 7990
    ensures Within(rest, size, longest, least) && BodyLength(rest[..Taken(rest, [], size)], size) == 8001
  {
    var most := (MAX_PAYLOAD - BASE_ESTIMATE) / least;
    var short, longer := Share(most, longest);
    rest, size := TwoLengths(most, short, longer, least);
    OneTooMany(rest, size, short, longer, least);
    assert rest[..most] == rest;
  }

  lemma TwoLengths(n: nat, short: nat, longer: nat, least: nat) returns (rest: seq<Tool>, size: Size)
    requires least >= 200
    ensures |rest| == n && Neighbouring(rest, size, short, longer, least)
    ensures Within(rest, size, short + (if longer > 0 then 1 else 0), least)
  {
    size := (t: Tool) => if t.userOnly then short + 1 else short;
    var name := if least > 200 then "t" else "";
    rest := seq(n, i => Tool(name, seq(least - 200 - |name|, _ => '.'), [], None, i < longer));
  }

  lemma Share(most: nat, longest: nat) returns (short: nat, longer: nat)
    requires 2 <= most < 7990 && most * (longest + 1) >= 7990
    ensures most * (short + 1) + longer == 7990 && longer < most
    ensures short + (if longer > 0 then 1 else 0) <= longest
  {
    short, longer := (7990 - most) / most, (7990 - most) % most;
    OneMoreTime(short, most);
    if longest < short {
      TimesMore(longest + 1, short, most);
    }
  }

  lemma OneTooMany(rest: seq<Tool>, size: Size, short: nat, longer: nat, least: nat)
    requires Neighbouring(rest, size, short, longer, least) && longer < |rest|
    requires 2 <= |rest| && |rest| * (short + 1) + longer == 7990 && |rest| * least <= 7950
    ensures Taken(rest, [], size) == |rest| && BodyLength(rest, size) == 8001
  {
    forall j | 0 <= j < |rest|
      ensures Fits(rest[..j], rest[j], size)
    {
      NeighbouringLengths(rest, size, short, longer, least, j);
      RoomForNext(j, |rest|, short, longer, least);
    }
    AllFit(rest, size);
    NeighbouringLengths(rest, size, short, longer, least, |rest|);
    assert rest[..|rest|] == rest;
  }

  /** The limit is not enforced below the measuring threshold: tools whose
      estimates, plus the longest JSON among them, stay below it are never
      measured and all share the page, whatever their JSON adds up to. */
  lemma {:induction false} UnmeasuredAllTaken(rest: seq<Tool>, sofar: seq<Tool>, size: Size, longest: nat)
    requires forall t <- rest :: size(t) <= longest
    requires EstimateOf(sofar + rest) + longest <= 7200
    ensures Taken(rest, sofar, size) == |rest|
  {
    if rest != [] {
      LongerCostsMore(sofar + rest, |sofar|, |sofar + rest|);
      assert (sofar + rest)[..|sofar|] == sofar && (sofar + rest)[..|sofar + rest|] == sofar + rest;
      assert Fits(sofar, rest[0], size);
      assert sofar + [rest[0]] + rest[1..] == sofar + rest;
      UnmeasuredAllTaken(rest[1..], sofar + [rest[0]], size, longest);
    }
  }

  lemma {:induction false} EqualLengthsBody(page: seq<Tool>, size: Size, length: nat)
    requires page != [] && forall t <- page :: size(t) == length
    ensures BodyLength(page, size) == 12 + |page| * (length + 1) - 1
  {
    if |page| > 1 {
      EqualLengthsBody(page[..|page| - 1], size, length);
    }
    assert |page| * (length + 1) == (|page| - 1) * (length + 1) + length + 1;
  }

  /** For instance three tools of 3600 characters each: 10814 on one page. */
  lemma PageCanExceedLimit(tools: seq<Tool>, size: Size)
    requires |tools| == 3 && EstimateOf(tools) <= 3600 && forall t <- tools :: size(t) == 3600
    ensures PageAt(tools, "", size) == Page(tools, "") && BodyLength(tools, size) == 10814
  {
    assert [] + tools == tools;
    UnmeasuredAllTaken(tools, [], size, 3600);
    PageIs(tools, "", 0, size);
    assert tools[0..] == tools && tools[0..3] == tools;
    EqualLengthsBody(tools, size, 3600);
  }
}
