/** A cursor walk over a list that has settled, whatever its names and sizes: when
    it completes, and when not. */
module SettledWalk {
  import opened Json
  import opened ToolSchema
  import opened Registry
  import opened Paging
  import opened PageSizes
  import opened CursorWalk

  /** Where the page that begins at tool `k` ends, and the cursor it has then. */
  function PageEnd(visible: seq<Tool>, k: nat, size: Size): (end: nat)
    requires k <= |visible|
    ensures k <= end <= |visible|
    ensures k < |visible| ==> (k < end <==> FitsAlone(visible[k], size))
  {
    if k < |visible| then PageTakesFirst(visible[k..], size); k + Taken(visible[k..], [], size) else k
  }

  function NextAt(visible: seq<Tool>, end: nat): (next: string)
    requires end <= |visible|
  {
    if end < |visible| then CursorFor(visible[end].name) else ""
  }

  lemma PageBetween(visible: seq<Tool>, cursor: string, size: Size)
    ensures var from := Start(visible, cursor);
            var end := PageEnd(visible, from, size);
            PageAt(visible, cursor, size) == Page(visible[from..end], NextAt(visible, end))
  {
  }

  /** The pages from `cursor` on, at most `n` of them, bring the tools from `got` on,
      each once and in order, and the last has no cursor. */
  predicate Completes(visible: seq<Tool>, cursor: string, got: nat, n: nat, size: Size)
    decreases n
  {
    && n > 0
    && var from, end := Start(visible, cursor), PageEnd(visible, Start(visible, cursor), size);
       && (from < end ==> from == got)
       && if NextAt(visible, end) == "" then got + end - from == |visible|
          else Completes(visible, NextAt(visible, end), got + end - from, n - 1, size)
  }

  predicate CompletesWithin(visible: seq<Tool>, n: nat, size: Size) {
    Completes(visible, "", 0, n, size)
  }

  /** A tool that can head a later page: its name is 1 to 63 characters long, and
      no tool before it has that name. */
  predicate Heads(visible: seq<Tool>, k: nat)
    requires k < |visible|
  {
    1 <= |visible[k].name| <= 63 && forall i :: 0 <= i < k ==> visible[i].name != visible[k].name
  }

  /** Cutting the list into pages from tool `k` on: each head fits alone, and those
      of later pages can be found again. */
  predicate GoodHeads(visible: seq<Tool>, k: nat, size: Size)
    requires k <= |visible|
    decreases |visible| - k
  {
    k < |visible| ==>
      && FitsAlone(visible[k], size)
      && var end := PageEnd(visible, k, size);
         end < |visible| ==> Heads(visible, end) && GoodHeads(visible, end, size)
  }

  /** A walk over a settled list completes exactly when every page's first tool fits
      alone and, but for the first page's, has a name of 1 to 63 characters and is
      the first of that name. */
  lemma SettledWalkCompletesIff(visible: seq<Tool>, size: Size)
    ensures (exists n: nat :: CompletesWithin(visible, n, size)) <==> GoodHeads(visible, 0, size)
  {
    if GoodHeads(visible, 0, size) {
      var n := HeadsSuffice(visible, "", 0, size);
      assert CompletesWithin(visible, n, size);
    } else {
      forall n: nat
        ensures !CompletesWithin(visible, n, size)
      {
        if CompletesWithin(visible, n, size) {
          HeadsNeeded(visible, "", 0, n, size);
        }
      }
    }
  }

  lemma {:induction false} HeadsSuffice(visible: seq<Tool>, cursor: string, k: nat, size: Size) returns (n: nat)
    requires k <= |visible| && GoodHeads(visible, k, size) && Start(visible, cursor) == k
    ensures Completes(visible, cursor, k, n, size)
    decreases |visible| - k
  {
    n := 1;
    var end := PageEnd(visible, k, size);
    if end < |visible| {
      var m := HeadsSuffice(visible, NextAt(visible, end), end, size);
      n := m + 1;
    }
  }

  /** A cursor in the middle of a walk that completes leads to where the walk is, and
      the page there takes a tool. */
  lemma {:induction false} OnTrack(visible: seq<Tool>, cursor: string, got: nat, n: nat, size: Size)
    requires 1 <= |cursor| <= 63 && got < |visible| && Completes(visible, cursor, got, n, size)
    ensures Start(visible, cursor) == got < PageEnd(visible, got, size)
    decreases n
  {
    var from := Start(visible, cursor);
    if from < |visible| && PageEnd(visible, from, size) == from {
      OnTrack(visible, cursor, got, n - 1, size);
    }
  }

  lemma {:induction false} HeadsNeeded(visible: seq<Tool>, cursor: string, k: nat, n: nat, size: Size)
    requires k <= |visible| && Start(visible, cursor) == k && |cursor| <= 63
    requires Completes(visible, cursor, k, n, size)
    ensures GoodHeads(visible, k, size)
    decreases n
  {
    var end := PageEnd(visible, k, size);
    if end < |visible| {
      var next := NextAt(visible, end);
      OnTrack(visible, next, end, n - 1, size);
      if k < end {
        HeadsNeeded(visible, next, end, n - 1, size);
      }
    }
  }

  /** Pageable tools of distinct names always complete. */
  lemma {:induction false} PageableComplete(visible: seq<Tool>, k: nat, size: Size)
    requires k <= |visible| && DistinctNames(visible) && forall t <- visible :: Pageable(t, size)
    ensures GoodHeads(visible, k, size)
    decreases |visible| - k
  {
    if k < |visible| {
      assert visible[k] in visible;
      var end := PageEnd(visible, k, size);
      if end < |visible| {
        assert visible[end] in visible;
        PageableComplete(visible, end, size);
      }
    }
  }

  /** The cursor after `n` pages. */
  function Follow(pageAt: string -> Page, n: nat): string {
    if n == 0 then "" else pageAt(Follow(pageAt, n - 1)).next
  }

  lemma {:induction false} TwoCycle(pageAt: string -> Page, odd: Page, even: Page, n: nat)
    requires pageAt("") == pageAt(odd.next) == even && pageAt(even.next) == odd
    ensures pageAt(Follow(pageAt, n)) == if n % 2 == 1 then odd else even
  {
    if n > 0 {
      TwoCycle(pageAt, odd, even, n - 1);
    }
  }

  /** Distinct names are needed: when three tools of one page each are listed and
      the last has the first one's name, the walk goes round for ever on pages
      without the last. */
  lemma DuplicateNeverEnds(visible: seq<Tool>, n: nat, size: Size)
    requires |visible| == 3 && visible[0].name == visible[2].name != visible[1].name
    requires forall t <- visible :: Pageable(t, size)
    requires Estimate(visible[0]) + Estimate(visible[1]) > 7950 && Estimate(visible[1]) + Estimate(visible[2]) > 7950
    ensures var pageAt := (cursor: string) => PageAt(visible, cursor, size);
            pageAt(Follow(pageAt, n))
            == if n % 2 == 1 then Page([visible[1]], visible[0].name) else Page([visible[0]], visible[1].name)
  {
    RoundTheThree(visible, "", size);
    RoundTheThree(visible, visible[0].name, size);
    RoundTheThree(visible, visible[1].name, size);
    TwoCycle((cursor: string) => PageAt(visible, cursor, size), Page([visible[1]], visible[0].name), Page([visible[0]], visible[1].name), n);
  }

  lemma RoundTheThree(visible: seq<Tool>, cursor: string, size: Size)
    requires |visible| == 3 && visible[0].name == visible[2].name != visible[1].name
    requires forall t <- visible :: Pageable(t, size)
    requires Estimate(visible[0]) + Estimate(visible[1]) > 7950 && Estimate(visible[1]) + Estimate(visible[2]) > 7950
    requires cursor == "" || cursor == visible[0].name || cursor == visible[1].name
    ensures PageAt(visible, cursor, size)
         == if cursor == visible[1].name then Page([visible[1]], visible[0].name) else Page([visible[0]], visible[1].name)
    ensures visible[0].name != "" && visible[1].name != ""
  {
    assert Pageable(visible[0], size) && Pageable(visible[1], size) && Pageable(visible[2], size);
    OneToolPage(visible, cursor, if cursor == visible[1].name then 1 else 0, size);
  }

  lemma OneToolPage(visible: seq<Tool>, cursor: string, k: nat, size: Size)
    requires k + 1 < |visible| && Start(visible, cursor) == k && FitsAlone(visible[k], size)
    requires Estimate(visible[k]) + Estimate(visible[k + 1]) > 7950 && |visible[k + 1].name| <= 63
    ensures PageAt(visible, cursor, size) == Page([visible[k]], visible[k + 1].name)
  {
    OneTaken(visible[k..], size);
    assert visible[k..k + 1] == [visible[k]];
  }

  lemma OneTaken(rest: seq<Tool>, size: Size)
    requires |rest| >= 2 && FitsAlone(rest[0], size) && Estimate(rest[0]) + Estimate(rest[1]) > 7950
    ensures Taken(rest, [], size) == 1
  {
  }
}
