/** The tool registry and its first-byte index (core/mcp/mcp_server.c). */
module Registry {
  import opened Json
  import opened ToolSchema
  import opened Growth

  const BUCKETS: nat := 256

  /** tool_name_hash: the first byte of the name. */
  function NameHash(name: string): (h: nat)
    ensures h < 256 && (name != "" && name[0] as int < 256 ==> h == name[0] as int)
  {
    if name == "" then 0 else name[0] as int % 256
  }

  /** First tool of that name: the search the index stands in for. */
  function LinearFind(tools: seq<Tool>, name: string): (r: Option<Tool>)
    ensures r.Some? ==> r.value in tools && r.value.name == name
    ensures r.None? <==> forall t <- tools :: t.name != name
  {
    if tools == [] then None
    else if tools[0].name == name then Some(tools[0])
    else LinearFind(tools[1..], name)
  }

  /** The tools of one hash, in order. */
  function Bucket(tools: seq<Tool>, h: nat): (b: seq<Tool>)
    ensures forall t <- b :: t in tools && NameHash(t.name) == h
    ensures forall t <- tools :: NameHash(t.name) == h ==> t in b
  {
    if tools == [] then []
    else
      var last := tools[|tools| - 1];
      Bucket(tools[..|tools| - 1], h) + if NameHash(last.name) == h then [last] else []
  }

  lemma BucketAppend(tools: seq<Tool>, t: Tool, h: nat)
    ensures Bucket(tools + [t], h) == if NameHash(t.name) == h then Bucket(tools, h) + [t] else Bucket(tools, h)
  {
  }

  predicate DistinctNames(tools: seq<Tool>) {
    forall i, j :: 0 <= i < j < |tools| ==> tools[i].name != tools[j].name
  }

  lemma {:induction false} LinearFindAppend(tools: seq<Tool>, t: Tool, name: string)
    ensures LinearFind(tools + [t], name) ==
            if LinearFind(tools, name).Some? then LinearFind(tools, name)
            else if t.name == name then Some(t) else None
  {
    if tools != [] {
      assert (tools + [t])[1..] == tools[1..] + [t];
      LinearFindAppend(tools[1..], t, name);
    }
  }

  /** Looking a name up in its bucket finds what a search of the whole list finds. */
  lemma {:induction false} BucketFind(tools: seq<Tool>, name: string)
    ensures LinearFind(Bucket(tools, NameHash(name)), name) == LinearFind(tools, name)
  {
    if tools != [] {
      var init, last := tools[..|tools| - 1], tools[|tools| - 1];
      BucketFind(init, name);
      LinearFindAppend(init, last, name);
      assert init + [last] == tools;
      if NameHash(last.name) == NameHash(name) {
        LinearFindAppend(Bucket(init, NameHash(name)), last, name);
      } else {
        assert Bucket(tools, NameHash(name)) == Bucket(init, NameHash(name));
      }
    }
  }

  /** Sizes of the first `n` buckets together. */
  function SizeOfBuckets(tools: seq<Tool>, n: nat): nat {
    if n == 0 then 0 else SizeOfBuckets(tools, n - 1) + |Bucket(tools, n - 1)|
  }

  lemma {:induction false} AppendToOneBucket(tools: seq<Tool>, t: Tool, n: nat)
    ensures SizeOfBuckets(tools + [t], n) == SizeOfBuckets(tools, n) + if NameHash(t.name) < n then 1 else 0
  {
    if n > 0 {
      AppendToOneBucket(tools, t, n - 1);
      BucketAppend(tools, t, n - 1);
    }
  }

  /** The buckets hold every tool once: their sizes add up to the list's. */
  lemma {:induction false} BucketSizesAddUp(tools: seq<Tool>)
    ensures SizeOfBuckets(tools, BUCKETS) == |tools|
  {
    if tools == [] {
      EmptyBuckets(BUCKETS);
    } else {
      var init := tools[..|tools| - 1];
      BucketSizesAddUp(init);
      AppendToOneBucket(init, tools[|tools| - 1], BUCKETS);
      assert init + [tools[|tools| - 1]] == tools;
    }
  }

  lemma {:induction false} EmptyBuckets(n: nat)
    ensures SizeOfBuckets([], n) == 0
  {
    if n > 0 {
      EmptyBuckets(n - 1);
    }
  }

  /** The registry as values: the tools in registration order and those among
      them the index knows. */
  datatype State = State(tools: seq<Tool>, indexed: seq<Tool>, capacity: nat)

  /** A registration and which of its two allocations succeed. */
  datatype Registration = Registration(tool: Tool, reserveOk: bool, indexOk: bool)

  predicate Admits(s: State, r: Registration) {
    LinearFind(s.indexed, r.tool.name).None? && (r.reserveOk || |s.tools| < s.capacity)
  }

  function Register(s: State, r: Registration): State {
    if !Admits(s, r) then s
    else State(s.tools + [r.tool], if r.indexOk then s.indexed + [r.tool] else s.indexed, Grown(s.capacity, |s.tools| + 1))
  }

  function RegisterAll(s: State, rs: seq<Registration>): State
    decreases |rs|
  {
    if rs == [] then s else RegisterAll(Register(s, rs[0]), rs[1..])
  }

  /** In order, and only tools of the list. */
  ghost predicate Subsequence(xs: seq<Tool>, ys: seq<Tool>)
  {
    if xs == [] then true
    else if ys == [] then false
    else Subsequence(xs, ys[..|ys| - 1]) || (xs[|xs| - 1] == ys[|ys| - 1] && Subsequence(xs[..|xs| - 1], ys[..|ys| - 1]))
  }

  /** What every run of registrations keeps, whatever allocations fail. */
  ghost predicate Invariant(s: State) {
    && Subsequence(s.indexed, s.tools)
    && DistinctNames(s.indexed)
    && |s.tools| <= s.capacity && SizedByDoubling(s.capacity)
  }

  lemma RegisterKeepsInvariant(s: State, r: Registration)
    requires Invariant(s)
    ensures Invariant(Register(s, r))
  {
    if Admits(s, r) {
      var s' := Register(s, r);
      GrownSized(s.capacity, |s.tools| + 1);
      assert s'.tools[..|s'.tools| - 1] == s.tools;
      if r.indexOk {
        assert s'.indexed[..|s'.indexed| - 1] == s.indexed;
      }
    }
  }

  lemma {:induction false} RunKeepsInvariant(s: State, rs: seq<Registration>)
    requires Invariant(s)
    ensures Invariant(RegisterAll(s, rs))
    ensures s.tools <= RegisterAll(s, rs).tools
    decreases |rs|
  {
    if rs != [] {
      RegisterKeepsInvariant(s, rs[0]);
      RunKeepsInvariant(Register(s, rs[0]), rs[1..]);
    }
  }

  lemma {:induction false} SubsequenceMembers(xs: seq<Tool>, ys: seq<Tool>)
    requires Subsequence(xs, ys)
    ensures forall t <- xs :: t in ys
    decreases |ys|
  {
    if xs != [] {
      var init := ys[..|ys| - 1];
      if Subsequence(xs, init) {
        SubsequenceMembers(xs, init);
      } else {
        SubsequenceMembers(xs[..|xs| - 1], init);
        assert forall t <- xs :: t in xs[..|xs| - 1] || t == xs[|xs| - 1];
        assert ys[|ys| - 1] in ys;
      }
    }
  }

  /** Even when allocations fail, a lookup only ever returns a listed tool of the
      name asked for; while every index insertion succeeds it is linear search. */
  lemma LookupSound(rs: seq<Registration>, name: string)
    ensures var s := RegisterAll(State([], [], 0), rs);
            var found := LinearFind(Bucket(s.indexed, NameHash(name)), name);
            && (found.Some? ==> found.value in s.tools && found.value.name == name)
            && ((forall r <- rs :: r.indexOk) ==> s.indexed == s.tools && found == LinearFind(s.tools, name))
  {
    var s := RegisterAll(State([], [], 0), rs);
    RunKeepsInvariant(State([], [], 0), rs);
    SubsequenceMembers(s.indexed, s.tools);
    BucketFind(s.indexed, name);
    if forall r <- rs :: r.indexOk {
      AllIndexed(State([], [], 0), rs);
    }
  }

  lemma {:induction false} AllIndexed(s: State, rs: seq<Registration>)
    requires s.indexed == s.tools && forall r <- rs :: r.indexOk
    ensures RegisterAll(s, rs).indexed == RegisterAll(s, rs).tools
    decreases |rs|
  {
    if rs != [] {
      AllIndexed(Register(s, rs[0]), rs[1..]);
    }
  }

  /** An admitted registration keeps the listed names distinct unless the name is
      already listed without being indexed: the one way a duplicate gets in. */
  lemma DuplicateOnlyIfUnindexed(s: State, r: Registration)
    requires Invariant(s) && DistinctNames(s.tools) && Admits(s, r)
    ensures DistinctNames(Register(s, r).tools) <==> !exists t <- s.tools :: t.name == r.tool.name && t !in s.indexed
  {
    var all := s.tools + [r.tool];
    if exists t <- s.tools :: t.name == r.tool.name && t !in s.indexed {
      var i :| 0 <= i < |s.tools| && s.tools[i].name == r.tool.name;
      assert all[i].name == all[|s.tools|].name;
    } else {
      forall i | 0 <= i < |s.tools|
        ensures s.tools[i].name != r.tool.name
      {
        assert s.tools[i] in s.tools;
      }
    }
  }

  /** The name of a listed tool the index missed. */
  ghost predicate NamesUnindexed(s: State, name: string) {
    exists t <- s.tools :: t.name == name && t !in s.indexed
  }

  /** Whether no registration of a run is admitted under such a name. */
  ghost predicate NeverRepeatsUnindexed(s: State, rs: seq<Registration>)
    decreases |rs|
  {
    rs != [] ==> !(Admits(s, rs[0]) && NamesUnindexed(s, rs[0].tool.name)) && NeverRepeatsUnindexed(Register(s, rs[0]), rs[1..])
  }

  /** Over whole runs: the listed names stay distinct exactly when no name is
      registered again after its index insertion failed. */
  lemma {:induction false} NamesStayDistinctIff(s: State, rs: seq<Registration>)
    requires Invariant(s) && DistinctNames(s.tools)
    ensures DistinctNames(RegisterAll(s, rs).tools) <==> NeverRepeatsUnindexed(s, rs)
    decreases |rs|
  {
    if rs != [] {
      var s' := Register(s, rs[0]);
      RegisterKeepsInvariant(s, rs[0]);
      if Admits(s, rs[0]) {
        DuplicateOnlyIfUnindexed(s, rs[0]);
      }
      if DistinctNames(s'.tools) {
        NamesStayDistinctIff(s', rs[1..]);
      } else {
        RunKeepsInvariant(s', rs[1..]);
        var i, j :| 0 <= i < j < |s'.tools| && s'.tools[i].name == s'.tools[j].name;
        var later := RegisterAll(s', rs[1..]).tools;
        assert later[i] == s'.tools[i] && later[j] == s'.tools[j];
      }
    }
  }

  lemma {:induction false} IndexOnlyGrows(s: State, rs: seq<Registration>)
    ensures s.indexed <= RegisterAll(s, rs).indexed
    decreases |rs|
  {
    if rs != [] {
      IndexOnlyGrows(Register(s, rs[0]), rs[1..]);
    }
  }

  lemma {:induction false} FoundInPrefix(tools: seq<Tool>, more: seq<Tool>, name: string)
    requires tools <= more && LinearFind(tools, name).Some?
    ensures LinearFind(more, name) == LinearFind(tools, name)
  {
    if tools[0].name != name {
      FoundInPrefix(tools[1..], more[1..], name);
    }
  }

  /** The first indexed tool of a name keeps it: whatever is registered later, a
      lookup still finds that tool, and another of its name changes nothing. */
  lemma FirstRegistrationWins(s: State, first: Registration, rs: seq<Registration>, again: Registration)
    requires Admits(s, first) && first.indexOk && again.tool.name == first.tool.name
    ensures var later := RegisterAll(Register(s, first), rs);
            && LinearFind(Bucket(later.indexed, NameHash(first.tool.name)), first.tool.name) == Some(first.tool)
            && Register(later, again) == later
  {
    var later := RegisterAll(Register(s, first), rs);
    LinearFindAppend(s.indexed, first.tool, first.tool.name);
    IndexOnlyGrows(Register(s, first), rs);
    FoundInPrefix(Register(s, first).indexed, later.indexed, first.tool.name);
    BucketFind(later.indexed, first.tool.name);
  }

  /** What one registration does, in any state: nothing exactly when an indexed tool
      has the name, or the list is full and cannot be reallocated; otherwise the
      tool is listed last, and indexed last if its index insertion succeeds. */
  lemma RegistersUnless(s: State, r: Registration)
    ensures Register(s, r) == s <==>
              (exists t <- s.indexed :: t.name == r.tool.name) || (|s.tools| >= s.capacity && !r.reserveOk)
    ensures Register(s, r) != s ==>
              && Register(s, r).tools == s.tools + [r.tool]
              && Register(s, r).indexed == s.indexed + (if r.indexOk then [r.tool] else [])
              && (|s.tools| < s.capacity ==> Register(s, r).capacity == s.capacity)
              && (|s.tools| == s.capacity ==> Register(s, r).capacity == if s.capacity == 0 then 4 else 2 * s.capacity)
  {
    assert Admits(s, r) ==> |Register(s, r).tools| == |s.tools| + 1;
  }

  /** The tools of these registrations. */
  function ToolsOf(rs: seq<Registration>): (tools: seq<Tool>)
    ensures |tools| == |rs| && forall i :: 0 <= i < |rs| ==> tools[i] == rs[i].tool
  {
    seq(|rs|, i requires 0 <= i < |rs| => rs[i].tool)
  }

  /** Registrations of distinct names, none of them indexed yet, whose allocations
      succeed, are all listed and indexed, in order. */
  lemma {:induction false} DistinctAllRegistered(s: State, rs: seq<Registration>)
    requires forall r <- rs :: r.reserveOk && r.indexOk
    requires DistinctNames(s.indexed + ToolsOf(rs))
    ensures RegisterAll(s, rs).tools == s.tools + ToolsOf(rs)
    ensures RegisterAll(s, rs).indexed == s.indexed + ToolsOf(rs)
    decreases |rs|
  {
    if rs == [] {
      assert ToolsOf(rs) == [];
    } else {
      var all := s.indexed + ToolsOf(rs);
      forall t | t in s.indexed
        ensures t.name != rs[0].tool.name
      {
        var i :| 0 <= i < |s.indexed| && s.indexed[i] == t;
        assert all[i].name != all[|s.indexed|].name;
      }
      assert LinearFind(s.indexed, rs[0].tool.name).None?;
      assert ToolsOf(rs) == [rs[0].tool] + ToolsOf(rs[1..]);
      var s' := Register(s, rs[0]);
      assert s'.indexed + ToolsOf(rs[1..]) == all;
      DistinctAllRegistered(s', rs[1..]);
      Regroup(s.tools, [rs[0].tool], ToolsOf(rs[1..]));
    }
  }

  /** From the empty registry: exactly these tools, listed and indexed. */
  lemma FreshNamesAllRegistered(rs: seq<Registration>)
    requires forall r <- rs :: r.reserveOk && r.indexOk
    requires forall i, j :: 0 <= i < j < |rs| ==> rs[i].tool.name != rs[j].tool.name
    ensures RegisterAll(State([], [], 0), rs).tools == ToolsOf(rs)
    ensures RegisterAll(State([], [], 0), rs).indexed == ToolsOf(rs)
  {
    assert [] + ToolsOf(rs) == ToolsOf(rs);
    DistinctAllRegistered(State([], [], 0), rs);
  }

  lemma {:induction false} RegisterInTwo(s: State, a: seq<Registration>, b: seq<Registration>)
    ensures RegisterAll(s, a + b) == RegisterAll(RegisterAll(s, a), b)
    decreases |a|
  {
    if a == [] {
      assert a + b == b;
    } else {
      RegisterInTwo(Register(s, a[0]), a[1..], b);
      assert (a + b)[1..] == a[1..] + b;
    }
  }
}
