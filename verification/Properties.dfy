/** Property values, and what checking call arguments against them means
    (core/mcp/mcp_property.c, the argument loop of core/mcp/mcp_server_protocol.c). */
module Properties {
  import opened Json

  datatype PropertyType = BooleanType | IntegerType | StringType

  /** The C union; the property's type says which arm is live.  `None` is a null pointer. */
  datatype Value = BoolValue(b: bool) | IntValue(i: int32) | StringValue(s: Option<string>)

  datatype Property = Property(
    name: string, ty: PropertyType,
    hasDefault: bool, hasMin: bool, hasMax: bool, minValue: int32, maxValue: int32,
    value: Value)

  predicate InBounds(p: Property, v: int) {
    (p.hasMin ==> p.minValue <= v) && (p.hasMax ==> v <= p.maxValue)
  }

  /** Stores a JSON value in a property; the flag says whether type and bounds allow it. */
  function CopyFromJson(p: Property, json: Json): (r: (Property, bool))
    ensures r.0 == p.(value := r.0.value, hasDefault := p.hasDefault || r.1)
    ensures !r.1 ==> r.0 == p
  {
    match (p.ty, json)
    case (BooleanType, Bool(b)) => (p.(value := BoolValue(b), hasDefault := true), true)
    case (IntegerType, Number(v)) =>
      if InBounds(p, ValueInt(v)) then (p.(value := IntValue(ValueInt(v)), hasDefault := true), true) else (p, false)
    case (StringType, Text(s)) => (p.(value := StringValue(Some(s)), hasDefault := true), true)
    case _ => (p, false)
  }

  /** The value the caller supplied for a property, looked up by name. */
  function Supplied(p: Property, args: Option<Json>): Option<Json> {
    if args.Some? then GetItem(args.value, p.name) else None
  }

  predicate Bad(p: Property, args: Option<Json>) {
    Supplied(p, args).Some? && !CopyFromJson(p, Supplied(p, args).value).1
  }

  predicate Missing(p: Property, args: Option<Json>) {
    Supplied(p, args).None? && !p.hasDefault
  }

  /** What a call accepts: every property supplied with a fitting value, or absent with a default. */
  predicate Accepts(template: seq<Property>, args: Option<Json>) {
    forall p <- template :: !Bad(p, args) && !Missing(p, args)
  }

  function Fill(p: Property, args: Option<Json>): (r: Property)
    ensures r == p.(value := r.value, hasDefault := r.hasDefault)
  {
    if Supplied(p, args).Some? then CopyFromJson(p, Supplied(p, args).value).0 else p
  }

  /** The arguments the callback receives on an accepted call. */
  function Filled(template: seq<Property>, args: Option<Json>): seq<Property> {
    seq(|template|, i requires 0 <= i < |template| => Fill(template[i], args))
  }

  function FirstBad(template: seq<Property>, args: Option<Json>): (k: nat)
    ensures k <= |template|
    ensures forall j :: 0 <= j < k ==> !Bad(template[j], args)
    ensures k < |template| ==> Bad(template[k], args)
  {
    if template == [] || Bad(template[0], args) then 0
    else 1 + FirstBad(template[1..], args)
  }

  function LastMissing(template: seq<Property>, args: Option<Json>): (k: Option<nat>)
    ensures k.Some? ==> k.value < |template| && Missing(template[k.value], args)
    ensures forall j :: (if k.Some? then k.value + 1 else 0) <= j < |template| ==> !Missing(template[j], args)
  {
    if template == [] then None
    else if Missing(template[|template| - 1], args) then Some(|template| - 1)
    else LastMissing(template[..|template| - 1], args)
  }

  /** The property a rejected call is blamed on. */
  function Blamed(template: seq<Property>, args: Option<Json>): Option<string> {
    var k := FirstBad(template, args);
    if k < |template| then Some(template[k].name)
    else match LastMissing(template, args)
         case Some(m) => Some(template[m].name)
         case None => None
  }

  /** A call is rejected exactly when some property is blamed. */
  lemma RejectedMeansBlamed(template: seq<Property>, args: Option<Json>)
    ensures Accepts(template, args) <==> Blamed(template, args).None?
  {
  }

  /** Which property that is: the first badly supplied one, or with none of these
      the last missing one. */
  lemma BlamedIs(template: seq<Property>, args: Option<Json>, i: nat)
    requires i < |template|
    ensures (Bad(template[i], args) && forall j :: 0 <= j < i ==> !Bad(template[j], args))
            ==> Blamed(template, args) == Some(template[i].name)
    ensures (Missing(template[i], args) && (forall j :: i < j < |template| ==> !Missing(template[j], args))
             && forall p <- template :: !Bad(p, args))
            ==> Blamed(template, args) == Some(template[i].name)
  {
    var k := FirstBad(template, args);
    assert k < |template| ==> template[k] in template;
  }

  type Callback = seq<Property> -> Json

  datatype CallOutcome = Returned(content: Json) | Rejected(property: string) | Failed

  /** What calling a tool with these arguments comes to. */
  function CallWith(template: seq<Property>, callback: Option<Callback>, args: Option<Json>): CallOutcome {
    if !Accepts(template, args) then Rejected(Blamed(template, args).GetOr(""))
    else if callback.None? then Failed
    else Returned(callback.value(Filled(template, args)))
  }

  /** First property of that exact name: the lookup behind the typed getters. */
  function Lookup(props: seq<Property>, name: string): (r: Option<Property>)
    ensures r.Some? ==> r.value in props && r.value.name == name
    ensures r.None? <==> forall p <- props :: p.name != name
  {
    if props == [] then None
    else if props[0].name == name then Some(props[0])
    else Lookup(props[1..], name)
  }

  function GetInt(props: seq<Property>, name: string): Option<int32> {
    match Lookup(props, name)
    case Some(p) => if p.ty.IntegerType? && p.hasDefault && p.value.IntValue? then Some(p.value.i) else None
    case None => None
  }

  function GetBool(props: seq<Property>, name: string): Option<bool> {
    match Lookup(props, name)
    case Some(p) => if p.ty.BooleanType? && p.hasDefault && p.value.BoolValue? then Some(p.value.b) else None
    case None => None
  }

  /** The string itself, which a null pointer stands for the absence of. */
  function GetString(props: seq<Property>, name: string): Option<string> {
    match Lookup(props, name)
    case Some(p) => if p.ty.StringType? && p.hasDefault && p.value.StringValue? then p.value.s else None
    case None => None
  }

  lemma {:induction false} LookupFirst(props: seq<Property>, k: nat)
    requires k < |props| && forall j :: 0 <= j < k ==> props[j].name != props[k].name
    ensures Lookup(props, props[k].name) == Some(props[k])
  {
    if k > 0 {
      LookupFirst(props[1..], k - 1);
    }
  }

  /** Filling commutes with the getters' lookup. */
  lemma {:induction false} LookupFilled(template: seq<Property>, args: Option<Json>, name: string)
    ensures Lookup(Filled(template, args), name) ==
            match Lookup(template, name) case Some(p) => Some(Fill(p, args)) case None => None
  {
    if template != [] {
      var filled := Filled(template, args);
      assert filled[1..] == Filled(template[1..], args);
      assert filled[0] == Fill(template[0], args);
      LookupFilled(template[1..], args, name);
    }
  }

  /** On an accepted call the callback reads, for an integer property, the
      supplied number within its bounds, or the default when it is absent. */
  lemma CallbackReadsInt(template: seq<Property>, args: Option<Json>, name: string)
    requires Accepts(template, args)
    requires Lookup(template, name).Some?
    ensures var p := Lookup(template, name).value;
            p.ty.IntegerType? && p.value.IntValue? ==>
              match Supplied(p, args)
              case Some(j) => j.Number? && GetInt(Filled(template, args), name) == Some(ValueInt(j.v)) && InBounds(p, ValueInt(j.v))
              case None => GetInt(Filled(template, args), name) == Some(p.value.i)
  {
    LookupFilled(template, args, name);
  }

  /** For a string property it reads exactly the supplied text, whether or not there
      was a default, or the default when it is absent; ... */
  lemma CallbackReadsString(template: seq<Property>, args: Option<Json>, name: string)
    requires Accepts(template, args)
    requires Lookup(template, name).Some? && Lookup(template, name).value.ty.StringType?
    ensures var p := Lookup(template, name).value;
            match Supplied(p, args)
            case Some(j) => j.Text? && GetString(Filled(template, args), name) == Some(j.s)
            case None => p.hasDefault && (p.value.StringValue? ==> GetString(Filled(template, args), name) == p.value.s)
  {
    LookupFilled(template, args, name);
  }

  /** ... for a boolean property exactly the supplied boolean, or the default. */
  lemma CallbackReadsBool(template: seq<Property>, args: Option<Json>, name: string)
    requires Accepts(template, args)
    requires Lookup(template, name).Some? && Lookup(template, name).value.ty.BooleanType?
    ensures var p := Lookup(template, name).value;
            match Supplied(p, args)
            case Some(j) => j.Bool? && GetBool(Filled(template, args), name) == Some(j.b)
            case None => p.hasDefault && (p.value.BoolValue? ==> GetBool(Filled(template, args), name) == Some(p.value.b))
  {
    LookupFilled(template, args, name);
  }

  /** An accepted call keeps names, types, bounds and order, and leaves no property unset. */
  lemma FilledShape(template: seq<Property>, args: Option<Json>)
    requires Accepts(template, args)
    ensures |Filled(template, args)| == |template|
    ensures forall i :: 0 <= i < |template| ==>
              var p, q := template[i], Filled(template, args)[i];
              && q.hasDefault
              && q == p.(value := q.value, hasDefault := true)
              && (Supplied(p, args).None? ==> q == p)
  {
    forall i | 0 <= i < |template|
      ensures Filled(template, args)[i].hasDefault
    {
      assert template[i] in template;
    }
  }

  /** Bounds are checked on what is supplied, not on defaults: on an accepted call
      an integer argument is within its bounds exactly when it was supplied or its
      default already was. */
  lemma BoundsUnlessDefaulted(template: seq<Property>, args: Option<Json>, i: nat)
    requires Accepts(template, args) && i < |template|
    requires template[i].ty.IntegerType? && template[i].value.IntValue?
    ensures var p, q := template[i], Filled(template, args)[i];
            q.value.IntValue? && (InBounds(p, q.value.i) <==> Supplied(p, args).Some? || InBounds(p, p.value.i))
  {
    assert template[i] in template;
  }

  /** The state of the argument loop: the clone so far, the property it would
      report, and whether it has stopped at a bad value. */
  datatype Scan = Scan(now: seq<Property>, blamed: Option<nat>, stopped: bool)

  /** The loop after `i` rounds. */
  ghost function ScanAfter(props: seq<Property>, args: Option<Json>, i: nat): (s: Scan)
    requires i <= |props|
    ensures |s.now| == |props|
  {
    if i == 0 then Scan(props, None, false)
    else
      var s := ScanAfter(props, args, i - 1);
      if s.stopped then s
      else Scan(s.now[i - 1 := Fill(s.now[i - 1], args)],
                if Bad(s.now[i - 1], args) || Missing(s.now[i - 1], args) then Some(i - 1) else s.blamed,
                Bad(s.now[i - 1], args))
  }

  /** What the loop has established after `i` rounds without a bad value. */
  lemma {:induction false} ScanInvariant(props: seq<Property>, args: Option<Json>, i: nat)
    requires i <= FirstBad(props, args)
    ensures var s := ScanAfter(props, args, i);
            && !s.stopped && s.blamed == LastMissing(props[..i], args)
            && (forall j :: 0 <= j < i ==> s.now[j] == Fill(props[j], args))
            && (forall j :: i <= j < |props| ==> s.now[j] == props[j])
  {
    if i > 0 {
      ScanInvariant(props, args, i - 1);
      assert props[..i][..i - 1] == props[..i - 1];
    }
  }

  /** The loop decides acceptance, computes the filled arguments, and blames the
      property `Blamed` names. */
  lemma ScanEnds(props: seq<Property>, args: Option<Json>, i: nat)
    requires i <= |props| && (i == |props| || ScanAfter(props, args, i).stopped)
    ensures var s := ScanAfter(props, args, i);
            && (s.blamed.None? <==> Accepts(props, args))
            && (s.blamed.None? ==> s.now == Filled(props, args))
            && (s.blamed.Some? ==> s.blamed.value < |props| && Blamed(props, args) == Some(s.now[s.blamed.value].name))
  {
    var k := FirstBad(props, args);
    RejectedMeansBlamed(props, args);
    if k < i {
      StoppedAtFirstBad(props, args, i);
    } else {
      ScanInvariant(props, args, i);
      assert i == |props| && props[..i] == props;
    }
  }

  lemma StoppedAtFirstBad(props: seq<Property>, args: Option<Json>, i: nat)
    requires FirstBad(props, args) < i <= |props|
    ensures var s, k := ScanAfter(props, args, i), FirstBad(props, args);
            s.blamed == Some(k as nat) && s.now[k].name == props[k].name
  {
    var k := FirstBad(props, args);
    ScanInvariant(props, args, k);
    ScanStopped(props, args, k + 1, i);
  }

  lemma {:induction false} ScanStopped(props: seq<Property>, args: Option<Json>, k: nat, i: nat)
    requires k <= i <= |props| && ScanAfter(props, args, k).stopped
    ensures ScanAfter(props, args, i) == ScanAfter(props, args, k)
  {
    if k < i {
      ScanStopped(props, args, k, i - 1);
    }
  }
}
