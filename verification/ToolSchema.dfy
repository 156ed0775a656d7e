/** Tools and the schema they advertise (core/mcp/mcp_tool.c), read by an
    independent JSON Schema validator. */
module ToolSchema {
  import opened Json
  import opened Properties

  datatype Tool = Tool(
    name: string, description: string, properties: seq<Property>,
    callback: Option<Callback>, userOnly: bool)

  /** mcp_property_to_json. */
  function PropertySchema(p: Property): (j: Json) {
    match p.ty
    case BooleanType =>
      Object([Member("type", Text("boolean"))] +
             if p.hasDefault && p.value.BoolValue? then [Member("default", Bool(p.value.b))] else [])
    case IntegerType =>
      Object([Member("type", Text("integer"))] +
             (if p.hasDefault && p.value.IntValue? then [Member("default", Number(p.value.i as real))] else []) +
             (if p.hasMin then [Member("minimum", Number(p.minValue as real))] else []) +
             if p.hasMax then [Member("maximum", Number(p.maxValue as real))] else [])
    case StringType =>
      Object([Member("type", Text("string"))] +
             if p.hasDefault && p.value.StringValue? && p.value.s.Some? then [Member("default", Text(p.value.s.value))] else [])
  }

  function PropertyMembers(props: seq<Property>): (ms: seq<Member>)
    ensures |ms| == |props|
    ensures forall i :: 0 <= i < |props| ==> ms[i] == Member(props[i].name, PropertySchema(props[i]))
  {
    seq(|props|, i requires 0 <= i < |props| => Member(props[i].name, PropertySchema(props[i])))
  }

  /** The names of the properties without a default, in order. */
  function RequiredNames(props: seq<Property>): (names: seq<Json>)
    ensures forall j <- names :: exists p <- props :: !p.hasDefault && j == Text(p.name)
    ensures forall p <- props :: !p.hasDefault ==> Text(p.name) in names
  {
    if props == [] then []
    else
      var last := props[|props| - 1];
      RequiredNames(props[..|props| - 1]) + if last.hasDefault then [] else [Text(last.name)]
  }

  function InputSchema(props: seq<Property>): Json {
    Object([Member("type", Text("object")), Member("properties", Object(PropertyMembers(props)))] +
           if RequiredNames(props) == [] then [] else [Member("required", Array(RequiredNames(props)))])
  }

  const USER_AUDIENCE := Object([Member("audience", Array([Text("user")]))])

  function ToolJson(tool: Tool): Json {
    Object([Member("name", Text(tool.name)), Member("description", Text(tool.description)),
            Member("inputSchema", InputSchema(tool.properties))] +
           if tool.userOnly then [Member("annotations", USER_AUDIENCE)] else [])
  }

  /** The property loop of mcp_tool_to_json: schemas and required names. */
  method BuildInputSchema(props: seq<Property>) returns (schema: Json)
    ensures schema == InputSchema(props)
  {
    var properties, required, hasRequired := [], [], false;
    for i := 0 to |props|
      invariant properties == PropertyMembers(props[..i])
      invariant required == RequiredNames(props[..i])
      invariant hasRequired == (required != [])
    {
      assert props[..i + 1][..i] == props[..i];
      if !props[i].hasDefault {
        required := required + [Text(props[i].name)];
        hasRequired := true;
      }
      properties := properties + [Member(props[i].name, PropertySchema(props[i]))];
    }
    assert props[..|props|] == props;
    var members := [Member("type", Text("object")), Member("properties", Object(properties))];
    if hasRequired {
      members := members + [Member("required", Array(required))];
    }
    assert InputSchema(props).members == members;
    schema := Object(members);
  }

  /** mcp_tool_to_json. */
  method ToolToJson(tool: Tool) returns (json: Json)
    ensures json == ToolJson(tool)
  {
    var schema := BuildInputSchema(tool.properties);
    var root := [Member("name", Text(tool.name)), Member("description", Text(tool.description)), Member("inputSchema", schema)];
    if tool.userOnly {
      root := root + [Member("annotations", USER_AUDIENCE)];
    }
    assert ToolJson(tool).members == root;
    json := Object(root);
  }

  // A validator for the keywords the tools emit.  JSON Schema Validation 2020-12:
  // "type" is section 6.1.1, "maximum" 6.2.2, "minimum" 6.2.4, "required" 6.5.3;
  // "properties" is section 10.3.2.1 of JSON Schema Core.

  predicate HasType(v: Json, name: string) {
    match name
    case "boolean" => v.Bool?
    case "integer" => v.Number? && Integral(v.v)
    case "string" => v.Text?
    case "object" => v.Object?
    case _ => true
  }

  predicate MeetsKeyword(keyword: string, value: Json, v: Json) {
    match keyword
    case "type" => value.Text? ==> HasType(v, value.s)
    case "minimum" => value.Number? && v.Number? ==> value.v <= v.v
    case "maximum" => value.Number? && v.Number? ==> v.v <= value.v
    case "required" => value.Array? && v.Object? ==>
      forall name <- value.items :: name.Text? ==> FindExact(v.members, name.s).Some?
    case _ => true
  }

  /** Every keyword of the schema is met by the instance. */
  predicate Validates(schema: Json, v: Json)
    decreases schema
  {
    schema.Object? ==>
      forall i :: 0 <= i < |schema.members| ==>
        var k := schema.members[i];
        && MeetsKeyword(k.key, k.value, v)
        && (k.key == "properties" && k.value.Object? && v.Object? ==>
              forall j :: 0 <= j < |k.value.members| ==>
                var sub := k.value.members[j];
                var part := FindExact(v.members, sub.key);
                part.Some? ==> Validates(sub.value, part.value))
  }

  /** The schema of one property, keyword by keyword: the check it stands for. */
  lemma PropertyValidates(p: Property, v: Json)
    ensures Validates(PropertySchema(p), v) <==>
            match p.ty
            case BooleanType => v.Bool?
            case IntegerType => v.Number? && Integral(v.v) && (p.hasMin ==> p.minValue as real <= v.v) && (p.hasMax ==> v.v <= p.maxValue as real)
            case StringType => v.Text?
  {
    var ms := PropertySchema(p).members;
    assert ms[0].key == "type";
    if p.ty.IntegerType? {
      var k := 1 + if p.hasDefault && p.value.IntValue? then 1 else 0;
      assert p.hasMin ==> ms[k] == Member("minimum", Number(p.minValue as real));
      assert p.hasMax ==> ms[|ms| - 1] == Member("maximum", Number(p.maxValue as real));
    }
  }

  /** A supplied number the checker lets through although the schema does not:
      a fraction, or a number beyond the C int on the side the property bounds. */
  predicate Lenient(p: Property, v: Json) {
    p.ty.IntegerType? && v.Number? &&
    (!Integral(v.v) || (p.hasMax && v.v > INT_MAX as real) || (p.hasMin && v.v < INT_MIN as real))
  }

  /** One property: the checker takes what the schema takes, and beyond that
      exactly the lenient numbers that saturate or truncate into the bounds. */
  lemma PropertyAgrees(p: Property, v: Json)
    ensures Validates(PropertySchema(p), v) ==> CopyFromJson(p, v).1
    ensures CopyFromJson(p, v).1 ==> (Validates(PropertySchema(p), v) <==> !Lenient(p, v))
  {
    PropertyValidates(p, v);
    if p.ty.IntegerType? && v.Number? {
      ValueIntExact(v.v);
      var n: int := ValueInt(v.v);
    }
  }

  /** The live arm of the value fits the type, and a string default is there
      exactly when it is said to be. */
  predicate WellTyped(p: Property) {
    match (p.ty, p.value)
    case (BooleanType, BoolValue(_)) => true
    case (IntegerType, IntValue(_)) => true
    case (StringType, StringValue(s)) => s.Some? == p.hasDefault
    case _ => false
  }

  /** The advertised default is the value an absent argument stands for: supplying
      it explicitly has the same effect, unless it breaks the property's own bounds. */
  lemma DefaultRoundTrip(p: Property)
    requires WellTyped(p)
    ensures match GetExact(PropertySchema(p), "default")
            case None => !p.hasDefault
            case Some(d) => p.hasDefault && (CopyFromJson(p, d) == (p, true) <==> (p.ty.IntegerType? ==> InBounds(p, p.value.i)))
  {
    var ms := PropertySchema(p).members;
    if p.hasDefault {
      assert ms[1].key == "default";
      if p.ty.IntegerType? {
        ValueIntExact(p.value.i as real);
      }
    } else if p.ty.IntegerType? {
      assert |ms| <= 3 && (|ms| > 2 ==> ms[1..][1..] == [ms[2]]);
    }
  }

  /** The default as it is advertised. */
  lemma DefaultAdvertised(p: Property)
    requires WellTyped(p) && p.hasDefault
    ensures GetExact(PropertySchema(p), "default") == Some(match p.value
                                                           case BoolValue(b) => Bool(b)
                                                           case IntValue(i) => Number(i as real)
                                                           case StringValue(s) => Text(s.GetOr("")))
  {
    assert PropertySchema(p).members[1].key == "default";
  }

  /** Required names come in the order of the properties, ... */
  lemma {:induction false} RequiredInOrder(a: seq<Property>, b: seq<Property>)
    ensures RequiredNames(a + b) == RequiredNames(a) + RequiredNames(b)
  {
    if b == [] {
      assert a + b == a;
    } else {
      RequiredInOrder(a, b[..|b| - 1]);
      assert (a + b)[..|a + b| - 1] == a + b[..|b| - 1] && (a + b)[|a + b| - 1] == b[|b| - 1];
      Regroup(RequiredNames(a), RequiredNames(b[..|b| - 1]), if b[|b| - 1].hasDefault then [] else [Text(b[|b| - 1].name)]);
    }
  }

  lemma NoneRequired(props: seq<Property>)
    ensures RequiredNames(props) == [] <==> forall p <- props :: p.hasDefault
  {
    if RequiredNames(props) != [] {
      assert RequiredNames(props)[0] in RequiredNames(props);
    }
  }

  /** ... once each, and the list is left out when there are none. */
  lemma RequiredAdvertised(props: seq<Property>, p: Property)
    ensures RequiredNames([p]) == if p.hasDefault then [] else [Text(p.name)]
    ensures GetExact(InputSchema(props), "required")
         == if (forall q <- props :: q.hasDefault) then None else Some(Array(RequiredNames(props)))
  {
    assert [p][..0] == [];
    NoneRequired(props);
    LastOfSchema(Text("object"), Object(PropertyMembers(props)), RequiredNames(props));
  }

  lemma LastOfSchema(ty: Json, properties: Json, names: seq<Json>)
    ensures var schema := [Member("type", ty), Member("properties", properties)] +
                          if names == [] then [] else [Member("required", Array(names))];
            FindExact(schema, "required") == if names == [] then None else Some(Array(names))
  {
    var tail := if names == [] then [] else [Member("required", Array(names))];
    var schema := [Member("type", ty), Member("properties", properties)] + tail;
    assert schema[1..] == [Member("properties", properties)] + tail && schema[1..][1..] == tail;
    assert names != [] ==> FindExact(tail, "required") == Some(Array(names));
  }

  /** What the schema asks of one property of the arguments. */
  predicate PartValid(p: Property, members: seq<Member>) {
    match FindExact(members, p.name)
    case Some(v) => Validates(PropertySchema(p), v)
    case None => p.hasDefault
  }

  lemma ValidPart(props: seq<Property>, members: seq<Member>, j: nat)
    requires j < |props| && Validates(InputSchema(props), Object(members))
    ensures PartValid(props[j], members)
  {
    var ms := InputSchema(props).members;
    assert ms[1] == Member("properties", Object(PropertyMembers(props)));
    assert ms[1].value.members[j] == Member(props[j].name, PropertySchema(props[j]));
    if !props[j].hasDefault {
      assert props[j] in props;
      assert Text(props[j].name) in RequiredNames(props);
      assert MeetsKeyword(ms[2].key, ms[2].value, Object(members));
    }
  }

  lemma RequiredPresent(props: seq<Property>, members: seq<Member>)
    requires forall p <- props :: PartValid(p, members)
    ensures MeetsKeyword("required", Array(RequiredNames(props)), Object(members))
  {
  }

  lemma ValidWhole(props: seq<Property>, members: seq<Member>)
    requires forall p <- props :: PartValid(p, members)
    ensures Validates(InputSchema(props), Object(members))
  {
    var ms := InputSchema(props).members;
    RequiredPresent(props, members);
    forall i | 0 <= i < |ms|
      ensures MeetsKeyword(ms[i].key, ms[i].value, Object(members))
    {
    }
    forall j | 0 <= j < |props|
      ensures var part := FindExact(members, PropertyMembers(props)[j].key);
              part.Some? ==> Validates(PropertyMembers(props)[j].value, part.value)
    {
      assert PartValid(props[j], members);
    }
  }

  /** The whole schema, spelled out. */
  lemma InputValidates(props: seq<Property>, args: Json)
    ensures Validates(InputSchema(props), args) <==> args.Object? && forall p <- props :: PartValid(p, args.members)
  {
    assert InputSchema(props).members[0] == Member("type", Text("object"));
    if Validates(InputSchema(props), args) {
      assert MeetsKeyword("type", Text("object"), args);
      forall p | p in props
        ensures PartValid(p, args.members)
      {
        var j :| 0 <= j < |props| && props[j] == p;
        ValidPart(props, args.members, j);
      }
    } else if args.Object? && forall p <- props :: PartValid(p, args.members) {
      ValidWhole(props, args.members);
    }
  }

  /** Every argument key that matches a property up to case is spelt exactly so. */
  predicate ExactKeys(props: seq<Property>, args: Json) {
    args.Object? ==> forall m <- args.members, p <- props :: Fold(m.key) == Fold(p.name) ==> m.key == p.name
  }

  /** The checker and the advertised schema.  With exactly spelt keys the checker
      never refuses valid arguments, and what it accepts is valid unless some
      supplied number is lenient. */
  lemma CheckerAgreesWithSchema(props: seq<Property>, args: Json)
    requires args.Object? && ExactKeys(props, args)
    ensures Validates(InputSchema(props), args) ==> Accepts(props, Some(args))
    ensures Accepts(props, Some(args)) ==>
              (Validates(InputSchema(props), args) <==>
               forall p <- props :: Supplied(p, Some(args)).Some? ==> !Lenient(p, Supplied(p, Some(args)).value))
  {
    InputValidates(props, args);
    forall p | p in props
      ensures Supplied(p, Some(args)) == FindExact(args.members, p.name)
    {
      LookupsAgree(args.members, p.name);
    }
    forall p, v | p in props && Supplied(p, Some(args)) == Some(v)
      ensures Validates(PropertySchema(p), v) ==> CopyFromJson(p, v).1
      ensures CopyFromJson(p, v).1 ==> (Validates(PropertySchema(p), v) <==> !Lenient(p, v))
    {
      PropertyAgrees(p, v);
    }
  }

  /** In particular, on integers a C int holds the two agree outright. */
  lemma SchemaExactOnIntegers(props: seq<Property>, args: Json)
    requires args.Object? && ExactKeys(props, args)
    requires forall m <- args.members :: m.value.Number? ==> Integral(m.value.v) && INT_MIN as real <= m.value.v <= INT_MAX as real
    ensures Accepts(props, Some(args)) <==> Validates(InputSchema(props), args)
  {
    CheckerAgreesWithSchema(props, args);
    forall p | p in props && Supplied(p, Some(args)).Some?
      ensures !Lenient(p, Supplied(p, Some(args)).value)
    {
      LookupsAgree(args.members, p.name);
    }
  }

  /** Omitting the arguments altogether is checked like an empty object. */
  lemma NoArgumentsIsEmptyObject(props: seq<Property>)
    ensures Accepts(props, None) <==> Validates(InputSchema(props), Object([]))
  {
    InputValidates(props, Object([]));
    assert forall p <- props :: Supplied(p, None) == None && FindExact([], p.name) == None;
    assert Accepts(props, None) <==> forall p <- props :: p.hasDefault;
  }

  /** Whether the value the checker finds for a name and the one the schema is
      about fare alike, whatever the property's type, bounds and default. */
  predicate SameVerdicts(found: Option<Json>, exact: Option<Json>) {
    match (found, exact)
    case (Some(v), Some(w)) =>
      && (v.Bool? <==> w.Bool?) && (v.Text? <==> w.Text?)
      && (v.Number? <==> w.Number? && Integral(w.v)) && (v.Number? ==> ValueInt(v.v) as real == w.v)
    case _ => found == exact
  }

  lemma SameVerdictsAgree(p: Property, members: seq<Member>)
    requires SameVerdicts(Find(members, p.name), FindExact(members, p.name))
    ensures var args := Some(Object(members));
            PartValid(p, members) <==> !Bad(p, args) && !Missing(p, args)
  {
    var exact := FindExact(members, p.name);
    if exact.Some? {
      PropertyValidates(p, exact.value);
    }
  }

  /** A property of that name on which other verdicts differ. */
  function Telling(name: string, found: Option<Json>, exact: Option<Json>): (p: Property)
    ensures p.name == name
  {
    match (found, exact)
    case (Some(v), Some(w)) =>
      if v.Bool? != w.Bool? then Property(name, BooleanType, false, false, false, 0, 0, BoolValue(false))
      else if v.Text? != w.Text? then Property(name, StringType, false, false, false, 0, 0, StringValue(None))
      else if v.Number? then Property(name, IntegerType, false, true, true, ValueInt(v.v), ValueInt(v.v), IntValue(0))
      else Property(name, IntegerType, false, false, false, 0, 0, IntValue(0))
    case (Some(Bool(_)), None) => Property(name, StringType, true, false, false, 0, 0, StringValue(Some("")))
    case _ => Property(name, BooleanType, true, false, false, 0, 0, BoolValue(false))
  }

  lemma OtherVerdictsDiffer(name: string, members: seq<Member>)
    requires !SameVerdicts(Find(members, name), FindExact(members, name))
    ensures var p, args := Telling(name, Find(members, name), FindExact(members, name)), Some(Object(members));
            !(PartValid(p, members) <==> !Bad(p, args) && !Missing(p, args))
  {
    var exact := FindExact(members, name);
    if exact.Some? {
      PropertyValidates(Telling(name, Find(members, name), exact), exact.value);
    }
  }

  /** With no condition on the arguments at all: the checker and the schema agree
      on every property list over some names exactly when, for each name, the
      argument found up to case and the exactly spelt one are both missing, or
      are of one kind and as C ints the same number. */
  lemma AgreeOnEveryList(names: set<string>, args: Json)
    requires args.Object?
    ensures (forall props: seq<Property> :: (forall p <- props :: p.name in names) ==>
              (Accepts(props, Some(args)) <==> Validates(InputSchema(props), args)))
       <==> (forall name <- names :: SameVerdicts(Find(args.members, name), FindExact(args.members, name)))
  {
    if forall name <- names :: SameVerdicts(Find(args.members, name), FindExact(args.members, name)) {
      forall props: seq<Property> | forall p <- props :: p.name in names
        ensures Accepts(props, Some(args)) <==> Validates(InputSchema(props), args)
      {
        AgreeOnList(props, args);
      }
    } else {
      var name :| name in names && !SameVerdicts(Find(args.members, name), FindExact(args.members, name));
      var p := DifferOnOne(name, args);
      assert forall q <- [p] :: q.name in names;
    }
  }

  lemma AgreeOnList(props: seq<Property>, args: Json)
    requires args.Object? && forall p <- props :: SameVerdicts(Find(args.members, p.name), FindExact(args.members, p.name))
    ensures Accepts(props, Some(args)) <==> Validates(InputSchema(props), args)
  {
    forall p | p in props
      ensures PartValid(p, args.members) <==> !Bad(p, Some(args)) && !Missing(p, Some(args))
    {
      SameVerdictsAgree(p, args.members);
    }
    InputValidates(props, args);
  }

  lemma DifferOnOne(name: string, args: Json) returns (p: Property)
    requires args.Object? && !SameVerdicts(Find(args.members, name), FindExact(args.members, name))
    ensures p.name == name && !(Accepts([p], Some(args)) <==> Validates(InputSchema([p]), args))
  {
    p := Telling(name, Find(args.members, name), FindExact(args.members, name));
    OtherVerdictsDiffer(name, args.members);
    InputValidates([p], args);
    assert p in [p] && forall q <- [p] :: q == p;
  }

  const COUNT := Property("count", IntegerType, false, false, true, 0, 9, IntValue(0))

  /** The conditions cannot be dropped.  A fraction is accepted though invalid: */
  lemma FractionAccepted()
    ensures var args := Object([Member("count", Number(9.5))]);
            Accepts([COUNT], Some(args)) && !Validates(InputSchema([COUNT]), args)
  {
    var args := Object([Member("count", Number(9.5))]);
    CheckerAgreesWithSchema([COUNT], args);
    assert Supplied(COUNT, Some(args)) == Some(Number(9.5));
    assert COUNT in [COUNT] && Lenient(COUNT, Number(9.5));
  }

  /** so is a required property under another spelling: */
  lemma RespeltAccepted()
    ensures var args := Object([Member("Count", Number(1.0))]);
            Accepts([COUNT], Some(args)) && !Validates(InputSchema([COUNT]), args)
  {
    var args := Object([Member("Count", Number(1.0))]);
    assert Fold("Count") == Fold("count");
    assert Supplied(COUNT, Some(args)) == Some(Number(1.0));
    assert COUNT in [COUNT] && !PartValid(COUNT, args.members) by {
      assert FindExact(args.members[1..], "count") == None;
    }
    InputValidates([COUNT], args);
  }

  /** and an extra key of another spelling makes valid arguments refused. */
  lemma ExtraSpellingRefused()
    ensures var args := Object([Member("Count", Null), Member("count", Number(1.0))]);
            !Accepts([COUNT], Some(args)) && Validates(InputSchema([COUNT]), args)
  {
    var args := Object([Member("Count", Null), Member("count", Number(1.0))]);
    assert FindExact(args.members[1..], "count") == Some(Number(1.0));
    PropertyValidates(COUNT, Number(1.0));
    assert forall p <- [COUNT] :: PartValid(p, args.members);
    ValidWhole([COUNT], args.members);
    assert Fold("Count") == Fold("count");
    assert COUNT in [COUNT] && Bad(COUNT, Some(args));
  }
}
