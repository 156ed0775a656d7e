/** Properties as the heap objects of core/mcp/mcp_property.c: strings are
    allocated, copied and freed, and a call works on a deep clone of the tool's
    template. */
module PropertyHeap {
  import opened Json
  import opened Properties

  /** A block holding a C string.  `live` turns false when it is freed; `owner`
      names the property the block was allocated for. */
  class Str {
    const text: string
    ghost const owner: PropertyCell
    var live: bool

    constructor (text: string, ghost owner: PropertyCell)
      ensures this.text == text && this.owner == owner && live
      ensures forall s: Str :: fresh(s) && s.live ==> s == this
    {
      this.text := text;
      this.owner := owner;
      this.live := true;
    }
  }

  datatype RawValue = RawBool(b: bool) | RawInt(i: int32) | RawString(s: Str?)

  class PropertyCell {
    var name: Str?
    var ty: PropertyType
    var hasDefault: bool
    var hasMin: bool
    var hasMax: bool
    var minValue: int32
    var maxValue: int32
    var value: RawValue

    constructor Zeroed()
      ensures name == null && !hasDefault && value == RawInt(0)
      ensures forall s: Str :: fresh(s) ==> !s.live
    {
      name, ty, hasDefault, hasMin, hasMax := null, BooleanType, false, false, false;
      minValue, maxValue, value := 0, 0, RawInt(0);
    }
  }

  /** The string block behind the value, if any. */
  ghost function ValueBlock(p: PropertyCell): set<Str>
    reads p
  {
    if p.value.RawString? && p.value.s != null then {p.value.s} else {}
  }

  /** The blocks freeing `p` must free. */
  ghost predicate Owns(p: PropertyCell, s: Str)
    reads p
  {
    s == p.name || p.value == RawString(s)
  }

  /** A well-formed property whose strings are among `blocks`. */
  ghost predicate Wf(p: PropertyCell, blocks: set<Str>)
    reads p, blocks
  {
    && p.name != null && p.name in blocks && p.name.live && p.name.owner == p
    && match p.value
       case RawBool(_) => p.ty.BooleanType?
       case RawInt(_) => p.ty.IntegerType?
       case RawString(s) =>
         && p.ty.StringType? && (p.hasDefault <==> s != null) && s != p.name
         && (s != null ==> s in blocks && s.live && s.owner == p)
  }

  function ViewValue(v: RawValue): Value {
    match v
    case RawBool(b) => BoolValue(b)
    case RawInt(i) => IntValue(i)
    case RawString(s) => StringValue(if s == null then None else Some(s.text))
  }

  function View(p: PropertyCell): (r: Property)
    requires p.name != null
    reads p
  {
    Property(p.name.text, p.ty, p.hasDefault, p.hasMin, p.hasMax, p.minValue, p.maxValue, ViewValue(p.value))
  }

  /** A property list: distinct well-formed properties with the values `props`. */
  ghost predicate Represents(cells: seq<PropertyCell>, blocks: set<Str>, props: seq<Property>)
    reads cells, blocks
  {
    && |cells| == |props|
    && (forall i :: 0 <= i < |cells| ==> Wf(cells[i], blocks) && View(cells[i]) == props[i])
    && (forall i, j :: 0 <= i < j < |cells| ==> cells[i] != cells[j])
  }

  /** property_copy_func: a deep copy into new storage. */
  method CopyProperty(src: PropertyCell, ghost blocks: set<Str>) returns (dst: PropertyCell, ghost own: set<Str>)
    requires Wf(src, blocks)
    ensures fresh(dst) && fresh(own) && Wf(dst, own) && View(dst) == View(src)
    ensures forall s: Str :: fresh(s) && s.live ==> s.owner == dst && Owns(dst, s)
  {
    dst := new PropertyCell.Zeroed();
    dst.ty := src.ty;
    dst.hasDefault := src.hasDefault;
    dst.hasMin := src.hasMin;
    dst.hasMax := src.hasMax;
    dst.minValue := src.minValue;
    dst.maxValue := src.maxValue;
    dst.name := new Str(src.name.text, dst);
    own := {dst.name};
    if src.ty.StringType? && src.hasDefault {
      var copy := new Str(src.value.s.text, dst);
      dst.value, own := RawString(copy), own + {copy};
    } else {
      dst.value := src.value;
    }
  }

  /** mcp_property_list_clone. */
  method CloneList(source: seq<PropertyCell>, ghost blocks: set<Str>, ghost props: seq<Property>)
    returns (clone: seq<PropertyCell>, ghost own: set<Str>)
    requires Represents(source, blocks, props)
    ensures fresh(clone) && fresh(own) && Represents(clone, own, props)
    ensures forall s: Str :: fresh(s) && s.live ==> s.owner in clone && Owns(s.owner, s)
  {
    clone, own := [], {};
    for i := 0 to |source|
      invariant |clone| == i && fresh(clone) && fresh(own)
      invariant Represents(clone, own, props[..i])
      invariant forall s: Str :: fresh(s) && s.live ==> s.owner in clone && Owns(s.owner, s)
    {
      var p;
      ghost var more;
      p, more := CopyProperty(source[i], blocks);
      AppendCell(clone, own, props[..i], p, more);
      assert props[..i + 1] == props[..i] + [View(p)];
      clone, own := clone + [p], own + more;
    }
  }

  lemma AppendCell(cells: seq<PropertyCell>, blocks: set<Str>, props: seq<Property>, p: PropertyCell, more: set<Str>)
    requires Represents(cells, blocks, props) && Wf(p, more) && p !in cells
    ensures Represents(cells + [p], blocks + more, props + [View(p)])
  {
  }

  method FreeStr(s: Str?)
    requires s != null ==> s.live
    modifies if s != null then {s} else {}
    ensures s != null ==> !s.live
    ensures forall t: Str :: fresh(t) ==> !t.live
  {
    if s != null {
      s.live := false;
    }
  }

  method SetString(p: PropertyCell, text: string, ghost blocks: set<Str>) returns (ok: bool, ghost own: set<Str>)
    requires Wf(p, blocks)
    modifies p`value, p`hasDefault, ValueBlock(p)
    ensures ok == p.ty.StringType? && blocks <= own && fresh(own - blocks) && Wf(p, own)
    ensures View(p) == if ok then old(View(p)).(value := StringValue(Some(text)), hasDefault := true) else old(View(p))
    ensures forall s: Str :: (fresh(s) || old(Owns(p, s))) && s.live ==> s.owner == p && Owns(p, s)
  {
    if !p.ty.StringType? {
      return false, blocks;
    }
    FreeStr(p.value.s);
    var copy := new Str(text, p);
    p.value := RawString(copy);
    p.hasDefault := true;
    return true, blocks + {copy};
  }

  method SetInt(p: PropertyCell, v: int32, ghost blocks: set<Str>) returns (ok: bool)
    requires Wf(p, blocks)
    modifies p`value, p`hasDefault
    ensures ok == (p.ty.IntegerType? && InBounds(old(View(p)), v)) && Wf(p, blocks)
    ensures View(p) == if ok then old(View(p)).(value := IntValue(v), hasDefault := true) else old(View(p))
    ensures forall s: Str :: (fresh(s) || old(Owns(p, s))) && s.live ==> s.owner == p && Owns(p, s)
  {
    if !p.ty.IntegerType? {
      return false;
    }
    if p.hasMin && v < p.minValue {
      return false;
    }
    if p.hasMax && v > p.maxValue {
      return false;
    }
    p.value := RawInt(v);
    p.hasDefault := true;
    return true;
  }

  method SetBool(p: PropertyCell, b: bool, ghost blocks: set<Str>) returns (ok: bool)
    requires Wf(p, blocks)
    modifies p`value, p`hasDefault
    ensures ok == p.ty.BooleanType? && Wf(p, blocks)
    ensures View(p) == if ok then old(View(p)).(value := BoolValue(b), hasDefault := true) else old(View(p))
    ensures forall s: Str :: (fresh(s) || old(Owns(p, s))) && s.live ==> s.owner == p && Owns(p, s)
  {
    if !p.ty.BooleanType? {
      return false;
    }
    p.value := RawBool(b);
    p.hasDefault := true;
    return true;
  }

  /** mcp_property_copy_from_json. */
  method StoreJson(p: PropertyCell, json: Json, ghost blocks: set<Str>) returns (ok: bool, ghost own: set<Str>)
    requires Wf(p, blocks)
    modifies p`value, p`hasDefault, ValueBlock(p)
    ensures blocks <= own && fresh(own - blocks) && Wf(p, own)
    ensures (View(p), ok) == CopyFromJson(old(View(p)), json)
    ensures forall s: Str :: (fresh(s) || old(Owns(p, s))) && s.live ==> s.owner == p && Owns(p, s)
  {
    ok, own := false, blocks;
    match p.ty {
      case BooleanType =>
        if json.Bool? {
          ok := SetBool(p, json.b, blocks);
        }
      case IntegerType =>
        if json.Number? {
          ok := SetInt(p, ValueInt(json.v), blocks);
        }
      case StringType =>
        if json.Text? {
          ok, own := SetString(p, json.s, blocks);
        }
    }
  }

  /** One round of the argument loop: look property `i` up and store what is supplied. */
  method CheckOne(cells: seq<PropertyCell>, i: nat, p: PropertyCell, args: Option<Json>, blamed: Option<nat>,
                  ghost own: set<Str>, ghost now: seq<Property>, ghost props: seq<Property>)
    returns (bad: bool, blamed': Option<nat>, ghost own': set<Str>, ghost now': seq<Property>)
    requires i < |cells| && cells[i] == p && Represents(cells, own, now)
    requires |props| == |now| && ScanAfter(props, args, i) == Scan(now, blamed, false)
    modifies p`value, p`hasDefault, ValueBlock(p)
    ensures own <= own' && fresh(own' - own)
    ensures Represents(cells, own', now')
    ensures ScanAfter(props, args, i + 1) == Scan(now', blamed', bad)
    ensures forall s: Str :: (fresh(s) || old(Owns(p, s))) && s.live ==> s.owner == p && Owns(p, s)
  {
    now' := now[i := Fill(now[i], args)];
    bad, blamed', own' := false, blamed, own;
    var value := if args.Some? then GetItem(args.value, p.name.text) else None;
    if value.Some? {
      var ok;
      ok, own' := StoreJson(p, value.value, own);
      if !ok {
        bad, blamed' := true, Some(i);
      }
    } else if !p.hasDefault {
      blamed' := Some(i);
    }
  }

  /** The argument loop over a list that is already private to the call. */
  method CheckAll(cells: seq<PropertyCell>, args: Option<Json>, ghost own: set<Str>, ghost props: seq<Property>)
    returns (blamed: Option<nat>, ghost own': set<Str>, ghost now: seq<Property>)
    requires Represents(cells, own, props)
    requires forall s <- own :: s.live ==> s.owner in cells && Owns(s.owner, s)
    modifies cells, own
    ensures Represents(cells, own', now) && own <= own' && fresh(own' - own)
    ensures blamed.None? <==> Accepts(props, args)
    ensures blamed.None? ==> now == Filled(props, args)
    ensures blamed.Some? ==> blamed.value < |cells| && Blamed(props, args) == Some(now[blamed.value].name)
    ensures forall s: Str :: (fresh(s) || s in own) && s.live ==> s.owner in cells && Owns(s.owner, s)
  {
    own', now := own, props;
    var i, bad := 0, false;
    blamed := None;
    while i < |cells| && !bad
      invariant 0 <= i <= |cells| == |props| && own <= own' && fresh(own' - own)
      invariant Represents(cells, own', now)
      invariant ScanAfter(props, args, i) == Scan(now, blamed, bad)
      invariant forall s: Str :: (fresh(s) || s in own) && s.live ==> s.owner in cells && Owns(s.owner, s)
    {
      bad, blamed, own', now := CheckOne(cells, i, cells[i], args, blamed, own', now, props);
      i := i + 1;
    }
    ScanEnds(props, args, i);
  }

  /** mcp_server_parse_arguments: clone the template, then overwrite the clone
      with the supplied values.  There is no modifies clause: nothing that
      existed before the call, the template least of all, is written or freed. */
  method ParseArguments(template: seq<PropertyCell>, args: Option<Json>,
                        ghost blocks: set<Str>, ghost props: seq<Property>)
    returns (parsed: seq<PropertyCell>, ok: bool, errorProperty: Str?,
             ghost own: set<Str>, ghost now: seq<Property>)
    requires Represents(template, blocks, props)
    ensures fresh(parsed) && fresh(own) && Represents(parsed, own, now)
    ensures ok == Accepts(props, args)
    ensures ok ==> now == Filled(props, args)
    ensures !ok ==> errorProperty != null && errorProperty.live && Blamed(props, args) == Some(errorProperty.text)
    ensures forall s: Str :: fresh(s) && s.live ==> s.owner in parsed && Owns(s.owner, s)
  {
    parsed, own := CloneList(template, blocks, props);
    var blamed: Option<nat>;
    blamed, own, now := CheckAll(parsed, args, own, props);
    ok, errorProperty := blamed.None?, null;
    if blamed.Some? {
      assert View(parsed[blamed.value]) == now[blamed.value];
      errorProperty := parsed[blamed.value].name;
    }
  }

  /** property_free_func. */
  method FreeProperty(p: PropertyCell, ghost own: set<Str>)
    requires Wf(p, own)
    modifies p, p.name, ValueBlock(p)
    ensures forall s: Str :: fresh(s) || old(Owns(p, s)) ==> !s.live
  {
    FreeStr(p.name);
    if p.ty.StringType? && p.hasDefault {
      FreeStr(p.value.s);
    }
    p.name, p.ty, p.hasDefault, p.hasMin, p.hasMax := null, BooleanType, false, false, false;
    p.minValue, p.maxValue, p.value := 0, 0, RawInt(0);
  }

  /** mcp_property_list_free: every block of the list is freed, none twice. */
  method FreeList(cells: seq<PropertyCell>, ghost own: set<Str>, ghost props: seq<Property>)
    requires Represents(cells, own, props)
    modifies cells, own
    ensures forall s: Str :: old(allocated(s)) && old(s.owner in cells && Owns(s.owner, s)) ==> !s.live
    ensures forall s: Str :: old(allocated(s)) && s.live ==> old(s.live)
    ensures forall s: Str :: fresh(s) ==> !s.live
  {
    for i := 0 to |cells|
      invariant forall j :: i <= j < |cells| ==> unchanged(cells[j])
      invariant forall s <- own :: s.owner in cells[i..] ==> unchanged(s)
      invariant forall s: Str :: old(allocated(s)) && old(s.owner in cells && Owns(s.owner, s)) && s.owner in cells[..i] ==> !s.live
      invariant forall s: Str :: old(allocated(s)) && s.live ==> old(s.live)
      invariant forall s: Str :: fresh(s) ==> !s.live
    {
      FreeProperty(cells[i], own);
    }
  }

  /** What a callback sees of its argument list. */
  method ReadList(cells: seq<PropertyCell>, ghost own: set<Str>, ghost props: seq<Property>) returns (seen: seq<Property>)
    requires Represents(cells, own, props)
    ensures seen == props
    ensures forall s: Str :: fresh(s) ==> !s.live
  {
    seen := [];
    for i := 0 to |cells|
      invariant seen == props[..i]
      invariant forall s: Str :: fresh(s) ==> !s.live
    {
      seen := seen + [View(cells[i])];
    }
  }

  /** The call half of mcp_server_do_tool_call: check, call back, release.  The
      template is untouched and every block the call allocated has been freed. */
  method CallTool(template: seq<PropertyCell>, callback: Option<Callback>, args: Option<Json>,
                  ghost blocks: set<Str>, ghost props: seq<Property>)
    returns (outcome: CallOutcome)
    requires Represents(template, blocks, props)
    ensures outcome == CallWith(props, callback, args)
    ensures forall s: Str :: fresh(s) ==> !s.live
  {
    var parsed, ok, errorProperty;
    ghost var own, now;
    parsed, ok, errorProperty, own, now := ParseArguments(template, args, blocks, props);
    RejectedMeansBlamed(props, args);
    if !ok {
      outcome := Rejected(errorProperty.text);
    } else if callback.None? {
      outcome := Failed;
    } else {
      var seen := ReadList(parsed, own, now);
      outcome := Returned(callback.value(seen));
    }
    FreeList(parsed, own, now);
  }

  /** Any sequence of calls against one template, accepted or not: each outcome
      is that of the call alone, and the template is as it was. */
  method CallInTurn(template: seq<PropertyCell>, callback: Option<Callback>, calls: seq<Option<Json>>,
                    ghost blocks: set<Str>, ghost props: seq<Property>)
    returns (outcomes: seq<CallOutcome>)
    requires Represents(template, blocks, props)
    ensures |outcomes| == |calls| && Represents(template, blocks, props)
    ensures forall i :: 0 <= i < |calls| ==> outcomes[i] == CallWith(props, callback, calls[i])
    ensures forall s: Str :: fresh(s) ==> !s.live
  {
    outcomes := [];
    for i := 0 to |calls|
      invariant |outcomes| == i
      invariant forall j :: 0 <= j < i ==> outcomes[j] == CallWith(props, callback, calls[j])
      invariant forall s: Str :: fresh(s) ==> !s.live
    {
      var outcome := CallTool(template, callback, calls[i], blocks, props);
      outcomes := outcomes + [outcome];
    }
  }
}
