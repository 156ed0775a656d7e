/** Option, C integers, and the JSON trees the server exchanges. */
module Json {

  datatype Option<+T> = None | Some(value: T) {
    function GetOr(default: T): T {
      match this
      case Some(v) => v
      case None => default
    }
  }

  const INT_MAX: int := 0x7fff_ffff
  const INT_MIN: int := -0x8000_0000

  type int32 = x: int | INT_MIN <= x <= INT_MAX

  datatype Json =
    | Null
    | Bool(b: bool)
    | Number(v: real)
    | Text(s: string)
    | Array(items: seq<Json>)
    | Object(members: seq<Member>)

  datatype Member = Member(key: string, value: Json)

  /** ASCII lower case of one byte, as the JSON library compares keys. */
  function FoldChar(c: char): char {
    if 'A' <= c <= 'Z' then ((c as int) + 32) as char else c
  }

  function Fold(s: string): string {
    seq(|s|, i requires 0 <= i < |s| => FoldChar(s[i]))
  }

  /** Letters compare equal whatever their case, and nothing else does. */
  predicate SameUpToCase(a: char, b: char) {
    || a == b
    || ('A' <= a <= 'Z' && b as int == a as int + 32)
    || ('A' <= b <= 'Z' && a as int == b as int + 32)
  }

  lemma FoldEqualIff(a: string, b: string)
    ensures Fold(a) == Fold(b) <==> |a| == |b| && forall i :: 0 <= i < |a| ==> SameUpToCase(a[i], b[i])
  {
    if |a| == |b| {
      forall i | 0 <= i < |a|
        ensures Fold(a)[i] == Fold(b)[i] <==> SameUpToCase(a[i], b[i])
      {
      }
    } else {
      assert |Fold(a)| == |a| && |Fold(b)| == |b|;
    }
  }

  /** The first member whose key equals `key` up to letter case. */
  function Find(members: seq<Member>, key: string): (r: Option<Json>)
    ensures r.Some? <==> exists m <- members :: Fold(m.key) == Fold(key)
  {
    if members == [] then None
    else if Fold(members[0].key) == Fold(key) then Some(members[0].value)
    else Find(members[1..], key)
  }

  /** The library's object lookup; anything that is not an object has no members. */
  function GetItem(j: Json, key: string): Option<Json> {
    if j.Object? then Find(j.members, key) else None
  }

  /** The first member whose key is exactly `key`: how a JSON Schema validator
      and a JSON-RPC peer read an object. */
  function FindExact(members: seq<Member>, key: string): (r: Option<Json>)
    ensures r.Some? <==> exists m <- members :: m.key == key
    ensures r.Some? ==> Member(key, r.value) in members
  {
    if members == [] then None
    else if members[0].key == key then Some(members[0].value)
    else FindExact(members[1..], key)
  }

  function GetExact(j: Json, key: string): Option<Json> {
    if j.Object? then FindExact(j.members, key) else None
  }

  lemma Regroup<T>(a: seq<T>, b: seq<T>, c: seq<T>)
    ensures a + b + c == a + (b + c)
  {
  }

  /** Both lookups find the first member that matches. */
  lemma {:induction false} FindFirst(members: seq<Member>, key: string, k: nat)
    requires k < |members|
    ensures Fold(members[k].key) == Fold(key) && (forall j :: 0 <= j < k ==> Fold(members[j].key) != Fold(key))
            ==> Find(members, key) == Some(members[k].value)
    ensures members[k].key == key && (forall j :: 0 <= j < k ==> members[j].key != key)
            ==> FindExact(members, key) == Some(members[k].value)
  {
    if k > 0 {
      FindFirst(members[1..], key, k - 1);
      assert forall j :: 0 <= j < k - 1 ==> members[1..][j] == members[j + 1];
    }
  }

  /** An object in which every key matching `key` up to case is `key` itself
      answers both lookups alike. */
  lemma {:induction false} LookupsAgree(members: seq<Member>, key: string)
    requires forall m <- members :: Fold(m.key) == Fold(key) ==> m.key == key
    ensures Find(members, key) == FindExact(members, key)
  {
    if members != [] {
      LookupsAgree(members[1..], key);
    }
  }

  predicate Integral(v: real) {
    v == v.Floor as real
  }

  /** Conversion of a parsed number to a C int: towards zero, saturating. */
  function ValueInt(v: real): (n: int32)
    ensures Integral(v) && INT_MIN as real <= v <= INT_MAX as real ==> n as real == v
    ensures v > INT_MAX as real ==> n == INT_MAX
    ensures v < INT_MIN as real ==> n == INT_MIN
  {
    if v >= INT_MAX as real then INT_MAX
    else if v <= INT_MIN as real then INT_MIN
    else if v >= 0.0 then v.Floor
    else -((-v).Floor)
  }

  /** The conversion cuts off the fraction: towards zero, so not always down. */
  lemma ValueIntTruncates(v: real)
    requires -2147483648.0 <= v <= 2147483647.0
    ensures v >= 0.0 ==> ValueInt(v) as real <= v < ValueInt(v) as real + 1.0
    ensures v <= 0.0 ==> ValueInt(v) as real - 1.0 < v <= ValueInt(v) as real
  {
  }

  /** The conversion keeps a number exactly when it is an integer a C int can hold. */
  lemma ValueIntExact(v: real)
    ensures ValueInt(v) as real == v <==> Integral(v) && INT_MIN as real <= v <= INT_MAX as real
  {
  }
}
