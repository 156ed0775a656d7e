/** JSON-RPC 2.0 as a peer reads it: member names are case-sensitive. */
module JsonRpc {
  import opened Json

  predicate HasMember(j: Json, key: string) {
    GetExact(j, key).Some?
  }

  /** Version, method and id of a request, section 4: an id is a string, a number or null. */
  predicate Envelope(json: Json) {
    && GetExact(json, "jsonrpc") == Some(Text("2.0"))
    && HasMember(json, "method") && GetExact(json, "method").value.Text?
    && HasMember(json, "id")
    && var id := GetExact(json, "id").value; id.Text? || id.Number? || id.Null?
  }

  /** Section 4.2: parameters, if present, are an array or an object. */
  predicate StructuredParams(json: Json) {
    HasMember(json, "params") ==> var params := GetExact(json, "params").value; params.Array? || params.Object?
  }

  predicate SpecRequest(json: Json) {
    Envelope(json) && StructuredParams(json)
  }

  /** With a number for its id. */
  predicate NumberedEnvelope(json: Json) {
    Envelope(json) && GetExact(json, "id").value.Number?
  }

  /** A response object as sections 5 and 5.1 ask for it. */
  predicate ConformingResponse(reply: Json) {
    && GetExact(reply, "jsonrpc") == Some(Text("2.0")) && HasMember(reply, "id")
    && (HasMember(reply, "result") <==> !HasMember(reply, "error"))
    && (HasMember(reply, "error") ==>
          var error := GetExact(reply, "error").value;
          && (HasMember(error, "message") && GetExact(error, "message").value.Text?)
          && (HasMember(error, "code") && GetExact(error, "code").value.Number?))
  }

  const ENVELOPE_KEYS := ["jsonrpc", "method", "id"]

  /** Every key that matches one of the envelope's up to case is spelt exactly so. */
  predicate ExactEnvelope(json: Json) {
    json.Object? ==> forall m <- json.members, key <- ENVELOPE_KEYS :: Fold(m.key) == Fold(key) ==> m.key == key
  }

  function RespeltKey(key: string): string {
    if Fold(key) == Fold("jsonrpc") then "jsonrpc"
    else if Fold(key) == Fold("method") then "method"
    else if Fold(key) == Fold("id") then "id"
    else key
  }

  function RespeltMembers(members: seq<Member>): seq<Member> {
    if members == [] then []
    else [members[0].(key := RespeltKey(members[0].key))] + RespeltMembers(members[1..])
  }

  /** The message with its envelope keys spelt exactly. */
  function Respelt(json: Json): Json {
    if json.Object? then Object(RespeltMembers(json.members)) else json
  }

  lemma EnvelopeKeysDiffer()
    ensures Fold("jsonrpc") != Fold("method") && Fold("method") != Fold("id") && Fold("jsonrpc") != Fold("id")
  {
    assert |Fold("jsonrpc")| == 7 && |Fold("method")| == 6 && |Fold("id")| == 2;
  }

  /** The case-insensitive lookup of an envelope key is the exact one after respelling. */
  lemma {:induction false} FindRespelt(members: seq<Member>, key: string)
    requires key in ENVELOPE_KEYS
    ensures Find(members, key) == FindExact(RespeltMembers(members), key)
  {
    if members != [] {
      EnvelopeKeysDiffer();
      assert RespeltKey(members[0].key) == key <==> Fold(members[0].key) == Fold(key);
      FindRespelt(members[1..], key);
    }
  }

  lemma GetRespelt(json: Json, key: string)
    requires key in ENVELOPE_KEYS
    ensures GetItem(json, key) == GetExact(Respelt(json), key)
  {
    if json.Object? {
      FindRespelt(json.members, key);
    }
  }

  lemma {:induction false} AlreadyExact(members: seq<Member>)
    requires ExactEnvelope(Object(members))
    ensures RespeltMembers(members) == members
  {
    if members != [] {
      assert forall key <- ENVELOPE_KEYS :: Fold(members[0].key) == Fold(key) ==> members[0].key == key;
      assert ENVELOPE_KEYS[0] == "jsonrpc" && ENVELOPE_KEYS[1] == "method" && ENVELOPE_KEYS[2] == "id";
      AlreadyExact(members[1..]);
    }
  }

  lemma RespellingExact(json: Json)
    requires ExactEnvelope(json)
    ensures Respelt(json) == json
  {
    if json.Object? {
      AlreadyExact(json.members);
    }
  }

  lemma UpperCaseRespelt(json: Json)
    requires json == Object([Member("JSONRPC", Text("2.0")), Member("METHOD", Text("initialize")), Member("ID", Number(1.0))])
    ensures !SpecRequest(json) && NumberedEnvelope(Respelt(json))
  {
    assert Fold("JSONRPC") == Fold("jsonrpc") && Fold("METHOD") == Fold("method") && Fold("ID") == Fold("id");
    EnvelopeKeysDiffer();
    var ms := json.members;
    assert RespeltMembers(ms[1..][1..]) == [Member("id", Number(1.0))];
    assert RespeltMembers(ms[1..]) == [Member("method", Text("initialize")), Member("id", Number(1.0))];
    var exact := Respelt(json).members;
    assert exact == [Member("jsonrpc", Text("2.0")), Member("method", Text("initialize")), Member("id", Number(1.0))];
    assert exact[1..][1..] == [Member("id", Number(1.0))];
  }
}
