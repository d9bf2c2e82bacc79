/** An abstract JSON document, as the engine's JSON reader hands it to the
    bridge, and the typed field accessors of `FJsonObject` the bridge uses.

    An object is the member list in document order. The engine stores members
    in a map keyed by `FString`, whose comparison ignores case, and a later
    duplicate replaces an earlier one; so a lookup finds the LAST member whose
    key equals the requested name ignoring case. The text reader itself is not
    part of this model: it appears elsewhere only as a function parameter. */
module Json {
  import opened Wrappers
  import Text

  datatype JValue =
    | JNull
    | JBool(b: bool)
    | JNumber(n: real)
    | JString(s: string)
    | JArray(items: seq<JValue>)
    | JObject(members: seq<Member>)

  datatype Member = Member(key: string, value: JValue)

  predicate KeyMatches(m: Member, key: string) {
    Text.EqualsIgnoreCase(m.key, key)
  }

  /** The index of the member a lookup of `key` finds: the last one whose key
      equals `key` ignoring case. */
  function FieldIndex(members: seq<Member>, key: string): (r: Option<nat>)
    ensures r.Some? ==> r.value < |members| && KeyMatches(members[r.value], key)
    ensures r.Some? ==> forall j :: r.value < j < |members| ==> !KeyMatches(members[j], key)
    ensures r.None? <==> forall j :: 0 <= j < |members| ==> !KeyMatches(members[j], key)
  {
    if |members| == 0 then None
    else if KeyMatches(members[|members| - 1], key) then Some(|members| - 1)
    else FieldIndex(members[..|members| - 1], key)
  }

  /** `FJsonObject::TryGetField`. */
  function TryGetField(members: seq<Member>, key: string): Option<JValue> {
    var i := FieldIndex(members, key);
    if i.Some? then Some(members[i.value].value) else None
  }

  /** `FJsonObject::TryGetStringField`: present only when the member holds a
      JSON string. */
  function TryGetStringField(members: seq<Member>, key: string): Option<string> {
    match TryGetField(members, key)
    case Some(JString(s)) => Some(s)
    case _ => None
  }

  /** `FJsonObject::TryGetNumberField`. */
  function TryGetNumberField(members: seq<Member>, key: string): Option<real> {
    match TryGetField(members, key)
    case Some(JNumber(n)) => Some(n)
    case _ => None
  }

  /** `FJsonObject::TryGetArrayField`. */
  function TryGetArrayField(members: seq<Member>, key: string): Option<seq<JValue>> {
    match TryGetField(members, key)
    case Some(JArray(items)) => Some(items)
    case _ => None
  }

  /** `FJsonObject::TryGetObjectField`. */
  function TryGetObjectField(members: seq<Member>, key: string): Option<seq<Member>> {
    match TryGetField(members, key)
    case Some(JObject(ms)) => Some(ms)
    case _ => None
  }

  /** `FJsonValue::AsObject`: the object's members. For every other kind of
      value the engine logs an error and hands back its shared empty object,
      so the pointer returned is always valid. */
  function AsObject(v: JValue): (ms: seq<Member>)
    ensures v.JObject? ==> ms == v.members
    ensures !v.JObject? ==> ms == []
  {
    match v
    case JObject(ms) => ms
    case _ => []
  }

  /** The keys of an object, in document order. */
  function Keys(members: seq<Member>): (r: seq<string>)
    ensures |r| == |members|
    ensures forall i :: 0 <= i < |members| ==> r[i] == members[i].key
  {
    seq(|members|, i requires 0 <= i < |members| => members[i].key)
  }
}
