/**
  A parsed JSON value, as the client's JSON library hands it over after parsing
  a control message. Non-negative integers are held as 64-bit unsigned numbers,
  negative ones as signed numbers, anything else numeric as a floating-point
  number whose value plays no role in the client.
 */
module Json {
  import opened Wrappers
  import opened Ints

  datatype Json =
    | JNull
    | JBool(b: bool)
    | JUnsigned(n: u64)
    | JInteger(i: int)
    | JFloat
    | JString(s: string)
    | JArray(items: seq<Json>)
    | JObject(fields: map<string, Json>)

  /** The member `key` of an object; None when the value is not an object or has no such member. */
  function Member(j: Json, key: string): (r: Option<Json>)
    ensures r.Some? <==> j.JObject? && key in j.fields
    ensures r.Some? ==> r.value == j.fields[key]
  {
    if j.JObject? && key in j.fields then Some(j.fields[key]) else None
  }

  /** The `type` of a control message: present only for an object whose `type` member is a string. */
  function MessageType(j: Json): (r: Option<string>)
    ensures r.Some? <==> Member(j, "type").Some? && Member(j, "type").value.JString?
    ensures r.Some? ==> j.fields["type"] == JString(r.value)
  {
    match Member(j, "type")
    case Some(JString(t)) => Some(t)
    case _ => None
  }

  /** The unsigned number held in member `key`, if there is one. */
  function UnsignedMember(j: Json, key: string): (r: Option<u64>)
    ensures r.Some? <==> j.JObject? && key in j.fields && j.fields[key].JUnsigned?
    ensures r.Some? ==> j.fields[key] == JUnsigned(r.value)
  {
    match Member(j, key)
    case Some(JUnsigned(n)) => Some(n)
    case _ => None
  }

  /** The elements of the array held in member `key`, if there is one. */
  function ArrayMember(j: Json, key: string): (r: Option<seq<Json>>)
    ensures r.Some? <==> j.JObject? && key in j.fields && j.fields[key].JArray?
    ensures r.Some? ==> j.fields[key] == JArray(r.value)
  {
    match Member(j, key)
    case Some(JArray(items)) => Some(items)
    case _ => None
  }
}
