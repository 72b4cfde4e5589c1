/**
 The JSON values a request body can carry, and the two Python idioms the
 handlers apply to them: `dict.get` and truth testing (`if not value`).
 */
module Json {

  /** A decoded JSON value. Numbers are integers (see README, "Left out"). */
  datatype Json =
    | JNull
    | JBool(b: bool)
    | JInt(i: int)
    | JString(s: string)
    | JArray(items: seq<Json>)
    | JObject(members: map<string, Json>)

  /**
   A request body: a JSON object. A key that is absent and a key that is
   present with the value null are different bodies.
   */
  type Body = map<string, Json>

  /** `data.get(key)`: an absent key reads as null. */
  function Get(data: Body, key: string): (v: Json)
    ensures key in data ==> v == data[key]
    ensures key !in data ==> v == JNull
  {
    if key in data then data[key] else JNull
  }

  /** `data.get(key, fallback)`: an absent key reads as `fallback`; a present null stays null. */
  function GetOr(data: Body, key: string, fallback: Json): (v: Json)
    ensures key in data ==> v == data[key]
    ensures key !in data ==> v == fallback
  {
    if key in data then data[key] else fallback
  }

  /**
   Python's truth value of a decoded JSON value: exactly None, False, 0,
   the empty string, the empty list and the empty object are falsy.
   */
  function Truthy(v: Json): (r: bool)
    ensures !r <==> (v == JNull || v == JBool(false) || v == JInt(0) || v == JString("")
                     || v == JArray([]) || v == JObject(map[]))
  {
    match v
    case JNull => false
    case JBool(b) => b
    case JInt(i) => i != 0
    case JString(s) => |s| > 0
    case JArray(items) => |items| > 0
    case JObject(members) => |members| > 0
  }
}
