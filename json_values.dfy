/**
 * Decoded JSON values, as they come out of a token's header and claims, a JWK Set
 * document or the session cookie.
 */
module JsonValues {
  import opened Wrappers

  datatype Json =
    | JNull
    | JBool(b: bool)
    | JInt(i: int)
    | JStr(s: string)
    | JList(items: seq<Json>)
    | JObject(fields: map<string, Json>)

  /**
   * Python's `d.get(key)` / `d[key] if key in d else None` on a decoded JSON object:
   * a JSON `null` reads as `None` exactly like a missing key does.
   */
  function Get(m: map<string, Json>, key: string): (r: Option<Json>)
    ensures r.None? <==> key !in m || m[key] == JNull
    ensures r.Some? ==> key in m && r.value == m[key]
  {
    if key in m && m[key] != JNull then Some(m[key]) else None
  }
}
