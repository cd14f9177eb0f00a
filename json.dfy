/**
  JSON-like values as the script sees them after `JSON.parse`, or as page
  globals. An object is the list of its members in enumeration order.
 */
module Json {
  import opened Text

  datatype Json =
    | JNull
    | JBool(b: bool)
    | JNum(n: int)
    | JStr(s: string)
    | JArr(items: seq<Json>)
    | JObj(members: seq<Member>)

  datatype Member = Member(key: string, value: Json)

  /** `obj[key]`: the value of the first member named `key`; `None` stands
      for `undefined` (also for every non-object). */
  function Get(j: Json, key: string): (r: Option<Json>)
    ensures r.Some? ==> j.JObj? && exists i :: 0 <= i < |j.members| && j.members[i] == Member(key, r.value)
    ensures r.None? && j.JObj? ==> forall i :: 0 <= i < |j.members| ==> j.members[i].key != key
  {
    match j
    case JObj(ms) => MemberValue(ms, key)
    case _ => None
  }

  function MemberValue(ms: seq<Member>, key: string): (r: Option<Json>)
    ensures r.Some? ==> exists i :: 0 <= i < |ms| && ms[i] == Member(key, r.value)
    ensures r.None? ==> forall i :: 0 <= i < |ms| ==> ms[i].key != key
  {
    if ms == [] then None
    else if ms[0].key == key then Some(ms[0].value)
    else
      var r := MemberValue(ms[1..], key);
      assert r.Some? ==> ms[1..][0] == ms[1];
      r
  }

  /** JavaScript truthiness of a value. */
  predicate Truthy(j: Json) {
    match j
    case JNull => false
    case JBool(b) => b
    case JNum(n) => n != 0
    case JStr(s) => s != ""
    case JArr(_) => true
    case JObj(_) => true
  }

  /** `undefined` is falsy too. */
  predicate TruthyOpt(v: Option<Json>) {
    v.Some? && Truthy(v.value)
  }

  /** `v === n` for a number `n`. */
  predicate IsNum(v: Option<Json>, n: int) {
    v == Some(JNum(n))
  }

  /** Optional chaining `j?.key`: `undefined` propagates. */
  function GetOpt(j: Option<Json>, key: string): Option<Json> {
    if j.Some? then Get(j.value, key) else None
  }
}
