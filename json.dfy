/**
 * A parsed JSON document as the country-profile service walks it. An
 * object's members are listed in the order in which JavaScript enumerates
 * its properties (`Object.values`, `JSON.stringify`), so datatype equality
 * is equality of the `JSON.stringify` texts.
 */
module Json {
  import opened Common

  datatype Json =
    | JNull
    | JBool(b: bool)
    | JNum(n: real)
    | JStr(s: string)
    | JArr(items: seq<Json>)
    | JObj(members: seq<(string, Json)>)

  /** JavaScript truthiness: `null`, `false`, `0` and `""` are falsy; arrays and objects are truthy. */
  predicate Truthy(j: Json)
  {
    match j
    case JNull => false
    case JBool(b) => b
    case JNum(n) => n != 0.0
    case JStr(s) => s != ""
    case _ => true
  }

  /** The value of the first member bound to `key`; `None` when no member is. */
  function Lookup(members: seq<(string, Json)>, key: string): (r: Option<Json>)
    ensures r.None? <==> forall i :: 0 <= i < |members| ==> members[i].0 != key
    ensures r.Some? ==> (exists i :: 0 <= i < |members| && members[i] == (key, r.value) &&
                                 forall k :: 0 <= k < i ==> members[k].0 != key)
  {
    if members == [] then None
    else if members[0].0 == key then Some(members[0].1)
    else
      var r := Lookup(members[1..], key);
      assert forall i :: 1 <= i < |members| ==> members[i] == members[1..][i - 1];
      if r.Some? then
        var i :| 0 <= i < |members[1..]| && members[1..][i] == (key, r.value) &&
          forall k :: 0 <= k < i ==> members[1..][k].0 != key;
        assert members[i + 1] == (key, r.value);
        r
      else r
  }

  /** Property access `j[key]`; `None` stands for `undefined`. */
  function Get(j: Json, key: string): Option<Json>
  {
    if j.JObj? then Lookup(j.members, key) else None
  }

  /** The `key in j` test on an object. */
  predicate Has(j: Json, key: string)
  {
    Get(j, key).Some?
  }

  /** `j[key]` is present and truthy. */
  predicate TruthyAt(j: Json, key: string)
  {
    Get(j, key).Some? && Truthy(Get(j, key).value)
  }

  /**
   * The value `j[k1] || j[k2] || ...` when it is truthy: the value of the
   * first listed field that is truthy; `None` when every one is falsy or missing.
   */
  function FirstTruthy(j: Json, keys: seq<string>): (r: Option<Json>)
    ensures r.Some? ==> Truthy(r.value)
    ensures r.None? <==> forall i :: 0 <= i < |keys| ==> !TruthyAt(j, keys[i])
    ensures r.Some? ==> (exists i :: 0 <= i < |keys| && r == Get(j, keys[i]) &&
                                 forall k :: 0 <= k < i ==> !TruthyAt(j, keys[k]))
  {
    if keys == [] then None
    else if TruthyAt(j, keys[0]) then Get(j, keys[0])
    else
      var r := FirstTruthy(j, keys[1..]);
      assert forall i :: 1 <= i < |keys| ==> keys[i] == keys[1..][i - 1];
      if r.Some? then
        var i :| 0 <= i < |keys[1..]| && r == Get(j, keys[1..][i]) && forall k :: 0 <= k < i ==> !TruthyAt(j, keys[1..][k]);
        assert r == Get(j, keys[i + 1]);
        r
      else r
  }

  /** The values of an object's members, in enumeration order (`Object.values`). */
  function Values(members: seq<(string, Json)>): (r: seq<Json>)
    ensures |r| == |members|
  {
    seq(|members|, i requires 0 <= i < |members| => members[i].1)
  }

  /**
   * `Number(value)`; `None` is NaN. The conversion of a numeric string is
   * the parameter `number`. An array converts through its comma-joined text:
   * empty is 0, a single element converts as its own text, and two or more
   * elements never give a number; an object never does. `null`, a boolean
   * and a number always give a number, zero exactly when the value is falsy.
   */
  function ToNumber(v: Json, number: string -> Option<real>): (r: Option<real>)
    ensures (v.JNull? || v.JBool? || v.JNum?) ==> r.Some? && (r.value != 0.0 <==> Truthy(v))
    ensures v.JNum? ==> r == Some(v.n)
    ensures v.JStr? ==> r == number(v.s)
    ensures v.JObj? || (v.JArr? && |v.items| > 1) ==> r.None?
  {
    match v
    case JNull => Some(0.0)
    case JBool(b) => Some(if b then 1.0 else 0.0)
    case JNum(n) => Some(n)
    case JStr(s) => number(s)
    case JArr(items) =>
      if |items| == 0 then Some(0.0)
      else if |items| == 1 then ElementNumber(items[0], number)
      else None
    case JObj(_) => None
  }

  /** `Number(String(x))` for the single element `x` of an array (`null` joins as ""). */
  function ElementNumber(x: Json, number: string -> Option<real>): Option<real>
  {
    match x
    case JNull => Some(0.0)
    case JBool(_) => None
    case JNum(n) => Some(n)
    case JStr(s) => number(s)
    case JArr(items) =>
      if |items| == 0 then Some(0.0)
      else if |items| == 1 then ElementNumber(items[0], number)
      else None
    case JObj(_) => None
  }

}
