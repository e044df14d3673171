/**
 * JavaScript values as the source handles them: request parameters, parsed JSON,
 * validator error params. Objects keep their entries in insertion order.
 */
module Js {
  import opened Text

  datatype Value =
    | Undefined
    | Null
    | Bool(b: bool)
    | Num(n: int)
    | Str(s: string)
    | Arr(items: seq<Value>)
    | Obj(members: seq<(string, Value)>)

  /** JavaScript truthiness (numbers are integers here, so NaN does not arise). */
  predicate Truthy(v: Value)
  {
    match v
    case Undefined => false
    case Null => false
    case Bool(b) => b
    case Num(n) => n != 0
    case Str(s) => s != ""
    case Arr(_) => true
    case Obj(_) => true
  }

  /** `typeof v === "object" && v !== null`. */
  predicate IsObjectLike(v: Value)
  {
    v.Arr? || v.Obj?
  }

  /** Property read `v?.[key]` for a named (non-index) key: the last binding of an object, else undefined. */
  function Get(v: Value, key: string): (r: Value)
    ensures !v.Obj? ==> r == Undefined
  {
    if v.Obj? then Lookup(v.members, key) else Undefined
  }

  function Lookup(members: seq<(string, Value)>, key: string): (r: Value)
    ensures r != Undefined ==> exists i | 0 <= i < |members| :: members[i] == (key, r)
  {
    if members == [] then Undefined
    else if members[|members| - 1].0 == key then members[|members| - 1].1
    else Lookup(members[..|members| - 1], key)
  }

  /** The property names of an object. */
  function Keys(v: Value): set<string>
  {
    if v.Obj? then set i | 0 <= i < |v.members| :: v.members[i].0 else {}
  }

  /** `Object.entries(v)` for an object or an array (array indices become decimal keys). */
  function Entries(v: Value): (r: seq<(string, Value)>)
    ensures v.Arr? ==> |r| == |v.items|
  {
    match v
    case Obj(members) => members
    case Arr(items) => seq(|items|, i requires 0 <= i < |items| => (NatToString(i), items[i]))
    case _ => []
  }

  /** `String(v)`. Arrays join their elements with "," and render null/undefined elements as "". */
  function ToStr(v: Value): string
  {
    match v
    case Undefined => "undefined"
    case Null => "null"
    case Bool(b) => if b then "true" else "false"
    case Num(n) => IntToString(n)
    case Str(s) => s
    case Arr(items) =>
      Join(seq(|items|, i requires 0 <= i < |items| =>
        if items[i].Null? || items[i].Undefined? then "" else ToStr(items[i])), ",")
    case Obj(_) => "[object Object]"
  }
}
