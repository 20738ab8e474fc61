/**
 * Decoded JSON values, as `response.json()` hands them to the bot, with the
 * few Python operations the bot applies to them: truthiness, `type(v).__name__`,
 * `dict.get`, hashability and `str()`.
 */
module Json {

  datatype Value =
    | JNull                                // None
    | JBool(b: bool)                       // True / False
    | JInt(i: int)                         // int
    | JStr(s: string)                      // str
    | JList(items: seq<Value>)             // list
    | JObj(fields: map<string, Value>)     // dict

  /** Python's `bool(v)`: None, False, 0 and empty strings, lists and dicts are falsy. */
  predicate Truthy(v: Value)
  {
    match v
    case JNull => false
    case JBool(b) => b
    case JInt(i) => i != 0
    case JStr(s) => s != ""
    case JList(items) => items != []
    case JObj(fields) => fields != map[]
  }

  /** Python's `type(v).__name__`. */
  function TypeName(v: Value): string
  {
    match v
    case JNull => "NoneType"
    case JBool(_) => "bool"
    case JInt(_) => "int"
    case JStr(_) => "str"
    case JList(_) => "list"
    case JObj(_) => "dict"
  }

  /** `fields.get(key)`: the stored value, or None when the key is absent. */
  function Get(fields: map<string, Value>, key: string): Value
  {
    if key in fields then fields[key] else JNull
  }

  /** Lists and dicts cannot be dictionary keys: `x in d` and `d[x]` raise TypeError on them. */
  predicate Hashable(v: Value)
  {
    !v.JList? && !v.JObj?
  }

  /** Decimal digits of a natural number, most significant first. */
  function Digits(n: nat): (r: string)
    ensures |r| >= 1
    ensures forall k | 0 <= k < |r| :: '0' <= r[k] <= '9'
  {
    var d := ['0' + (n % 10) as char];
    if n < 10 then d else Digits(n / 10) + d
  }

  /** Python's `str(i)` for an int. */
  function IntText(i: int): string
  {
    if i < 0 then "-" + Digits(-i) else Digits(i)
  }

  /**
   * Python's `repr(v)`. Strings are quoted with single quotes and their
   * escapes are not modelled; the entries of a dict come in some order,
   * since the model's dicts do not keep insertion order.
   */
  ghost function Repr(v: Value): string
    decreases v, 1
  {
    match v
    case JNull => "None"
    case JBool(b) => if b then "True" else "False"
    case JInt(i) => IntText(i)
    case JStr(s) => "'" + s + "'"
    case JList(items) => "[" + ReprItems(v, items) + "]"
    case JObj(fields) => "{" + ReprFields(v, fields) + "}"
  }

  ghost function ReprItems(parent: Value, items: seq<Value>): string
    requires forall k | 0 <= k < |items| :: items[k] < parent
    decreases parent, 0, items
  {
    if items == [] then ""
    else Repr(items[0]) + (if |items| == 1 then "" else ", " + ReprItems(parent, items[1..]))
  }

  ghost function ReprFields(parent: Value, fields: map<string, Value>): string
    requires forall key | key in fields :: fields[key] < parent
    decreases parent, 0, fields
  {
    if fields == map[] then ""
    else
      var key :| key in fields;
      "'" + key + "': " + Repr(fields[key])
      + (if |fields| == 1 then "" else ", " + ReprFields(parent, fields - {key}))
  }

  /** Python's `str(v)`, which is what an f-string inserts: a string itself, otherwise its repr. */
  ghost function Display(v: Value): string
  {
    if v.JStr? then v.s else Repr(v)
  }
}
