/** Property values of nodes and relations. */
module Values {

  /** A float is kept as its `xsd:double` text and a date as its ISO 8601 text; the order of a
      dict's entries is not kept. */
  datatype Value =
    | Null
    | Bool(b: bool)
    | Int(i: int)
    | Float(text: string)
    | Str(s: string)
    | DateTime(iso: string)
    | Date(iso: string)
    | List(items: seq<Value>)
    | Dict(entries: map<string, Value>)

  type Attrs = map<string, Value>

  /** `attrs.get(name)`. */
  function Get(attrs: Attrs, name: string): Value {
    if name in attrs then attrs[name] else Null
  }

  /** What Python's dicts take a value for, as a part of a key: `True` is 1, at any depth of containers. */
  function Normal(v: Value): Value {
    match v
    case Bool(b) => Int(if b then 1 else 0)
    case List(items) => List(seq(|items|, i requires 0 <= i < |items| => Normal(items[i])))
    case Dict(entries) => Dict(map k | k in entries :: Normal(entries[k]))
    case _ => v
  }

  /** Python truth of a value; the text of a float decides for it. */
  predicate Truthy(v: Value) {
    match v
    case Null => false
    case Bool(b) => b
    case Int(i) => i != 0
    case Float(text) => text != "0.0" && text != "-0.0"
    case Str(s) => s != ""
    case DateTime(_) => true
    case Date(_) => true
    case List(items) => items != []
    case Dict(entries) => entries != map[]
  }
}
