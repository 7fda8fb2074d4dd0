/** Decoded JSON as the chatbot handlers see it: a message body that may be
    missing, undecodable, a non-object value or an object, and the object's
    field values with Python's truthiness. */
module Json {
  /** A field value. Numbers, booleans, arrays and nested objects matter only
      through their truthiness, so they are reduced to it. */
  datatype Value = Null | Str(s: string) | Other(truthy: bool)

  /** Python's `bool(v)`: `None` and `""` are false, other strings true. */
  predicate Truthy(v: Value) {
    match v
    case Null => false
    case Str(s) => s != ""
    case Other(t) => t
  }

  /** `dict.get(key)`: the value, or `None` when the key is absent. */
  function Lookup(fields: map<string, Value>, key: string): (r: Value)
    ensures key !in fields ==> r == Null
    ensures key in fields ==> r == fields[key]
  {
    if key in fields then fields[key] else Null
  }

  /** A message body: absent from its envelope, text that `json.loads`
      refuses, a document whose top level is not an object, or an object. */
  datatype Body = Missing | NotJson | NotObject | Object(fields: map<string, Value>)
}
