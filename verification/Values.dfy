/** Python values as far as the transcript and argument code looks at them. */
module Values {

  datatype Option<+T> = None | Some(value: T)

  /** A Python value. `Temporal` is a date, time or datetime (given by its `str`), `Exporting`
      any object with a `to_dict` method (given by that method's result), `Opaque` anything else. */
  datatype Value =
    | Null
    | Bool(b: bool)
    | Int(i: int)
    | Float(text: string, zero: bool)
    | Str(s: string)
    | List(items: seq<Value>)
    | Tuple(items: seq<Value>)
    | Dict(entries: map<string, Value>)
    | Temporal(text: string)
    | Exporting(image: map<string, Value>)
    | Opaque(text: string)
  {
    /** `bool(value)`. */
    predicate Truthy() {
      match this
      case Null => false
      case Bool(b) => b
      case Int(i) => i != 0
      case Float(_, zero) => !zero
      case Str(s) => s != ""
      case List(items) => items != []
      case Tuple(items) => items != []
      case Dict(entries) => entries != map[]
      case Temporal(_) => true
      case Exporting(_) => true
      case Opaque(_) => true
    }

    predicate Scalar() {
      Null? || Bool? || Int? || Float? || Str?
    }
  }

  /** `mapping.get(key)` on a dictionary. */
  function Get(entries: map<string, Value>, key: string): Value {
    if key in entries then entries[key] else Null
  }
}
