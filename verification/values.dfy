/** The dynamically typed values a configuration key can hold, and the
    errors the configuration layer raises. */
module Values {

  /** A Python value as far as the configuration layer can tell it apart.
      A float is kept as the bit pattern of its IEEE-754 double and never
      interpreted; dictionaries, tuples and other objects are `VOther`. */
  datatype Value =
    | VNone
    | VBool(b: bool)
    | VInt(i: int)
    | VFloat(bits: bv64)
    | VStr(s: string)
    | VList(items: seq<Value>)
    | VOther(id: nat)

  /** How an environment string is turned into a value for a key. */
  datatype Coercion = AsBool | AsInt | AsFloat | AsJson | Verbatim

  datatype ConfigError =
    | InvalidEnvValue(key: string, coercion: Coercion, text: string)
    | KeyNotFound(key: string)
}
