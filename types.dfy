/** Values shared by both revisions of the storage wrapper. */
module Types {

  /** `null`/`undefined`/`false` in the script become `None`. */
  datatype Option<T> = None | Some(value: T)

  /** A JSON-serializable value, as stored in the box (floating point is left out). */
  datatype Value =
    | Null
    | Bool(b: bool)
    | Number(n: int)
    | Text(s: string)
    | List(items: seq<Value>)
    | Object(fields: map<string, Value>)

  /** The box: the in-memory key/value mapping mirrored to the medium. */
  type Box = map<string, Value>

  /** The exceptions the script raises. */
  datatype Error =
    | SerializationUnavailable   // "JSON serialization not available" or a missing JSON global
    | ParseFailure               // JSON.parse rejected the stored string
    | CookieTooLarge             // "Cookie size exceeds 4096 byte limit"
    | TypeError                  // a call on null/undefined

  datatype Result<T> = Ok(value: T) | Err(error: Error)
}
