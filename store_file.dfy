/**
  What a JSON store file can hold when a service reads it. The services read
  the whole file on every call; which of these cases reads as "no records"
  and which raises an exception differs from service to service, so every
  store's load function is stated over this one type.
*/
module StoreFile {

  datatype FileContent<T> =
    | Missing                 // File.Exists is false
    | Blank                   // empty or whitespace-only text
    | NullLiteral             // the JSON text `null`: Deserialize returns null
    | Malformed               // text the JSON deserializer rejects (it throws)
    | Records(items: seq<T>)  // a well-formed JSON array

  /** What a service call returns, or the exception it lets escape. */
  datatype Outcome<T> = Done(value: T) | Threw
}
