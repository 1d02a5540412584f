/** Values shared by every module: optional values, the Python exceptions the
    harvesting code can raise, and results that either hold a value or record
    the exception that was raised instead. */
module Base {

  datatype Option<+T> = None | Some(value: T)

  /** The exceptions that can escape from the harvesting code, by the Python
      class that raises them. */
  datatype Exc =
    | TypeError        // `in` or `re.match` applied to None, `f.write(None)`
    | ValueError       // `int('')`
    | AttributeError   // attribute access on None
    | KeyError         // missing key in the per-handle cache
    | ParseError       // `ET.fromstring` on a body that is not well-formed XML
    | HttpError        // `raise_for_status` on a non-2xx PDF response
    | FileNotFound     // `open` for reading or `os.remove` of a missing file
    | ExtractionError  // the text-extraction service fails
    | IntegrityError   // the thesis store refuses a row with a NULL column

  /** The outcome of a Python call: its return value, or the exception it raised. */
  datatype Result<+T> = Ok(value: T) | Raise(exc: Exc)

  /** Python truthiness of a value that is either None or a string. */
  predicate Truthy(v: Option<string>) {
    v.Some? && v.value != ""
  }
}
