/** Option and Result, and the exceptions the library raises, as values. */
module Wrappers {

  datatype Option<+T> = None | Some(value: T)

  /** What a .NET exception thrown by the library (or by a framework call it makes) stands for. */
  datatype Error =
    /** ArgumentNullException(nameof(parameter)): a null (or, where the source says so, empty) argument. */
    | ArgumentNull(parameter: string)
    /** ArgumentException from Dictionary.Add on a key that is already present. */
    | DuplicateKey
    /** InvalidOperationException raised by the list aggregator for two different strings with one hash. */
    | HashCollision(source: string, otherSource: string)
    /** InvalidOperationException for an install-location action of a type the resolver does not know. */
    | UnhandledActionType
    /** InvalidCastException from casting a registry value that is not a string. */
    | InvalidCast
    /** An exception raised by a caller-supplied setting conversion. */
    | ConversionFailed(reason: string)
    /** DirectoryNotFoundException from writing or deleting a file in a directory that does not exist. */
    | DirectoryNotFound(directory: string)

  datatype Result<+T> = Ok(value: T) | Err(error: Error)

  /** The message text of the collision exception: hash collision ('<source>' vs '<otherSource>'). */
  function CollisionMessage(source: string, otherSource: string): (r: string)
    ensures |r| == 25 + |source| + |otherSource|
    ensures r[17..17 + |source|] == source
    ensures r[23 + |source|..23 + |source| + |otherSource|] == otherSource
    ensures r[..17] == "hash collision ('" && r[17 + |source|..23 + |source|] == "' vs '"
    ensures r[23 + |source| + |otherSource|..] == "')"
  {
    "hash collision ('" + source + "' vs '" + otherSource + "')"
  }
}
