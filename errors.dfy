/** The exceptions the deployment and configuration code raises, one constructor per kind. */
module Errors {

  /** A pair of env sample files whose key sets overlap: the shared keys and the two file names. */
  datatype Duplicate = Duplicate(keys: set<string>, first: string, second: string)

  datatype Exception =
    | UnrecoverableException(message: string)
      /** The `UnrecoverableException` that reports overlapping sample files; its text prints this list. */
    | DuplicateKeysFound(duplicates: seq<Duplicate>)
      /** The `UnrecoverableException` that reports sample keys with no secret value; its text prints this set. */
    | MissingConfigValues(keys: set<string>)
    | KeyError(key: string)
    | ValueError(message: string)
    | TypeError(message: string)
    | FileNotFoundError(fileName: string)
      /** botocore's `ClientError`, raised by the configuration store. */
    | ClientError
}
