/**
 * The exception hierarchy of aura/exceptions.py, plus the two built-in Python
 * exceptions this model represents among those that escape the download
 * pipeline uncaught.
 */
module Exceptions {

  /** The subclasses of AuraError. */
  datatype AuraError =
    | ConfigError
    | LoginError
    | NoAssetsError
    | DownloadError
    | DownloadCancelledError

  /** The two built-in exceptions this model represents; the pipeline does not
      convert them into an AuraError. */
  datatype BuiltinError =
    | KeyError   // a missing key in a successful login reply
    | OSError    // the base download directory cannot be created

  /** What a failed call raises. */
  datatype Failure = Aura(error: AuraError) | Builtin(builtin: BuiltinError)

  /** The value a call returns, or the exception it raises. */
  datatype Result<+T> = Ok(value: T) | Err(failure: Failure)

}
