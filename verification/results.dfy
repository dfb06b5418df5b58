/** Failure-carrying wrappers used throughout the model. */
module Results {

  /** An optional value: a JavaScript `undefined` (or omitted argument) is `None`. */
  datatype Option<+T> = None | Some(value: T) {

    /** The value, or `default` when there is none. */
    function GetOr(default: T): T {
      match this
      case None => default
      case Some(v) => v
    }
  }

  /** The outcome of an operation that may throw. */
  datatype Result<+T, +E> = Ok(value: T) | Err(error: E)
}

/** The errors the uploader can raise. */
module Errors {

  datatype Error =
      /** Fewer than one command-line argument after the script name. */
    | Usage
      /** The resolved source path does not name an existing file. */
    | FileNotFound(filePath: string, resolvedPath: string)
      /** The object store rejected the transfer; the store's own cause is kept. */
    | TransferFailed(cause: string)
      /** `CUSTOM_BUCKET_URL` is not configured, so no download URL can be built. */
    | MissingBucketUrl
}
