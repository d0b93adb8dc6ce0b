/** Option, Result and Outcome values, and the error taxonomy of the embedding pipeline. */
module Wrappers {

  datatype Option<+T> = None | Some(value: T)

  datatype Result<+R> = Ok(value: R) | Err(error: Error)

  /** How a `Promise<void>` settles: it resolves, or it rejects with an error. */
  datatype Outcome = Success | Failure(error: Error)

  /** Why an operation threw. */
  datatype Error =
    | NotFound(message: string)                // "Artwork not found" / "Artist not found"
    | ProviderError(status: int, body: string) // non-2xx answer of the embedding endpoint
    | ProviderUnavailable                      // transport failure / timeout of the endpoint
    | MalformedResponse                        // a 2xx answer without a `data[0]` entry
    | StoreWriteError                          // the INSERT ... ON CONFLICT statement failed
}
