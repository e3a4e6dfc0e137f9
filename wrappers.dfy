/** Failure-carrying values shared by the extraction and matching modules. */
module Wrappers {

  datatype Option<+T> = None | Some(value: T)

  datatype Result<+T, +E> = Ok(value: T) | Err(error: E)

  /** The exceptions the extraction pipeline can raise, one constructor per raise site. */
  datatype Error =
    /** No `Order ID:` match on a packing-slip page: `match.start()` is called on None. */
    | OrderIdNotFound
    /** No tracking-number grammar matched; the exception message carries the page text. */
    | TrackingNumberNotFound(text: string)
    /** A list is indexed past its end (IndexError): a label page's position beyond the pages or order ids read. */
    | IndexOutOfRange
    /** A dict has no entry for the key asked for (KeyError), as when popping a page number that is not there. */
    | MissingKey
    /** `k_from_v` found no SL page carrying the packing slip's order id (a bare ValueError). */
    | NoLabelForOrder
}
