/** Small wrapper datatypes shared by the whole model. */
module Wrappers {

  /** A value that may be missing: a `find` that found nothing, a fetch that failed. */
  datatype Option<+T> = None | Some(value: T)

  /** How a call of the scraper ends: it returns a value, or it raises the
      `UnboundLocalError` (a `NameError`) that no caller catches. */
  datatype Outcome<+T> = Returned(value: T) | NameError
}
