/** Option, as the OCR step reports a page: either the page's text or nothing. */
module Wrappers {
  datatype Option<+T> = None | Some(value: T)
}
