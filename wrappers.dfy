/** The optional value used wherever the scraper returns None or catches an exception. */
module Wrappers {

  datatype Option<+T> = None | Some(value: T)
}
