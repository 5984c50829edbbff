/** The optional value used for fields the calendar provider may leave out. */
module Wrappers {

  /** `None` stands for JavaScript's `undefined`/`null`. */
  datatype Option<+T> = None | Some(value: T)
}
