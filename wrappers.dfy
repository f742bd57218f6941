/** The partial results the duplicate finder works with: a metadata lookup,
    a file open or a hex parse that may fail. */
module Wrappers {

  datatype Option<+T> = None | Some(value: T)
}
