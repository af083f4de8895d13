/** The optional value used for a decode that finds no table entry and for
    the fence sub-record, which only fence instructions carry. */
module Wrappers {

  datatype Option<+T> = None | Some(value: T)
}
