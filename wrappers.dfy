/** The optional value used wherever the program works with something that may be
    missing: a parsed field, a date, an indicator value before its window fills. */
module Wrappers {

  datatype Option<+T> = None | Some(value: T)
}
