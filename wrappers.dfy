/** Option, for values that may be missing: a delta chunk without content,
    a backend call that raised, a line with no closing asterisk. */
module Wrappers {

  datatype Option<+T> = None | Some(value: T)
}
