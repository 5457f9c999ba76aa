/** Option datatype standing for the missing values (NaN, NaT, None) of a data-frame cell. */
module Wrappers {

  datatype Option<+T> = None | Some(value: T)
}
