/** The conventional optional-value datatype, for a value a stage may not produce. */
module Wrappers {
  datatype Option<+T> = None | Some(value: T)
}
