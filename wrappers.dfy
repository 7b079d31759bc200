/** The value-or-nothing type used where the charting library answers `undefined`. */
module Wrappers {
  datatype Option<+T> = None | Some(value: T)
}
