/** The missing-value wrapper used wherever the peak tables hold NaN. */
module Wrappers {
  datatype Option<+T> = None | Some(value: T)
}
