/** The optional-value datatype used for the detector's "pose or nothing" output
    and for keypoint lookups that may miss. */
module Wrappers {

  /** `None` plays the part of JavaScript's `null` and `undefined`. */
  datatype Option<+T> = None | Some(value: T)
}
