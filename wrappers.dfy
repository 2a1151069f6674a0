/** Optional values, used for the evaluator's outcome, the captured image and the AI reply. */
module Wrappers {
  datatype Option<+T> = None | Some(value: T)
}
