/**
  Failure-carrying datatypes shared by the pipeline stages.

  The Python stages return a pair `(value, success)`, where a failed stage
  always returns `(None, False)` and never a reason. `Step` is the tagged form
  of that pair: `Ok(v)` stands for `(v, True)` and `Fail` for `(None, False)`.
 */
module Outcome {

  /** Python's `None`-or-value. */
  datatype Option<+T> = None | Some(value: T)

  /** The result of one pipeline stage. */
  datatype Step<+T> = Ok(value: T) | Fail
}
