/** Small wrapper datatypes shared by the model. */
module Outcomes {

  /** A value that may be missing; in the JavaScript model `None` stands for `undefined`. */
  datatype Option<+T> = None | Some(value: T)

  /** The result of evaluating a JavaScript expression: a value, or a thrown exception. */
  datatype Eval<+T> = Returns(value: T) | Throws
}
