/** Results shared by the models of the library. */
module Outcomes {

  /** A value that may be absent; also the outcome of a call that may throw. */
  datatype Option<+T> = None | Some(value: T)

  /**
   * What one parsing routine does to the text in front of it. `rest` is the text
   * the cursor has not passed afterwards, on success and on failure alike.
   */
  datatype Outcome<+T> =
    | Ok(val: T, rest: string)  // the routine returned true
    | Bad(rest: string)         // the routine returned false
    | Threw(rest: string)       // an exception left the routine
}
