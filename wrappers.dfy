/** Optional values (the TypeScript type `x | null`) and pass/fail outcomes of a check. */
module Wrappers {

  /** A value that may be `null` or `undefined` in the TypeScript code. */
  datatype Option<+T> = None | Some(value: T)

  /** The result of a validation step: either it passes or it fails with the message shown to the user. */
  datatype Outcome = Pass | Fail(message: string)
}
