/** Result codes of the Virtuozzo SDK, as the dispatcher uses them.

    A code is a signed number; a negative one is a failure. The numeric values of the
    SDK's error header are not part of this model: the constants below are distinct
    stand-ins, and nothing depends on more than their sign and their being different. */
module Results {
  type Code = int

  const SUCCESS: Code := 0
  const UNINITIALIZED: Code := -1
  const FAILURE: Code := -2
  const CANCELED: Code := -3
  const UNEXPECTED: Code := -4
  const INVALID_ARG: Code := -5
  const INVALID_HANDLE: Code := -6
  const ALREADY_REGISTERED: Code := -7
  const DOUBLE_INIT: Code := -8
  const FILE_NOT_FOUND: Code := -9
  const URL_CHANGE_PROHIBITED: Code := -10
  const ALREADY_ATTACHED: Code := -11
  const BAD_CONFIG: Code := -12

  predicate Failed(c: Code) {
    c < 0
  }

  datatype Option<+T> = None | Some(value: T)
}
