/** Result shapes shared by the whole model. */
module Wrappers {

  datatype Option<+T> = None | Some(value: T)

  /** What a Go function of the form `func f() (T, error)` hands back: a value
      together with an optional error. An error is represented by the text its
      `Error()` method renders. */
  datatype Returned<+T> = Returned(value: T, err: Option<string>)

  /** A step of the action either yields a value or ends the process through
      `actions.Fatalf` with the given message. */
  datatype Result<+T> = Ok(value: T) | Fatal(msg: string)
}
