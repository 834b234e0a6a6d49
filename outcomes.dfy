/** How a Python call of the modelled code ends: it returns a value or raises. */
module Outcomes {

  datatype Option<+T> = None | Some(value: T)

  /** The exceptions that escape the modelled functions uncaught. */
  datatype Exception =
    | IndexError     // a list index past the end (`message_arr[3]`, `data[0]`)
    | ValueError     // a timestamp `strptime` or `datetime` rejects
    | OverflowError  // a shifted timestamp past the year 9999

  /** The result of a call that may raise. */
  datatype Attempt<+T> = Returned(value: T) | Raised(exception: Exception)
}
