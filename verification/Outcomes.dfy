/** Results of calls that may return nothing or panic. */
module Outcomes {
  datatype Option<+T> = None | Some(value: T)

  datatype Outcome<+T> = Panicked | Returned(value: T)
}
