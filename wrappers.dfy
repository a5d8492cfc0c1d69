/** Option and Result types, and the Python exceptions the modelled code can raise. */
module Wrappers {

  datatype Option<T> = None | Some(value: T)

  /** The exceptions that the pure part of `unifile.py` can raise. */
  datatype Failure =
    | IndexError(index: nat)   // `line[i+1]` read past the end of the line in `fix_tabs`
    | KeyError(key: string)    // an `end_of_line` value that is not in `_LE`

  datatype Result<T> = Ok(value: T) | Fail(error: Failure)
}
