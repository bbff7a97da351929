/** The absent-or-present value the model uses where the source has
    `undefined`, `null` or `NaN`. */
module Opt {

  datatype Option<+T> = None | Some(value: T)
}
