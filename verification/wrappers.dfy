/** The optional value used for a rolling mean that pandas leaves undefined
    (NaN in pandas) because the window is not yet full. */
module Wrappers {

  datatype Option<+T> = None | Some(value: T)
}
