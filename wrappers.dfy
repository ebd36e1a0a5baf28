/** An optional value, standing for what JavaScript represents as
    `undefined` or `null`. */
module Wrappers {

  datatype Option<+T> = None | Some(value: T)

}
