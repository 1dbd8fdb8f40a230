/** The Some/None datatype used for JavaScript's "value or nothing" results
    (a parse that throws, a lookup that finds nothing, an absent storage slot). */
module Wrappers {

  datatype Option<+T> = None | Some(value: T)
}
