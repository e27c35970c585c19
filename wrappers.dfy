/** Option, standing for the component's optional values (an index prop that
    may be undefined, an audio handle that may be null). */
module Wrappers {

  datatype Option<+T> = None | Some(value: T)
}
