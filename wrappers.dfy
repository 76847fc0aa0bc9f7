/** The optional value used wherever the modelled code returns None / nullptr or leaves a result absent. */
module Wrappers {

  datatype Option<+T> = None | Some(value: T)
}
