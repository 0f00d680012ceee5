/** An optional value: a repository lookup that may find nothing, a fetch that may fail. */
module Wrappers {

  datatype Option<+T> = None | Some(value: T)

}
