/** The optional value used for `Option<T>` in the voxel world. */
module Wrappers {
  datatype Option<+T> = None | Some(value: T)
}
