/** The optional value used wherever the original code may find nothing
    (`Array.prototype.find` returning `undefined`, a division giving NaN). */
module Wrappers {

  datatype Option<+T> = None | Some(value: T)
}
