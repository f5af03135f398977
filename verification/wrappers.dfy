/** The optional value used wherever a Python call can come back empty-handed
    (an `int()` that raises ValueError, a split that yields too few fields). */
module Wrappers {

  datatype Option<+T> = None | Some(value: T)
}
