/** What all components share. */
module Wrappers {

  datatype Option<T> = None | Some(value: T)
}

/** The status that a memory can have. */
module MemoryStatus {

  datatype Status = FRESH | STALE | UNKNOWN | INVALID
}
