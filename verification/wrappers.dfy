/** Small result datatypes shared by the modules of the model. */
module Wrappers {

  /** A value that may be absent (Go's "not found" or nil). */
  datatype Option<+T> = None | Some(value: T)

  /** Go's two-result lookup idiom `(value, ok)`. When `ok` is false,
      `value` is the zero value the Go function leaves in place. */
  datatype Lookup<+T> = Lookup(value: T, ok: bool)
}
