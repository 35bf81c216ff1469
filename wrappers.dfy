// Two small value modules shared by the rest of the model: `Wrappers` (optional
// values) and `Inspect` (what reflection reports, kept opaque).

/** Optional values: Python's `Optional[T]`, where `None` is a value of its own. */
module Wrappers {

  datatype Option<+T> = None | Some(value: T)

}

/** What the `inspect` library reports about an object, kept opaque. */
module Inspect {

  /** The result of `inspect.signature`: an opaque token supplied by reflection. */
  datatype Signature = Signature(text: string)

}
