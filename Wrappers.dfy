/** Shared datatypes used by every module of the model. */
module Wrappers {

  /** A value that may be absent: JavaScript's `undefined` / `null`. */
  datatype Option<+T> = None | Some(value: T)

  /**
   * What one key of the browser's local storage yields once `JSON.parse` has
   * been applied to it: nothing stored (or the empty string, which every
   * reader treats like a missing key), text that does not parse, or a value.
   */
  datatype Slot<+T> = Absent | Unparseable | Stored(value: T)
}
