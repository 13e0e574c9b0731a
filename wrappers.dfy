/** Optional values and success/failure results, used where the source passes
    `undefined`/`null` or returns `{ success, note | message }` objects. */
module Wrappers {

  /** An optional argument or a lookup that may find nothing (`null` in the source). */
  datatype Option<+T> = None | Some(value: T)

  /** The result objects of the store's mutating operations: `{ success: true, ... }`
      carries a payload, `{ success: false, message }` carries the message. */
  datatype Result<+T> = Ok(value: T) | Err(message: string)
}
