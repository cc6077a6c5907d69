/** Small shared vocabulary: an optional value and the byte type. */
module Common {

  /** A value that may be absent (a JavaScript `undefined`/`null` field). */
  datatype Option<+T> = None | Some(value: T)

  /** One octet of a Node.js `Buffer`. */
  newtype byte = x: int | 0 <= x < 256
}
