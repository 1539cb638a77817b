/** Small value types shared by every module of the model. */
module Wrappers {

  /** A C# `string?` or a JavaScript value that may be `null`/`undefined`. */
  datatype Option<+T> = None | Some(value: T) {

    /** The value, or `default` when there is none (C#'s `??`). */
    function GetOr(default: T): T {
      match this
      case Some(v) => v
      case None => default
    }
  }

  /** `string.IsNullOrEmpty(s)` for a nullable string. */
  predicate IsNullOrEmpty(s: Option<string>) {
    s.None? || s.value == ""
  }

  /** An octet: the unit of UTF-8, base64 and `Encoding.ASCII`. */
  type Byte = x: int | 0 <= x < 256
}
