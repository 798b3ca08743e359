/** Value types shared by every component of the proxy model. */
module Basics {

  datatype Option<+T> = None | Some(value: T)

  datatype Result<+T, +E> = Ok(value: T) | Err(error: E)

  type Byte = b: int | 0 <= b < 256

  type Bytes = seq<Byte>

  /** A reading of the monotone clock. */
  type Instant = nat

  /** `earlier.elapsed()` read at `now`: saturates at zero. */
  function Elapsed(now: Instant, earlier: Instant): nat {
    if now >= earlier then now - earlier else 0
  }

  function Last<T>(s: seq<T>): T
    requires |s| > 0
  {
    s[|s| - 1]
  }

  function Front<T>(s: seq<T>): seq<T>
    requires |s| > 0
  {
    s[..|s| - 1]
  }
}
