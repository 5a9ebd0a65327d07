/** Shared value types: the Option/Result wrappers and the fixed-width integer
    ranges that the schema and the wire use. */
module Base {

  datatype Option<+T> = None | Some(value: T)

  datatype Result<+T, +E> = Ok(value: T) | Err(error: E)

  /** Rust's `u16`: the type opcodes are converted to before emission. */
  type u16 = x: int | 0 <= x < 0x1_0000

  /** Rust's `u32`: interface versions, enum entry values, object ids. */
  type u32 = x: int | 0 <= x < 0x1_0000_0000

  /** Rust's `i32`: the signed wire integer and the raw 24.8 fixed-point word. */
  type i32 = x: int | -0x8000_0000 <= x < 0x8000_0000

  type byte = x: int | 0 <= x < 0x100

  /** `Option::unwrap_or`, as serde applies a `#[serde(default)]`. */
  function OrDefault<T>(o: Option<T>, default: T): (r: T)
    ensures o.None? ==> r == default
    ensures o.Some? ==> r == o.value
  {
    match o
    case None => default
    case Some(v) => v
  }
}
