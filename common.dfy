/** Rust's `Option` and `Result`, with the few combinators the record builders use. */
module Wrappers {

  datatype Option<T> = None | Some(value: T) {

    /** `Option::map`. */
    function Map<U>(f: T -> U): Option<U>
    {
      match this
      case None => None
      case Some(v) => Some(f(v))
    }

    /** `Option::unwrap_or` (and `unwrap_or_default` when given the type's default). */
    function UnwrapOr(default: T): T
    {
      match this
      case None => default
      case Some(v) => v
    }
  }

  datatype Result<T, E> = Ok(value: T) | Err(error: E)
}

/** The fixed-width integers of the source and its `as` casts between them, and the
    chrono and bigdecimal value types that the rows store. */
module RustTypes {

  const TWO_63: int := 0x8000_0000_0000_0000
  const TWO_64: int := 0x1_0000_0000_0000_0000

  newtype u8 = x: int | 0 <= x < 0x100
  newtype u64 = x: int | 0 <= x < 0x1_0000_0000_0000_0000
  newtype i64 = x: int | -0x8000_0000_0000_0000 <= x < 0x8000_0000_0000_0000

  /** Rust's `x as i64` for `x: u64`: the same 64 bits read as two's complement, so a value
      at or above 2^63 wraps to a negative one and a smaller value is kept as it is. */
  function U64AsI64(x: u64): (r: i64)
    ensures (x as int - r as int) % TWO_64 == 0
    ensures x as int < TWO_63 <==> r >= 0
    ensures x as int < TWO_63 ==> r as int == x as int
  {
    if x as int < TWO_63 then x as int as i64 else (x as int - TWO_64) as i64
  }

  /** Rust's `x as u64` for `x: i64`, the inverse reinterpretation. */
  function I64AsU64(x: i64): (r: u64)
    ensures (r as int - x as int) % TWO_64 == 0
    ensures x >= 0 ==> r as int == x as int
  {
    if x >= 0 then x as int as u64 else (x as int + TWO_64) as u64
  }

  /** The cast loses no information: reading the bits back as a `u64` gives the input. */
  lemma U64AsI64RoundTrip(x: u64)
    ensures I64AsU64(U64AsI64(x)) == x
  {
  }

  /** So two distinct versions or sequence numbers never share a stored value. */
  lemma U64AsI64Injective(a: u64, b: u64)
    ensures U64AsI64(a) == U64AsI64(b) ==> a == b
  {
  }

  /** `chrono::NaiveDateTime`: a date and time without time zone, given as whole seconds
      since 1970-01-01T00:00:00 and the nanoseconds within that second. The calendar itself
      is not part of this model. */
  datatype NaiveDateTime = NaiveDateTime(secs: int, nanos: nat)

  /** `bigdecimal::BigDecimal`: the value `digits * 10^(-scale)`. */
  datatype BigDecimal = BigDecimal(digits: int, scale: int)
}

/** `serde_json::Value`. */
module Json {
  datatype Value =
    | Null
    | Bool(b: bool)
    | Number(n: int)
    | String(s: string)
    | Array(items: seq<Value>)
    | Object(fields: seq<(string, Value)>)
}
