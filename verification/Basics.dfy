/** Small shared vocabulary: optional values, results, and the machine integers
    of the service's language. */
module Basics {

  datatype Option<+T> = None | Some(value: T) {
    function GetOr(default: T): T { if Some? then value else default }
  }

  datatype Result<+T, +E> = Ok(value: T) | Err(error: E)

  const INT64_MAX: int := 0x7FFF_FFFF_FFFF_FFFF
  const INT64_MIN: int := -0x8000_0000_0000_0000

  predicate FitsInt64(x: int) {
    INT64_MIN <= x <= INT64_MAX
  }

  /** The value a 64-bit signed register holds after computing x. */
  function Wrap64(x: int): (r: int)
    ensures FitsInt64(r)
    ensures FitsInt64(x) ==> r == x
    ensures exists k: int :: x == r + k * 0x1_0000_0000_0000_0000
    ensures INT64_MAX < x <= 2 * INT64_MAX ==> r < 0
  {
    WrapIsCongruent(x);
    (x - INT64_MIN) % 0x1_0000_0000_0000_0000 + INT64_MIN
  }

  lemma WrapIsCongruent(x: int)
    ensures var m := 0x1_0000_0000_0000_0000;
      x == (x - INT64_MIN) % m + INT64_MIN + ((x - INT64_MIN) / m) * m
  {
  }
}
