/**
 * Shared vocabulary: optional values for C's NULL pointers, results for the
 * error returns, and the fixed-width integer conversions the C code relies on.
 */
module Common {

  datatype Option<T> = None | Some(value: T)

  datatype Result<T, E> = Ok(value: T) | Err(error: E)

  const UINT64_MODULUS: int := 0x1_0000_0000_0000_0000
  const UINT64_MAX: int := 0xFFFF_FFFF_FFFF_FFFF
  const INT64_MIN: int := -0x8000_0000_0000_0000
  const INT64_MAX: int := 0x7FFF_FFFF_FFFF_FFFF
  const INT32_MIN: int := -0x8000_0000
  const INT32_MAX: int := 0x7FFF_FFFF

  predicate IsUint64(x: int) { 0 <= x <= UINT64_MAX }

  /** The values of C's uint64_t. */
  type u64 = x: int | 0 <= x <= 0xFFFF_FFFF_FFFF_FFFF

  /** Conversion of any integer to uint64_t: reduction modulo 2^64. */
  function ToUint64(x: int): (r: int)
    ensures IsUint64(r)
    ensures IsUint64(x) ==> r == x
  {
    x % UINT64_MODULUS
  }

  /** Conversion of any integer to a 32-bit int on a two's complement machine. */
  function ToInt32(x: int): (r: int)
    ensures INT32_MIN <= r <= INT32_MAX
    ensures (r - x) % 0x1_0000_0000 == 0
    ensures INT32_MIN <= x <= INT32_MAX ==> r == x
  {
    var m := x % 0x1_0000_0000;
    if m <= INT32_MAX then m else m - 0x1_0000_0000
  }

  /** Concatenation is associative; stated once so that proofs need not rediscover it in a large context. */
  lemma ConcatAssoc<T>(a: seq<T>, b: seq<T>, c: seq<T>)
    ensures a + (b + c) == (a + b) + c
  {
  }

  /** A prefix one longer is the prefix and the next element. */
  lemma TakeSnoc<T>(s: seq<T>, n: nat)
    requires n < |s|
    ensures s[..n + 1] == s[..n] + [s[n]]
  {
  }
}
