/** Types and small facts shared by the models of the metric store and of the replay engine. */
module Basics {
  datatype Option<+T> = None | Some(value: T)

  datatype Result<+T, +E> = Ok(value: T) | Err(error: E)

  /** Go's float64, with rounding left out: a real number or one of the special values. */
  datatype Float = NaN | NegInf | PosInf | Num(r: real)

  const U64: nat := 0x1_0000_0000_0000_0000

  type uint64 = n: int | 0 <= n < U64

  /** Unsigned 64-bit addition and subtraction wrap around. */
  function Add64(a: uint64, b: uint64): uint64 {
    (a + b) % U64
  }

  function Sub64(a: uint64, b: uint64): uint64 {
    (a - b) % U64
  }

  /** A wrapped running sum is the plain running sum, wrapped. */
  lemma AddMod(a: nat, b: nat)
    ensures (a % U64 + b) % U64 == (a + b) % U64
  {
  }

  lemma RepeatedTwice<T>(s: seq<T>, i: nat, j: nat)
    requires i < j < |s| && s[i] == s[j]
    ensures multiset(s)[s[i]] >= 2
  {
    assert s == s[..i] + [s[i]] + s[i + 1..j] + [s[j]] + s[j + 1..];
  }

  function Max(a: real, b: real): real {
    if a < b then b else a
  }

  function Min(a: real, b: real): real {
    if b < a then b else a
  }
}
