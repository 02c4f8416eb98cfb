/** Names shared by every part of the model. */
module Primitives {

  /** A 256-bit hash.  Only equality and the reserved value 0 matter to the model. */
  type Hash = nat

  type Byte = b: nat | b < 256

  type Script = seq<Byte>

  datatype Option<+T> = None | Some(value: T)

  const COIN: int := 100_000_000
  const CENT: int := 1_000_000
  const MAX_MONEY: int := 2_000_000_000 * COIN

  predicate MoneyRange(value: int) {
    0 <= value <= MAX_MONEY
  }

  /** No element occurs twice. */
  ghost predicate Distinct<T>(s: seq<T>) {
    forall i, j :: 0 <= i < j < |s| ==> s[i] != s[j]
  }
}
