/** The parts of SQL the other modules lean on: NULL, the three-valued comparisons that a
    PL/pgSQL IF treats as "not taken" when they are unknown, and SHA-256 as a free,
    hence injective, constructor. */
module Sql {

  datatype Option<+T> = None | Some(value: T)

  /** The digest of a value; equal digests come from equal values. */
  datatype Digest<+T> = Sha256(preimage: T)

  datatype Truth = True | False | Unknown

  /** SQL `=`: unknown as soon as one side is NULL. */
  function Equal<T(==)>(a: Option<T>, b: Option<T>): Truth {
    if a.None? || b.None? then Unknown else if a == b then True else False
  }

  /** SQL `<`: unknown as soon as one side is NULL. */
  function Less(a: Option<int>, b: Option<int>): Truth {
    if a.None? || b.None? then Unknown else if a.value < b.value then True else False
  }

  function Max(a: int, b: int): int {
    if a < b then b else a
  }

  /** Times are microseconds. */
  const SECOND: int := 1_000_000

  /** A reason code: a capital, then 2 to 63 capitals, digits or underscores. */
  predicate ReasonCodeFormat(s: string) {
    && 3 <= |s| <= 64
    && 'A' <= s[0] <= 'Z'
    && forall i :: 0 <= i < |s| ==> 'A' <= s[i] <= 'Z' || '0' <= s[i] <= '9' || s[i] == '_'
  }
}
