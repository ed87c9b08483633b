/** Definitions that several modules share. */
module Common {

  datatype Option<T> = None | Some(value: T)

  /** The number of values of a 64-bit word, and half of it. */
  const WORDS: nat := 0x1_0000_0000_0000_0000
  const HALF: nat := 0x8000_0000_0000_0000

  const EINVAL: int := 22

  predicate Distinct(l: seq<nat>) {
    forall i, j :: 0 <= i < j < |l| ==> l[i] != l[j]
  }
}
