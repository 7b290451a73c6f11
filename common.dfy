/** Small shared vocabulary of the model. */
module Common {

  /** A value that may be absent: an index that a search did not find, a decision-table lookup that
      has no row, a header that does not parse. */
  datatype Option<+T> = None | Some(value: T)

  /** An unsigned 8-bit value: a byte of mapped image memory or of an output file. */
  type Byte = x: int | 0 <= x < 256

  /** Multiplying both sides by the same natural keeps their order. */
  lemma MulMonotone(a: nat, b: nat, m: nat)
    requires a <= b
    ensures a * m <= b * m
  {
  }
}
