// Shared vocabulary of the SRED queue disc model: the zombie-table size, the
// unit a queue is measured in, zombie slots, packets, and the IEEE-style
// extended reals that the full-SRED drop probability can produce.
module SredTypes {

  /** Number of slots of the zombie table (`#define M 1000`). */
  const M: nat := 1000

  /** Modulus of a 32-bit unsigned counter (`uint32_t`). */
  const Uint32Modulus: nat := 0x1_0000_0000

  /** Flow id the classifier reports for a packet it cannot classify. */
  const Unclassified: int := -1

  /** Unit in which a queue limit and a queue occupancy are measured. */
  datatype QueueMode = Packets | Bytes

  /** One zombie: a remembered flow, how often it was hit since it was
      written, and when it was last written or hit. */
  datatype Zombie = Zombie(fid: int, count: nat, timestamp: int)

  /** A queued packet: an opaque identity and its size in bytes. */
  datatype Item = Item(uid: nat, size: nat)

  datatype Option<T> = None | Some(value: T)

  /** The double values the drop-probability arithmetic can reach: finite
      values, the two infinities and NaN. */
  datatype Extended = Finite(value: real) | PosInf | NegInf | NaN

  /** IEEE comparison `u <= p`: true against +inf, false against -inf and NaN. */
  predicate AtOrBelow(u: real, p: Extended)
  {
    match p
    case Finite(v) => u <= v
    case PosInf => true
    case NegInf => false
    case NaN => false
  }
}
