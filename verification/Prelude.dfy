/** Datatypes and time units shared by the models. */
module Prelude {
  datatype Option<+T> = None | Some(value: T)

  datatype Result<+T, +E> = Ok(value: T) | Err(error: E)

  // Instants and durations are counted in nanoseconds, as Go's time package does.
  const SECOND: nat := 1_000_000_000
  const MINUTE: nat := 60 * SECOND
  const HOUR: nat := 60 * MINUTE
  const DAY: nat := 24 * HOUR

  /** The Unix second an instant falls in (jwt.NewNumericDate and time.Unix truncate). */
  function SecondOf(t: nat): (s: nat)
    ensures s * SECOND <= t < s * SECOND + SECOND
  {
    t / SECOND
  }

  type Byte = x: int | 0 <= x < 256

  // SHA-256 and its text encoding.
  type Hash = string -> string

  ghost predicate Injective(hash: Hash) {
    forall a, b :: hash(a) == hash(b) ==> a == b
  }

  lemma {:induction false} SubsetSize<T>(a: set<T>, b: set<T>)
    requires a <= b
    ensures |a| <= |b|
  {
    if a != {} {
      var x :| x in a;
      SubsetSize(a - {x}, b - {x});
    }
  }
}
