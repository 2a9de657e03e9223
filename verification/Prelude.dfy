/** What the other modules share: missing values, the null pointer and sealed definitions. */
module Prelude {

  /** A value that may be missing: the program's null results and failed lookups. */
  datatype Option<+T> = None | Some(value: T)

  /** Memory is a sequence and a pointer an index into it; this is the null pointer. */
  const NULL := -1

  /** Guards a sealed definition `forall g | Opened(x, g) :: P`, which means `P`: the verifier looks
      inside only where `Opened` is mentioned of the same `x`. */
  predicate Opened<T>(x: T, g: int) {
    true
  }
}
