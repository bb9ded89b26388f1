/** What several modules share. */
module Common {
  datatype Option<T> = None | Some(value: T)

  ghost predicate Distinct(xs: seq<nat>) {
    forall i, j | 0 <= i < j < |xs| :: xs[i] != xs[j]
  }
}
