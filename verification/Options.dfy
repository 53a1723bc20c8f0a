/** What the other modules share. */
module Options {

  datatype Option<+T> = None | Some(value: T)

  /** No element occurs twice. */
  ghost predicate Distinct<T>(s: seq<T>) {
    forall i, j | 0 <= i < j < |s| :: s[i] != s[j]
  }
}
