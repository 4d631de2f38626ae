/** What several modules use. */
module Common {

  datatype Option<T> = None | Some(value: T)

  predicate Distinct<T(==)>(list: seq<T>) {
    forall i, j :: 0 <= i < j < |list| ==> list[i] != list[j]
  }
}
