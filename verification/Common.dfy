/** Small definitions that every module of the model shares. */
module Common {

  /** A value that may be absent: `undefined`, `null`, or a missing key. */
  datatype Option<+T> = None | Some(value: T)

  predicate NoDuplicates<T(==)>(s: seq<T>) {
    forall i, j :: 0 <= i < j < |s| ==> s[i] != s[j]
  }

  function Min(x: real, y: real): real { if x <= y then x else y }

  function Max(x: real, y: real): real { if x >= y then x else y }

  /** The smaller of two counts. */
  function Lesser(x: nat, y: nat): nat { if x <= y then x else y }
}
