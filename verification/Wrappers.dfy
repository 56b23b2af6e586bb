/** Results of operations that may find nothing or fail, and the search for a first match that Mongo commands share. */
module Wrappers {

  datatype Option<+T> = None | Some(value: T)

  datatype Result<+T, +E> = Ok(value: T) | Err(error: E)

  /** The rank of the first match, or the length when there is none. */
  function FirstMatch<T>(rows: seq<T>, matches: T -> bool): (k: nat)
    ensures k <= |rows| && (k < |rows| ==> matches(rows[k]))
    ensures forall i | 0 <= i < k :: !matches(rows[i])
  {
    if rows == [] || matches(rows[0]) then 0 else 1 + FirstMatch(rows[1..], matches)
  }
}
