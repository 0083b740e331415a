/** Small shared vocabulary: optional values, item identities, distinctness. */
module Common {

  /** A value that may be absent (an attribute that is not set, a parse that found no number). */
  datatype Option<+T> = None | Some(value: T)

  /** Identity of a slotted `.waterfall-item` element. */
  type ItemId = nat

  function Abs(x: int): nat {
    if x < 0 then -x else x
  }

  /** No element occurs twice (DOM elements in a slot are distinct). */
  predicate Distinct<T(==)>(s: seq<T>) {
    forall i, j :: 0 <= i < j < |s| ==> s[i] != s[j]
  }
}
