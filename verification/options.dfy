/** The one list-picker query the screen relies on: finding the position of a
    value among a picker's entry values. */
module Options {

  /** `findIndexOfValue`: the position of `v` in `values`, scanning from the
      last entry, or -1 when `v` is not among them. */
  function IndexOf<T(==)>(values: seq<T>, v: T): (r: int)
    ensures -1 <= r < |values|
    ensures r == -1 <==> v !in values
    ensures r >= 0 ==> values[r] == v
    ensures r >= 0 ==> forall j | r < j < |values| :: values[j] != v
    decreases |values|
  {
    if |values| == 0 then -1
    else if values[|values| - 1] == v then |values| - 1
    else
      IndexOf(values[..|values| - 1], v)
  }

  /** On entry values without repetition, the position found is the only one
      holding the value. */
  lemma IndexOfUnique<T>(values: seq<T>, v: T, i: int)
    requires forall a, b | 0 <= a < b < |values| :: values[a] != values[b]
    requires 0 <= i < |values| && values[i] == v
    ensures IndexOf(values, v) == i
  {
  }
}
