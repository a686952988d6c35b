/** Linear search, as all the table lookups of the program do it. */
module Search {
  import opened Options

  /** The first place at or behind `i` where `x` stands. */
  function FirstIndex<T(==)>(xs: seq<T>, x: T, i: nat): (r: Option<nat>)
    requires i <= |xs|
    ensures r.Some? ==> i <= r.value < |xs| && xs[r.value] == x && forall j :: i <= j < r.value ==> xs[j] != x
    ensures r.None? ==> forall j :: i <= j < |xs| ==> xs[j] != x
    decreases |xs| - i
  {
    if i == |xs| then None else if xs[i] == x then Some(i) else FirstIndex(xs, x, i + 1)
  }
}
