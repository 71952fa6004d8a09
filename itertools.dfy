/**
 * The iterator adaptors of the `itertools` crate and of `Iterator` that
 * the puzzles use on whole collections.
 */
module Itertools {
  import opened Wrappers

  /** `tuple_combinations` of the items from `i` on, among `m` items: the
      index pairs `(a, b)` with `i <= a < b < m`, in lexicographic order. */
  function CombinationsFrom(i: nat, m: nat): (ps: seq<(nat, nat)>)
    ensures forall p :: p in ps <==> i <= p.0 < p.1 < m
    decreases m - i
  {
    if i >= m then []
    else CombinationsRow(i, m) + CombinationsFrom(i + 1, m)
  }

  /** The pairs `(i, b)` with `i < b < m`, in order. */
  function CombinationsRow(i: nat, m: nat): (row: seq<(nat, nat)>)
    requires i < m
    ensures forall p :: p in row <==> i == p.0 < p.1 < m
  {
    var row := seq(m - i - 1, k requires 0 <= k < m - i - 1 => (i, i + 1 + k));
    assert forall p: (nat, nat) :: i == p.0 < p.1 < m ==> row[p.1 - i - 1] == p;
    row
  }

  /** Every pair of distinct items among `m`, the smaller index first. */
  function Combinations(m: nat): (ps: seq<(nat, nat)>)
  {
    CombinationsFrom(0, m)
  }

  /** `Iterator::max`: `None` for no items, otherwise one of the items that
      no other item exceeds. */
  function Max(s: seq<nat>): (r: Option<nat>)
    ensures r.None? <==> |s| == 0
    ensures r.Some? ==> r.value in s && forall k :: 0 <= k < |s| ==> s[k] <= r.value
  {
    if |s| == 0 then None
    else
      var last := s[|s| - 1];
      match Max(s[..|s| - 1])
      case None => Some(last)
      case Some(m) => Some(if last >= m then last else m)
  }
}
