/**
 * Day 8, part 2 (src/bin/day_08_2.rs): connect pairs of boxes, closest
 * first, until all boxes form a single circuit; the answer multiplies the
 * `x` coordinates of the two boxes of the last connection made.
 *
 * The search first doubles (or trims by a tenth) the number of connections
 * until exactly two circuits remain, then adds one connection at a time.
 * The first phase need not end, so it runs on `fuel`. The parser, the
 * connection matrix and the circuits are those of part 1.
 */
module Day08Part2 {
  import opened Wrappers
  import opened Day08Part1
  import opened Itertools

  /** `build_connection_matrix` of part 2: the matrix of the first
      `nConnections` pairs, and the pair connected last. */
  method BuildConnectionMatrix(pairsSorted: seq<(nat, nat)>, nConnections: nat, n: nat)
    returns (matrix: array2<bool>, lastConnection: (nat, nat))
    requires 1 <= nConnections <= |pairsSorted|
    requires PairsInside(pairsSorted, nConnections, n)
    ensures fresh(matrix) && matrix.Length0 == n && matrix.Length1 == n
    ensures forall i, j :: 0 <= i < n && 0 <= j < n ==> matrix[i, j] == Joined(pairsSorted, nConnections, i, j)
    ensures lastConnection == pairsSorted[nConnections - 1]
  {
    matrix := Day08Part1.BuildConnectionMatrix(pairsSorted, nConnections, n);
    lastConnection := pairsSorted[nConnections - 1];
  }

  /* More connections, fewer circuits. */

  /** Every connection of `adj` is one of `adj'`. */
  ghost predicate Within(adj: seq<seq<bool>>, adj': seq<seq<bool>>)
  {
    forall a: nat, b: nat :: Linked(adj, a, b) ==> Linked(adj', a, b)
  }

  /** The matrix of the first `k` pairs is contained in that of the first
      `k'` pairs when `k <= k'`. */
  lemma ConnectionRowsWithin(pairs: seq<(nat, nat)>, k: nat, k': nat, n: nat)
    requires k <= k'
    ensures Within(ConnectionRows(pairs, k, n), ConnectionRows(pairs, k', n))
  {
  }

  /** A walk along fewer connections is a walk along more. */
  lemma ReachableWithin(adj: seq<seq<bool>>, adj': seq<seq<bool>>, a: nat, b: nat)
    requires Within(adj, adj')
    ensures Reachable(adj, a, b) ==> Reachable(adj', a, b)
  {
    if Reachable(adj, a, b) {
      var w :| Walk(adj, w, a, b);
      assert Walk(adj', w, a, b);
    }
  }

  lemma SubsetCard(s: set<nat>, t: set<nat>)
    requires s <= t
    ensures |s| <= |t|
  {
    assert t == s + (t - s);
  }

  /** The number of circuits once the first `k` pairs are connected. */
  ghost function CircuitCount(pairs: seq<(nat, nat)>, k: nat, n: nat): nat
  {
    |CircuitSizes(ConnectionRows(pairs, k, n), n, {})|
  }

  /** Connecting more pairs never makes more circuits. */
  lemma CircuitCountMonotone(pairs: seq<(nat, nat)>, k: nat, k': nat, n: nat)
    requires k <= k'
    ensures CircuitCount(pairs, k', n) <= CircuitCount(pairs, k, n)
  {
    var adj := ConnectionRows(pairs, k, n);
    var adj' := ConnectionRows(pairs, k', n);
    ConnectionRowsSymmetric(pairs, k, n);
    ConnectionRowsSymmetric(pairs, k', n);
    CircuitSizesCount(adj, n, {});
    CircuitSizesCount(adj', n, {});
    ConnectionRowsWithin(pairs, k, k', n);
    forall a | a in Leaders(adj', n, {})
      ensures a in Leaders(adj, n, {})
    {
      forall b: nat | b < a
        ensures !Reachable(adj, a, b)
      {
        ReachableWithin(adj, adj', a, b);
      }
    }
    SubsetCard(Leaders(adj', n, {}), Leaders(adj, n, {}));
  }

  /** There is a circuit exactly when there is a box. */
  lemma CircuitCountPositive(pairs: seq<(nat, nat)>, k: nat, n: nat)
    ensures CircuitCount(pairs, k, n) >= 1 <==> n >= 1
  {
    var adj := ConnectionRows(pairs, k, n);
    if n >= 1 {
      assert 0 in Leaders(adj, n, {});
      ConnectionRowsSymmetric(pairs, k, n);
      CircuitSizesCount(adj, n, {});
    } else {
      CircuitSizesAllDone(adj, n, {});
    }
  }

  /** Sorting the circuit sizes keeps one entry per circuit. */
  lemma SortedCircuitSizesCount(pairs: seq<(nat, nat)>, k: nat, n: nat)
    ensures |SortedCircuitSizes(ConnectionRows(pairs, k, n), n)| == CircuitCount(pairs, k, n)
  {
    var sizes := CircuitSizes(ConnectionRows(pairs, k, n), n, {});
    assert |multiset(SortAscending(sizes))| == |multiset(sizes)|;
  }

  /* The search. */

  /** `k` connections are the fewest that leave a single circuit. */
  ghost predicate FirstSingleCircuit(pairs: seq<(nat, nat)>, n: nat, k: nat)
  {
    && 1 <= k <= |pairs|
    && CircuitCount(pairs, k, n) == 1
    && forall k' :: 0 <= k' < k ==> CircuitCount(pairs, k', n) > 1
  }

  /** At most one number of connections is the fewest. */
  lemma FirstSingleCircuitUnique(pairs: seq<(nat, nat)>, n: nat, k: nat, k': nat)
    requires FirstSingleCircuit(pairs, n, k) && FirstSingleCircuit(pairs, n, k')
    ensures k == k'
  {
  }

  /** `calculate_result` does not panic before its search: the lines parse
      and the pairs order all pairs. How many pairs the search takes
      depends on the boxes, so a pair outside the `nBoxes` by `nBoxes`
      matrix is met, if at all, during the search. */
  predicate ValidInput(lines: seq<string>, pairsSorted: seq<(nat, nat)>)
  {
    && LinesParse(lines)
    && multiset(pairsSorted) == multiset(Combinations(|lines|))
  }

  /** `calculate_result`: the product of the `x` coordinates of the boxes
      joined by the connection that first leaves a single circuit. `None`
      when the first phase runs out of `fuel`, or where the source panics:
      the search needs more connections than there are pairs, or a pair
      it takes names a box outside the matrix. */
  method CalculateResult(lines: seq<string>, pairsSorted: seq<(nat, nat)>, nBoxes: nat, fuel: nat)
    returns (r: Option<int>)
    requires ValidInput(lines, pairsSorted)
    ensures r.Some? ==> exists k :: && FirstSingleCircuit(pairsSorted, nBoxes, k)
                                    && pairsSorted[k - 1].0 < |lines| && pairsSorted[k - 1].1 < |lines|
                                    && r.value == Boxes(lines)[pairsSorted[k - 1].0].x * Boxes(lines)[pairsSorted[k - 1].1].x
  {
    var junctionBoxes := Boxes(lines);
    CombinationsInside(pairsSorted, |junctionBoxes|);
    var start := CoarseSearch(pairsSorted, nBoxes, fuel);
    if start.None? {
      return None;
    }
    var k, lastConnection := FineSearch(pairsSorted, nBoxes, start.value);
    if k.None? {
      return None;
    }
    r := Some(junctionBoxes[lastConnection.0].x * junctionBoxes[lastConnection.1].x);
  }

  /** The first loop of `calculate_result`: doubling the connections while
      there are more than two circuits, trimming a tenth while there are
      fewer, until exactly two are left. `None` when `fuel` runs out, and
      where the source panics: the count passes the number of pairs, or
      one of the pairs taken names a box outside the matrix. */
  method CoarseSearch(pairsSorted: seq<(nat, nat)>, nBoxes: nat, fuel: nat) returns (r: Option<nat>)
    ensures r.Some? ==> 1 <= r.value <= |pairsSorted| && CircuitCount(pairsSorted, r.value, nBoxes) == 2
  {
    var circuitSizes: seq<nat> := [0, 0, 0];
    var nConnections := 1;
    var fuelLeft := fuel;
    while |circuitSizes| != 2
      invariant 1 <= nConnections
      invariant |circuitSizes| == 3 || (nConnections <= |pairsSorted| && |circuitSizes| == CircuitCount(pairsSorted, nConnections, nBoxes))
      decreases fuelLeft
    {
      if fuelLeft == 0 {
        return None;
      }
      fuelLeft := fuelLeft - 1;
      if |circuitSizes| > 2 {
        nConnections := nConnections * 2;
      } else {
        nConnections := nConnections - nConnections / 10;
      }
      if nConnections > |pairsSorted| || !PairsInside(pairsSorted, nConnections, nBoxes) {
        return None;
      }
      var connectionMatrix, _ := BuildConnectionMatrix(pairsSorted, nConnections, nBoxes);
      circuitSizes := ExtractCircuitSizes(connectionMatrix, ConnectionRows(pairsSorted, nConnections, nBoxes));
      SortedCircuitSizesCount(pairsSorted, nConnections, nBoxes);
    }
    r := Some(nConnections);
  }

  /** The second loop of `calculate_result`: one more connection at a time
      from a count with two circuits, until at most one is left. It answers
      with the fewest connections leaving a single circuit and the pair
      joined last; `None` where the source panics: the count passes the
      number of pairs, or the pair taken names a box outside the matrix. */
  method FineSearch(pairsSorted: seq<(nat, nat)>, nBoxes: nat, start: nat) returns (k: Option<nat>, last: (nat, nat))
    requires 1 <= start <= |pairsSorted| && CircuitCount(pairsSorted, start, nBoxes) == 2
    ensures k.Some? ==> FirstSingleCircuit(pairsSorted, nBoxes, k.value) && last == pairsSorted[k.value - 1]
  {
    var nConnections := start;
    var circuitCount := 2;
    last := (0, 0);
    while circuitCount > 1
      invariant 1 <= nConnections <= |pairsSorted|
      invariant circuitCount == CircuitCount(pairsSorted, nConnections, nBoxes)
      invariant circuitCount >= 2 || CircuitCount(pairsSorted, nConnections - 1, nBoxes) >= 2
      invariant circuitCount <= 1 ==> last == pairsSorted[nConnections - 1]
      decreases |pairsSorted| - nConnections
    {
      if nConnections + 1 > |pairsSorted| || !PairsInside(pairsSorted, nConnections + 1, nBoxes) {
        return None, last;
      }
      nConnections := nConnections + 1;
      var connectionMatrix, lastConnectionIdxs := BuildConnectionMatrix(pairsSorted, nConnections, nBoxes);
      last := lastConnectionIdxs;
      var circuitSizes := ExtractCircuitSizes(connectionMatrix, ConnectionRows(pairsSorted, nConnections, nBoxes));
      SortedCircuitSizesCount(pairsSorted, nConnections, nBoxes);
      circuitCount := |circuitSizes|;
    }
    FirstSingleCircuitAt(pairsSorted, nBoxes, nConnections);
    k := Some(nConnections);
  }

  /** Where the second phase stops: one circuit or none with `k`
      connections, at least two with one connection fewer. Then `k` is the
      fewest connections that leave a single circuit. */
  lemma FirstSingleCircuitAt(pairs: seq<(nat, nat)>, n: nat, k: nat)
    requires 1 <= k <= |pairs|
    requires CircuitCount(pairs, k, n) <= 1 && CircuitCount(pairs, k - 1, n) >= 2
    ensures FirstSingleCircuit(pairs, n, k)
  {
    CircuitCountPositive(pairs, k - 1, n);
    CircuitCountPositive(pairs, k, n);
    SeveralCircuitsBefore(pairs, n, k - 1);
  }

  /** With two or more circuits after `m` connections, every smaller count
      leaves two or more as well. */
  lemma SeveralCircuitsBefore(pairs: seq<(nat, nat)>, n: nat, m: nat)
    requires CircuitCount(pairs, m, n) >= 2
    ensures forall k' :: 0 <= k' <= m ==> CircuitCount(pairs, k', n) > 1
  {
    forall k' | 0 <= k' <= m
      ensures CircuitCount(pairs, k', n) > 1
    {
      CircuitCountMonotone(pairs, k', m, n);
    }
  }
}
