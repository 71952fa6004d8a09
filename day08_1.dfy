/**
 * Day 8, part 1 (src/bin/day_08_1.rs): junction boxes are joined by the
 * `nConnections` shortest connections between them; the boxes then fall
 * into circuits (the connected components of the connections), and the
 * answer multiplies the sizes of the three largest circuits.
 *
 * The Euclidean distance is `f32` arithmetic and is not modelled: the pairs
 * of boxes, already sorted by distance, are an input, required to be an
 * ordering of all pairs of boxes. `N_JUNCTION_BOXES` and `N_CONNECTIONS`
 * are parameters. The connection matrix, the circuits and their sizes are
 * shared with part 2.
 */
module Day08Part1 {
  import opened Wrappers
  import opened Strings
  import opened Itertools
  import Day06Part1

  const N_LARGEST_CIRCUITS: nat := 3

  datatype JunctionBox = JunctionBox(x: int, y: int, z: int)

  /* Parsing. */

  /** `from_string`: the trimmed line must be three `,`-separated `i64`s;
      anything else is `Err`. */
  function FromString(input: string): (r: Result<JunctionBox, ()>)
    ensures CountChar(Trim(input), ',') != 2 ==> r.Err?
    ensures r.Ok? ==> && I64_MIN <= r.value.x <= I64_MAX
                      && I64_MIN <= r.value.y <= I64_MAX
                      && I64_MIN <= r.value.z <= I64_MAX
  {
    SplitLength(Trim(input), ',');
    var parts := Split(Trim(input), ',');
    if |parts| != 3 then Err(())
    else
      var x := ParseInt(parts[0], I64_MIN, I64_MAX);
      var y := ParseInt(parts[1], I64_MIN, I64_MAX);
      var z := ParseInt(parts[2], I64_MIN, I64_MAX);
      if x.Some? && y.Some? && z.Some? then Ok(JunctionBox(x.value, y.value, z.value)) else Err(())
  }

  /** The line of a box: its coordinates, `,`-separated. */
  function Line(b: JunctionBox): string
  {
    SignedDecimal(b.x) + "," + SignedDecimal(b.y) + "," + SignedDecimal(b.z)
  }

  /** Parsing the line of a box whose coordinates are `i64`s gives the box
      back. */
  lemma FromStringRoundTrip(b: JunctionBox)
    requires I64_MIN <= b.x <= I64_MAX && I64_MIN <= b.y <= I64_MAX && I64_MIN <= b.z <= I64_MAX
    ensures FromString(Line(b)) == Ok(b)
  {
    LineSplits(b);
    ParseSignedDecimalOf(b.x, I64_MIN, I64_MAX);
    ParseSignedDecimalOf(b.y, I64_MIN, I64_MAX);
    ParseSignedDecimalOf(b.z, I64_MIN, I64_MAX);
  }

  lemma LineSplits(b: JunctionBox)
    ensures Split(Trim(Line(b)), ',') == [SignedDecimal(b.x), SignedDecimal(b.y), SignedDecimal(b.z)]
  {
    var parts := [SignedDecimal(b.x), SignedDecimal(b.y), SignedDecimal(b.z)];
    assert forall k :: 0 <= k < 3 ==> ',' !in parts[k] by {
      forall k, i | 0 <= k < 3 && 0 <= i < |parts[k]|
        ensures parts[k][i] != ','
      {
        assert parts[k][i] == '-' || IsDigit(parts[k][i]);
      }
    }
    SplitJoin(parts, ',');
    JoinThree(SignedDecimal(b.x), SignedDecimal(b.y), SignedDecimal(b.z));
    TrimUnpadded(Line(b));
  }

  /** Three parts joined by commas. */
  lemma JoinThree(x: string, y: string, z: string)
    ensures Join([x, y, z], ',') == x + "," + y + "," + z
  {
    var parts := [x, y, z];
    assert parts[1..][1..] == [z];
    assert Join(parts[1..], ',') == y + "," + z;
  }

  /** Every line parses: the `expect` of `calculate_result` does not
      panic. */
  predicate LinesParse(lines: seq<string>)
  {
    forall l :: 0 <= l < |lines| ==> FromString(lines[l]).Ok?
  }

  /** The boxes of `calculate_result`, one per line. */
  function Boxes(lines: seq<string>): (boxes: seq<JunctionBox>)
    requires LinesParse(lines)
    ensures |boxes| == |lines| && forall l :: 0 <= l < |lines| ==> FromString(lines[l]) == Ok(boxes[l])
  {
    seq(|lines|, l requires 0 <= l < |lines| => FromString(lines[l]).value)
  }

  /* Pairs of boxes and the connection matrix. */

  /** Any ordering of the pairs of `m` boxes names boxes below `m` only. */
  lemma CombinationsInside(pairs: seq<(nat, nat)>, m: nat)
    requires multiset(pairs) == multiset(Combinations(m))
    ensures forall t :: 0 <= t < |pairs| ==> pairs[t].0 < pairs[t].1 < m
  {
    forall t | 0 <= t < |pairs|
      ensures pairs[t].0 < pairs[t].1 < m
    {
      assert pairs[t] in multiset(pairs);
      assert pairs[t] in Combinations(m);
    }
  }

  /** One of the first `count` pairs joins boxes `i` and `j`, in either
      order: the cells the `take(count)` loop sets. */
  predicate Joined(pairs: seq<(nat, nat)>, count: nat, i: nat, j: nat)
  {
    exists t :: 0 <= t < count && t < |pairs| && (pairs[t] == (i, j) || pairs[t] == (j, i))
  }

  /** The first `count` pairs name boxes below `n`: indexing the matrix
      does not panic. */
  predicate PairsInside(pairs: seq<(nat, nat)>, count: nat, n: nat)
  {
    forall t :: 0 <= t < count && t < |pairs| ==> pairs[t].0 < n && pairs[t].1 < n
  }

  /** `build_connection_matrix`: an `n` by `n` matrix whose cell `[i][j]`
      is set exactly when one of the first `nConnections` pairs joins `i`
      and `j`; so it is symmetric. */
  method BuildConnectionMatrix(pairsSorted: seq<(nat, nat)>, nConnections: nat, n: nat) returns (matrix: array2<bool>)
    requires PairsInside(pairsSorted, nConnections, n)
    ensures fresh(matrix) && matrix.Length0 == n && matrix.Length1 == n
    ensures forall i, j :: 0 <= i < n && 0 <= j < n ==> matrix[i, j] == Joined(pairsSorted, nConnections, i, j)
    ensures forall i, j :: 0 <= i < n && 0 <= j < n ==> matrix[i, j] == matrix[j, i]
  {
    matrix := new bool[n, n]((i, j) => false);
    var count := if nConnections < |pairsSorted| then nConnections else |pairsSorted|;
    for t := 0 to count
      invariant forall a, b :: 0 <= a < n && 0 <= b < n ==> matrix[a, b] == Joined(pairsSorted, t, a, b)
    {
      var pair := pairsSorted[t];
      assert Joined(pairsSorted, t + 1, pair.0, pair.1) && Joined(pairsSorted, t + 1, pair.1, pair.0);
      matrix[pair.0, pair.1] := true;
      matrix[pair.1, pair.0] := true;
    }
  }

  /** The matrix of the first `count` pairs, as values. */
  function ConnectionRows(pairs: seq<(nat, nat)>, count: nat, n: nat): (adj: seq<seq<bool>>)
    ensures IsMatrix(adj, n)
  {
    seq(n, i requires 0 <= i < n => seq(n, j requires 0 <= j < n => Joined(pairs, count, i, j)))
  }

  /* Circuits: the connected components of a connection matrix. */

  /** A square `n` by `n` matrix. */
  predicate IsMatrix(adj: seq<seq<bool>>, n: nat)
  {
    |adj| == n && forall i :: 0 <= i < n ==> |adj[i]| == n
  }

  /** Boxes `a` and `b` are directly connected. */
  predicate Linked(adj: seq<seq<bool>>, a: nat, b: nat)
  {
    a < |adj| && b < |adj[a]| && adj[a][b]
  }

  ghost predicate Symmetric(adj: seq<seq<bool>>)
  {
    forall a: nat, b: nat :: Linked(adj, a, b) ==> Linked(adj, b, a)
  }

  /** A connection matrix built from pairs is symmetric. */
  lemma ConnectionRowsSymmetric(pairs: seq<(nat, nat)>, count: nat, n: nat)
    ensures Symmetric(ConnectionRows(pairs, count, n))
  {
    var adj := ConnectionRows(pairs, count, n);
    forall a: nat, b: nat | Linked(adj, a, b)
      ensures Linked(adj, b, a)
    {
      var t :| 0 <= t < count && t < |pairs| && (pairs[t] == (a, b) || pairs[t] == (b, a));
      assert Joined(pairs, count, b, a);
    }
  }

  /** `w` walks from box `a` to box `b` along connections. */
  predicate Walk(adj: seq<seq<bool>>, w: seq<nat>, a: nat, b: nat)
  {
    |w| >= 1 && w[0] == a && w[|w| - 1] == b && forall k :: 0 <= k < |w| - 1 ==> Linked(adj, w[k], w[k + 1])
  }

  ghost predicate Reachable(adj: seq<seq<bool>>, a: nat, b: nat)
  {
    exists w :: Walk(adj, w, a, b)
  }

  /** The circuit of box `a`: the boxes below `n` reachable from it. */
  ghost function Circuit(adj: seq<seq<bool>>, n: nat, a: nat): set<nat>
  {
    set b: nat | b < n && Reachable(adj, a, b)
  }

  lemma ReachableRefl(adj: seq<seq<bool>>, a: nat)
    ensures Reachable(adj, a, a)
  {
    assert Walk(adj, [a], a, a);
  }

  lemma ReachableStep(adj: seq<seq<bool>>, a: nat, b: nat, c: nat)
    requires Reachable(adj, a, b) && Linked(adj, b, c)
    ensures Reachable(adj, a, c)
  {
    var w :| Walk(adj, w, a, b);
    assert Walk(adj, w + [c], a, c);
  }

  /** With symmetric connections a walk can be retraced. */
  lemma ReachableSymmetric(adj: seq<seq<bool>>, a: nat, b: nat)
    requires Symmetric(adj) && Reachable(adj, a, b)
    ensures Reachable(adj, b, a)
  {
    var w :| Walk(adj, w, a, b);
    var r := seq(|w|, k requires 0 <= k < |w| => w[|w| - 1 - k]);
    forall k | 0 <= k < |r| - 1
      ensures Linked(adj, r[k], r[k + 1])
    {
      assert Linked(adj, w[|w| - 2 - k], w[|w| - 1 - k]);
    }
    assert Walk(adj, r, b, a);
  }

  /** No connection leaves the set. */
  ghost predicate Closed(adj: seq<seq<bool>>, s: set<nat>)
  {
    forall a, b :: a in s && Linked(adj, a, b) ==> b in s
  }

  lemma {:induction false} ClosedContainsWalk(adj: seq<seq<bool>>, s: set<nat>, w: seq<nat>, a: nat, b: nat)
    requires Closed(adj, s) && a in s && Walk(adj, w, a, b)
    ensures b in s
    decreases |w|
  {
    if |w| > 1 {
      var prefix := w[..|w| - 1];
      assert Walk(adj, prefix, a, w[|w| - 2]);
      ClosedContainsWalk(adj, s, prefix, a, w[|w| - 2]);
      assert Linked(adj, w[|w| - 2], w[|w| - 1]);
    }
  }

  /** A set closed under connections holds the circuit of each member. */
  lemma ClosedContainsCircuit(adj: seq<seq<bool>>, n: nat, s: set<nat>, a: nat)
    requires Closed(adj, s) && a in s
    ensures Circuit(adj, n, a) <= s
  {
    forall b | b in Circuit(adj, n, a)
      ensures b in s
    {
      var w :| Walk(adj, w, a, b);
      ClosedContainsWalk(adj, s, w, a, b);
    }
  }

  /** A circuit is closed under connections. */
  lemma CircuitClosed(adj: seq<seq<bool>>, n: nat, a: nat)
    requires IsMatrix(adj, n)
    ensures Closed(adj, Circuit(adj, n, a))
  {
    forall b, c | b in Circuit(adj, n, a) && Linked(adj, b, c)
      ensures c in Circuit(adj, n, a)
    {
      ReachableStep(adj, a, b, c);
    }
  }

  /** With symmetric connections, a closed set and the circuit of a box
      outside it do not meet. */
  lemma CircuitOutside(adj: seq<seq<bool>>, n: nat, s: set<nat>, a: nat)
    requires Symmetric(adj) && Closed(adj, s) && a !in s
    ensures Circuit(adj, n, a) * s == {}
  {
    forall b | b in Circuit(adj, n, a) && b in s
      ensures false
    {
      ReachableSymmetric(adj, a, b);
      var w :| Walk(adj, w, b, a);
      ClosedContainsWalk(adj, s, w, b, a);
    }
  }

  /* The circuits in the order `extract_circuit_sizes` finds them. */

  /** The lowest box from `i` on that is not in `done`, or `n`. */
  function LowestUnchecked(done: set<nat>, n: nat, i: nat): (r: nat)
    requires i <= n
    ensures i <= r <= n
    ensures forall j :: i <= j < r ==> j in done
    ensures r < n ==> r !in done
    decreases n - i
  {
    if i == n || i !in done then i else LowestUnchecked(done, n, i + 1)
  }

  /** The lowest unchecked box is the only box with no unchecked box below
      it. */
  lemma LowestUncheckedUnique(done: set<nat>, n: nat, r: nat)
    requires r <= n && (forall j :: 0 <= j < r ==> j in done) && (r < n ==> r !in done)
    ensures LowestUnchecked(done, n, 0) == r
  {
  }

  /** The boxes checked are exactly those in `done`. */
  predicate CheckedExactly(checked: seq<bool>, done: set<nat>)
  {
    forall i :: 0 <= i < |checked| ==> (checked[i] <==> i in done)
  }

  /** Checking the boxes of a circuit adds that circuit to `done`. */
  lemma MarkedAreDone(before: seq<bool>, after: seq<bool>, done: set<nat>, idxs: seq<nat>)
    requires CheckedExactly(before, done) && |after| == |before|
    requires forall i :: 0 <= i < |after| ==> after[i] == (before[i] || i in idxs)
    ensures CheckedExactly(after, done + Elems(idxs))
  {
  }

  /** The first unchecked box, with exactly the boxes in `done` checked, is
      the lowest box not yet done. */
  lemma NextIsLowest(checked: seq<bool>, done: set<nat>, r: nat)
    requires CheckedExactly(checked, done)
    requires r <= |checked| && (forall j :: 0 <= j < r ==> checked[j]) && (r < |checked| ==> !checked[r])
    ensures LowestUnchecked(done, |checked|, 0) == r
  {
    LowestUncheckedUnique(done, |checked|, r);
  }

  /** The sizes of the circuits: take the lowest box not yet `done`, its
      circuit, and continue with that circuit done too. */
  ghost function CircuitSizes(adj: seq<seq<bool>>, n: nat, done: set<nat>): (sizes: seq<nat>)
    requires IsMatrix(adj, n)
    ensures forall k :: 0 <= k < |sizes| ==> sizes[k] >= 1
    decreases n - LowestUnchecked(done, n, 0)
  {
    var a := LowestUnchecked(done, n, 0);
    if a == n then []
    else
      ReachableRefl(adj, a);
      var c := Circuit(adj, n, a);
      assert a in c;
      assert LowestUnchecked(done + c, n, 0) > a by {
        LowestAbove(done, c, n, a);
      }
      [|c|] + CircuitSizes(adj, n, done + c)
  }

  /** One step of `CircuitSizes`. */
  lemma CircuitSizesStep(adj: seq<seq<bool>>, n: nat, done: set<nat>)
    requires IsMatrix(adj, n) && LowestUnchecked(done, n, 0) < n
    ensures var a := LowestUnchecked(done, n, 0);
            CircuitSizes(adj, n, done) == [|Circuit(adj, n, a)|] + CircuitSizes(adj, n, done + Circuit(adj, n, a))
  {
  }

  /** `CircuitSizes` once every box is done. */
  lemma CircuitSizesAllDone(adj: seq<seq<bool>>, n: nat, done: set<nat>)
    requires IsMatrix(adj, n) && LowestUnchecked(done, n, 0) == n
    ensures CircuitSizes(adj, n, done) == []
  {
  }

  lemma LowestAbove(done: set<nat>, more: set<nat>, n: nat, a: nat)
    requires a < n && a == LowestUnchecked(done, n, 0) && a in more
    ensures LowestUnchecked(done + more, n, 0) > a
  {
  }

  /** The boxes `0 .. n - 1`. */
  function Range(n: nat): (r: set<nat>)
    ensures forall a: nat :: a in r <==> a < n
    ensures |r| == n
  {
    if n == 0 then {} else
      var below := Range(n - 1);
      assert n - 1 !in below;
      below + {n - 1}
  }

  /** The circuit sizes add up to the number of boxes not yet done: every
      box lands in exactly one circuit. */
  lemma {:induction false} CircuitSizesSum(adj: seq<seq<bool>>, n: nat, done: set<nat>)
    requires IsMatrix(adj, n) && Symmetric(adj) && Closed(adj, done)
    ensures Day06Part1.Sum(CircuitSizes(adj, n, done)) == |Range(n) - done|
    decreases n - LowestUnchecked(done, n, 0)
  {
    var a := LowestUnchecked(done, n, 0);
    if a == n {
      assert Range(n) - done == {};
    } else {
      ReachableRefl(adj, a);
      var c := Circuit(adj, n, a);
      LowestAbove(done, c, n, a);
      CircuitClosed(adj, n, a);
      CircuitOutside(adj, n, done, a);
      CircuitSizesStep(adj, n, done);
      CircuitSizesSum(adj, n, done + c);
      SumCons(|c|, CircuitSizes(adj, n, done + c));
      CardSplit(Range(n), done, c);
    }
  }

  /** Taking a part `c` disjoint from `done` out of what is left of `all`. */
  lemma CardSplit(all: set<nat>, done: set<nat>, c: set<nat>)
    requires c <= all && c * done == {}
    ensures |all - done| == |c| + |all - (done + c)|
  {
    forall x ensures x in all - done <==> x in c + (all - (done + c)) {
      if x in c { assert x !in c * done; }
    }
    assert all - done == c + (all - (done + c));
    assert c * (all - (done + c)) == {};
  }

  /** Box `a` is the lowest of its circuit. */
  ghost predicate Lowest(adj: seq<seq<bool>>, a: nat)
  {
    forall b: nat :: b < a ==> !Reachable(adj, a, b)
  }

  /** The boxes below `n`, not done, that are the lowest of their circuit. */
  ghost function Leaders(adj: seq<seq<bool>>, n: nat, done: set<nat>): set<nat>
  {
    set a: nat | a < n && a !in done && Lowest(adj, a)
  }

  /** The leaders not done: the lowest box not done, and those left once
      its circuit is done too. */
  lemma LeadersStep(adj: seq<seq<bool>>, n: nat, done: set<nat>)
    requires IsMatrix(adj, n) && Symmetric(adj) && Closed(adj, done)
    requires LowestUnchecked(done, n, 0) < n
    ensures var a := LowestUnchecked(done, n, 0);
            var rest := Leaders(adj, n, done + Circuit(adj, n, a));
            Leaders(adj, n, done) == rest + {a} && a !in rest
  {
    var a := LowestUnchecked(done, n, 0);
    var c := Circuit(adj, n, a);
    ReachableRefl(adj, a);
    CircuitOutside(adj, n, done, a);
    assert Lowest(adj, a) by {
      forall b: nat | b < a
        ensures !Reachable(adj, a, b)
      {
        assert b in done;
        assert b !in c * done;
      }
    }
    forall x | x in c && x != a
      ensures x !in Leaders(adj, n, done)
    {
      assert x !in c * done;
      assert a < x;
      ReachableSymmetric(adj, a, x);
      assert Reachable(adj, x, a);
    }
  }

  /** With symmetric connections there is one circuit per leader: the
      number of circuits is the number of boxes that are the lowest of their
      circuit. */
  lemma {:induction false} CircuitSizesCount(adj: seq<seq<bool>>, n: nat, done: set<nat>)
    requires IsMatrix(adj, n) && Symmetric(adj) && Closed(adj, done)
    ensures |CircuitSizes(adj, n, done)| == |Leaders(adj, n, done)|
    decreases n - LowestUnchecked(done, n, 0)
  {
    var a := LowestUnchecked(done, n, 0);
    if a == n {
      assert Leaders(adj, n, done) == {};
    } else {
      ReachableRefl(adj, a);
      var c := Circuit(adj, n, a);
      CircuitSizesStep(adj, n, done);
      LowestAbove(done, c, n, a);
      CircuitClosed(adj, n, a);
      CircuitSizesCount(adj, n, done + c);
      LeadersStep(adj, n, done);
    }
  }

  /* Sums and sorting. */

  lemma ConcatAssoc(a: seq<nat>, b: seq<nat>, c: seq<nat>)
    ensures (a + b) + c == a + (b + c)
  {
  }

  lemma SumCons(x: nat, xs: seq<nat>)
    ensures Day06Part1.Sum([x] + xs) == x + Day06Part1.Sum(xs)
  {
    SumConcat([x], xs);
  }

  lemma {:induction false} SumConcat(xs: seq<nat>, ys: seq<nat>)
    ensures Day06Part1.Sum(xs + ys) == Day06Part1.Sum(xs) + Day06Part1.Sum(ys)
    decreases |ys|
  {
    if |ys| > 0 {
      var init := ys[..|ys| - 1];
      SumConcat(xs, init);
      assert (xs + ys)[..|xs + ys| - 1] == xs + init;
      assert (xs + ys)[|xs + ys| - 1] == ys[|ys| - 1];
      assert Day06Part1.Sum(ys) == Day06Part1.Sum(init) + ys[|ys| - 1];
    } else {
      assert xs + ys == xs;
    }
  }

  /** Reordering does not change a sum. */
  lemma {:induction false} SumPermutation(xs: seq<nat>, ys: seq<nat>)
    requires multiset(xs) == multiset(ys)
    ensures Day06Part1.Sum(xs) == Day06Part1.Sum(ys)
    decreases |xs|
  {
    if |xs| > 0 {
      var x := xs[|xs| - 1];
      assert x in multiset(ys);
      var i :| 0 <= i < |ys| && ys[i] == x;
      var rest := ys[..i] + ys[i + 1..];
      assert ys == ys[..i] + [x] + ys[i + 1..];
      assert xs == xs[..|xs| - 1] + [x];
      assert multiset(xs) == multiset(xs[..|xs| - 1]) + multiset{x};
      assert multiset(ys) == multiset(ys[..i]) + multiset{x} + multiset(ys[i + 1..]);
      assert multiset(rest) == multiset(ys[..i]) + multiset(ys[i + 1..]);
      assert multiset(xs[..|xs| - 1]) == multiset(xs) - multiset{x};
      assert multiset(rest) == multiset(ys) - multiset{x};
      SumPermutation(xs[..|xs| - 1], rest);
      SumConcat(ys[..i] + [x], ys[i + 1..]);
      SumConcat(ys[..i], [x]);
      SumConcat(ys[..i], ys[i + 1..]);
    }
  }

  predicate Ascending(xs: seq<nat>)
  {
    forall i, j :: 0 <= i < j < |xs| ==> xs[i] <= xs[j]
  }

  predicate Descending(xs: seq<nat>)
  {
    forall i, j :: 0 <= i < j < |xs| ==> xs[i] >= xs[j]
  }

  function Insert(x: nat, xs: seq<nat>): (r: seq<nat>)
    requires Ascending(xs)
    ensures Ascending(r) && multiset(r) == multiset{x} + multiset(xs)
  {
    if |xs| == 0 || x <= xs[0] then [x] + xs
    else
      var rest := Insert(x, xs[1..]);
      InsertBehindHead(x, xs, rest);
      [xs[0]] + rest
  }

  /** Putting the head of `xs` in front of `x` inserted into its tail
      gives an ascending permutation of `x` and `xs`. */
  lemma InsertBehindHead(x: nat, xs: seq<nat>, rest: seq<nat>)
    requires Ascending(xs) && |xs| > 0 && xs[0] < x
    requires Ascending(rest) && multiset(rest) == multiset{x} + multiset(xs[1..])
    ensures Ascending([xs[0]] + rest) && multiset([xs[0]] + rest) == multiset{x} + multiset(xs)
  {
    assert xs == [xs[0]] + xs[1..];
    var r := [xs[0]] + rest;
    forall j | 0 <= j < |rest|
      ensures xs[0] <= rest[j]
    {
      assert rest[j] in multiset(rest);
      if rest[j] != x {
        assert rest[j] in xs[1..];
      }
    }
    forall i, j | 0 <= i < j < |r|
      ensures r[i] <= r[j]
    {
      assert r[j] == rest[j - 1];
      if i > 0 {
        assert r[i] == rest[i - 1];
      }
    }
  }

  /** `sort_unstable`: the sizes in ascending order, as a permutation. */
  function SortAscending(xs: seq<nat>): (r: seq<nat>)
    ensures Ascending(r) && multiset(r) == multiset(xs)
  {
    if |xs| == 0 then []
    else
      assert xs == [xs[0]] + xs[1..];
      Insert(xs[0], SortAscending(xs[1..]))
  }

  /** `reverse`: the sizes back to front. */
  function Reverse(xs: seq<nat>): (r: seq<nat>)
    ensures |r| == |xs| && forall k :: 0 <= k < |xs| ==> r[k] == xs[|xs| - 1 - k]
  {
    if |xs| == 0 then [] else [xs[|xs| - 1]] + Reverse(xs[..|xs| - 1])
  }

  /** Reversing an ascending sequence gives a descending permutation of
      it. */
  lemma ReverseAscending(xs: seq<nat>)
    requires Ascending(xs)
    ensures Descending(Reverse(xs)) && multiset(Reverse(xs)) == multiset(xs)
  {
    var r := Reverse(xs);
    assert forall i, j :: 0 <= i < j < |r| ==> r[i] == xs[|xs| - 1 - i] && r[j] == xs[|xs| - 1 - j];
    ReverseMultiset(xs);
  }

  lemma {:induction false} ReverseMultiset(xs: seq<nat>)
    ensures multiset(Reverse(xs)) == multiset(xs)
  {
    if |xs| > 0 {
      ReverseMultiset(xs[..|xs| - 1]);
      assert xs == xs[..|xs| - 1] + [xs[|xs| - 1]];
    }
  }

  /** The sizes `extract_circuit_sizes` returns: the circuit sizes, largest
      first. */
  ghost function SortedCircuitSizes(adj: seq<seq<bool>>, n: nat): (sizes: seq<nat>)
    requires IsMatrix(adj, n)
  {
    Reverse(SortAscending(CircuitSizes(adj, n, {})))
  }

  /** The returned sizes are in descending order, each at least one, and
      add up to the number of boxes. */
  lemma SortedCircuitSizesSum(adj: seq<seq<bool>>, n: nat)
    requires IsMatrix(adj, n) && Symmetric(adj)
    ensures Descending(SortedCircuitSizes(adj, n))
    ensures forall k :: 0 <= k < |SortedCircuitSizes(adj, n)| ==> SortedCircuitSizes(adj, n)[k] >= 1
    ensures Day06Part1.Sum(SortedCircuitSizes(adj, n)) == n
  {
    var unsorted := CircuitSizes(adj, n, {});
    var sorted := SortAscending(unsorted);
    ReverseAscending(sorted);
    CircuitSizesSum(adj, n, {});
    assert Range(n) - {} == Range(n);
    SumPermutation(unsorted, Reverse(sorted));
    PositivePermutation(unsorted, Reverse(sorted));
  }

  /** Reordering keeps every entry at least one. */
  lemma PositivePermutation(xs: seq<nat>, ys: seq<nat>)
    requires multiset(xs) == multiset(ys) && forall k :: 0 <= k < |xs| ==> xs[k] >= 1
    ensures forall k :: 0 <= k < |ys| ==> ys[k] >= 1
  {
    forall k | 0 <= k < |ys|
      ensures ys[k] >= 1
    {
      assert ys[k] in multiset(xs);
    }
  }

  /* `extract_circuit_sizes`. */

  /** The matrix holds `adj`. */
  predicate Holds(matrix: array2<bool>, adj: seq<seq<bool>>)
    reads matrix
  {
    && matrix.Length1 == matrix.Length0
    && IsMatrix(adj, matrix.Length0)
    && forall i, j :: 0 <= i < matrix.Length0 && 0 <= j < matrix.Length0 ==> matrix[i, j] == adj[i][j]
  }

  /** No box appears twice. */
  predicate Distinct(xs: seq<nat>)
  {
    forall p, q :: 0 <= p < q < |xs| ==> xs[p] != xs[q]
  }

  function Elems(xs: seq<nat>): set<nat>
  {
    set x | x in xs
  }

  /** A list of distinct boxes is as long as the set of its boxes. */
  lemma {:induction false} DistinctCard(xs: seq<nat>)
    requires Distinct(xs)
    ensures |Elems(xs)| == |xs|
  {
    if |xs| > 0 {
      var init := xs[..|xs| - 1];
      DistinctCard(init);
      assert Elems(xs) == Elems(init) + {xs[|xs| - 1]};
    }
  }

  /** Distinct boxes below `n` number at most `n`. */
  lemma DistinctBounded(xs: seq<nat>, n: nat)
    requires Distinct(xs) && forall k :: 0 <= k < |xs| ==> xs[k] < n
    ensures |xs| <= n
  {
    DistinctCard(xs);
    var r := Range(n);
    assert r == Elems(xs) + (r - Elems(xs));
  }

  /** The `while` condition of `extract_circuit_sizes` and its `next_idx`:
      the lowest unchecked box, or the number of boxes when every box is
      checked. */
  method NextUnchecked(checked: array<bool>) returns (r: nat)
    ensures r <= checked.Length
    ensures forall j :: 0 <= j < r ==> checked[j]
    ensures r < checked.Length ==> !checked[r]
  {
    r := 0;
    while r < checked.Length && checked[r]
      invariant r <= checked.Length && forall j :: 0 <= j < r ==> checked[j]
    {
      r := r + 1;
    }
  }

  /** The inner loop of `extract_circuit_sizes`: from `start`, append each
      box connected to a listed box and not yet listed, scanning the row of
      every listed box in turn. The list ends as the circuit of `start`,
      each box once. */
  method CollectCircuit(matrix: array2<bool>, ghost adj: seq<seq<bool>>, start: nat) returns (circuitIdxs: seq<nat>)
    requires Holds(matrix, adj) && start < matrix.Length0
    ensures |circuitIdxs| >= 1 && circuitIdxs[0] == start && Distinct(circuitIdxs)
    ensures forall k :: 0 <= k < |circuitIdxs| ==> circuitIdxs[k] < matrix.Length0
    ensures Elems(circuitIdxs) == Circuit(adj, matrix.Length0, start)
  {
    var n := matrix.Length0;
    circuitIdxs := [start];
    ReachableRefl(adj, start);
    var idx := 0;
    while idx < |circuitIdxs|
      invariant 0 <= idx <= |circuitIdxs| <= n
      invariant circuitIdxs[0] == start && Distinct(circuitIdxs)
      invariant forall k :: 0 <= k < |circuitIdxs| ==> circuitIdxs[k] < n && Reachable(adj, start, circuitIdxs[k])
      invariant forall k, y :: 0 <= k < idx && Linked(adj, circuitIdxs[k], y) ==> y in circuitIdxs
      decreases n - |circuitIdxs|, |circuitIdxs| - idx
    {
      var row := circuitIdxs[idx];
      ghost var before := |circuitIdxs|;
      for i := 0 to n
        invariant before <= |circuitIdxs| <= n && idx < |circuitIdxs| && circuitIdxs[idx] == row
        invariant circuitIdxs[0] == start && Distinct(circuitIdxs)
        invariant forall k :: 0 <= k < |circuitIdxs| ==> circuitIdxs[k] < n && Reachable(adj, start, circuitIdxs[k])
        invariant forall k, y :: 0 <= k < idx && Linked(adj, circuitIdxs[k], y) ==> y in circuitIdxs
        invariant forall y :: 0 <= y < i && Linked(adj, row, y) ==> y in circuitIdxs
      {
        if matrix[row, i] && i !in circuitIdxs {
          ReachableStep(adj, start, row, i);
          circuitIdxs := circuitIdxs + [i];
          DistinctBounded(circuitIdxs, n);
        }
      }
      idx := idx + 1;
    }
    ghost var s := Elems(circuitIdxs);
    assert Closed(adj, s) by {
      forall a, b | a in s && Linked(adj, a, b)
        ensures b in s
      {
        var k :| 0 <= k < |circuitIdxs| && circuitIdxs[k] == a;
      }
    }
    ClosedContainsCircuit(adj, n, s, start);
  }

  /** `circuit_idxs.iter().for_each(|i| checked[*i] = true)`. */
  method MarkChecked(checked: array<bool>, circuitIdxs: seq<nat>)
    requires forall k :: 0 <= k < |circuitIdxs| ==> circuitIdxs[k] < checked.Length
    modifies checked
    ensures forall i :: 0 <= i < checked.Length ==> checked[i] == (old(checked[i]) || i in circuitIdxs)
  {
    for k := 0 to |circuitIdxs|
      invariant forall i :: 0 <= i < checked.Length ==> checked[i] == (old(checked[i]) || i in circuitIdxs[..k])
    {
      assert circuitIdxs[..k + 1] == circuitIdxs[..k] + [circuitIdxs[k]];
      checked[circuitIdxs[k]] := true;
    }
    assert circuitIdxs[..|circuitIdxs|] == circuitIdxs;
  }

  /** One turn of the outer loop of `extract_circuit_sizes`: the sizes
      found so far, then those of the circuit of the lowest unchecked box
      and of the boxes left. */
  lemma ExtractStep(adj: seq<seq<bool>>, n: nat, done: set<nat>, sizes: seq<nat>)
    requires IsMatrix(adj, n) && LowestUnchecked(done, n, 0) < n
    requires sizes + CircuitSizes(adj, n, done) == CircuitSizes(adj, n, {})
    ensures var a := LowestUnchecked(done, n, 0);
            var c := Circuit(adj, n, a);
            && (sizes + [|c|]) + CircuitSizes(adj, n, done + c) == CircuitSizes(adj, n, {})
            && LowestUnchecked(done + c, n, 0) > a
  {
    var a := LowestUnchecked(done, n, 0);
    var c := Circuit(adj, n, a);
    ReachableRefl(adj, a);
    CircuitSizesStep(adj, n, done);
    ConcatAssoc(sizes, [|c|], CircuitSizes(adj, n, done + c));
    LowestAbove(done, c, n, a);
  }

  /** `extract_circuit_sizes`: while some box is unchecked, collect the
      circuit of the lowest one, check its boxes and record its size; then
      sort the sizes, largest first. */
  method ExtractCircuitSizes(matrix: array2<bool>, ghost adj: seq<seq<bool>>) returns (circuitSizes: seq<nat>)
    requires Holds(matrix, adj)
    ensures circuitSizes == SortedCircuitSizes(adj, matrix.Length0)
  {
    var n := matrix.Length0;
    var checked := new bool[n](i => false);
    ghost var done: set<nat> := {};
    var sizes: seq<nat> := [];
    var next := NextUnchecked(checked);
    NextIsLowest(checked[..], done, next);
    while next < n
      invariant checked.Length == n
      invariant CheckedExactly(checked[..], done)
      invariant next == LowestUnchecked(done, n, 0)
      invariant sizes + CircuitSizes(adj, n, done) == CircuitSizes(adj, n, {})
      decreases n - next
    {
      var circuitIdxs := CollectCircuit(matrix, adj, next);
      ghost var c := Circuit(adj, n, next);
      DistinctCard(circuitIdxs);
      ExtractStep(adj, n, done, sizes);
      ghost var before := checked[..];
      MarkChecked(checked, circuitIdxs);
      MarkedAreDone(before, checked[..], done, circuitIdxs);
      var size: nat := |circuitIdxs|;
      sizes := sizes + [size];
      done := done + c;
      next := NextUnchecked(checked);
      NextIsLowest(checked[..], done, next);
    }
    CircuitSizesAllDone(adj, n, done);
    assert sizes + [] == sizes;
    circuitSizes := Reverse(SortAscending(sizes));
  }

  /* The whole computation. */

  /** `calculate_result` does not panic: every line is a box, the pairs
      are an ordering of all pairs of boxes, and the first `nConnections`
      of them name boxes inside the `nBoxes` by `nBoxes` matrix. More
      lines than `nBoxes` are accepted as long as those pairs stay
      inside. */
  predicate ValidInput(lines: seq<string>, pairsSorted: seq<(nat, nat)>, nBoxes: nat, nConnections: nat)
  {
    && LinesParse(lines)
    && multiset(pairsSorted) == multiset(Combinations(|lines|))
    && PairsInside(pairsSorted, nConnections, nBoxes)
  }

  /** With at most `nBoxes` lines every pair of boxes lies inside the
      matrix, however many connections are taken. */
  lemma FewBoxesInside(lines: seq<string>, pairsSorted: seq<(nat, nat)>, nBoxes: nat, nConnections: nat)
    requires multiset(pairsSorted) == multiset(Combinations(|lines|)) && |lines| <= nBoxes
    ensures PairsInside(pairsSorted, nConnections, nBoxes)
  {
    CombinationsInside(pairsSorted, |lines|);
  }

  /** The first `k` entries, or all of them when there are fewer. */
  function Take(xs: seq<nat>, k: nat): (r: seq<nat>)
    ensures |r| <= k && |r| <= |xs| && r == xs[..|r|] && (|r| == k || r == xs)
  {
    if |xs| <= k then xs else xs[..k]
  }

  /** `calculate_result`: the product of the three largest circuit sizes
      once the first `nConnections` pairs are connected. */
  method CalculateResult(lines: seq<string>, pairsSorted: seq<(nat, nat)>, nBoxes: nat, nConnections: nat)
    returns (total: nat)
    requires ValidInput(lines, pairsSorted, nBoxes, nConnections)
    ensures total == Day06Part1.Product(Take(SortedCircuitSizes(ConnectionRows(pairsSorted, nConnections, nBoxes), nBoxes),
                                             N_LARGEST_CIRCUITS))
  {
    var junctionBoxes := Boxes(lines);
    var matrix := BuildConnectionMatrix(pairsSorted, nConnections, nBoxes);
    ghost var adj := ConnectionRows(pairsSorted, nConnections, nBoxes);
    var circuitSizes := ExtractCircuitSizes(matrix, adj);
    total := Day06Part1.Product(Take(circuitSizes, N_LARGEST_CIRCUITS));
  }
}
