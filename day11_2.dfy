/**
 * Day 11, part 2 (src/bin/day_11_2.rs): count the paths from the server
 * `svr` to the reactor `out` that pass both `dac` and `fft`, as the sum over
 * the two orders of the products of the three leg counts. Each leg counts
 * the paths from a start device to an end device that avoid a set of
 * forbidden devices, memoised in a fresh cache.
 *
 * As in part 1, a ghost `rank` stands for the acyclic device graph the
 * recursion needs.
 */
module Day11Part2 {
  import opened Strings
  import P1 = Day11Part1

  /* Parsing. */

  /** All lines' connections, a later line with the same label replacing
      an earlier one. */
  function ConnectionsFrom(lines: seq<string>, n: nat): map<string, seq<string>>
    requires P1.LinesParse(lines) && n <= |lines|
  {
    if n == 0 then map[]
    else ConnectionsFrom(lines, n - 1)[P1.Label(lines[n - 1]) := P1.ConnectionLabels(lines[n - 1])]
  }

  /** All lines' connections, and `out` with none. */
  function Connections(lines: seq<string>): map<string, seq<string>>
    requires P1.LinesParse(lines)
  {
    ConnectionsFrom(lines, |lines|)["out" := []]
  }

  /** `parse_connections`: insert every line's connections, then `out`
      without any. */
  method ParseConnections(lines: seq<string>) returns (devices: map<string, seq<string>>)
    requires P1.LinesParse(lines)
    ensures devices == Connections(lines)
  {
    devices := map[];
    for i := 0 to |lines|
      invariant devices == ConnectionsFrom(lines, i)
    {
      var line := lines[i];
      var deviceLabel := line[..3];
      var connectionLabelsSingle := Split(line[5..], ' ');
      devices := devices[deviceLabel := connectionLabelsSingle];
    }
    devices := devices["out" := []];
  }

  /** The parsed connections agree with part 1's devices: the same labels,
      the same connections, and `out` without any. */
  lemma {:induction false} ConnectionsFromDevices(lines: seq<string>, n: nat)
    requires P1.LinesParse(lines) && n <= |lines|
    ensures ConnectionsFrom(lines, n).Keys == P1.DevicesFrom(lines, n).Keys
    ensures forall l :: l in ConnectionsFrom(lines, n) ==>
              ConnectionsFrom(lines, n)[l] == P1.DevicesFrom(lines, n)[l].connections
  {
    if n > 0 {
      ConnectionsFromDevices(lines, n - 1);
    }
  }

  lemma ConnectionsMatchDevices(lines: seq<string>)
    requires P1.LinesParse(lines)
    ensures Connections(lines).Keys == P1.Devices(lines).Keys
    ensures forall l :: l in Connections(lines) ==> Connections(lines)[l] == P1.Devices(lines)[l].connections
    ensures Connections(lines)["out"] == []
  {
    ConnectionsFromDevices(lines, |lines|);
  }

  /* Counting paths. */

  /** From `start` the count towards `end` is defined and does not panic:
      the device exists, and every connection that is neither `end` nor
      forbidden leads to a device of smaller rank that is itself
      countable. */
  ghost predicate Countable(devices: map<string, seq<string>>, rank: map<string, nat>, start: string, end: string,
                            forbidden: set<string>)
    decreases if start in rank then rank[start] else 0
  {
    && start in devices && start in rank
    && forall k :: 0 <= k < |devices[start]| ==>
         var next := devices[start][k];
         next == end || next in forbidden || (next in rank && rank[next] < rank[start] && Countable(devices, rank, next, end, forbidden))
  }

  /** The paths from `start` to `end` that avoid the forbidden devices. */
  ghost function Paths(devices: map<string, seq<string>>, rank: map<string, nat>, start: string, end: string,
                       forbidden: set<string>): nat
    requires Countable(devices, rank, start, end, forbidden)
    decreases rank[start], 1
  {
    PathsVia(devices, rank, start, end, forbidden, |devices[start]|)
  }

  /** The same, through the first `k` connections of `start`: one for a
      connection to `end`, none for a forbidden one, and the paths onward
      from any other. */
  ghost function PathsVia(devices: map<string, seq<string>>, rank: map<string, nat>, start: string, end: string,
                          forbidden: set<string>, k: nat): nat
    requires Countable(devices, rank, start, end, forbidden) && k <= |devices[start]|
    decreases rank[start], 0, k
  {
    if k == 0 then 0
    else
      var next := devices[start][k - 1];
      PathsVia(devices, rank, start, end, forbidden, k - 1)
        + (if next == end then 1 else if next in forbidden then 0 else Paths(devices, rank, next, end, forbidden))
  }

  /** Every cached count is the number of paths from its device. */
  ghost predicate CacheValid(devices: map<string, seq<string>>, rank: map<string, nat>, end: string,
                             forbidden: set<string>, cache: map<string, nat>)
  {
    forall l :: l in cache ==> Countable(devices, rank, l, end, forbidden) && cache[l] == Paths(devices, rank, l, end, forbidden)
  }

  /** `count_paths_inner`: a cached count is returned at once; otherwise
      the count is summed over the connections, one for `end` (checked
      first), none for a forbidden device and the count onward for any
      other, and cached. */
  method CountPathsInner(startLabel: string, endLabel: string, forbiddenLabels: set<string>,
                         devices: map<string, seq<string>>, ghost rank: map<string, nat>, cache: map<string, nat>)
    returns (nPaths: nat, cacheOut: map<string, nat>)
    requires Countable(devices, rank, startLabel, endLabel, forbiddenLabels)
    requires CacheValid(devices, rank, endLabel, forbiddenLabels, cache)
    ensures CacheValid(devices, rank, endLabel, forbiddenLabels, cacheOut) && cache.Keys <= cacheOut.Keys
    ensures nPaths == Paths(devices, rank, startLabel, endLabel, forbiddenLabels)
    ensures startLabel in cacheOut && cacheOut[startLabel] == nPaths
    decreases rank[startLabel]
  {
    if startLabel in cache {
      return cache[startLabel], cache;
    }
    var nextDeviceLabels := devices[startLabel];
    nPaths, cacheOut := 0, cache;
    for k := 0 to |nextDeviceLabels|
      invariant CacheValid(devices, rank, endLabel, forbiddenLabels, cacheOut) && cache.Keys <= cacheOut.Keys
      invariant nPaths == PathsVia(devices, rank, startLabel, endLabel, forbiddenLabels, k)
    {
      var deviceLabel := nextDeviceLabels[k];
      if deviceLabel == endLabel {
        nPaths := nPaths + 1;
      } else if deviceLabel in forbiddenLabels {
      } else {
        var n;
        n, cacheOut := CountPathsInner(deviceLabel, endLabel, forbiddenLabels, devices, rank, cacheOut);
        nPaths := nPaths + n;
      }
    }
    cacheOut := cacheOut[startLabel := nPaths];
  }

  /** `count_paths`: the paths from `startLabel` to `endLabel` avoiding the
      forbidden devices, counted with an empty cache. */
  method CountPaths(startLabel: string, endLabel: string, forbiddenLabels: set<string>,
                    devices: map<string, seq<string>>, ghost rank: map<string, nat>)
    returns (result: nat)
    requires Countable(devices, rank, startLabel, endLabel, forbiddenLabels)
    ensures result == Paths(devices, rank, startLabel, endLabel, forbiddenLabels)
  {
    var cache: map<string, nat> := map[];
    result, cache := CountPathsInner(startLabel, endLabel, forbiddenLabels, devices, rank, cache);
  }

  /* The paths themselves. */

  /** `route` picks, one device after another from `start`, which
      connection to follow; it ends on reaching `end` and never enters a
      forbidden device. */
  ghost predicate IsRoute(devices: map<string, seq<string>>, start: string, end: string, forbidden: set<string>,
                          route: seq<nat>)
    decreases |route|
  {
    && start in devices && |route| >= 1 && route[0] < |devices[start]|
    && var next := devices[start][route[0]];
       if next == end then |route| == 1 else next !in forbidden && IsRoute(devices, next, end, forbidden, route[1..])
  }

  /** A route never looks at the connections of `end`: paths stop there. */
  lemma {:induction false} RoutesStopAtEnd(devices: map<string, seq<string>>, start: string, end: string,
                                           forbidden: set<string>, route: seq<nat>, endConnections: seq<string>)
    requires start != end
    ensures IsRoute(devices, start, end, forbidden, route) <==>
            IsRoute(devices[end := endConnections], start, end, forbidden, route)
    decreases |route|
  {
    var devices' := devices[end := endConnections];
    if start in devices && |route| >= 1 && route[0] < |devices[start]| {
      var next := devices[start][route[0]];
      assert devices'[start] == devices[start];
      if next != end {
        RoutesStopAtEnd(devices, next, end, forbidden, route[1..], endConnections);
      }
    }
  }

  /** The routes from `start`, built along the recursion. */
  ghost function Routes(devices: map<string, seq<string>>, rank: map<string, nat>, start: string, end: string,
                        forbidden: set<string>): set<seq<nat>>
    requires Countable(devices, rank, start, end, forbidden)
    decreases rank[start], 1
  {
    RoutesVia(devices, rank, start, end, forbidden, |devices[start]|)
  }

  /** The routes from `start` whose first choice is below `k`. */
  ghost function RoutesVia(devices: map<string, seq<string>>, rank: map<string, nat>, start: string, end: string,
                           forbidden: set<string>, k: nat): set<seq<nat>>
    requires Countable(devices, rank, start, end, forbidden) && k <= |devices[start]|
    decreases rank[start], 0, k
  {
    if k == 0 then {}
    else
      var next := devices[start][k - 1];
      RoutesVia(devices, rank, start, end, forbidden, k - 1) + RoutesAt(devices, rank, start, end, forbidden, k - 1)
  }

  /** The routes from `start` whose first choice is `k`. */
  ghost function RoutesAt(devices: map<string, seq<string>>, rank: map<string, nat>, start: string, end: string,
                          forbidden: set<string>, k: nat): set<seq<nat>>
    requires Countable(devices, rank, start, end, forbidden) && k < |devices[start]|
    decreases rank[start], 0, k
  {
    var next := devices[start][k];
    if next == end then {[k]}
    else if next in forbidden then {}
    else P1.Prefixed(k, Routes(devices, rank, next, end, forbidden))
  }

  lemma {:induction false} RoutesViaMembers(devices: map<string, seq<string>>, rank: map<string, nat>, start: string,
                                            end: string, forbidden: set<string>, k: nat, route: seq<nat>)
    requires Countable(devices, rank, start, end, forbidden) && k <= |devices[start]|
    ensures route in RoutesVia(devices, rank, start, end, forbidden, k) <==>
            IsRoute(devices, start, end, forbidden, route) && route[0] < k
    decreases rank[start], 0, k
  {
    if k > 0 {
      var next := devices[start][k - 1];
      RoutesViaMembers(devices, rank, start, end, forbidden, k - 1, route);
      if next == end {
        if route == [k - 1] {
          assert IsRoute(devices, start, end, forbidden, route);
        }
      } else if next !in forbidden {
        P1.PrefixedMembers(k - 1, Routes(devices, rank, next, end, forbidden), route);
        if |route| >= 1 {
          RoutesMembers(devices, rank, next, end, forbidden, route[1..]);
        }
      }
    }
  }

  /** The constructed routes are exactly the routes from `start` to
      `end`. */
  lemma {:induction false} RoutesMembers(devices: map<string, seq<string>>, rank: map<string, nat>, start: string,
                                         end: string, forbidden: set<string>, route: seq<nat>)
    requires Countable(devices, rank, start, end, forbidden)
    ensures route in Routes(devices, rank, start, end, forbidden) <==> IsRoute(devices, start, end, forbidden, route)
    decreases rank[start], 1
  {
    RoutesViaMembers(devices, rank, start, end, forbidden, |devices[start]|, route);
  }

  /** The routes through connection `k` all start with `k`. */
  lemma RoutesAtFirst(devices: map<string, seq<string>>, rank: map<string, nat>, start: string,
                      end: string, forbidden: set<string>, k: nat)
    requires Countable(devices, rank, start, end, forbidden) && k < |devices[start]|
    ensures forall r :: r in RoutesAt(devices, rank, start, end, forbidden, k) ==> |r| >= 1 && r[0] == k
  {
    var next := devices[start][k];
    if next != end && next !in forbidden {
      var routes := Routes(devices, rank, next, end, forbidden);
      forall r | r in P1.Prefixed(k, routes)
        ensures |r| >= 1 && r[0] == k
      {
        P1.PrefixedMembers(k, routes, r);
      }
    }
  }

  lemma {:induction false} RoutesViaFirst(devices: map<string, seq<string>>, rank: map<string, nat>, start: string,
                                          end: string, forbidden: set<string>, k: nat)
    requires Countable(devices, rank, start, end, forbidden) && k <= |devices[start]|
    ensures forall r :: r in RoutesVia(devices, rank, start, end, forbidden, k) ==> |r| >= 1 && r[0] < k
  {
    if k > 0 {
      RoutesViaFirst(devices, rank, start, end, forbidden, k - 1);
      RoutesAtFirst(devices, rank, start, end, forbidden, k - 1);
    }
  }

  /** The routes through connection `k` are as many as the paths it
      contributes. */
  lemma {:induction false} RoutesAtCount(devices: map<string, seq<string>>, rank: map<string, nat>, start: string,
                                         end: string, forbidden: set<string>, k: nat)
    requires Countable(devices, rank, start, end, forbidden) && k < |devices[start]|
    ensures |RoutesAt(devices, rank, start, end, forbidden, k)| == PathsVia(devices, rank, start, end, forbidden, k + 1)
                                                                  - PathsVia(devices, rank, start, end, forbidden, k)
    decreases rank[start], 0, k
  {
    var next := devices[start][k];
    if next != end && next !in forbidden {
      RoutesCount(devices, rank, next, end, forbidden);
      P1.PrefixedCount(k, Routes(devices, rank, next, end, forbidden));
    }
  }

  lemma {:induction false} RoutesViaCount(devices: map<string, seq<string>>, rank: map<string, nat>, start: string,
                                          end: string, forbidden: set<string>, k: nat)
    requires Countable(devices, rank, start, end, forbidden) && k <= |devices[start]|
    ensures |RoutesVia(devices, rank, start, end, forbidden, k)| == PathsVia(devices, rank, start, end, forbidden, k)
    decreases rank[start], 0, k
  {
    if k > 0 {
      var earlier := RoutesVia(devices, rank, start, end, forbidden, k - 1);
      var latest := RoutesAt(devices, rank, start, end, forbidden, k - 1);
      RoutesViaCount(devices, rank, start, end, forbidden, k - 1);
      RoutesAtCount(devices, rank, start, end, forbidden, k - 1);
      RoutesViaFirst(devices, rank, start, end, forbidden, k - 1);
      RoutesAtFirst(devices, rank, start, end, forbidden, k - 1);
      P1.DisjointCount(earlier, latest);
    }
  }

  /** The memoised count is the number of routes from `start` to `end`
      that avoid the forbidden devices. */
  lemma {:induction false} RoutesCount(devices: map<string, seq<string>>, rank: map<string, nat>, start: string,
                                       end: string, forbidden: set<string>)
    requires Countable(devices, rank, start, end, forbidden)
    ensures |Routes(devices, rank, start, end, forbidden)| == Paths(devices, rank, start, end, forbidden)
    decreases rank[start], 1
  {
    RoutesViaCount(devices, rank, start, end, forbidden, |devices[start]|);
  }

  /* The answer. */

  /** `calculate_result` does not panic: the lines slice and each of the
      six legs is countable under `rank`. */
  ghost predicate ValidInput(lines: seq<string>, rank: map<string, nat>)
  {
    && P1.LinesParse(lines)
    && var d := Connections(lines);
       && Countable(d, rank, "svr", "fft", {"dac", "out"})
       && Countable(d, rank, "fft", "dac", {"svr", "out"})
       && Countable(d, rank, "dac", "out", {"svr", "fft"})
       && Countable(d, rank, "svr", "dac", {"fft", "out"})
       && Countable(d, rank, "dac", "fft", {"svr", "out"})
       && Countable(d, rank, "fft", "out", {"svr", "dac"})
  }

  /** `calculate_result`: the paths `svr` → `fft` → `dac` → `out` plus the
      paths `svr` → `dac` → `fft` → `out`, each leg avoiding the other
      named devices. */
  method CalculateResult(lines: seq<string>, ghost rank: map<string, nat>) returns (result: nat)
    requires ValidInput(lines, rank)
    ensures var d := Connections(lines);
            result == Paths(d, rank, "svr", "fft", {"dac", "out"})
                        * Paths(d, rank, "fft", "dac", {"svr", "out"})
                        * Paths(d, rank, "dac", "out", {"svr", "fft"})
                      + Paths(d, rank, "svr", "dac", {"fft", "out"})
                        * Paths(d, rank, "dac", "fft", {"svr", "out"})
                        * Paths(d, rank, "fft", "out", {"svr", "dac"})
  {
    var devices := ParseConnections(lines);
    var a := CountPaths("svr", "fft", {"dac", "out"}, devices, rank);
    var b := CountPaths("fft", "dac", {"svr", "out"}, devices, rank);
    var c := CountPaths("dac", "out", {"svr", "fft"}, devices, rank);
    var validPaths1 := a * b * c;
    var d := CountPaths("svr", "dac", {"fft", "out"}, devices, rank);
    var e := CountPaths("dac", "fft", {"svr", "out"}, devices, rank);
    var f := CountPaths("fft", "out", {"svr", "dac"}, devices, rank);
    var validPaths2 := d * e * f;
    result := validPaths1 + validPaths2;
  }
}
