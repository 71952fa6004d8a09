/**
 * Day 11, part 1 (src/bin/day_11_1.rs): devices pass data along their
 * connections towards the reactor `out`; the answer counts the paths from
 * the device `you` to the reactor. The count is memoised per device.
 *
 * The source recurses without a visited set, so it ends only on an acyclic
 * device graph. Here that is a ghost `rank`: every connection into a device
 * that is not the reactor leads to a device of smaller rank.
 */
module Day11Part1 {
  import opened Strings

  datatype Device = Device(connections: seq<string>, isReactor: bool)

  /** `Device::new_reactor`: the reactor has no connections. */
  const Reactor: Device := Device([], true)

  /* Parsing. */

  /** Each line is at least `abc: ` long: the source slices `[..3]` and
      `[5..]`. */
  predicate LinesParse(lines: seq<string>)
  {
    forall i :: 0 <= i < |lines| ==> |lines[i]| >= 5
  }

  /** The name of a line: its first three characters. */
  function Label(line: string): string
    requires |line| >= 5
  {
    line[..3]
  }

  /** The connections of a line: the text after `abc: `, split on spaces. */
  function ConnectionLabels(line: string): seq<string>
    requires |line| >= 5
  {
    Split(line[5..], ' ')
  }

  /** The devices of the first `n` lines, a later line with the same name
      replacing an earlier one. */
  function DevicesFrom(lines: seq<string>, n: nat): map<string, Device>
    requires LinesParse(lines) && n <= |lines|
  {
    if n == 0 then map[]
    else DevicesFrom(lines, n - 1)[Label(lines[n - 1]) := Device(ConnectionLabels(lines[n - 1]), false)]
  }

  /** All lines' devices, and the reactor `out`. */
  function Devices(lines: seq<string>): map<string, Device>
    requires LinesParse(lines)
  {
    DevicesFrom(lines, |lines|)["out" := Reactor]
  }

  /** `parse_devices`: insert every line's device, then the reactor. */
  method ParseDevices(lines: seq<string>) returns (devices: map<string, Device>)
    requires LinesParse(lines)
    ensures devices == Devices(lines)
  {
    devices := map[];
    for i := 0 to |lines|
      invariant devices == DevicesFrom(lines, i)
    {
      var line := lines[i];
      var deviceLabel := line[..3];
      var connectionLabelsSingle := Split(line[5..], ' ');
      devices := devices[deviceLabel := Device(connectionLabelsSingle, false)];
    }
    devices := devices["out" := Reactor];
  }

  /** Line `i` is the last of the first `n` lines labelled `l`. */
  predicate LastWith(lines: seq<string>, n: nat, i: nat, l: string)
    requires LinesParse(lines) && n <= |lines|
  {
    i < n && Label(lines[i]) == l && forall j :: i < j < n ==> Label(lines[j]) != l
  }

  lemma {:induction false} DevicesFromKeys(lines: seq<string>, n: nat, l: string)
    requires LinesParse(lines) && n <= |lines|
    ensures l in DevicesFrom(lines, n) <==> exists i: nat :: i < n && Label(lines[i]) == l
  {
    if n > 0 {
      DevicesFromKeys(lines, n - 1, l);
      if Label(lines[n - 1]) == l {
        assert (n - 1) < n && Label(lines[n - 1]) == l;
      }
    }
  }

  lemma {:induction false} DevicesFromValue(lines: seq<string>, n: nat, i: nat, l: string)
    requires LinesParse(lines) && n <= |lines| && LastWith(lines, n, i, l)
    ensures l in DevicesFrom(lines, n) && DevicesFrom(lines, n)[l] == Device(ConnectionLabels(lines[i]), false)
  {
    if i < n - 1 {
      assert LastWith(lines, n - 1, i, l);
      DevicesFromValue(lines, n - 1, i, l);
    }
  }

  /** The devices parsed: the reactor `out`, and every other label of a
      line, with the connections of the last line carrying it. */
  lemma DevicesMembers(lines: seq<string>, l: string)
    requires LinesParse(lines)
    ensures l in Devices(lines) <==> l == "out" || exists i: nat :: i < |lines| && Label(lines[i]) == l
    ensures l == "out" ==> Devices(lines)[l] == Reactor
    ensures l != "out" ==> forall i: nat :: LastWith(lines, |lines|, i, l) ==>
              Devices(lines)[l] == Device(ConnectionLabels(lines[i]), false)
  {
    DevicesFromKeys(lines, |lines|, l);
    forall i: nat | LastWith(lines, |lines|, i, l)
      ensures DevicesFrom(lines, |lines|)[l] == Device(ConnectionLabels(lines[i]), false)
    {
      DevicesFromValue(lines, |lines|, i, l);
    }
  }

  /* Counting paths. */

  /** From `name` the count is defined and does not panic: the device
      exists, it has a connection, every connection names a device, and
      every one that is not the reactor has a smaller rank and is itself
      countable. */
  ghost predicate Countable(devices: map<string, Device>, rank: map<string, nat>, name: string)
    decreases if name in rank then rank[name] else 0
  {
    && name in devices && name in rank
    && |devices[name].connections| > 0
    && forall k :: 0 <= k < |devices[name].connections| ==>
         var next := devices[name].connections[k];
         && next in devices
         && (devices[next].isReactor || (next in rank && rank[next] < rank[name] && Countable(devices, rank, next)))
  }

  /** The paths from `name` to the reactor. */
  ghost function Paths(devices: map<string, Device>, rank: map<string, nat>, name: string): nat
    requires Countable(devices, rank, name)
    decreases rank[name], 1
  {
    PathsVia(devices, rank, name, |devices[name].connections|)
  }

  /** The paths from `name` through its first `k` connections: one for a
      connection to the reactor, the paths onward from any other. */
  ghost function PathsVia(devices: map<string, Device>, rank: map<string, nat>, name: string, k: nat): nat
    requires Countable(devices, rank, name) && k <= |devices[name].connections|
    decreases rank[name], 0, k
  {
    if k == 0 then 0
    else
      var next := devices[name].connections[k - 1];
      PathsVia(devices, rank, name, k - 1) + (if devices[next].isReactor then 1 else Paths(devices, rank, next))
  }

  /** There is a path from every countable device, so the source's check
      for zero paths never fires. */
  lemma {:induction false} PathsPositive(devices: map<string, Device>, rank: map<string, nat>, name: string)
    requires Countable(devices, rank, name)
    ensures Paths(devices, rank, name) >= 1
    decreases rank[name]
  {
    var conns := devices[name].connections;
    var next := conns[0];
    if !devices[next].isReactor {
      PathsPositive(devices, rank, next);
    }
    PathsViaMonotone(devices, rank, name, 1, |conns|);
  }

  lemma {:induction false} PathsViaMonotone(devices: map<string, Device>, rank: map<string, nat>, name: string, k: nat, k': nat)
    requires Countable(devices, rank, name) && k <= k' <= |devices[name].connections|
    ensures PathsVia(devices, rank, name, k) <= PathsVia(devices, rank, name, k')
    decreases k'
  {
    if k < k' {
      PathsViaMonotone(devices, rank, name, k, k' - 1);
    }
  }

  /** Every cached count is the number of paths from its device. */
  ghost predicate CacheValid(devices: map<string, Device>, rank: map<string, nat>, cache: map<string, nat>)
  {
    forall l :: l in cache ==> Countable(devices, rank, l) && cache[l] == Paths(devices, rank, l)
  }

  /** `find_paths_inner`: a cached count is returned at once; otherwise
      the count is summed over the connections, one for the reactor and
      the count onward for any other device, and cached. */
  method FindPathsInner(startingDeviceLabel: string, devices: map<string, Device>, ghost rank: map<string, nat>,
                        cache: map<string, nat>)
    returns (nPaths: nat, cacheOut: map<string, nat>)
    requires Countable(devices, rank, startingDeviceLabel)
    requires CacheValid(devices, rank, cache)
    ensures CacheValid(devices, rank, cacheOut) && cache.Keys <= cacheOut.Keys
    ensures nPaths == Paths(devices, rank, startingDeviceLabel)
    ensures startingDeviceLabel in cacheOut && cacheOut[startingDeviceLabel] == nPaths
    decreases rank[startingDeviceLabel]
  {
    if startingDeviceLabel in cache {
      return cache[startingDeviceLabel], cache;
    }
    var nextDeviceLabels := devices[startingDeviceLabel].connections;
    nPaths, cacheOut := 0, cache;
    for k := 0 to |nextDeviceLabels|
      invariant CacheValid(devices, rank, cacheOut) && cache.Keys <= cacheOut.Keys
      invariant nPaths == PathsVia(devices, rank, startingDeviceLabel, k)
    {
      var deviceLabel := nextDeviceLabels[k];
      var device := devices[deviceLabel];
      if device.isReactor {
        nPaths := nPaths + 1;
      } else {
        var n;
        n, cacheOut := FindPathsInner(deviceLabel, devices, rank, cacheOut);
        nPaths := nPaths + n;
      }
    }
    PathsPositive(devices, rank, startingDeviceLabel);
    if nPaths == 0 {
      assert false;
    }
    cacheOut := cacheOut[startingDeviceLabel := nPaths];
  }

  /* The paths themselves. */

  /** `route` picks, one device after another from `name`, which
      connection to follow, and ends on reaching the reactor. */
  ghost predicate IsRoute(devices: map<string, Device>, name: string, route: seq<nat>)
    decreases |route|
  {
    && name in devices && |route| >= 1 && route[0] < |devices[name].connections|
    && var next := devices[name].connections[route[0]];
       && next in devices
       && if devices[next].isReactor then |route| == 1 else IsRoute(devices, next, route[1..])
  }

  /** The routes from `name` to the reactor. */
  ghost function Routes(devices: map<string, Device>, rank: map<string, nat>, name: string): set<seq<nat>>
    requires Countable(devices, rank, name)
    decreases rank[name], 1
  {
    RoutesVia(devices, rank, name, |devices[name].connections|)
  }

  /** Every route of `routes`, prefixed by the choice `k`. */
  ghost function Prefixed(k: nat, routes: set<seq<nat>>): set<seq<nat>>
  {
    set r | r in routes :: [k] + r
  }

  /** The routes from `name` whose first choice is below `k`. */
  ghost function RoutesVia(devices: map<string, Device>, rank: map<string, nat>, name: string, k: nat): set<seq<nat>>
    requires Countable(devices, rank, name) && k <= |devices[name].connections|
    decreases rank[name], 0, k
  {
    if k == 0 then {}
    else
      var next := devices[name].connections[k - 1];
      RoutesVia(devices, rank, name, k - 1) + (if devices[next].isReactor then {[k - 1]} else Prefixed(k - 1, Routes(devices, rank, next)))
  }

  lemma PrefixedMembers(k: nat, routes: set<seq<nat>>, route: seq<nat>)
    ensures route in Prefixed(k, routes) <==> |route| >= 1 && route[0] == k && route[1..] in routes
  {
    if |route| >= 1 && route[0] == k && route[1..] in routes {
      assert route == [k] + route[1..];
    }
    if route in Prefixed(k, routes) {
      var r :| r in routes && route == [k] + r;
      assert route[1..] == r;
    }
  }

  lemma {:induction false} RoutesViaMembers(devices: map<string, Device>, rank: map<string, nat>, name: string, k: nat, route: seq<nat>)
    requires Countable(devices, rank, name) && k <= |devices[name].connections|
    ensures route in RoutesVia(devices, rank, name, k) <==> IsRoute(devices, name, route) && route[0] < k
    decreases rank[name], 0, k
  {
    if k > 0 {
      var next := devices[name].connections[k - 1];
      RoutesViaMembers(devices, rank, name, k - 1, route);
      if devices[next].isReactor {
        if route == [k - 1] {
          assert IsRoute(devices, name, route);
        }
      } else {
        PrefixedMembers(k - 1, Routes(devices, rank, next), route);
        if |route| >= 1 {
          RoutesMembers(devices, rank, next, route[1..]);
        }
      }
    }
  }

  /** The constructed routes are exactly the routes to the reactor. */
  lemma {:induction false} RoutesMembers(devices: map<string, Device>, rank: map<string, nat>, name: string, route: seq<nat>)
    requires Countable(devices, rank, name)
    ensures route in Routes(devices, rank, name) <==> IsRoute(devices, name, route)
    decreases rank[name], 1
  {
    RoutesViaMembers(devices, rank, name, |devices[name].connections|, route);
  }

  /** No route through the first `k` connections starts with choice `k`. */
  lemma EarlierApart(devices: map<string, Device>, rank: map<string, nat>, name: string, k: nat, routes: set<seq<nat>>)
    requires Countable(devices, rank, name) && k <= |devices[name].connections|
    ensures RoutesVia(devices, rank, name, k) * Prefixed(k, routes) == {}
  {
    RoutesViaBelow(devices, rank, name, k);
    forall r | r in RoutesVia(devices, rank, name, k)
      ensures r !in Prefixed(k, routes)
    {
      PrefixedMembers(k, routes, r);
    }
  }

  /** Every route through the first `k` connections starts with a choice
      below `k`. */
  lemma RoutesViaBelow(devices: map<string, Device>, rank: map<string, nat>, name: string, k: nat)
    requires Countable(devices, rank, name) && k <= |devices[name].connections|
    ensures forall r :: r in RoutesVia(devices, rank, name, k) ==> |r| >= 1 && r[0] < k
  {
    forall r | r in RoutesVia(devices, rank, name, k)
      ensures |r| >= 1 && r[0] < k
    {
      RoutesViaMembers(devices, rank, name, k, r);
    }
  }

  lemma {:induction false} PrefixedCount(k: nat, routes: set<seq<nat>>)
    ensures |Prefixed(k, routes)| == |routes|
    decreases |routes|
  {
    if routes != {} {
      var r :| r in routes;
      var rest := routes - {r};
      PrefixedCount(k, rest);
      assert Prefixed(k, routes) == Prefixed(k, rest) + {[k] + r};
      assert ([k] + r)[1..] == r;
      PrefixedMembers(k, rest, [k] + r);
    }
  }

  lemma DisjointCount(a: set<seq<nat>>, b: set<seq<nat>>)
    requires a * b == {}
    ensures |a + b| == |a| + |b|
  {
  }

  lemma {:induction false} RoutesViaCount(devices: map<string, Device>, rank: map<string, nat>, name: string, k: nat)
    requires Countable(devices, rank, name) && k <= |devices[name].connections|
    ensures |RoutesVia(devices, rank, name, k)| == PathsVia(devices, rank, name, k)
    decreases rank[name], 0, k
  {
    if k > 0 {
      var next := devices[name].connections[k - 1];
      RoutesViaCount(devices, rank, name, k - 1);
      if !devices[next].isReactor {
        RoutesCount(devices, rank, next);
      }
      RoutesViaStep(devices, rank, name, k);
    }
  }

  /** Adding connection `k - 1` adds its routes, which are new, to the
      routes through the earlier connections. */
  lemma RoutesViaStep(devices: map<string, Device>, rank: map<string, nat>, name: string, k: nat)
    requires Countable(devices, rank, name) && 0 < k <= |devices[name].connections|
    requires |RoutesVia(devices, rank, name, k - 1)| == PathsVia(devices, rank, name, k - 1)
    requires !devices[devices[name].connections[k - 1]].isReactor ==>
               |Routes(devices, rank, devices[name].connections[k - 1])|
                 == Paths(devices, rank, devices[name].connections[k - 1])
    ensures |RoutesVia(devices, rank, name, k)| == PathsVia(devices, rank, name, k)
  {
    var next := devices[name].connections[k - 1];
    var earlier := RoutesVia(devices, rank, name, k - 1);
    if devices[next].isReactor {
      var latest: set<seq<nat>> := {[k - 1]};
      assert earlier * latest == {} by {
        RoutesViaMembers(devices, rank, name, k - 1, [k - 1]);
      }
      DisjointCount(earlier, latest);
      assert RoutesVia(devices, rank, name, k) == earlier + latest;
    } else {
      var routes := Routes(devices, rank, next);
      var latest := Prefixed(k - 1, routes);
      PrefixedCount(k - 1, routes);
      EarlierApart(devices, rank, name, k - 1, routes);
      DisjointCount(earlier, latest);
      assert RoutesVia(devices, rank, name, k) == earlier + latest;
    }
  }

  /** The memoised count is the number of routes from `name` to the
      reactor. */
  lemma {:induction false} RoutesCount(devices: map<string, Device>, rank: map<string, nat>, name: string)
    requires Countable(devices, rank, name)
    ensures |Routes(devices, rank, name)| == Paths(devices, rank, name)
    decreases rank[name], 1
  {
    RoutesViaCount(devices, rank, name, |devices[name].connections|);
  }

  /* The answer. */

  /** `calculate_result` does not panic: the lines slice, and from `you`
      every device reached exists, has a connection and the graph below it
      is acyclic, as `rank` witnesses. */
  ghost predicate ValidInput(lines: seq<string>, rank: map<string, nat>)
  {
    LinesParse(lines) && Countable(Devices(lines), rank, "you")
  }

  /** `calculate_result`: the number of paths from `you` to the reactor,
      with an empty cache. */
  method CalculateResult(lines: seq<string>, ghost rank: map<string, nat>) returns (result: nat)
    requires ValidInput(lines, rank)
    ensures result == Paths(Devices(lines), rank, "you") && result >= 1
  {
    var devices := ParseDevices(lines);
    var cache: map<string, nat> := map[];
    result, cache := FindPathsInner("you", devices, rank, cache);
    PathsPositive(devices, rank, "you");
  }
}
