/** The policy that avoids the lane the oracle reports, and whether it keeps chunks off the
    degraded uplink. The oracle reports one lane, but several may share the uplink. */
module OracleAvoid {
  import opened LaneFairness
  import opened LaneScheduler
  import opened Sequences
  import opened Wrappers
  import opened ZeroWeightBound
  import opened ZeroWeights
  import DecisionSignal
  import FatTree
  import Network
  import Oracle
  import PathEnumeration

  /** The path at this place of the table towards the destination leaves by the port. */
  predicate LeavesBy(paths: seq<nat>, place: nat, port: nat) {
    place < |paths| && PathEnumeration.OutPort(paths[place], 0) == port
  }

  /** A lane is pinned to a place of the table; lanes beyond its end wrap around. */
  predicate Uses(paths: seq<nat>, lane: nat, port: nat) {
    paths != [] && LeavesBy(paths, lane % |paths|, port)
  }

  lemma UsesInTable(paths: seq<nat>, lane: nat, port: nat)
    requires lane < |paths|
    ensures Uses(paths, lane, port) <==> LeavesBy(paths, lane, port)
  {
    assert lane % |paths| == lane;
  }

  // ---------------------------------------------------------------- the signal

  /** The capacities under this policy: the reported lane gets none, once some event for
      its link is due. */
  function AfterOracle(v: Oracle.Verdict, capacities: seq<real>): (after: seq<real>)
    ensures |after| == |capacities|
    ensures forall i | 0 <= i < |capacities| :: after[i] == capacities[i] || (after[i] == 0.0 && i == v.lane && v.found)
  {
    if v.found && v.lane < |capacities| && v.since.Some? then capacities[v.lane := 0.0] else capacities
  }

  /** Weights in proportion to the capacities. */
  function Weights(capacities: seq<real>): seq<real>
    requires RealSum(capacities) > 0.0
  {
    seq(|capacities|, i requires 0 <= i < |capacities| => capacities[i] / RealSum(capacities))
  }

  /** The weights of one decision; ok is the assertion that some capacity is left. */
  method BuildDecisionSignal(c: Oracle.Config, tor: nat, port: Option<nat>, paths: Option<seq<nat>>, decision: nat,
                             capacities: seq<real>)
    returns (ok: bool, v: Oracle.Verdict, weights: seq<real>)
    requires port.Some? <==> (tor, c.spine) in c.nominal
    requires forall i | 0 <= i < |capacities| :: capacities[i] >= 0.0
    ensures v.found ==> port.Some? && paths.Some? && LeavesBy(paths.value, v.lane, port.value)
    ensures v.found ==> forall lane: nat | lane < v.lane :: !LeavesBy(paths.value, lane, port.value)
    ensures v.found ==> (v.since.Some? <==> !Oracle.NoneYet(c, tor, Oracle.Due(c, decision)))
    ensures ok <==> exists i :: 0 <= i < |capacities| && AfterOracle(v, capacities)[i] > 0.0
    ensures ok ==> RealSum(AfterOracle(v, capacities)) > 0.0 && weights == Weights(AfterOracle(v, capacities))
  {
    v := Oracle.GetBadLane(c, tor, port, paths, decision);
    var after := capacities;
    if v.found && v.lane < |capacities| && v.since.Some? && decision >= v.since.value {
      after := after[v.lane := 0.0];
    }
    ok, weights := DecisionSignal.Normalise(after);
    assert after == AfterOracle(v, capacities);
    assert ok <==> exists i :: 0 <= i < |after| && after[i] > 0.0;
  }

  // ------------------------------------------------------------------ the runs

  /** A run of decisions that all avoid the same lane of the same capacities. */
  ghost predicate AvoidRun(n: nat, run: seq<Decision>, capacities: seq<real>, bad: nat, cap: nat)
    requires |capacities| == n && bad < n && RealSum(capacities[bad := 0.0]) > 0.0
  {
    PlainRun(n, run, cap) && forall k | 0 <= k < |run| :: run[k].weights == Weights(capacities[bad := 0.0])
  }

  /** No chunk of any such run leaves by the port. */
  ghost predicate KeptOff(n: nat, capacities: seq<real>, bad: nat, cap: nat, paths: seq<nat>, port: nat)
    requires |capacities| == n && bad < n && RealSum(capacities[bad := 0.0]) > 0.0
  {
    forall run: seq<Decision>, k: nat | AvoidRun(n, run, capacities, bad, cap) && k < |run| ::
      !Uses(paths, run[k].lane, port)
  }

  /** bad is the only lane with some capacity that leaves by the port. */
  predicate Alone(capacities: seq<real>, bad: nat, paths: seq<nat>, port: nat) {
    forall lane: nat | lane < |capacities| && lane != bad && capacities[lane] > 0.0 :: !Uses(paths, lane, port)
  }

  /** Avoiding one lane keeps all chunks off an uplink exactly when no other lane with some
      capacity leaves by it. */
  lemma KeptOffExactlyAlone(n: nat, capacities: seq<real>, bad: nat, cap: nat, paths: seq<nat>, port: nat)
    requires |capacities| == n && bad < n && cap >= 1
    requires forall i | 0 <= i < n :: capacities[i] >= 0.0
    requires RealSum(capacities[bad := 0.0]) > 0.0
    ensures KeptOff(n, capacities, bad, cap, paths, port) <==> Alone(capacities, bad, paths, port)
  {
    if Alone(capacities, bad, paths, port) {
      forall run: seq<Decision>, k: nat | AvoidRun(n, run, capacities, bad, cap) && k < |run|
        ensures !Uses(paths, run[k].lane, port)
      {
        ChosenHasCapacity(n, run, capacities, bad, cap, k);
      }
    } else {
      var lane: nat :| lane < n && lane != bad && capacities[lane] > 0.0 && Uses(paths, lane, port);
      var run, k := LaneIsChosen(n, capacities, bad, cap, lane);
      assert Uses(paths, run[k].lane, port);
    }
  }

  lemma ChosenIsWeighted(n: nat, run: seq<Decision>, cap: nat, k: nat)
    requires PlainRun(n, run, cap) && k < |run|
    ensures run[k].lane < n && run[k].weights[run[k].lane] > 0.0
    decreases |run|
  {
    var last := |run| - 1;
    if k < last {
      ChosenIsWeighted(n, run[..last], cap, k);
    } else {
      assert Plain(run[last], cap);
    }
  }

  lemma ChosenHasCapacity(n: nat, run: seq<Decision>, capacities: seq<real>, bad: nat, cap: nat, k: nat)
    requires |capacities| == n && bad < n && RealSum(capacities[bad := 0.0]) > 0.0
    requires AvoidRun(n, run, capacities, bad, cap) && k < |run|
    ensures run[k].lane < n && run[k].lane != bad && capacities[run[k].lane] > 0.0
  {
    ChosenIsWeighted(n, run, cap, k);
    WeightedHasCapacity(capacities[bad := 0.0], run[k].lane);
  }

  lemma WeightedHasCapacity(capacities: seq<real>, lane: nat)
    requires RealSum(capacities) > 0.0 && lane < |capacities|
    ensures Weights(capacities)[lane] > 0.0 <==> capacities[lane] > 0.0
  {
    QuotientSign(capacities[lane], RealSum(capacities));
  }

  lemma QuotientSign(x: real, total: real)
    requires total > 0.0
    ensures x / total > 0.0 <==> x > 0.0
    ensures x / total >= 0.0 <==> x >= 0.0
  {}

  // ---------------------------------------------------------- every lane's turn

  lemma {:induction false} BestExists(value: seq<real>, weights: seq<real>) returns (lane: nat)
    requires |value| == |weights| && exists i :: 0 <= i < |weights| && weights[i] > 0.0
    ensures IsBest(value, weights, lane)
    decreases |value|
  {
    var n := |value| - 1;
    var v, w := value[..n], weights[..n];
    if exists i :: 0 <= i < n && w[i] > 0.0 {
      var before := BestExists(v, w);
      lane := if weights[n] > 0.0 && (value[n] > value[before]
                                      || (value[n] == value[before] && weights[n] > weights[before]))
              then n else before;
      forall i | 0 <= i < |weights| && weights[i] > 0.0
        ensures i == n || (v[i] == value[i] && w[i] == weights[i] && w[i] > 0.0)
      {}
    } else {
      lane := n;
      assert forall i | 0 <= i < n :: w[i] == weights[i];
    }
  }

  lemma PositiveExists(w: seq<real>)
    requires RealSum(w) > 0.0
    ensures exists i :: 0 <= i < |w| && w[i] > 0.0
  {
    if forall i | 0 <= i < |w| :: w[i] <= 0.0 {
      NoPositiveWeight(w);
    }
  }

  /** Some run of any length gives every decision these weights. */
  lemma {:induction false} SteadyRun(n: nat, weights: seq<real>, cap: nat, length: nat) returns (run: seq<Decision>)
    requires |weights| == n && RealSum(weights) > 0.0 && forall i | 0 <= i < n :: weights[i] >= 0.0
    ensures PlainRun(n, run, cap) && |run| == length
    ensures forall k | 0 <= k < length :: run[k].weights == weights && run[k].chunk == cap
  {
    if length == 0 {
      run := [];
    } else {
      var before := SteadyRun(n, weights, cap, length - 1);
      PositiveExists(weights);
      var lane := BestExists(Plus(Deficits(n, before), Shares(weights, cap)), weights);
      var next := Decision(weights, cap, false, lane);
      OneMorePlain(n, before, next, cap);
      run := before + [next];
    }
  }

  lemma {:induction false} SteadyDue(run: seq<Decision>, weights: seq<real>, cap: nat, i: nat)
    requires i < |weights| && RealSum(weights) > 0.0
    requires forall k | 0 <= k < |run| :: run[k].weights == weights && run[k].chunk == cap
    ensures Due(run, i) == Times(|run|, Share(weights[i], RealSum(weights), cap))
  {
    if run != [] {
      SteadyDue(run[..|run| - 1], weights, cap, i);
    }
  }

  lemma {:induction false} NeverSent(run: seq<Decision>, i: nat)
    requires forall k | 0 <= k < |run| :: run[k].lane != i
    ensures Sent(run, i) == 0
  {
    if run != [] {
      NeverSent(run[..|run| - 1], i);
    }
  }

  lemma SharePositive(weight: real, total: real, chunk: nat)
    requires weight > 0.0 && total > 0.0 && chunk >= 1
    ensures Share(weight, total, chunk) > 0.0
  {
    QuotientSign(weight, total);
    assert weight / total * chunk as real >= weight / total;
  }

  /** A lane with some weight is not passed over for ever: its deficit would outgrow the
      bound on all deficits. */
  lemma WeightedGetsTurn(n: nat, weights: seq<real>, cap: nat, lane: nat) returns (run: seq<Decision>, k: nat)
    requires |weights| == n && RealSum(weights) > 0.0 && cap >= 1 && lane < n && weights[lane] > 0.0
    requires forall i | 0 <= i < n :: weights[i] >= 0.0
    ensures PlainRun(n, run, cap) && (forall j | 0 <= j < |run| :: run[j].weights == weights)
    ensures k < |run| && run[k].lane == lane
  {
    var share := Share(weights[lane], RealSum(weights), cap);
    SharePositive(weights[lane], RealSum(weights), cap);
    var length := EnoughRoom(MaxAway(n, cap as real), share);
    run := SteadyRun(n, weights, cap, length);
    SteadyDue(run, weights, cap, lane);
    AnyWeightsBound(n, run, cap, lane);
    if forall j | 0 <= j < |run| :: run[j].lane != lane {
      NeverSent(run, lane);
    }
    k :| k < |run| && run[k].lane == lane;
  }

  lemma LaneIsChosen(n: nat, capacities: seq<real>, bad: nat, cap: nat, lane: nat)
    returns (run: seq<Decision>, k: nat)
    requires |capacities| == n && bad < n && cap >= 1 && RealSum(capacities[bad := 0.0]) > 0.0
    requires forall i | 0 <= i < n :: capacities[i] >= 0.0
    requires lane < n && lane != bad && capacities[lane] > 0.0
    ensures AvoidRun(n, run, capacities, bad, cap) && k < |run| && run[k].lane == lane
  {
    var left := capacities[bad := 0.0];
    var weights := Weights(left);
    forall i | 0 <= i < n
      ensures weights[i] >= 0.0
    {
      QuotientSign(left[i], RealSum(left));
    }
    WeightedHasCapacity(left, lane);
    DecisionSignal.SumOfShares(weights, left, RealSum(left));
    DecisionSignal.Whole(RealSum(left));
    run, k := WeightedGetsTurn(n, weights, cap, lane);
  }

  /** What leaves by any other lane keeps up with its share. */
  lemma LeakKeepsUp(n: nat, run: seq<Decision>, capacities: seq<real>, bad: nat, cap: nat, lane: nat)
    requires |capacities| == n && bad < n && RealSum(capacities[bad := 0.0]) > 0.0
    requires AvoidRun(n, run, capacities, bad, cap) && lane < n
    ensures Sent(run, lane) as real >= Due(run, lane) - MaxAway(n, cap as real)
  {
    AnyWeightsBound(n, run, cap, lane);
  }

  // ------------------------------------------------------------ on a fat tree

  /** The path table lists the identifiers of a row, each once. */
  ghost predicate Lists(paths: seq<nat>, row: set<(nat, nat)>) {
    NoRepeats(paths) && forall id :: id in paths <==> exists hops :: (id, hops) in row
  }

  lemma ListedPath(net: Network.Net, ports: PathEnumeration.Ports, s: nat, t: nat, row: set<(nat, nat)>,
                   paths: seq<nat>, p: seq<nat>) returns (lane: nat)
    requires PathEnumeration.AllShortest(net, ports, s, t, row) && Lists(paths, row)
    requires PathEnumeration.IsShortest(net, p, s, t)
    ensures lane < |paths| && paths[lane] == PathEnumeration.PathId(ports, p)
  {
    var id := PathEnumeration.PathId(ports, p);
    assert (id, |p| - 1) in row;
    assert id in paths;
    lane :| lane < |paths| && paths[lane] == id;
  }

  lemma FirstPort(net: Network.Net, ports: PathEnumeration.Ports, p: seq<nat>)
    requires PathEnumeration.GoodPorts(net, ports) && |p| > 1 && (p[0], p[1]) in net.links
    ensures PathEnumeration.OutPort(PathEnumeration.PathId(ports, p), 0) == PathEnumeration.Port(ports, p[0], p[1])
  {
    PathEnumeration.PathIdDecodes(ports, p, 0);
  }

  lemma ListedLane(net: Network.Net, ports: PathEnumeration.Ports, s: nat, t: nat, row: set<(nat, nat)>,
                   paths: seq<nat>, p: seq<nat>, next: nat) returns (lane: nat)
    requires PathEnumeration.GoodPorts(net, ports)
    requires PathEnumeration.AllShortest(net, ports, s, t, row) && Lists(paths, row)
    requires PathEnumeration.IsShortest(net, p, s, t) && |p| > 1 && p[1] == next && (s, next) in net.links
    ensures LeavesBy(paths, lane, PathEnumeration.Port(ports, s, next))
    ensures paths[lane] == PathEnumeration.PathId(ports, p)
  {
    FirstPort(net, ports, p);
    lane := ListedPath(net, ports, s, t, row, paths, p);
  }

  lemma TorInNet(net: Network.Net, tree: FatTree.Tree, a: nat, b: nat)
    requires tree.Valid() && FatTree.Describes(net, tree) && a < tree.Pods() && b < tree.half
    ensures tree.Tor(a, b) < net.size
  {
    FatTree.Ranges(tree, a, b);
  }

  /** The shortest path through one core. */
  lemma ThroughCore(net: Network.Net, tree: FatTree.Tree, i: nat, j: nat, a: nat, b: nat, l: nat, m: nat)
    returns (p: seq<nat>)
    requires tree.Valid() && FatTree.Describes(net, tree) && i != a
    requires i < tree.Pods() && a < tree.Pods() && j < tree.half && b < tree.half && l < tree.half && m < tree.half
    ensures PathEnumeration.IsShortest(net, p, tree.Tor(i, j), tree.Tor(a, b)) && tree.Tor(a, b) < net.size
    ensures |p| == 5 && p[1] == tree.Agg(i, l) && p[2] == tree.Core(l, m)
    ensures (tree.Tor(i, j), tree.Agg(i, l)) in net.links
  {
    p := FatTree.CorePath(tree, i, j, a, b, l, m);
    FatTree.CorePathIsWalk(net, tree, i, j, a, b, l, m);
    FatTree.TorDistance(net, tree, i, j, a, b);
    FatTree.WalkEdges(net, p, tree.Tor(a, b), 0);
    TorInNet(net, tree, a, b);
  }

  lemma CoreLane(net: Network.Net, tree: FatTree.Tree, ports: PathEnumeration.Ports, i: nat, j: nat, a: nat, b: nat,
                 l: nat, m: nat, row: set<(nat, nat)>, paths: seq<nat>) returns (lane: nat, p: seq<nat>)
    requires tree.Valid() && FatTree.Describes(net, tree) && PathEnumeration.GoodPorts(net, ports)
    requires i < tree.Pods() && a < tree.Pods() && i != a
    requires j < tree.half && b < tree.half && l < tree.half && m < tree.half
    requires PathEnumeration.AllShortest(net, ports, tree.Tor(i, j), tree.Tor(a, b), row) && Lists(paths, row)
    ensures LeavesBy(paths, lane, PathEnumeration.Port(ports, tree.Tor(i, j), tree.Agg(i, l)))
    ensures PathEnumeration.IsShortest(net, p, tree.Tor(i, j), tree.Tor(a, b)) && tree.Tor(a, b) < net.size
    ensures |p| == 5 && p[2] == tree.Core(l, m) && paths[lane] == PathEnumeration.PathId(ports, p)
  {
    p := ThroughCore(net, tree, i, j, a, b, l, m);
    lane := ListedLane(net, ports, tree.Tor(i, j), tree.Tor(a, b), row, paths, p, tree.Agg(i, l));
  }

  lemma DifferentIds(net: Network.Net, ports: PathEnumeration.Ports, s: nat, t: nat, p: seq<nat>, q: seq<nat>)
    requires net.Valid() && PathEnumeration.GoodPorts(net, ports) && t < net.size
    requires PathEnumeration.IsShortest(net, p, s, t) && PathEnumeration.IsShortest(net, q, s, t)
    requires |p| == |q| <= 5 && p != q
    ensures PathEnumeration.PathId(ports, p) != PathEnumeration.PathId(ports, q)
  {
    PathEnumeration.ShortestIsPath(net, p, s, t);
    PathEnumeration.ShortestIsPath(net, q, s, t);
    if PathEnumeration.PathId(ports, p) == PathEnumeration.PathId(ports, q) {
      PathEnumeration.PathIdsDiffer(net, ports, p, q, t);
    }
  }

  /** Towards another pod the paths through different cores of one aggregation switch share
      its uplink: two lanes or more leave by it. */
  lemma UplinkIsShared(net: Network.Net, tree: FatTree.Tree, ports: PathEnumeration.Ports, i: nat, j: nat, a: nat,
                       b: nat, l: nat, row: set<(nat, nat)>, paths: seq<nat>) returns (x: nat, y: nat)
    requires tree.Valid() && FatTree.Describes(net, tree) && PathEnumeration.GoodPorts(net, ports)
    requires i < tree.Pods() && a < tree.Pods() && i != a && j < tree.half && b < tree.half && l < tree.half
    requires PathEnumeration.AllShortest(net, ports, tree.Tor(i, j), tree.Tor(a, b), row) && Lists(paths, row)
    requires tree.half >= 2
    ensures x != y && LeavesBy(paths, x, PathEnumeration.Port(ports, tree.Tor(i, j), tree.Agg(i, l)))
    ensures LeavesBy(paths, y, PathEnumeration.Port(ports, tree.Tor(i, j), tree.Agg(i, l)))
  {
    var p, q;
    x, p := CoreLane(net, tree, ports, i, j, a, b, l, 0, row, paths);
    y, q := CoreLane(net, tree, ports, i, j, a, b, l, 1, row, paths);
    DifferentIds(net, ports, tree.Tor(i, j), tree.Tor(a, b), p, q);
  }

  /** In a pod every uplink has a lane of its own. */
  lemma UplinkIsAlone(net: Network.Net, tree: FatTree.Tree, ports: PathEnumeration.Ports, i: nat, j: nat, b: nat,
                      l: nat, row: set<(nat, nat)>, paths: seq<nat>, x: nat, y: nat)
    requires tree.Valid() && FatTree.Describes(net, tree) && PathEnumeration.GoodPorts(net, ports)
    requires i < tree.Pods() && j < tree.half && b < tree.half && j != b && l < tree.half
    requires PathEnumeration.AllShortest(net, ports, tree.Tor(i, j), tree.Tor(i, b), row) && Lists(paths, row)
    requires LeavesBy(paths, x, PathEnumeration.Port(ports, tree.Tor(i, j), tree.Agg(i, l)))
    requires LeavesBy(paths, y, PathEnumeration.Port(ports, tree.Tor(i, j), tree.Agg(i, l)))
    ensures x == y
  {
    UplinkPath(net, tree, ports, i, j, b, l, row, paths, x);
    UplinkPath(net, tree, ports, i, j, b, l, row, paths, y);
  }

  /** The lane that leaves by an uplink in a pod is the path through its switch. */
  lemma UplinkPath(net: Network.Net, tree: FatTree.Tree, ports: PathEnumeration.Ports, i: nat, j: nat, b: nat,
                   l: nat, row: set<(nat, nat)>, paths: seq<nat>, x: nat)
    requires tree.Valid() && FatTree.Describes(net, tree) && PathEnumeration.GoodPorts(net, ports)
    requires i < tree.Pods() && j < tree.half && b < tree.half && j != b && l < tree.half
    requires PathEnumeration.AllShortest(net, ports, tree.Tor(i, j), tree.Tor(i, b), row) && Lists(paths, row)
    requires LeavesBy(paths, x, PathEnumeration.Port(ports, tree.Tor(i, j), tree.Agg(i, l)))
    ensures paths[x] == PathEnumeration.PathId(ports, FatTree.PodPath(tree, i, j, b, l))
  {
    var s, t := tree.Tor(i, j), tree.Tor(i, b);
    assert paths[x] in paths;
    var hops :| (paths[x], hops) in row;
    var p :| PathEnumeration.IsShortest(net, p, s, t)
             && (paths[x], hops) == (PathEnumeration.PathId(ports, p), |p| - 1);
    FatTree.TorDistance(net, tree, i, j, i, b);
    var k, m := FatTree.WalkShape(net, tree, p, i, j, i, b);
    FatTree.WalkEdges(net, p, t, 0);
    FirstPort(net, ports, p);
    FatTree.PodPathIsWalk(net, tree, i, j, b, l);
    FatTree.WalkEdges(net, FatTree.PodPath(tree, i, j, b, l), t, 0);
    assert tree.Agg(i, k) == tree.Agg(i, l);
  }

  lemma PodPathIsShortest(net: Network.Net, tree: FatTree.Tree, i: nat, j: nat, b: nat, l: nat)
    requires tree.Valid() && FatTree.Describes(net, tree)
    requires i < tree.Pods() && j < tree.half && b < tree.half && j != b && l < tree.half
    ensures PathEnumeration.IsShortest(net, FatTree.PodPath(tree, i, j, b, l), tree.Tor(i, j), tree.Tor(i, b))
    ensures tree.Tor(i, b) < net.size
  {
    FatTree.PodPathIsWalk(net, tree, i, j, b, l);
    FatTree.TorDistance(net, tree, i, j, i, b);
    TorInNet(net, tree, i, b);
  }

  /** In a pod some lane leaves by another uplink. */
  lemma OtherUplink(net: Network.Net, tree: FatTree.Tree, ports: PathEnumeration.Ports, i: nat, j: nat, b: nat,
                    l: nat, row: set<(nat, nat)>, paths: seq<nat>, bad: nat) returns (lane: nat)
    requires tree.Valid() && FatTree.Describes(net, tree) && PathEnumeration.GoodPorts(net, ports)
    requires i < tree.Pods() && j < tree.half && b < tree.half && j != b && l < tree.half && tree.half >= 2
    requires PathEnumeration.AllShortest(net, ports, tree.Tor(i, j), tree.Tor(i, b), row) && Lists(paths, row)
    requires LeavesBy(paths, bad, PathEnumeration.Port(ports, tree.Tor(i, j), tree.Agg(i, l)))
    ensures lane < |paths| && lane != bad
  {
    var k := if l == 0 then 1 else 0;
    var p, q := FatTree.PodPath(tree, i, j, b, k), FatTree.PodPath(tree, i, j, b, l);
    PodPathIsShortest(net, tree, i, j, b, k);
    PodPathIsShortest(net, tree, i, j, b, l);
    lane := ListedPath(net, ports, tree.Tor(i, j), tree.Tor(i, b), row, paths, p);
    UplinkPath(net, tree, ports, i, j, b, l, row, paths, bad);
    assert p[1] != q[1];
    DifferentIds(net, ports, tree.Tor(i, j), tree.Tor(i, b), p, q);
  }

  lemma SomeLeft(capacities: seq<real>, bad: nat, lane: nat)
    requires bad < |capacities| && lane < |capacities| && lane != bad
    requires forall k | 0 <= k < |capacities| :: capacities[k] > 0.0
    ensures RealSum(capacities[bad := 0.0]) > 0.0
  {
    DecisionSignal.SumIsPositive(capacities[bad := 0.0]);
    assert capacities[bad := 0.0][lane] > 0.0;
  }

  /** On a fat tree with two aggregation switches a pod or more, and a lane for each path,
      avoiding the reported lane keeps all chunks off the degraded uplink towards the ToRs
      of the same pod, and towards those of no other pod. */
  lemma FatTreeKeptOff(net: Network.Net, tree: FatTree.Tree, ports: PathEnumeration.Ports, i: nat, j: nat, a: nat,
                       b: nat, l: nat, row: set<(nat, nat)>, paths: seq<nat>, capacities: seq<real>, bad: nat, cap: nat)
    requires tree.Valid() && FatTree.Describes(net, tree) && PathEnumeration.GoodPorts(net, ports)
    requires i < tree.Pods() && a < tree.Pods() && j < tree.half && b < tree.half && (i, j) != (a, b) && l < tree.half
    requires PathEnumeration.AllShortest(net, ports, tree.Tor(i, j), tree.Tor(a, b), row) && Lists(paths, row)
    requires tree.half >= 2 && cap >= 1 && |capacities| == |paths| && forall k | 0 <= k < |paths| :: capacities[k] > 0.0
    requires LeavesBy(paths, bad, PathEnumeration.Port(ports, tree.Tor(i, j), tree.Agg(i, l)))
    ensures RealSum(capacities[bad := 0.0]) > 0.0
    ensures KeptOff(|paths|, capacities, bad, cap, paths, PathEnumeration.Port(ports, tree.Tor(i, j), tree.Agg(i, l)))
      <==> i == a
  {
    var port := PathEnumeration.Port(ports, tree.Tor(i, j), tree.Agg(i, l));
    if i == a {
      var other := OtherUplink(net, tree, ports, i, j, b, l, row, paths, bad);
      SomeLeft(capacities, bad, other);
      forall lane: nat | lane < |paths| && Uses(paths, lane, port)
        ensures lane == bad
      {
        UsesInTable(paths, lane, port);
        UplinkIsAlone(net, tree, ports, i, j, b, l, row, paths, lane, bad);
      }
    } else {
      var x, y := UplinkIsShared(net, tree, ports, i, j, a, b, l, row, paths);
      var other := if x == bad then y else x;
      SomeLeft(capacities, bad, other);
      assert !Alone(capacities, bad, paths, port) by {
        UsesInTable(paths, other, port);
      }
    }
    KeptOffExactlyAlone(|paths|, capacities, bad, cap, paths, port);
  }
}
