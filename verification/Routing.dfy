/** Shortest-path routes of the topology manager: the breadth-first search from
    every host, and the recomputation after a link goes down. */
module Routing {
  import opened Network
  import opened PathMetrics
  import opened Sequences

  /** Links connect known nodes, are up in both directions or in none, and have
      a rate. */
  ghost predicate Sound(t: Table, size: nat) {
    && (forall a, b | (a, b) in Links(t) :: a < size && b < size && (b, a) in Links(t))
    && (forall a, b | (a, b) in Links(t) :: t[a][b].bw > 0)
  }

  // ----------------------------------------------------- the search invariant

  /** The local state of a search from h: done holds queue[..i], and the edges
      already looked at are those leaving done and those from queue[i] to nodes
      below nb. */
  datatype Search = Search(queue: seq<nat>, dist: map<nat, nat>, hops: map<nat, seq<nat>>,
                           i: nat, nb: nat, done: set<nat>) {

    ghost predicate Scanned(y: nat, x: nat) {
      y in done || (i < |queue| && y == queue[i] && x < nb)
    }

    ghost predicate Queued(net: Net, h: nat) {
      && queue != [] && queue[0] == h && i <= |queue| && NoRepeats(queue)
      && done == Elements(queue[..i])
      && (forall y | y in queue :: y < net.size && y in dist && (y == h || net.Switch(y)))
      && (forall y | y in dist && (y == h || net.Switch(y)) :: y in queue)
      && h in dist && dist[h] == 0
    }

    ghost predicate Layered() {
      && (forall y | y in queue :: y in dist)
      && (forall a, b | 0 <= a <= b < |queue| :: dist[queue[a]] <= dist[queue[b]])
      && (i < |queue| ==> forall x | x in dist :: dist[x] <= dist[queue[i]] + 1)
    }

    ghost predicate Complete(net: Net) {
      forall y, x | Scanned(y, x) && (y, x) in net.links ::
        y in dist && x in dist && dist[x] <= dist[y] + 1
    }

    ghost predicate Parents(net: Net, h: nat) {
      && hops.Keys == dist.Keys - {h}
      && forall x | x in hops :: NoRepeats(hops[x]) && forall y :: y in hops[x] <==> IsParent(net, y, x)
    }

    ghost predicate IsParent(net: Net, y: nat, x: nat)
      requires x in dist
    {
      Scanned(y, x) && (y, x) in net.links && y in dist && dist[y] + 1 == dist[x]
    }

    ghost predicate Inv(net: Net, h: nat) {
      Queued(net, h) && Layered() && Complete(net) && Parents(net, h)
    }
  }

  /** Starting state of the search. */
  lemma SearchStarts(net: Net, h: nat)
    requires net.Valid() && h < net.size
    ensures Search([h], map[h := 0], map[], 0, 0, {}).Inv(net, h)
  {}

  /** A neighbour seen for the first time. */
  function Discover(s: Search, x: nat, sw: bool): Search
    requires s.i < |s.queue| && s.queue[s.i] in s.dist && x !in s.dist
  {
    s.(dist := s.dist[x := s.dist[s.queue[s.i]] + 1],
       hops := s.hops[x := []],
       queue := if sw then s.queue + [x] else s.queue)
  }

  /** The current node becomes one of x's next hops when it is one hop closer. */
  function Record(s: Search, x: nat): Search
    requires s.i < |s.queue| && s.queue[s.i] in s.dist && x in s.dist
    requires s.dist[s.queue[s.i]] + 1 == s.dist[x] ==> x in s.hops
  {
    var current := s.queue[s.i];
    if s.dist[current] + 1 == s.dist[x] then s.(hops := s.hops[x := s.hops[x] + [current]], nb := x + 1)
    else s.(nb := x + 1)
  }

  ghost predicate AtEdge(s: Search, net: Net, h: nat, x: nat) {
    net.Valid() && h < net.size && s.Inv(net, h) && s.i < |s.queue| && s.nb == x && x < net.size
  }

  lemma DiscoverKeepsInv(s: Search, net: Net, h: nat, x: nat)
    requires AtEdge(s, net, h, x) && (s.queue[s.i], x) in net.links && x !in s.dist
    ensures AtEdge(Discover(s, x, net.Switch(x)), net, h, x)
  {
    var s' := Discover(s, x, net.Switch(x));
    assert s'.queue[..s'.i] == s.queue[..s.i];
    assert s'.Queued(net, h);
    assert s'.Layered();
    assert s'.Complete(net) && s'.Parents(net, h) by {
      assert forall y: nat, z: nat :: s.Scanned(y, z) ==> y in s.queue;
      DiscoverKeepsEdges(s, net, h, x);
    }
  }

  lemma DiscoverKeepsEdges(s: Search, net: Net, h: nat, x: nat)
    requires s.Complete(net) && s.Parents(net, h) && x !in s.dist && x != h
    requires s.i < |s.queue| && s.queue[s.i] in s.dist && s.nb == x
    requires forall y: nat, z: nat :: s.Scanned(y, z) ==> y in s.dist
    ensures var s' := Discover(s, x, net.Switch(x)); s'.Complete(net) && s'.Parents(net, h)
  {
    var s' := Discover(s, x, net.Switch(x));
    forall y: nat
      ensures !s'.IsParent(net, y, x)
    {
      if s'.IsParent(net, y, x) {
        assert s.Scanned(y, x);
      }
    }
    forall y: nat, z | z in s.hops
      ensures s'.IsParent(net, y, z) <==> s.IsParent(net, y, z)
    {}
  }

  lemma RecordKeepsInv(s: Search, net: Net, h: nat, x: nat)
    requires AtEdge(s, net, h, x) && (s.queue[s.i], x) in net.links && x in s.dist
    ensures s.dist[s.queue[s.i]] + 1 == s.dist[x] ==> x in s.hops
    ensures Record(s, x).Inv(net, h)
  {
    var s' := Record(s, x);
    assert s.queue[s.i] !in s.queue[..s.i];
    assert s'.Queued(net, h) && s'.Layered() && s'.Complete(net);
    RecordKeepsParents(s, net, h, x);
  }

  lemma RecordKeepsParents(s: Search, net: Net, h: nat, x: nat)
    requires s.Parents(net, h) && x in s.dist && s.i < |s.queue| && s.nb == x
    requires s.queue[s.i] in s.dist && s.queue[s.i] !in s.done && (s.queue[s.i], x) in net.links
    requires s.dist[s.queue[s.i]] + 1 == s.dist[x] ==> x in s.hops
    ensures Record(s, x).Parents(net, h)
  {
    var s', current := Record(s, x), s.queue[s.i];
    forall y: nat, z | z in s.hops
      ensures s'.IsParent(net, y, z) <==>
        s.IsParent(net, y, z) || (y == current && z == x && s.dist[y] + 1 == s.dist[z])
    {}
    assert x in s.hops ==> !s.IsParent(net, current, x);
  }

  lemma SkipKeepsInv(s: Search, net: Net, h: nat, x: nat)
    requires AtEdge(s, net, h, x) && (s.queue[s.i], x) !in net.links
    ensures s.(nb := x + 1).Inv(net, h)
  {
    SameEdges(s, s.(nb := x + 1), net, h);
  }

  lemma NextNodeKeepsInv(s: Search, net: Net, h: nat)
    requires net.Valid() && s.Inv(net, h) && s.i < |s.queue| && s.nb == net.size
    ensures s.(i := s.i + 1, nb := 0, done := s.done + {s.queue[s.i]}).Inv(net, h)
  {
    var s' := s.(i := s.i + 1, nb := 0, done := s.done + {s.queue[s.i]});
    assert s.queue[..s.i + 1] == s.queue[..s.i] + [s.queue[s.i]];
    assert s'.Queued(net, h) && s'.Layered();
    SameEdges(s, s', net, h);
  }

  /** The invariant depends only on which live edges have been scanned. */
  lemma SameEdges(s: Search, s': Search, net: Net, h: nat)
    requires s.Complete(net) && s.Parents(net, h) && s'.dist == s.dist && s'.hops == s.hops
    requires forall y, x | (y, x) in net.links :: s.Scanned(y, x) <==> s'.Scanned(y, x)
    ensures s'.Complete(net) && s'.Parents(net, h)
  {
    forall y: nat, x | x in s.hops
      ensures s'.IsParent(net, y, x) <==> s.IsParent(net, y, x)
    {}
  }

  /** When the queue is used up no walk to h is shorter than the recorded distance. */
  lemma NoShorterWalk(s: Search, net: Net, h: nat, p: seq<nat>)
    requires net.Valid() && s.Inv(net, h) && s.i == |s.queue| && IsWalk(net, p, h)
    ensures p[0] in s.dist && s.dist[p[0]] <= |p| - 1
  {
    if |p| > 1 {
      NoShorterWalk(s, net, h, p[1..]);
      assert s.queue[..s.i] == s.queue;
      assert p[1] in s.done && s.Scanned(p[1], p[0]);
    }
  }

  /** dist holds the exact distance of every node that reaches h, and of no other. */
  ghost predicate DistancesTo(net: Net, h: nat, dist: map<nat, nat>) {
    forall x {:trigger x in dist} ::
      (x in dist <==> Reaches(net, x, h)) && (x in dist ==> IsDistance(net, x, h, dist[x]))
  }

  lemma SearchFindsDistances(s: Search, net: Net, h: nat, walks: map<nat, seq<nat>>)
    requires net.Valid() && s.Inv(net, h) && s.i == |s.queue|
    requires walks.Keys == s.dist.Keys
    requires forall x | x in walks ::
      IsWalk(net, walks[x], h) && walks[x][0] == x && |walks[x]| == s.dist[x] + 1
    ensures DistancesTo(net, h, s.dist)
  {
    forall x
      ensures (x in s.dist <==> Reaches(net, x, h)) && (x in s.dist ==> IsDistance(net, x, h, s.dist[x]))
    {
      forall p | IsWalk(net, p, h) && p[0] == x
        ensures x in s.dist && s.dist[x] <= |p| - 1
      {
        NoShorterWalk(s, net, h, p);
      }
      if x in s.dist {
        assert HasWalk(net, x, h, s.dist[x]) by {
          assert IsWalk(net, walks[x], h);
        }
      }
    }
  }

  /** hops lists, for every node that reaches h, each of its next hops exactly once. */
  ghost predicate HopsTo(net: Net, h: nat, hops: map<nat, seq<nat>>) {
    && (forall x {:trigger x in hops} :: x in hops <==> x != h && Reaches(net, x, h))
    && (forall x {:trigger hops[x]} | x in hops ::
          NoRepeats(hops[x]) &&
          forall y {:trigger y in hops[x]} :: y in hops[x] <==> IsNextHop(net, x, y, h))
  }

  lemma SearchFindsHops(s: Search, net: Net, h: nat)
    requires net.Valid() && s.Inv(net, h) && s.i == |s.queue| && DistancesTo(net, h, s.dist)
    ensures HopsTo(net, h, s.hops)
  {
    assert s.queue[..s.i] == s.queue;
    forall x | x in s.hops
      ensures forall y :: y in s.hops[x] <==> IsNextHop(net, x, y, h)
    {
      assert IsDistance(net, x, h, s.dist[x]) && s.dist[x] == Dist(net, x, h);
      forall y
        ensures y in s.hops[x] <==> IsNextHop(net, x, y, h)
      {
        if y in s.dist {
          assert IsDistance(net, y, h, s.dist[y]) && s.dist[y] == Dist(net, y, h);
        }
      }
    }
  }

  // ------------------------------------------------------------ the class

  type Routes = map<(nat, nat), seq<nat>>

  /** The entries of h are exactly its next hops, each listed once. */
  ghost predicate RoutesTo(net: Net, routes: Routes, h: nat) {
    && (forall x {:trigger (x, h) in routes} :: (x, h) in routes <==> x != h && Reaches(net, x, h))
    && (forall x {:trigger routes[(x, h)]} | (x, h) in routes ::
          NoRepeats(routes[(x, h)]) &&
          forall y {:trigger y in routes[(x, h)]} :: y in routes[(x, h)] <==> IsNextHop(net, x, y, h))
  }

  ghost predicate AllRoutes(net: Net, routes: Routes) {
    && (forall key | key in routes :: net.Host(key.1))
    && forall h | net.Host(h) :: RoutesTo(net, routes, h)
  }

  /** The entries of h are those of hops; all other entries are those of before. */
  ghost predicate Holds(routes: Routes, before: Routes, h: nat, hops: map<nat, seq<nat>>) {
    && (forall x :: (x, h) in routes <==> x in hops)
    && (forall x | x in hops :: routes[(x, h)] == hops[x])
    && (forall key | key in routes && key.1 != h :: key in before && routes[key] == before[key])
    && (forall key | key in before && key.1 != h :: key in routes)
  }

  predicate Up(t: Table, a: nat, b: nat) {
    a in t && b in t[a] && t[a][b].up
  }

  /** The state of the search loops: the queue, the distances, the metrics and
      the routes found so far agree with the search s. */
  ghost predicate Searching(net: Net, t: Table, payload: nat, h: nat, before: Routes, st: State,
                            s: Search, walks: map<nat, seq<nat>>)
    requires Sound(t, net.size)
  {
    && s.Inv(net, h) && s.queue == st.queue && s.dist == st.distance
    && Holds(st.routes, before, h, s.hops)
    && Witnessed(net, t, payload, h, st.distance, st.metrics, walks)
  }

  datatype State = State(queue: seq<nat>, distance: map<nat, nat>, metrics: map<nat, Metrics>, routes: Routes)

  /** One live edge of the search, from the node being scanned to next. */
  method VisitEdge(ghost net: Net, t: Table, isSwitch: seq<bool>, payload: nat, h: nat, ghost before: Routes,
                   current: nat, next: nat, st: State, ghost s: Search, ghost walks: map<nat, seq<nat>>)
    returns (st': State, ghost s': Search, ghost walks': map<nat, seq<nat>>)
    requires net == Net(|isSwitch|, isSwitch, Links(t)) && Sound(t, net.size)
    requires Searching(net, t, payload, h, before, st, s, walks) && AtEdge(s, net, h, next)
    requires s.queue[s.i] == current && (current, next) in net.links
    ensures Searching(net, t, payload, h, before, st', s', walks')
    ensures s'.i == s.i && s'.nb == next + 1 && s.queue <= s'.queue
  {
    st', s', walks' := st, s, walks;
    if next !in st.distance {
      var m := Cross(st.metrics[current], t[current][next], payload);
      WitnessNext(net, t, payload, h, st.distance, st.metrics, walks, current, next, m);
      DiscoverKeepsInv(s, net, h, next);
      HoldsAfter(st.routes, before, h, s.hops, next, []);
      s', walks' := Discover(s, next, isSwitch[next]), walks[next := [next] + walks[current]];
      st' := State(if isSwitch[next] then st.queue + [next] else st.queue,
                   st.distance[next := st.distance[current] + 1],
                   st.metrics[next := m],
                   st.routes[(next, h) := []]);
    }
    st', s' := RecordEdge(net, t, payload, h, before, current, next, st', s', walks');
  }

  method RecordEdge(ghost net: Net, ghost t: Table, ghost payload: nat, h: nat, ghost before: Routes,
                    current: nat, next: nat, st: State, ghost s: Search, ghost walks: map<nat, seq<nat>>)
    returns (st': State, ghost s': Search)
    requires net.Valid() && Sound(t, net.size)
    requires Searching(net, t, payload, h, before, st, s, walks) && AtEdge(s, net, h, next)
    requires s.queue[s.i] == current && (current, next) in net.links && next in st.distance
    ensures Searching(net, t, payload, h, before, st', s', walks)
    ensures s'.i == s.i && s'.nb == next + 1 && s.queue == s'.queue
  {
    RecordKeepsInv(s, net, h, next);
    s', st' := Record(s, next), st;
    if st.distance[current] + 1 == st.distance[next] {
      HoldsAfter(st.routes, before, h, s.hops, next, s.hops[next] + [current]);
      st' := st.(routes := st.routes[(next, h) := st.routes[(next, h)] + [current]]);
    }
  }

  /** The search loops: routes gains the next hops towards h. */
  method SearchFrom(ghost net: Net, t: Table, isSwitch: seq<bool>, payload: nat, h: nat, before: Routes)
    returns (st: State, ghost s: Search, ghost walks: map<nat, seq<nat>>)
    requires net == Net(|isSwitch|, isSwitch, Links(t)) && Sound(t, net.size) && net.Host(h)
    requires forall key | key in before :: key.1 != h
    ensures Searching(net, t, payload, h, before, st, s, walks) && s.i == |s.queue|
  {
    st := State([h], map[h := 0], map[h := Metrics(0, 0, MAX_BANDWIDTH)], before);
    s, walks := Search([h], map[h := 0], map[], 0, 0, {}), map[h := [h]];
    SearchStarts(net, h);
    var i := 0;
    while i < |st.queue|
      invariant Searching(net, t, payload, h, before, st, s, walks) && s.i == i && s.nb == 0
      decreases |isSwitch| - i
    {
      QueueFits(s, net, h);
      st, s, walks := ScanNode(net, t, isSwitch, payload, h, before, i, st, s, walks);
      i := i + 1;
    }
  }

  lemma NodeScanned(net: Net, t: Table, payload: nat, h: nat, before: Routes, st: State, s: Search,
                    walks: map<nat, seq<nat>>)
    requires net.Valid() && Sound(t, net.size) && Searching(net, t, payload, h, before, st, s, walks)
    requires s.i < |s.queue| && s.nb == net.size
    ensures Searching(net, t, payload, h, before, st, s.(i := s.i + 1, nb := 0, done := s.done + {s.queue[s.i]}), walks)
  {
    NextNodeKeepsInv(s, net, h);
  }

  lemma EdgeSkipped(net: Net, t: Table, payload: nat, h: nat, before: Routes, st: State, s: Search,
                    walks: map<nat, seq<nat>>, x: nat) returns (s': Search)
    requires Sound(t, net.size) && Searching(net, t, payload, h, before, st, s, walks)
    requires AtEdge(s, net, h, x) && (s.queue[s.i], x) !in net.links
    ensures Searching(net, t, payload, h, before, st, s', walks)
    ensures s'.i == s.i && s'.nb == x + 1 && s'.queue == s.queue
  {
    SkipKeepsInv(s, net, h, x);
    s' := s.(nb := x + 1);
  }

  /** The step from the node being scanned to next, if there is a live edge. */
  method TryEdge(ghost net: Net, t: Table, isSwitch: seq<bool>, payload: nat, h: nat, ghost before: Routes,
                 current: nat, next: nat, st: State, ghost s: Search, ghost walks: map<nat, seq<nat>>)
    returns (st': State, ghost s': Search, ghost walks': map<nat, seq<nat>>)
    requires net == Net(|isSwitch|, isSwitch, Links(t)) && Sound(t, net.size)
    requires Searching(net, t, payload, h, before, st, s, walks) && AtEdge(s, net, h, next)
    requires s.queue[s.i] == current
    ensures Searching(net, t, payload, h, before, st', s', walks')
    ensures s'.i == s.i && s'.nb == next + 1 && s.queue <= s'.queue
  {
    if Up(t, current, next) {
      st', s', walks' := VisitEdge(net, t, isSwitch, payload, h, before, current, next, st, s, walks);
    } else {
      st', walks' := st, walks;
      s' := EdgeSkipped(net, t, payload, h, before, st, s, walks, next);
    }
  }

  /** All edges of the node at position i of the queue. */
  method ScanNode(ghost net: Net, t: Table, isSwitch: seq<bool>, payload: nat, h: nat, ghost before: Routes,
                  i: nat, st: State, ghost s: Search, ghost walks: map<nat, seq<nat>>)
    returns (st': State, ghost s': Search, ghost walks': map<nat, seq<nat>>)
    requires net == Net(|isSwitch|, isSwitch, Links(t)) && Sound(t, net.size) && net.Host(h)
    requires Searching(net, t, payload, h, before, st, s, walks)
    requires s.i == i < |st.queue| && s.nb == 0
    ensures Searching(net, t, payload, h, before, st', s', walks') && s'.i == i + 1 && s'.nb == 0
  {
    var current := st.queue[i];
    st', s', walks' := st, s, walks;
    for next := 0 to |isSwitch|
      invariant Searching(net, t, payload, h, before, st', s', walks') && s'.i == i && s'.nb == next
      invariant i < |s'.queue| && s'.queue[i] == current
    {
      st', s', walks' := TryEdge(net, t, isSwitch, payload, h, before, current, next, st', s', walks');
    }
    NodeScanned(net, t, payload, h, before, st', s', walks');
    s' := s'.(i := i + 1, nb := 0, done := s'.done + {current});
  }

  /** What a finished search has found. */
  lemma SearchEnds(net: Net, t: Table, payload: nat, h: nat, before: Routes, st: State,
                   s: Search, walks: map<nat, seq<nat>>)
    requires net.Valid() && Sound(t, net.size)
    requires Searching(net, t, payload, h, before, st, s, walks) && s.i == |s.queue|
    ensures RoutesTo(net, st.routes, h) && OnlyChanges(before, st.routes, h)
    ensures MetricsTo(net, t, payload, h, st.metrics)
  {
    assert DistancesTo(net, h, s.dist) by {
      SearchFindsDistances(s, net, h, walks);
    }
    assert HopsTo(net, h, s.hops) by {
      SearchFindsHops(s, net, h);
    }
    HoldsGiveRoutes(net, st.routes, before, h, s.hops);
    WalksGiveMetrics(net, t, payload, h, s.dist, st.metrics, walks);
  }

  lemma HoldsGiveRoutes(net: Net, routes: Routes, before: Routes, h: nat, hops: map<nat, seq<nat>>)
    requires Holds(routes, before, h, hops) && HopsTo(net, h, hops)
    ensures RoutesTo(net, routes, h) && OnlyChanges(before, routes, h)
  {}

  lemma WalksGiveMetrics(net: Net, t: Table, payload: nat, h: nat, dist: map<nat, nat>,
                         metrics: map<nat, Metrics>, walks: map<nat, seq<nat>>)
    requires Sound(t, net.size) && Witnessed(net, t, payload, h, dist, metrics, walks)
    requires DistancesTo(net, h, dist)
    ensures MetricsTo(net, t, payload, h, metrics)
  {
    forall x: nat {:trigger x in metrics}
      ensures x in metrics <==> Reaches(net, x, h)
      ensures x in metrics ==> x < net.size && IsPathMetric(net, t, payload, x, h, metrics[x])
    {
      assert x in metrics <==> x in dist;
      if x in dist {
        assert IsWalk(net, walks[x], h) && IsDistance(net, x, h, |walks[x]| - 1);
      }
    }
  }

  ghost predicate MetricsTo(net: Net, t: Table, payload: nat, h: nat, metrics: map<nat, Metrics>)
    requires Sound(t, net.size)
  {
    && (forall x {:trigger x in metrics} :: x in metrics <==> Reaches(net, x, h))
    && (forall x {:trigger metrics[x]} | x in metrics ::
          x < net.size && IsPathMetric(net, t, payload, x, h, metrics[x]))
  }

  /** The whole search, by its results. */
  method FindRoutes(ghost net: Net, t: Table, isSwitch: seq<bool>, payload: nat, h: nat, before: Routes)
    returns (routes: Routes, metrics: map<nat, Metrics>)
    requires net == Net(|isSwitch|, isSwitch, Links(t)) && Sound(t, net.size) && net.Host(h)
    requires forall key | key in before :: key.1 != h
    ensures RoutesTo(net, routes, h) && OnlyChanges(before, routes, h)
    ensures MetricsTo(net, t, payload, h, metrics)
  {
    var st, s, walks := SearchFrom(net, t, isSwitch, payload, h, before);
    SearchEnds(net, t, payload, h, before, st, s, walks);
    return st.routes, st.metrics;
  }

  /** m is the metric of some shortest path from x to h. */
  ghost predicate IsPathMetric(net: Net, t: Table, payload: nat, x: nat, h: nat, m: Metrics)
    requires Sound(t, net.size)
  {
    exists p :: IsWalk(net, p, h) && p[0] == x && IsDistance(net, x, h, |p| - 1)
                && OnWalk(t, p, payload, m)
  }

  /** Every node that reaches h has the metric of some shortest path stored. */
  ghost predicate MetricsFor(net: Net, t: Table, payload: nat, stored: map<(nat, nat), Metrics>, h: nat)
    requires Sound(t, net.size)
  {
    forall x: nat {:trigger (x, h) in stored} | Reaches(net, x, h) ::
      (x, h) in stored && IsPathMetric(net, t, payload, x, h, stored[(x, h)])
  }

  ghost predicate AllMetrics(net: Net, t: Table, payload: nat, stored: map<(nat, nat), Metrics>)
    requires Sound(t, net.size)
  {
    forall h: nat | net.Host(h) :: MetricsFor(net, t, payload, stored, h)
  }

  ghost predicate MetricsBelow(net: Net, t: Table, payload: nat, stored: map<(nat, nat), Metrics>, n: nat)
    requires Sound(t, net.size)
  {
    forall h: nat | h < n && net.Host(h) :: MetricsFor(net, t, payload, stored, h)
  }

  lemma OneMoreMetrics(net: Net, t: Table, payload: nat, before: map<(nat, nat), Metrics>,
                       after: map<(nat, nat), Metrics>, h: nat)
    requires Sound(t, net.size) && MetricsBelow(net, t, payload, before, h)
    requires if net.Host(h) then OnlyChanges(before, after, h) && MetricsFor(net, t, payload, after, h)
             else after == before
    ensures MetricsBelow(net, t, payload, after, h + 1)
  {
    forall g: nat | g < h && net.Host(g)
      ensures MetricsFor(net, t, payload, after, g)
    {
      if net.Host(h) {
        MetricsKept(net, t, payload, before, after, h, g);
      }
    }
  }

  lemma MetricsKept(net: Net, t: Table, payload: nat, before: map<(nat, nat), Metrics>,
                    after: map<(nat, nat), Metrics>, h: nat, g: nat)
    requires Sound(t, net.size) && MetricsFor(net, t, payload, before, g) && g != h && OnlyChanges(before, after, h)
    ensures MetricsFor(net, t, payload, after, g)
  {
    forall x: nat | Reaches(net, x, g)
      ensures (x, g) in after && IsPathMetric(net, t, payload, x, g, after[(x, g)])
    {
      assert (x, g) in before;
    }
  }

  ghost predicate OnlyChanges<T(!new)>(before: map<(nat, nat), T>, after: map<(nat, nat), T>, h: nat) {
    && (forall key: (nat, nat) | key.1 != h :: key in before <==> key in after)
    && (forall key: (nat, nat) | key.1 != h && key in before :: after[key] == before[key])
  }

  /** Routes are in place for the hosts below n, and for no other node. */
  ghost predicate RoutesBelow(net: Net, routes: Routes, n: nat) {
    && (forall key | key in routes :: key.1 < n && net.Host(key.1))
    && forall g: nat | g < n && net.Host(g) :: RoutesTo(net, routes, g)
  }

  lemma OneMoreHost(net: Net, before: Routes, after: Routes, h: nat)
    requires RoutesBelow(net, before, h)
    requires if net.Host(h) then OnlyChanges(before, after, h) && RoutesTo(net, after, h) else after == before
    ensures RoutesBelow(net, after, h + 1)
  {
    forall key | key in after
      ensures key.1 < h + 1 && net.Host(key.1)
    {
      assert key.1 != h ==> key in before;
    }
    forall g: nat | g < h && net.Host(g)
      ensures RoutesTo(net, after, g)
    {
      forall x
        ensures (x, g) in after <==> x != g && Reaches(net, x, g)
        ensures (x, g) in after ==> after[(x, g)] == before[(x, g)]
      {}
    }
  }

  class TopologyManager {
    const size: nat
    const isSwitch: seq<bool>
    const payload: nat
    var interfaces: Table
    var nextHops: Routes
    var pairMetrics: map<(nat, nat), Metrics>

    ghost predicate Valid()
      reads this
    {
      |isSwitch| == size && Sound(interfaces, size)
    }

    ghost function Graph(): Net
      reads this
    {
      Net(size, isSwitch, Links(interfaces))
    }

    constructor (size: nat, isSwitch: seq<bool>, payload: nat, interfaces: Table)
      requires |isSwitch| == size && Sound(interfaces, size)
      ensures Valid() && this.interfaces == interfaces && nextHops == map[]
      ensures this.size == size && this.isSwitch == isSwitch && this.payload == payload
    {
      this.size, this.isSwitch, this.payload, this.interfaces := size, isSwitch, payload, interfaces;
      nextHops, pairMetrics := map[], map[];
    }

    /** Breadth-first search from h over switches; fills the next hops towards h
        and the metrics of one shortest path from every node that reaches h. */
    method CalculateRoute(h: nat)
      requires Valid() && Graph().Host(h)
      requires forall key | key in nextHops :: key.1 != h
      modifies this`nextHops, this`pairMetrics
      ensures RoutesTo(Graph(), nextHops, h) && OnlyChanges(old(nextHops), nextHops, h)
      ensures exists metrics :: MetricsTo(Graph(), interfaces, payload, h, metrics) && Stored(h, metrics)
      ensures MetricsFor(Graph(), interfaces, payload, pairMetrics, h)
      ensures OnlyChanges(old(pairMetrics), pairMetrics, h)
    {
      var routes, metrics := FindRoutes(Graph(), interfaces, isSwitch, payload, h, nextHops);
      nextHops := routes;
      StoreMetrics(h, metrics);
    }

    ghost predicate Stored(h: nat, metrics: map<nat, Metrics>)
      reads this
    {
      forall x | x in metrics :: (x, h) in pairMetrics && pairMetrics[(x, h)] == metrics[x]
    }

    method StoreMetrics(h: nat, metrics: map<nat, Metrics>)
      requires forall x | x in metrics :: x < size
      modifies this`pairMetrics
      ensures Stored(h, metrics) && OnlyChanges(old(pairMetrics), pairMetrics, h)
    {
      for x := 0 to size
        invariant forall y | y in metrics && y < x :: (y, h) in pairMetrics && pairMetrics[(y, h)] == metrics[y]
        invariant OnlyChanges(old(pairMetrics), pairMetrics, h)
      {
        if x in metrics {
          pairMetrics := pairMetrics[(x, h) := metrics[x]];
        }
      }
    }

    /** Routes towards every host, from an empty table, and the metrics of every pair. */
    method CalculateRoutes()
      requires Valid() && nextHops == map[]
      modifies this`nextHops, this`pairMetrics
      ensures AllRoutes(Graph(), nextHops) && AllMetrics(Graph(), interfaces, payload, pairMetrics)
    {
      ghost var net := Graph();
      for h := 0 to size
        invariant RoutesBelow(net, nextHops, h) && MetricsBelow(net, interfaces, payload, pairMetrics, h)
      {
        ghost var before, stored := nextHops, pairMetrics;
        if !isSwitch[h] {
          CalculateRoute(h);
        }
        OneMoreHost(net, before, nextHops, h);
        OneMoreMetrics(net, interfaces, payload, stored, pairMetrics, h);
      }
    }

    method Recalculate()
      requires Valid()
      modifies this`nextHops, this`pairMetrics
      ensures AllRoutes(Graph(), nextHops) && AllMetrics(Graph(), interfaces, payload, pairMetrics)
    {
      nextHops := map[];
      CalculateRoutes();
    }

    /** A link that is up is taken down in both directions and every route is
        recomputed for the network without it; any other link is left alone. */
    method TakeDownLink(a: nat, b: nat)
      requires Valid()
      modifies this
      ensures Valid()
      ensures EntriesKept(old(interfaces), interfaces)
      ensures Graph() == old(Graph()).(links := old(Graph()).links - {(a, b), (b, a)})
      ensures if (a, b) in old(Graph()).links
        then AllRoutes(Graph(), nextHops) && AllMetrics(Graph(), interfaces, payload, pairMetrics)
        else nextHops == old(nextHops)
    {
      LinksTakenDown(interfaces, size, a, b);
      SetDownKeeps(interfaces, interfaces, a, b);
      SetDownKeeps(interfaces, SetDown(interfaces, a, b), b, a);
      if !Up(interfaces, a, b) {
        // looking a missing entry up creates one that is down
        interfaces := SetDown(interfaces, a, b);
        return;
      }
      interfaces := SetDown(SetDown(interfaces, a, b), b, a);
      Recalculate();
    }
  }

  predicate Entry(t: Table, x: nat, y: nat) {
    x in t && y in t[x]
  }

  /** All entries keep their index, delay and rate, and those that are new are blank. */
  ghost predicate EntriesKept(before: Table, after: Table) {
    && (forall x: nat, y: nat | Entry(before, x, y) ::
          Entry(after, x, y) && after[x][y].(up := false) == before[x][y].(up := false))
    && (forall x: nat, y: nat | Entry(after, x, y) && !Entry(before, x, y) ::
          after[x][y] == Interface(0, false, 0, 0))
  }

  lemma SetDownKeeps(before: Table, t: Table, a: nat, b: nat)
    requires EntriesKept(before, t)
    ensures EntriesKept(before, SetDown(t, a, b))
  {
    var t' := SetDown(t, a, b);
    forall x: nat, y: nat
      ensures Entry(t', x, y) <==> Entry(t, x, y) || (x, y) == (a, b)
      ensures Entry(t', x, y) ==>
        t'[x][y] == if (x, y) != (a, b) then t[x][y]
                    else if Entry(t, a, b) then t[a][b].(up := false) else Interface(0, false, 0, 0)
    {}
  }

  function SetDown(t: Table, a: nat, b: nat): Table {
    var row := if a in t then t[a] else map[];
    t[a := row[b := if b in row then row[b].(up := false) else Interface(0, false, 0, 0)]]
  }

  lemma LinksTakenDown(t: Table, size: nat, a: nat, b: nat)
    requires Sound(t, size)
    ensures Sound(SetDown(SetDown(t, a, b), b, a), size)
    ensures Links(SetDown(SetDown(t, a, b), b, a)) == Links(t) - {(a, b), (b, a)}
    ensures (a, b) !in Links(t) ==> (b, a) !in Links(t) && Links(SetDown(t, a, b)) == Links(t)
    ensures (a, b) !in Links(t) ==> Sound(SetDown(t, a, b), size)
  {
    LinksSetDown(t, a, b);
    LinksSetDown(SetDown(t, a, b), b, a);
  }

  lemma LinksSetDown(t: Table, a: nat, b: nat)
    ensures Links(SetDown(t, a, b)) == Links(t) - {(a, b)}
    ensures forall x, y | (x, y) in Links(SetDown(t, a, b)) :: SetDown(t, a, b)[x][y] == t[x][y]
  {
    var t' := SetDown(t, a, b);
    forall x: nat, y: nat
      ensures (x, y) in Links(t') <==> (x, y) in Links(t) && (x, y) != (a, b)
    {}
  }

  lemma HoldsAfter(routes: Routes, before: Routes, h: nat, hops: map<nat, seq<nat>>, x: nat, v: seq<nat>)
    requires Holds(routes, before, h, hops)
    ensures Holds(routes[(x, h) := v], before, h, hops[x := v])
  {}

  lemma QueueFits(s: Search, net: Net, h: nat)
    requires s.Inv(net, h) && s.i < |s.queue|
    ensures s.i < net.size
  {
    NoRepeatsFit(s.queue, net.size);
  }
}
