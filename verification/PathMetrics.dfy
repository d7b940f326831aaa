/** What the routes accumulate along a walk: delay, sending time and rate. */
module PathMetrics {
  import opened Network
  import opened Sequences

  datatype Interface = Interface(idx: nat, up: bool, delay: nat, bw: nat)

  /** What the search accumulates along the first shortest path it finds. */
  datatype Metrics = Metrics(delay: nat, txDelay: nat, bw: nat)

  const MAX_BANDWIDTH: nat := 0xFFFF_FFFF_FFFF_FFFF
  const BIT_NANOS: nat := 8 * 1_000_000_000

  type Table = map<nat, map<nat, Interface>>

  function Links(t: Table): set<(nat, nat)> {
    set a, b | a in t && b in t[a] && t[a][b].up :: (a, b)
  }

  ghost predicate Linked(t: Table, p: seq<nat>) {
    p != [] && forall k: nat | k + 1 < |p| :: (p[k + 1], p[k]) in Links(t)
  }

  /** The interfaces that lead from each node of a walk to a host back to the one before it. */
  ghost function Crossed(t: Table, p: seq<nat>): (links: seq<Interface>)
    requires Linked(t, p)
  {
    seq(|p| - 1, k requires 0 <= k < |p| - 1 =>
      assert (p[k + 1], p[k]) in Links(t); t[p[k + 1]][p[k]])
  }

  ghost function Delays(links: seq<Interface>): seq<int> {
    seq(|links|, k requires 0 <= k < |links| => links[k].delay)
  }

  ghost predicate Rated(links: seq<Interface>) {
    forall k | 0 <= k < |links| :: links[k].bw > 0
  }

  /** The nanoseconds a packet takes to send over each link, rounded down. */
  ghost function SendTimes(links: seq<Interface>, payload: nat): seq<int>
    requires Rated(links)
  {
    seq(|links|, k requires 0 <= k < |links| => payload * 8_000_000_000 / links[k].bw)
  }

  /** The least rate, or the largest number without any link. */
  ghost predicate IsLeastRate(links: seq<Interface>, bw: nat) {
    && bw <= MAX_BANDWIDTH && (forall k | 0 <= k < |links| :: bw <= links[k].bw)
    && (bw == MAX_BANDWIDTH || exists k :: 0 <= k < |links| && bw == links[k].bw)
  }

  /** The metrics of a walk over these links: the sums of the delays and of the sending
      times, and the least rate. */
  ghost predicate AreMetrics(links: seq<Interface>, payload: nat, m: Metrics) {
    && Rated(links)
    && m.delay == Sum(Delays(links)) && m.txDelay == Sum(SendTimes(links, payload)) && IsLeastRate(links, m.bw)
  }

  /** m becomes m' over one more link, after any others. */
  ghost predicate Continues(payload: nat, m: Metrics, i: Interface, m': Metrics) {
    forall links: seq<Interface> | AreMetrics(links, payload, m) :: AreMetrics([i] + links, payload, m')
  }

  lemma {:induction false} SumFront(x: int, s: seq<int>)
    ensures Sum([x] + s) == x + Sum(s)
  {
    if s == [] {
      assert Sum([x]) == Sum([x][..0]) + x;
    } else {
      var n := |s| - 1;
      SumFront(x, s[..n]);
      assert ([x] + s)[..n + 1] == [x] + s[..n];
    }
  }

  lemma LeastRateAfter(i: Interface, links: seq<Interface>, bw: nat)
    requires IsLeastRate(links, bw)
    ensures IsLeastRate([i] + links, if bw < i.bw then bw else i.bw)
  {
    var more := [i] + links;
    assert more[0] == i && forall k | 0 <= k < |links| :: more[k + 1] == links[k];
    if bw < i.bw && bw != MAX_BANDWIDTH {
      var k :| 0 <= k < |links| && bw == links[k].bw;
      assert bw == more[k + 1].bw;
    }
  }

  lemma MetricsAfter(i: Interface, links: seq<Interface>, payload: nat, m: Metrics, txTime: nat)
    requires i.bw > 0 && AreMetrics(links, payload, m) && txTime == payload * 8_000_000_000 / i.bw
    ensures AreMetrics([i] + links, payload,
                       Metrics(m.delay + i.delay, m.txDelay + txTime, if m.bw < i.bw then m.bw else i.bw))
  {
    SumFront(i.delay, Delays(links));
    assert Delays([i] + links) == [i.delay] + Delays(links);
    SumFront(txTime, SendTimes(links, payload));
    assert SendTimes([i] + links, payload) == [txTime] + SendTimes(links, payload);
    LeastRateAfter(i, links, m.bw);
  }

  method Cross(m: Metrics, i: Interface, payload: nat) returns (m': Metrics)
    requires i.bw > 0
    ensures Continues(payload, m, i, m')
  {
    var txTime := payload * BIT_NANOS / i.bw;
    forall links: seq<Interface> | AreMetrics(links, payload, m)
      ensures AreMetrics([i] + links, payload,
                         Metrics(m.delay + i.delay, m.txDelay + txTime, if m.bw < i.bw then m.bw else i.bw))
    {
      MetricsAfter(i, links, payload, m, txTime);
    }
    m' := Metrics(m.delay + i.delay, m.txDelay + txTime, if m.bw < i.bw then m.bw else i.bw);
  }

  /** m are the metrics of a walk to a host. */
  ghost predicate OnWalk(t: Table, p: seq<nat>, payload: nat, m: Metrics) {
    Linked(t, p) && AreMetrics(Crossed(t, p), payload, m)
  }

  lemma CrossedMore(t: Table, p: seq<nat>, next: nat)
    requires Linked(t, p) && (p[0], next) in Links(t)
    ensures Linked(t, [next] + p) && Crossed(t, [next] + p) == [t[p[0]][next]] + Crossed(t, p)
  {
    var q := [next] + p;
    forall k: nat | k + 1 < |q|
      ensures (q[k + 1], q[k]) in Links(t)
    {
      if k > 0 {
        assert q[k] == p[k - 1] && q[k + 1] == p[k];
      }
    }
  }

  lemma OneMoreLink(t: Table, p: seq<nat>, next: nat, payload: nat, m: Metrics, m': Metrics)
    requires OnWalk(t, p, payload, m) && (p[0], next) in Links(t) && Continues(payload, m, t[p[0]][next], m')
    ensures OnWalk(t, [next] + p, payload, m')
  {
    CrossedMore(t, p, next);
  }

  /** Every recorded distance is the length of a recorded walk, and every
      recorded metric is that walk's. */
  ghost predicate Witnessed(net: Net, t: Table, payload: nat, h: nat,
                            dist: map<nat, nat>, metrics: map<nat, Metrics>, walks: map<nat, seq<nat>>) {
    && dist.Keys == metrics.Keys == walks.Keys
    && forall x | x in dist :: WitnessedAt(net, t, payload, h, x, dist[x], metrics[x], walks[x])
  }

  ghost predicate WitnessedAt(net: Net, t: Table, payload: nat, h: nat, x: nat, d: nat, m: Metrics,
                              walk: seq<nat>) {
    IsWalk(net, walk, h) && walk[0] == x && |walk| == d + 1 && OnWalk(t, walk, payload, m)
  }

  lemma WitnessedWalk(net: Net, t: Table, payload: nat, h: nat, p: seq<nat>, current: nat, next: nat, m: Metrics,
                      m': Metrics)
    requires net.Valid() && net.links == Links(t)
    requires IsWalk(net, p, h) && p[0] == current && OnWalk(t, p, payload, m)
    requires (current, next) in net.links && (|p| > 1 ==> net.Switch(current))
    requires Continues(payload, m, t[current][next], m')
    ensures WitnessedAt(net, t, payload, h, next, |p|, m', [next] + p)
  {
    Prepend(net, next, p, h);
    OneMoreLink(t, p, next, payload, m, m');
  }

  lemma OneMoreWitness(net: Net, t: Table, payload: nat, h: nat, dist: map<nat, nat>, metrics: map<nat, Metrics>,
                       walks: map<nat, seq<nat>>, next: nat, d: nat, m: Metrics, walk: seq<nat>)
    requires Witnessed(net, t, payload, h, dist, metrics, walks) && next !in dist
    requires WitnessedAt(net, t, payload, h, next, d, m, walk)
    ensures Witnessed(net, t, payload, h, dist[next := d], metrics[next := m], walks[next := walk])
  {}

  lemma WitnessNext(net: Net, t: Table, payload: nat, h: nat, dist: map<nat, nat>,
                    metrics: map<nat, Metrics>, walks: map<nat, seq<nat>>, current: nat, next: nat,
                    m': Metrics)
    requires net.Valid() && net.links == Links(t)
    requires Witnessed(net, t, payload, h, dist, metrics, walks)
    requires current in dist && next !in dist && (current, next) in net.links
    requires dist[current] > 0 ==> net.Switch(current)
    requires Continues(payload, metrics[current], t[current][next], m')
    ensures Witnessed(net, t, payload, h, dist[next := dist[current] + 1],
                      metrics[next := m'],
                      walks[next := [next] + walks[current]])
  {
    var p := walks[current];
    assert WitnessedAt(net, t, payload, h, current, dist[current], metrics[current], p);
    WitnessedWalk(net, t, payload, h, p, current, next, metrics[current], m');
    OneMoreWitness(net, t, payload, h, dist, metrics, walks, next, |p|, m', [next] + p);
  }
}
