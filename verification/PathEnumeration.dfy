/** Enumeration of the ToR-to-ToR paths from the next-hop tables, with the
    four-byte path identifiers and the port buffer that all paths share. */
module PathEnumeration {
  import opened Network
  import Routing
  import opened Sequences

  type Ports = map<(nat, nat), nat>

  // ------------------------------------------------------ path identifiers

  /** The interface index towards a neighbour; a missing entry reads as 0. */
  function Port(ports: Ports, a: nat, b: nat): nat {
    if (a, b) in ports then ports[(a, b)] else 0
  }

  /** Four bytes copied into a little-endian 32-bit word. */
  function PackPath(bytes: seq<nat>): nat
    requires |bytes| == 4
  {
    bytes[0] + 0x100 * (bytes[1] + 0x100 * (bytes[2] + 0x100 * bytes[3]))
  }

  /** Reads byte number hop of a path identifier, the output port of that hop. */
  function OutPort(id: nat, hop: nat): nat {
    if hop == 0 then id % 0x100 else OutPort(id / 0x100, hop - 1)
  }

  function PathBytes(ports: Ports, p: seq<nat>): seq<nat> {
    seq(4, i requires 0 <= i < 4 => if i + 1 < |p| then Port(ports, p[i], p[i + 1]) % 0x100 else 0)
  }

  function PathId(ports: Ports, p: seq<nat>): nat {
    PackPath(PathBytes(ports, p))
  }

  lemma UnpackPacked(bytes: seq<nat>, hop: nat)
    requires |bytes| == 4 && (forall i | 0 <= i < 4 :: bytes[i] < 0x100) && hop < 4
    ensures OutPort(PackPath(bytes), hop) == bytes[hop]
  {
    var w3 := bytes[3];
    var w2 := bytes[2] + 0x100 * w3;
    var w1 := bytes[1] + 0x100 * w2;
    SplitByte(bytes[0], w1);
    SplitByte(bytes[1], w2);
    SplitByte(bytes[2], w3);
    if hop >= 2 {
      assert OutPort(PackPath(bytes), hop) == OutPort(w1, hop - 1) == OutPort(w2, hop - 2);
      assert hop == 3 ==> OutPort(w2, 1) == OutPort(w3, 0);
    }
  }

  lemma SplitByte(low: nat, high: nat)
    requires low < 0x100
    ensures (low + 0x100 * high) % 0x100 == low && (low + 0x100 * high) / 0x100 == high
  {}

  /** The identifier gives back the output port of every hop of its path. */
  lemma PathIdDecodes(ports: Ports, p: seq<nat>, hop: nat)
    requires hop < 4 && hop + 1 < |p|
    requires Port(ports, p[hop], p[hop + 1]) < 0x100
    ensures OutPort(PathId(ports, p), hop) == Port(ports, p[hop], p[hop + 1])
  {
    var bytes := PathBytes(ports, p);
    UnpackPacked(bytes, hop);
    assert bytes[hop] == Port(ports, p[hop], p[hop + 1]) % 0x100;
  }

  /** Ports fit a byte and tell the neighbours of a node apart. */
  ghost predicate GoodPorts(net: Net, ports: Ports) {
    && (forall a, b | (a, b) in net.links :: Port(ports, a, b) < 0x100)
    && (forall a, b, c | (a, b) in net.links && (a, c) in net.links ::
          Port(ports, a, b) == Port(ports, a, c) ==> b == c)
  }

  lemma SameIdSameBytes(ports: Ports, p: seq<nat>, q: seq<nat>)
    requires PathId(ports, p) == PathId(ports, q)
    ensures PathBytes(ports, p) == PathBytes(ports, q)
  {
    forall i | 0 <= i < 4
      ensures PathBytes(ports, p)[i] == PathBytes(ports, q)[i]
    {
      UnpackPacked(PathBytes(ports, p), i);
      UnpackPacked(PathBytes(ports, q), i);
    }
  }

  /** Then no two paths of the same length from one source share an identifier. */
  lemma PathIdsDiffer(net: Net, ports: Ports, p: seq<nat>, q: seq<nat>, t: nat)
    requires GoodPorts(net, ports) && IsForwarding(net, p, t) && IsForwarding(net, q, t)
    requires p[0] == q[0] && |p| == |q| <= 5 && PathId(ports, p) == PathId(ports, q)
    ensures p == q
  {
    SameIdSameBytes(ports, p, q);
    forall i | 0 <= i < |p| - 1
      ensures (p[i], p[i + 1]) in net.links && (q[i], q[i + 1]) in net.links
    {
      assert IsNextHop(net, p[i], p[i + 1], t) && IsNextHop(net, q[i], q[i + 1], t);
    }
    SameUpTo(net, ports, p, q, |p| - 1);
    assert p[..|p|] == p && q[..|p|] == q;
  }

  ghost predicate OverLinks(net: Net, p: seq<nat>) {
    forall i | 0 <= i < |p| - 1 :: (p[i], p[i + 1]) in net.links
  }

  lemma SameUpTo(net: Net, ports: Ports, p: seq<nat>, q: seq<nat>, k: nat)
    requires GoodPorts(net, ports) && OverLinks(net, p) && OverLinks(net, q)
    requires k < |p| == |q| <= 5 && p[0] == q[0] && PathBytes(ports, p) == PathBytes(ports, q)
    ensures p[..k + 1] == q[..k + 1]
  {
    if k > 0 {
      var j := k - 1;
      SameUpTo(net, ports, p, q, j);
      assert p[j] == p[..k][j] && q[j] == q[..k][j];
      assert Port(ports, p[j], p[j + 1]) < 0x100 && Port(ports, q[j], q[j + 1]) < 0x100;
      assert PathBytes(ports, p)[j] == PathBytes(ports, q)[j];
    }
  }

  // ------------------------------------------------- shortest ToR-to-ToR paths

  ghost predicate IsShortest(net: Net, p: seq<nat>, s: nat, t: nat) {
    IsWalk(net, p, t) && p[0] == s && IsDistance(net, s, t, |p| - 1)
  }

  /** A path that follows next hops from s all the way to t. */
  ghost predicate IsPath(net: Net, p: seq<nat>, s: nat, t: nat) {
    IsForwarding(net, p, t) && p[0] == s && Last(p) == t
  }

  /** Following next hops to the end and being a shortest walk are the same. */
  lemma ShortestIsPath(net: Net, p: seq<nat>, s: nat, t: nat)
    requires net.Valid() && t < net.size
    ensures IsShortest(net, p, s, t) <==> Reaches(net, s, t) && IsPath(net, p, s, t)
  {
    if IsShortest(net, p, s, t) {
      assert HasWalk(net, s, t, |p| - 1);
      ShortestFollows(net, p, s, t);
    }
    if Reaches(net, s, t) && IsPath(net, p, s, t) {
      PathIsShortest(net, p, s, t);
    }
  }

  lemma ShortestFollows(net: Net, p: seq<nat>, s: nat, t: nat)
    requires net.Valid() && t < net.size && IsShortest(net, p, s, t)
    ensures IsPath(net, p, s, t)
  {
    if |p| > 1 {
      SecondIsNextHop(net, p, t);
      ShortestFollows(net, p[1..], p[1], t);
      forall i | 0 <= i < |p| - 1
        ensures IsNextHop(net, p[i], p[i + 1], t)
      {
        if i > 0 {
          assert IsNextHop(net, p[1..][i - 1], p[1..][i - 1 + 1], t);
        }
      }
    }
  }

  lemma PathIsShortest(net: Net, p: seq<nat>, s: nat, t: nat)
    requires net.Valid() && t < net.size && Reaches(net, s, t) && IsPath(net, p, s, t)
    ensures IsShortest(net, p, s, t)
  {
    ForwardingArrives(net, p, t);
    HostIsAtZero(net, t);
    if |p| == 1 {
      assert p == [t];
    } else {
      assert IsNextHop(net, p[0], p[0 + 1], t);
      var q := p[1..];
      forall i | 0 <= i < |q| - 1
        ensures IsNextHop(net, q[i], q[i + 1], t)
      {
        assert IsNextHop(net, p[i + 1], p[i + 1 + 1], t);
      }
      PathIsShortest(net, q, p[1], t);
    }
  }

  // ----------------------------------------------------- single-homed hosts

  /** h hangs off the switch t and off no other node. */
  ghost predicate Homed(net: Net, h: nat, t: nat) {
    net.Host(h) && net.Switch(t) && forall x :: (x, h) in net.links <==> x == t
  }

  lemma WalkToHomeExtends(net: Net, p: seq<nat>, h: nat, t: nat)
    requires net.Valid() && Homed(net, h, t) && IsWalk(net, p, t) && p[0] != h
    ensures IsWalk(net, p + [h], h)
  {
    if |p| > 1 {
      assert p[1] != h;
      WalkToHomeExtends(net, p[1..], h, t);
      assert (p + [h])[1..] == p[1..] + [h];
    } else {
      assert p == [t] && (p + [h])[1..] == [h];
    }
  }

  lemma WalkToHostPassesHome(net: Net, p: seq<nat>, h: nat, t: nat)
    requires net.Valid() && Homed(net, h, t) && IsWalk(net, p, h) && p[0] != h
    ensures |p| > 1 && IsWalk(net, p[..|p| - 1], t)
  {
    if |p| == 2 {
      assert p[..1] == [t];
    } else {
      assert |p| > 2;
      WalkToHostPassesHome(net, p[1..], h, t);
      var q := p[..|p| - 1];
      assert q[1..] == p[1..][..|p| - 2];
    }
  }

  lemma DistViaHome(net: Net, x: nat, h: nat, t: nat)
    requires net.Valid() && Homed(net, h, t) && x != h
    ensures Reaches(net, x, h) <==> Reaches(net, x, t)
    ensures Reaches(net, x, h) ==> Dist(net, x, h) == Dist(net, x, t) + 1
  {
    forall d: nat | HasWalk(net, x, t, d)
      ensures HasWalk(net, x, h, d + 1)
    {
      var p :| IsWalk(net, p, t) && p[0] == x && |p| == d + 1;
      WalkToHomeExtends(net, p, h, t);
      assert (p + [h])[0] == x && |p + [h]| == d + 2;
    }
    forall d: nat | HasWalk(net, x, h, d)
      ensures d > 0 && HasWalk(net, x, t, d - 1)
    {
      var p :| IsWalk(net, p, h) && p[0] == x && |p| == d + 1;
      WalkToHostPassesHome(net, p, h, t);
      assert p[..|p| - 1][0] == x;
    }
    if Reaches(net, x, t) {
      var d := Dist(net, x, t);
      assert IsDistance(net, x, t, d);
      assert HasWalk(net, x, h, d + 1);
      var e := Dist(net, x, h);
      assert IsDistance(net, x, h, e) && HasWalk(net, x, t, e - 1);
    }
    if Reaches(net, x, h) {
      var e := Dist(net, x, h);
      assert HasWalk(net, x, h, e) && HasWalk(net, x, t, e - 1);
    }
  }

  /** Away from the home switch, the next hops towards the host are those towards
      the switch; at the switch, the host is the only one. */
  lemma NextHopsToHome(net: Net, x: nat, y: nat, h: nat, t: nat)
    requires net.Valid() && Homed(net, h, t) && x != h
    ensures x != t ==> (IsNextHop(net, x, y, h) <==> IsNextHop(net, x, y, t))
    ensures x == t ==> (IsNextHop(net, x, y, h) <==> y == h)
  {
    HostIsAtZero(net, h);
    HostIsAtZero(net, t);
    DistViaHome(net, x, h, t);
    if y != h {
      DistViaHome(net, y, h, t);
    }
    if x == t && y == h {
      assert (x, y) in net.links;
    }
  }

  // ------------------------------------------------------- the enumeration

  function Hops(routes: Routing.Routes, x: nat, h: nat): seq<nat> {
    if (x, h) in routes then routes[(x, h)] else []
  }

  /** The fixed inputs of one enumeration: the paths from s to the switch t are
      read off the routes towards a host h below t. */
  datatype Job = Job(net: Net, routes: Routing.Routes, ports: Ports, s: nat, t: nat, h: nat) {
    ghost predicate Valid() {
      && net.Valid() && Homed(net, h, t) && Routing.RoutesTo(net, routes, h)
      && s < net.size && s != t && s != h && Reaches(net, s, t)
    }

    ghost function Length(): nat
      requires Valid()
    {
      Dist(net, s, t)
    }

    /** q is the part of a path that the enclosing loops have fixed. */
    ghost predicate Prefix(q: seq<nat>)
      requires Valid()
    {
      && IsForwarding(net, q, t) && q[0] == s
      && (forall x | x in q :: x != h)
      && Reaches(net, Last(q), t)
    }

    /** done has gained exactly the paths that continue q through one of next. */
    ghost predicate Added(before: set<seq<nat>>, done: set<seq<nat>>, q: seq<nat>, next: seq<nat>) {
      forall p :: p in done <==>
        p in before || (IsPath(net, p, s, t) && q <= p && |q| < |p| && p[|q|] in next)
    }

    ghost function Entries(done: set<seq<nat>>): set<(nat, nat)>
      requires Valid()
    {
      set p | p in done :: (PathId(ports, p), Length())
    }

    /** What is registered is done, and the buffer holds nothing past the length. */
    ghost predicate Consistent(paths: set<(nat, nat)>, done: set<seq<nat>>, buffer: seq<nat>)
      requires Valid()
    {
      && paths == Entries(done) && |buffer| == 4
      && forall i | 0 <= i < 4 && i >= Length() :: buffer[i] == 0
    }
  }

  /** A prefix is as long as it has come closer, and can only be continued
      through the next hops the table lists. */
  lemma PrefixLength(job: Job, q: seq<nat>)
    requires job.Valid() && job.Prefix(q)
    ensures |q| - 1 + Dist(job.net, Last(q), job.t) == job.Length()
  {
    ForwardingArrives(job.net, q, job.t);
  }

  lemma TableLists(job: Job, x: nat)
    requires job.Valid() && x != job.h && Reaches(job.net, x, job.t)
    ensures NoRepeats(Hops(job.routes, x, job.h))
    ensures x == job.t ==> Hops(job.routes, x, job.h) == [job.h]
    ensures x != job.t ==>
      forall y :: y in Hops(job.routes, x, job.h) <==> IsNextHop(job.net, x, y, job.t)
  {
    DistViaHome(job.net, x, job.h, job.t);
    var hops := Hops(job.routes, x, job.h);
    assert (x, job.h) in job.routes;
    forall y: nat
      ensures x != job.t ==> (y in hops <==> IsNextHop(job.net, x, y, job.t))
      ensures x == job.t ==> (y in hops <==> y == job.h)
    {
      NextHopsToHome(job.net, x, y, job.h, job.t);
      assert y in job.routes[(x, job.h)] <==> IsNextHop(job.net, x, y, job.h);
    }
    if x == job.t {
      Singleton(hops, job.h);
    }
  }

  lemma Singleton(s: seq<nat>, x: nat)
    requires NoRepeats(s) && forall y :: y in s <==> y == x
    ensures s == [x]
  {
    NoRepeatsCount(s);
    assert x in s && Elements(s) == {x};
  }

  /** The test of the enumeration: a node's only next hop is t exactly when the
      node is one hop from t. */
  lemma OneHopTest(job: Job, x: nat)
    requires job.Valid() && x != job.h && Reaches(job.net, x, job.t)
    ensures Hops(job.routes, x, job.h) == [job.t] <==> Dist(job.net, x, job.t) == 1
  {
    TableLists(job, x);
    HostIsAtZero(job.net, job.t);
    var hops := Hops(job.routes, x, job.h);
    if hops == [job.t] {
      assert job.t in hops;
    }
    if Dist(job.net, x, job.t) == 1 {
      NextHopExists(job.net, x, job.t);
      forall y: nat
        ensures y in hops <==> y == job.t
      {
        if IsNextHop(job.net, x, y, job.t) {
          ZeroIsHost(job.net, y, job.t);
        }
        NextHopExists(job.net, x, job.t);
        var z :| IsNextHop(job.net, x, z, job.t);
        ZeroIsHost(job.net, z, job.t);
      }
      Singleton(hops, job.t);
    }
  }

  lemma ForwardingExtends(net: Net, q: seq<nat>, y: nat, t: nat)
    requires IsForwarding(net, q, t) && IsNextHop(net, Last(q), y, t)
    ensures IsForwarding(net, q + [y], t)
  {
    var r := q + [y];
    forall i | 0 <= i < |r| - 1
      ensures IsNextHop(net, r[i], r[i + 1], t)
    {
      if i < |q| - 1 {
        assert IsNextHop(net, q[i], q[i + 1], t);
      }
    }
  }

  lemma ExtendPrefix(job: Job, q: seq<nat>, y: nat)
    requires job.Valid() && job.Prefix(q) && Last(q) != job.t && y in Hops(job.routes, Last(q), job.h)
    ensures y != job.h && Reaches(job.net, y, job.t) && job.Prefix(q + [y])
    ensures Dist(job.net, Last(q), job.t) == Dist(job.net, y, job.t) + 1
  {
    PrefixLength(job, q);
    TableLists(job, Last(q));
    assert IsNextHop(job.net, Last(q), y, job.t);
    ForwardingExtends(job.net, q, y, job.t);
    assert y != job.h;
  }

  /** One hop before t there is exactly one way to finish the path. */
  lemma FinishPath(job: Job, q: seq<nat>, p: seq<nat>)
    requires job.Valid() && job.Prefix(q) && Dist(job.net, Last(q), job.t) == 1
    ensures IsPath(job.net, p, job.s, job.t) && q <= p <==> p == q + [job.t]
  {
    PrefixLength(job, q);
    assert Last(q) in q;
    OneHopTest(job, Last(q));
    HostIsAtZero(job.net, job.t);
    assert job.t in Hops(job.routes, Last(q), job.h);
    ExtendPrefix(job, q, job.t);
    if IsPath(job.net, p, job.s, job.t) && q <= p {
      ForwardingArrives(job.net, p, job.t);
      assert p == q + [job.t];
    }
  }

  ghost predicate PortsAlong(ports: Ports, outputs: seq<nat>, p: seq<nat>) {
    |p| == |outputs| + 1 && forall i | 0 <= i < |outputs| :: outputs[i] == Port(ports, p[i], p[i + 1])
  }

  lemma OneMorePort(ports: Ports, outputs: seq<nat>, p: seq<nat>, y: nat)
    requires PortsAlong(ports, outputs, p)
    ensures PortsAlong(ports, outputs + [Port(ports, Last(p), y)], p + [y])
  {}

  /** Writes the ports of the path q + [t] over the front of the shared buffer
      and registers the identifier the buffer then spells. */
  method RegisterPath(job: Job, buffer: array<nat>, outputs: seq<nat>, paths: set<(nat, nat)>,
                      ghost q: seq<nat>, ghost done: set<seq<nat>>)
    returns (paths': set<(nat, nat)>, ghost done': set<seq<nat>>)
    requires job.Valid() && job.Prefix(q) && Dist(job.net, Last(q), job.t) == 1
    requires PortsAlong(job.ports, outputs, q + [job.t]) && |q| <= 4 && buffer.Length == 4
    requires job.Consistent(paths, done, buffer[..])
    modifies buffer
    ensures done' == done + {q + [job.t]}
    ensures job.Consistent(paths', done', buffer[..])
  {
    ghost var p := q + [job.t];
    PrefixLength(job, q);
    WritePorts(buffer, outputs);
    assert buffer[..] == PathBytes(job.ports, p);
    paths' := paths + {(PackPath(buffer[..]), |outputs|)};
    done' := done + {p};
    EntriesGrow(job, done, p);
  }

  method WritePorts(buffer: array<nat>, outputs: seq<nat>)
    requires |outputs| <= 4 == buffer.Length
    modifies buffer
    ensures forall j | 0 <= j < 4 :: buffer[j] == if j < |outputs| then outputs[j] % 0x100 else old(buffer[j])
  {
    for i := 0 to |outputs|
      invariant forall j | 0 <= j < 4 :: buffer[j] == if j < i then outputs[j] % 0x100 else old(buffer[j])
    {
      buffer[i] := outputs[i] % 0x100;
    }
  }

  lemma EntriesGrow(job: Job, done: set<seq<nat>>, p: seq<nat>)
    requires job.Valid()
    ensures job.Entries(done + {p}) == job.Entries(done) + {(PathId(job.ports, p), job.Length())}
  {}

  /** Where a loop of the enumeration can stand: at the end x of a prefix that is
      still more than one hop from t. When s itself is one hop from t, the loops
      run through s, t and h without registering anything. */
  ghost predicate LoopAt(job: Job, q: seq<nat>, x: nat)
    requires job.Valid()
  {
    if job.Length() > 1 then job.Prefix(q) && Last(q) == x && x != job.t && Dist(job.net, x, job.t) > 1
    else (|q| == 1 && x == job.s) || (|q| == 2 && x == job.t) || (|q| == 3 && x == job.h)
  }

  /** The loop over the next hops of the node x that the enclosing loops reached
      along q. Three loops are nested; a path that needs a fifth node before t
      is where the source gives up. */
  method EnumerateFrom(job: Job, buffer: array<nat>, outputs: seq<nat>, x: nat, paths: set<(nat, nat)>,
                       ghost q: seq<nat>, ghost done: set<seq<nat>>)
    returns (ok: bool, paths': set<(nat, nat)>, ghost done': set<seq<nat>>)
    requires job.Valid() && LoopAt(job, q, x)
    requires |outputs| + 1 == |q| <= 3 && buffer.Length == 4
    requires job.Length() > 1 ==> PortsAlong(job.ports, outputs, q)
    requires job.Consistent(paths, done, buffer[..])
    modifies buffer
    ensures ok <==> job.Length() <= 4
    ensures ok && job.Length() > 1 ==> job.Added(done, done', q, Hops(job.routes, x, job.h))
    ensures job.Length() == 1 ==> paths' == paths && done' == done
    ensures job.Consistent(paths', done', buffer[..])
    decreases 3 - |q|, 1
  {
    var hops := Hops(job.routes, x, job.h);
    paths', done' := paths, done;
    LoopHops(job, q, x);
    for i := 0 to |hops|
      invariant job.Length() > 1 ==> job.Added(done, done', q, hops[..i])
      invariant job.Length() == 1 ==> paths' == paths && done' == done
      invariant job.Consistent(paths', done', buffer[..])
      invariant i > 0 ==> job.Length() <= 4
    {
      ghost var mid := done';
      ok, paths', done' := TryHop(job, buffer, outputs, x, hops[i], paths', q, done');
      if !ok {
        return;
      }
      if job.Length() > 1 {
        OneMoreHop(job, done, mid, done', q, hops, i);
      }
    }
    assert hops[..|hops|] == hops;
    ok := true;
  }

  /** The body of such a loop for the next hop y of x: register the path if y is
      one hop from t, give up after the third level, or loop over y's next hops. */
  method TryHop(job: Job, buffer: array<nat>, outputs: seq<nat>, x: nat, y: nat, paths: set<(nat, nat)>,
                ghost q: seq<nat>, ghost done: set<seq<nat>>)
    returns (ok: bool, paths': set<(nat, nat)>, ghost done': set<seq<nat>>)
    requires job.Valid() && LoopAt(job, q, x) && y in Hops(job.routes, x, job.h)
    requires |outputs| + 1 == |q| <= 3 && buffer.Length == 4
    requires job.Length() > 1 ==> PortsAlong(job.ports, outputs, q)
    requires job.Consistent(paths, done, buffer[..])
    modifies buffer
    ensures ok <==> job.Length() <= 4
    ensures ok && job.Length() > 1 ==> Through(job, done, done', q + [y])
    ensures job.Length() == 1 ==> paths' == paths && done' == done
    ensures job.Consistent(paths', done', buffer[..])
    decreases 3 - |q|, 0
  {
    ghost var r := q + [y];
    var out := outputs + [Port(job.ports, x, y)];
    var next := Hops(job.routes, y, job.h);
    Step(job, q, x, y);
    if job.Length() > 1 {
      OneMorePort(job.ports, outputs, q, y);
    }
    if |next| == 1 && next[0] == job.t {
      OneMorePort(job.ports, out, r, job.t);
      paths', done' := RegisterPath(job, buffer, out + [Port(job.ports, y, job.t)], paths, r, done);
      ok := true;
      FinishedThrough(job, done, r);
    } else if |outputs| == 2 {
      return false, paths, done;
    } else {
      ok, paths', done' := EnumerateFrom(job, buffer, out, y, paths, r, done);
      if ok && job.Length() > 1 {
        ExploredThrough(job, done, done', r);
      }
    }
  }

  /** done has gained exactly the paths that continue r. */
  ghost predicate Through(job: Job, before: set<seq<nat>>, done: set<seq<nat>>, r: seq<nat>) {
    forall p :: p in done <==> p in before || (IsPath(job.net, p, job.s, job.t) && r <= p)
  }

  /** The list a loop runs over: not empty, unless the enumeration went past t. */
  lemma LoopHops(job: Job, q: seq<nat>, x: nat)
    requires job.Valid() && LoopAt(job, q, x)
    ensures job.Length() > 1 ==> Hops(job.routes, x, job.h) != []
    ensures job.Length() == 0 ==> false
    ensures x == job.h ==> Hops(job.routes, x, job.h) == []
  {
    if job.Length() == 0 {
      ZeroIsHost(job.net, job.s, job.t);
    }
    if job.Length() > 1 {
      assert x in q;
      TableLists(job, x);
      NextHopExists(job.net, x, job.t);
    }
  }

  /** What the body of a loop finds for one next hop y of x. */
  lemma Step(job: Job, q: seq<nat>, x: nat, y: nat)
    requires job.Valid() && LoopAt(job, q, x) && y in Hops(job.routes, x, job.h)
    ensures Hops(job.routes, y, job.h) == [job.t] ==>
      && job.Length() > 1 && job.Prefix(q + [y]) && Dist(job.net, y, job.t) == 1 && job.Length() == |q| + 1
    ensures Hops(job.routes, y, job.h) != [job.t] ==>
      && LoopAt(job, q + [y], y)
      && (job.Length() > 1 ==> job.Length() > |q| + 1)
  {
    if job.Length() > 1 {
      ExtendPrefix(job, q, y);
      PrefixLength(job, q + [y]);
      OneHopTest(job, y);
      HostIsAtZero(job.net, job.t);
    } else if x == job.s {
      TableLists(job, x);
      ZeroIsHost(job.net, y, job.t);
      TableLists(job, y);
    } else if x == job.t {
      HostIsAtZero(job.net, job.t);
      TableLists(job, x);
    }
  }

  lemma FinishedThrough(job: Job, before: set<seq<nat>>, r: seq<nat>)
    requires job.Valid() && job.Prefix(r) && Dist(job.net, Last(r), job.t) == 1
    ensures Through(job, before, before + {r + [job.t]}, r)
  {
    forall p
      ensures p == r + [job.t] <==> IsPath(job.net, p, job.s, job.t) && r <= p
    {
      FinishPath(job, r, p);
    }
  }

  lemma ExploredThrough(job: Job, before: set<seq<nat>>, done: set<seq<nat>>, r: seq<nat>)
    requires job.Valid() && job.Prefix(r) && Last(r) != job.t
    requires job.Added(before, done, r, Hops(job.routes, Last(r), job.h))
    ensures Through(job, before, done, r)
  {
    assert Last(r) in r;
    TableLists(job, Last(r));
    forall p | IsPath(job.net, p, job.s, job.t) && r <= p
      ensures |r| < |p| && p[|r|] in Hops(job.routes, Last(r), job.h)
    {
      assert |r| < |p|;
      assert IsNextHop(job.net, p[|r| - 1], p[|r| - 1 + 1], job.t);
    }
  }

  lemma OneMoreHop(job: Job, before: set<seq<nat>>, mid: set<seq<nat>>, done: set<seq<nat>>,
                   q: seq<nat>, hops: seq<nat>, i: nat)
    requires i < |hops| && job.Added(before, mid, q, hops[..i]) && Through(job, mid, done, q + [hops[i]])
    ensures job.Added(before, done, q, hops[..i + 1])
  {
    assert hops[..i + 1] == hops[..i] + [hops[i]];
    forall p: seq<nat>
      ensures q + [hops[i]] <= p <==> q <= p && |q| < |p| && p[|q|] == hops[i]
    {}
  }

  /** paths holds the identifier and the hop count of every shortest path from s
      to t, and nothing else. */
  ghost predicate AllShortest(net: Net, ports: Ports, s: nat, t: nat, paths: set<(nat, nat)>) {
    forall e :: e in paths <==> exists p :: IsShortest(net, p, s, t) && e == (PathId(ports, p), |p| - 1)
  }

  /** The whole enumeration for one destination host: it gives up exactly when
      the ToRs are more than four hops apart, registers nothing for adjacent ToRs
      and otherwise registers exactly the shortest paths. */
  method EnumeratePaths(job: Job) returns (ok: bool, paths: set<(nat, nat)>)
    requires job.Valid()
    ensures ok <==> job.Length() <= 4
    ensures ok && job.Length() >= 2 ==> AllShortest(job.net, job.ports, job.s, job.t, paths)
    ensures job.Length() == 1 ==> paths == {}
  {
    var buffer := new nat[4](_ => 0);
    ghost var done, q: seq<nat> := {}, [job.s];
    assert job.Length() != 0 by {
      LoopHops(job, q, job.s);
    }
    assert job.Entries({}) == {};
    ok, paths, done := EnumerateFrom(job, buffer, [], job.s, {}, q, done);
    if ok && job.Length() >= 2 {
      AllFound(job, paths, done);
    }
  }

  lemma AllFound(job: Job, paths: set<(nat, nat)>, done: set<seq<nat>>)
    requires job.Valid() && paths == job.Entries(done)
    requires job.Added({}, done, [job.s], Hops(job.routes, job.s, job.h))
    ensures AllShortest(job.net, job.ports, job.s, job.t, paths)
  {
    forall p
      ensures p in done <==> IsShortest(job.net, p, job.s, job.t)
      ensures p in done ==> |p| - 1 == job.Length()
    {
      FoundIsShortest(job, done, p);
    }
  }

  lemma FoundIsShortest(job: Job, done: set<seq<nat>>, p: seq<nat>)
    requires job.Valid() && job.Added({}, done, [job.s], Hops(job.routes, job.s, job.h))
    ensures p in done <==> IsShortest(job.net, p, job.s, job.t)
    ensures p in done ==> |p| - 1 == job.Length()
  {
    ShortestIsPath(job.net, p, job.s, job.t);
    if IsPath(job.net, p, job.s, job.t) {
      PathStarts(job, p);
    }
  }

  lemma PathStarts(job: Job, p: seq<nat>)
    requires job.Valid() && IsPath(job.net, p, job.s, job.t)
    ensures [job.s] <= p && |p| > 1 && p[1] in Hops(job.routes, job.s, job.h) && |p| - 1 == job.Length()
  {
    TableLists(job, job.s);
    ForwardingArrives(job.net, p, job.t);
    HostIsAtZero(job.net, job.t);
    assert |p| > 1;
    assert IsNextHop(job.net, p[0], p[0 + 1], job.t);
  }

  /** homes gives every host that a link attaches to a switch such a switch, and hosts
      lists the hosts. */
  predicate HomesOf(links: seq<(nat, nat)>, isSwitch: seq<bool>, hosts: seq<nat>, homes: map<nat, nat>) {
    && (forall h | h in homes :: h in hosts && (h, homes[h]) in links)
    && (forall h | h in hosts :: h in homes)
    && (forall e | e in links && Attaches(e, isSwitch) :: e.0 in homes)
  }

  predicate Attaches(e: (nat, nat), isSwitch: seq<bool>) {
    e.0 < |isSwitch| && e.1 < |isSwitch| && !isSwitch[e.0] && isSwitch[e.1]
  }

  /** The ToR of every host, read off the link list. */
  method FindHomes(links: seq<(nat, nat)>, isSwitch: seq<bool>) returns (hosts: seq<nat>, homes: map<nat, nat>)
    ensures HomesOf(links, isSwitch, hosts, homes)
    ensures forall h | h in homes :: Attaches((h, homes[h]), isSwitch)
  {
    hosts, homes := [], map[];
    for i := 0 to |links|
      invariant HomesOf(links[..i], isSwitch, hosts, homes)
      invariant forall h | h in homes :: Attaches((h, homes[h]), isSwitch)
    {
      var e := links[i];
      assert links[..i + 1] == links[..i] + [e];
      if Attaches(e, isSwitch) {
        hosts := hosts + [e.0];
        homes := homes[e.0 := e.1];
      }
    }
    assert links[..|links|] == links;
  }

  /** h is a host that s has a route to and that is below another switch. */
  ghost predicate Served(net: Net, homes: map<nat, nat>, h: nat, s: nat) {
    h in homes && homes[h] != s && Reaches(net, s, h)
  }

  ghost function ServedTors(net: Net, homes: map<nat, nat>, hosts: seq<nat>, s: nat): set<nat> {
    set h | h in hosts && Served(net, homes, h, s) :: homes[h]
  }

  /** Adjacent ToRs have no row, every other ToR with a served host has one that
      holds all shortest paths to it. */
  ghost predicate TableOf(net: Net, ports: Ports, tors: set<nat>, s: nat, table: map<nat, set<(nat, nat)>>) {
    && table.Keys <= tors
    && (forall t | t in table :: IsRow(net, ports, s, t, table[t]))
    && (forall t | t in tors && t !in table :: Reaches(net, s, t) && Dist(net, s, t) == 1)
  }

  ghost predicate IsRow(net: Net, ports: Ports, s: nat, t: nat, row: set<(nat, nat)>) {
    Reaches(net, s, t) && 2 <= Dist(net, s, t) <= 4 && AllShortest(net, ports, s, t, row)
  }

  /** All destinations of one source ToR. Hosts below the same ToR register the
      same paths, so every row is the set of shortest paths to its ToR. */
  method ConfigureSource(net: Net, routes: Routing.Routes, ports: Ports, homes: map<nat, nat>,
                         hosts: seq<nat>, s: nat)
    returns (ok: bool, table: map<nat, set<(nat, nat)>>)
    requires net.Valid() && net.Switch(s)
    requires forall h | h in hosts :: h in homes && Homed(net, h, homes[h]) && Routing.RoutesTo(net, routes, h)
    ensures ok <==> forall t | t in ServedTors(net, homes, hosts, s) ::
      Reaches(net, s, t) && Dist(net, s, t) <= 4
    ensures ok ==> TableOf(net, ports, ServedTors(net, homes, hosts, s), s, table)
  {
    table := map[];
    for i := 0 to |hosts|
      invariant TableOf(net, ports, ServedTors(net, homes, hosts[..i], s), s, table)
    {
      var h := hosts[i];
      var t := homes[h];
      OneMoreHost(net, homes, hosts, i, s);
      DistViaHome(net, s, h, t);
      if (s, h) in routes && s != t {
        ok, table := AddRow(Job(net, routes, ports, s, t, h), table, ServedTors(net, homes, hosts[..i], s));
        if !ok {
          return;
        }
      }
    }
    assert hosts[..|hosts|] == hosts;
    ok := true;
  }

  /** The paths of one destination join the row of its ToR, which the first of
      them creates. */
  method AddRow(job: Job, table: map<nat, set<(nat, nat)>>, ghost tors: set<nat>)
    returns (ok: bool, table': map<nat, set<(nat, nat)>>)
    requires job.Valid() && TableOf(job.net, job.ports, tors, job.s, table)
    ensures ok <==> job.Length() <= 4
    ensures ok ==> TableOf(job.net, job.ports, tors + {job.t}, job.s, table')
  {
    var paths;
    table' := table;
    ok, paths := EnumeratePaths(job);
    LoopHops(job, [job.s], job.s);
    if ok && paths != {} {
      RowAdded(job.net, job.ports, tors, job.s, table, job.t, paths);
      table' := table[job.t := (if job.t in table then table[job.t] else {}) + paths];
    } else if ok && job.Length() > 1 {
      SomePath(job, paths);
    }
  }

  lemma RowAdded(net: Net, ports: Ports, tors: set<nat>, s: nat, table: map<nat, set<(nat, nat)>>, t: nat,
                 paths: set<(nat, nat)>)
    requires TableOf(net, ports, tors, s, table) && IsRow(net, ports, s, t, paths)
    ensures TableOf(net, ports, tors + {t}, s, table[t := (if t in table then table[t] else {}) + paths])
  {
    if t in table {
      SameRow(net, ports, s, t, table[t], paths);
      assert table[t] + paths == paths;
    } else {
      assert {} + paths == paths;
    }
  }

  lemma SomePath(job: Job, paths: set<(nat, nat)>)
    requires job.Valid() && AllShortest(job.net, job.ports, job.s, job.t, paths)
    ensures paths != {}
  {
    var d := Dist(job.net, job.s, job.t);
    assert IsDistance(job.net, job.s, job.t, d);
    var p :| IsWalk(job.net, p, job.t) && p[0] == job.s && |p| == d + 1;
    assert |p| - 1 == d;
    assert IsShortest(job.net, p, job.s, job.t);
    assert (PathId(job.ports, p), |p| - 1) in paths;
  }

  lemma OneMoreHost(net: Net, homes: map<nat, nat>, hosts: seq<nat>, i: nat, s: nat)
    requires i < |hosts|
    ensures ServedTors(net, homes, hosts[..i + 1], s) ==
      ServedTors(net, homes, hosts[..i], s) + if Served(net, homes, hosts[i], s) then {homes[hosts[i]]} else {}
    ensures hosts[i] in hosts
    ensures Served(net, homes, hosts[i], s) ==> homes[hosts[i]] in ServedTors(net, homes, hosts, s)
  {
    assert hosts[..i + 1] == hosts[..i] + [hosts[i]];
    var all, before := ServedTors(net, homes, hosts[..i + 1], s), ServedTors(net, homes, hosts[..i], s);
    forall t | t in before
      ensures t in all
    {
      var h :| h in hosts[..i] && Served(net, homes, h, s) && homes[h] == t;
      assert h in hosts[..i + 1];
    }
    assert hosts[i] in hosts[..i + 1];
  }

  lemma SameRow(net: Net, ports: Ports, s: nat, t: nat, row: set<(nat, nat)>, paths: set<(nat, nat)>)
    requires IsRow(net, ports, s, t, row) && IsRow(net, ports, s, t, paths)
    ensures row == paths
  {}
}
