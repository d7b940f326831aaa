/** The network as a value, walks in which hosts never forward, and the distance
    and the next hops towards a destination host. */
module Network {

  /** Nodes are 0 .. size-1; links holds both directions of every link that is up. */
  datatype Net = Net(size: nat, isSwitch: seq<bool>, links: set<(nat, nat)>) {
    ghost predicate Valid() {
      && |isSwitch| == size
      && (forall a, b :: (a, b) in links ==> a < size && b < size && (b, a) in links)
    }

    predicate Host(x: nat) {
      x < size && x < |isSwitch| && !isSwitch[x]
    }

    predicate Switch(x: nat) {
      x < |isSwitch| && isSwitch[x]
    }
  }

  function Last(p: seq<nat>): nat
    requires p != []
  {
    p[|p| - 1]
  }

  /** p leads over live links to h, and only switches stand between its ends. */
  ghost predicate IsWalk(net: Net, p: seq<nat>, h: nat) {
    && p != [] && Last(p) == h && p[0] < net.size
    && (|p| > 1 ==>
          && (p[0], p[1]) in net.links
          && (|p| > 2 ==> net.Switch(p[1]))
          && IsWalk(net, p[1..], h))
  }

  ghost predicate HasWalk(net: Net, x: nat, h: nat, d: nat) {
    exists p :: IsWalk(net, p, h) && p[0] == x && |p| == d + 1
  }

  ghost predicate Reaches(net: Net, x: nat, h: nat) {
    exists d :: HasWalk(net, x, h, d)
  }

  ghost predicate IsDistance(net: Net, x: nat, h: nat, d: nat) {
    HasWalk(net, x, h, d) && forall e: nat | e < d :: !HasWalk(net, x, h, e)
  }

  ghost function Dist(net: Net, x: nat, h: nat): (d: nat)
    requires Reaches(net, x, h)
    ensures IsDistance(net, x, h, d)
  {
    ShortestExists(net, x, h);
    var d :| IsDistance(net, x, h, d);
    d
  }

  lemma ShortestExists(net: Net, x: nat, h: nat)
    requires Reaches(net, x, h)
    ensures exists d :: IsDistance(net, x, h, d)
  {
    var d :| HasWalk(net, x, h, d);
    Shrink(net, x, h, d);
  }

  lemma Shrink(net: Net, x: nat, h: nat, d: nat)
    requires HasWalk(net, x, h, d)
    ensures exists e :: IsDistance(net, x, h, e)
  {
    if e: nat :| e < d && HasWalk(net, x, h, e) {
      Shrink(net, x, h, e);
    } else {
      assert IsDistance(net, x, h, d);
    }
  }

  /** The neighbours that may forward towards h and are one hop closer to it. */
  ghost predicate IsNextHop(net: Net, x: nat, y: nat, h: nat) {
    && (x, y) in net.links
    && (y == h || net.Switch(y))
    && Reaches(net, x, h) && Reaches(net, y, h)
    && Dist(net, y, h) + 1 == Dist(net, x, h)
  }

  lemma HostIsAtZero(net: Net, h: nat)
    requires h < net.size
    ensures Reaches(net, h, h) && Dist(net, h, h) == 0
  {
    assert IsWalk(net, [h], h) && [h][0] == h && |[h]| == 0 + 1;
    assert HasWalk(net, h, h, 0);
  }

  lemma ZeroIsHost(net: Net, x: nat, h: nat)
    requires Reaches(net, x, h) && Dist(net, x, h) == 0
    ensures x == h
  {
    var p :| IsWalk(net, p, h) && p[0] == x && |p| == 1;
  }

  lemma Prepend(net: Net, x: nat, p: seq<nat>, h: nat)
    requires net.Valid() && IsWalk(net, p, h) && (x, p[0]) in net.links
    requires |p| > 1 ==> net.Switch(p[0])
    ensures IsWalk(net, [x] + p, h)
  {
    var q := [x] + p;
    assert q[1..] == p;
  }

  /** Distances of neighbours differ by at most one, where the neighbour may forward. */
  lemma DistOfNeighbour(net: Net, x: nat, y: nat, h: nat)
    requires net.Valid() && h < net.size && (x, y) in net.links
    requires (y == h || net.Switch(y)) && Reaches(net, y, h)
    ensures Reaches(net, x, h) && Dist(net, x, h) <= Dist(net, y, h) + 1
  {
    HostIsAtZero(net, h);
    var d := Dist(net, y, h);
    var p :| IsWalk(net, p, h) && p[0] == y && |p| == d + 1;
    Prepend(net, x, p, h);
    assert HasWalk(net, x, h, d + 1) by {
      assert ([x] + p)[0] == x && |[x] + p| == d + 2;
    }
  }

  /** The second node of a shortest walk is a next hop. */
  lemma SecondIsNextHop(net: Net, p: seq<nat>, h: nat)
    requires net.Valid() && h < net.size && IsWalk(net, p, h)
    requires |p| > 1 && IsDistance(net, p[0], h, |p| - 1)
    ensures IsNextHop(net, p[0], p[1], h)
    ensures Dist(net, p[1], h) == |p| - 2
  {
    var x, y, q := p[0], p[1], p[1..];
    assert q[0] == y && HasWalk(net, y, h, |p| - 2);
    assert HasWalk(net, x, h, |p| - 1);
    assert |p| == 2 ==> y == h;
    DistOfNeighbour(net, x, y, h);
  }

  lemma NextHopExists(net: Net, x: nat, h: nat)
    requires net.Valid() && h < net.size && Reaches(net, x, h) && x != h
    ensures exists y :: IsNextHop(net, x, y, h)
  {
    var d := Dist(net, x, h);
    var p :| IsWalk(net, p, h) && p[0] == x && |p| == d + 1;
    SecondIsNextHop(net, p, h);
  }

  /** A packet path that takes any next hop at every node. */
  ghost predicate IsForwarding(net: Net, p: seq<nat>, h: nat) {
    p != [] && forall i | 0 <= i < |p| - 1 :: IsNextHop(net, p[i], p[i + 1], h)
  }

  /** Whatever next hops are chosen, every hop brings the packet one closer, so
      it is at h after exactly as many hops as its distance and never overruns. */
  lemma ForwardingArrives(net: Net, p: seq<nat>, h: nat)
    requires IsForwarding(net, p, h) && Reaches(net, p[0], h)
    ensures |p| - 1 <= Dist(net, p[0], h)
    ensures Reaches(net, Last(p), h) && Dist(net, Last(p), h) == Dist(net, p[0], h) - (|p| - 1)
    ensures |p| - 1 == Dist(net, p[0], h) ==> Last(p) == h
  {
    if |p| > 1 {
      var q := p[..|p| - 1];
      assert IsForwarding(net, q, h) by {
        forall i | 0 <= i < |q| - 1
          ensures IsNextHop(net, q[i], q[i + 1], h)
        {
          assert IsNextHop(net, p[i], p[i + 1], h);
        }
      }
      ForwardingArrives(net, q, h);
      assert IsNextHop(net, p[|p| - 2], p[|p| - 2 + 1], h);
    }
    if Dist(net, Last(p), h) == 0 {
      ZeroIsHost(net, Last(p), h);
    }
  }
}
