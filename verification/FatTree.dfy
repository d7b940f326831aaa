/** The fat-tree generator: its link list, and the distances and numbers of
    shortest paths between the ToRs of the network it describes. */
module FatTree {
  import opened Network
  import PathEnumeration
  import Routing
  import opened Sequences

  // -------------------------------------------------------- index arithmetic

  lemma IndexBound(i: nat, j: nat, n: nat, w: nat)
    requires i < n && j < w
    ensures i * w + j < n * w
  {
    assert (i + 1) * w <= n * w;
  }

  lemma IndexUnique(i: nat, j: nat, a: nat, b: nat, w: nat)
    requires j < w && b < w && i * w + j == a * w + b
    ensures i == a && j == b
  {
    if i < a {
      IndexBound(i, j, a, w);
    } else if a < i {
      IndexBound(a, b, i, w);
    }
  }

  // --------------------------------------------------------------- the tree

  /** half is k/2; perTor and perPod are the truncated products of half and
      half * half with the oversubscription. */
  datatype Tree = Tree(half: nat, perTor: nat, perPod: nat) {
    /** Truncation loses at least as much per ToR as per pod. */
    predicate Valid() {
      half > 0 && half * perTor <= perPod
    }

    function Pods(): nat { 2 * half }

    function Servers(): nat { perPod * Pods() }

    function FirstAgg(): nat { Servers() + Pods() * half }

    function FirstCore(): nat { FirstAgg() + Pods() * half }

    function Size(): nat { FirstCore() + half * half }

    function Server(p: nat, i: nat): nat { p * perTor + i }

    function Tor(i: nat, j: nat): nat { Servers() + (i * half + j) }

    function Agg(i: nat, l: nat): nat { FirstAgg() + (i * half + l) }

    function Core(l: nat, m: nat): nat { FirstCore() + (l * half + m) }
  }

  /** The per-ToR and per-pod server counts of an oversubscription of at least 1. */
  lemma TruncationIsValid(half: nat, oversubscription: real)
    requires half > 0 && oversubscription >= 1.0
    ensures Tree(half, (half as real * oversubscription).Floor,
                 (half as real * half as real * oversubscription).Floor).Valid()
    ensures (half as real * oversubscription).Floor >= half
  {
    var x := half as real * oversubscription;
    var n := x.Floor;
    assert x >= half as real;
    assert n as real <= x;
    assert half as real * n as real <= half as real * x;
    assert (half * n) as real == half as real * n as real;
    assert half as real * half as real * oversubscription == half as real * x;
  }

  ghost predicate IsServerLink(tree: Tree, e: (nat, nat), p: nat, i: nat) {
    p < tree.Pods() * tree.half && i < tree.perTor && e == (tree.Server(p, i), tree.Servers() + p)
  }

  ghost predicate IsTorLink(tree: Tree, e: (nat, nat), i: nat, j: nat, l: nat) {
    i < tree.Pods() && j < tree.half && l < tree.half && e == (tree.Tor(i, j), tree.Agg(i, l))
  }

  ghost predicate IsCoreLink(tree: Tree, e: (nat, nat), i: nat, l: nat, m: nat) {
    i < tree.Pods() && l < tree.half && m < tree.half && e == (tree.Agg(i, l), tree.Core(l, m))
  }

  ghost predicate IsLink(tree: Tree, e: (nat, nat)) {
    || (exists p, i :: IsServerLink(tree, e, p, i))
    || (exists i, j, l :: IsTorLink(tree, e, i, j, l))
    || (exists i, l, m :: IsCoreLink(tree, e, i, l, m))
  }

  // ---------------------------------------------------------- the generator

  predicate Before(e: (nat, nat), f: (nat, nat)) {
    e.0 < f.0 || (e.0 == f.0 && e.1 < f.1)
  }

  /** The generator writes its links in strictly increasing order. */
  ghost predicate Ascending(links: seq<(nat, nat)>) {
    forall a, b | 0 <= a < b < |links| :: Before(links[a], links[b])
  }

  ghost predicate AllBefore(links: seq<(nat, nat)>, e: (nat, nat)) {
    forall f | f in links :: Before(f, e)
  }

  lemma AscendingAppend(links: seq<(nat, nat)>, e: (nat, nat))
    requires Ascending(links) && AllBefore(links, e)
    ensures Ascending(links + [e])
    ensures forall f | Before(e, f) :: AllBefore(links + [e], f)
  {}

  lemma RowEnds(i: nat, w: nat)
    ensures (i + 1) * w == i * w + w
    ensures 0 * w == 0
  {}

  /** Links from the servers to their ToRs. */
  method WriteServerLinks(tree: Tree) returns (links: seq<(nat, nat)>, numLink: nat)
    ensures Ascending(links) && numLink == |links|
    ensures forall f | f in links :: exists p, i :: IsServerLink(tree, f, p, i)
    ensures forall p: nat, i: nat, f: (nat, nat) {:trigger IsServerLink(tree, f, p, i)} |
      IsServerLink(tree, f, p, i) :: f in links
    ensures forall f | f in links :: f.0 < tree.Server(tree.Pods() * tree.half, 0)
  {
    links, numLink := [], 0;
    RowEnds(0, tree.perTor);
    var torTotal := tree.Pods() * tree.half;
    for p := 0 to torTotal
      invariant Ascending(links) && numLink == |links|
      invariant forall f | f in links :: f.0 < tree.Server(p, 0)
      invariant forall f | f in links :: exists p': nat, i': nat :: IsServerLink(tree, f, p', i')
      invariant forall p': nat, i': nat, f: (nat, nat) {:trigger IsServerLink(tree, f, p', i')} |
        IsServerLink(tree, f, p', i') && p' < p :: f in links
    {
      for i := 0 to tree.perTor
        invariant Ascending(links) && numLink == |links|
        invariant forall f | f in links :: f.0 < tree.Server(p, i)
        invariant forall f | f in links :: exists p': nat, i': nat :: IsServerLink(tree, f, p', i')
        invariant forall p': nat, i': nat, f: (nat, nat) {:trigger IsServerLink(tree, f, p', i')} |
          IsServerLink(tree, f, p', i') && (p' < p || (p' == p && i' < i)) :: f in links
      {
        var e := (p * tree.perTor + i, tree.Servers() + p);
        assert IsServerLink(tree, e, p, i);
        AscendingAppend(links, e);
        links := links + [e];
        numLink := numLink + 1;
      }
      RowEnds(p, tree.perTor);
    }
  }

  /** Links from the ToRs to the aggregation switches of their pods. */
  method WriteTorLinks(tree: Tree, links: seq<(nat, nat)>) returns (links': seq<(nat, nat)>, numLink: nat)
    requires Ascending(links) && forall f | f in links :: f.0 < tree.Servers()
    ensures links <= links' && Ascending(links') && numLink == |links'|
    ensures forall f | f in links' :: f in links || exists i, j, l :: IsTorLink(tree, f, i, j, l)
    ensures forall i: nat, j: nat, l: nat, f: (nat, nat) {:trigger IsTorLink(tree, f, i, j, l)} |
      IsTorLink(tree, f, i, j, l) :: f in links'
    ensures forall f | f in links' :: f.0 < tree.FirstAgg()
  {
    links', numLink := links, |links|;
    RowEnds(0, tree.half);
    for i := 0 to tree.Pods()
      invariant links <= links' && Ascending(links') && numLink == |links'|
      invariant forall f | f in links' :: f.0 < tree.Tor(i, 0)
      invariant forall f | f in links' :: f in links || exists a: nat, b: nat, c: nat :: IsTorLink(tree, f, a, b, c)
      invariant forall a: nat, b: nat, c: nat, f: (nat, nat) {:trigger IsTorLink(tree, f, a, b, c)} |
        IsTorLink(tree, f, a, b, c) && a < i :: f in links'
    {
      for j := 0 to tree.half
        invariant links <= links' && Ascending(links') && numLink == |links'|
        invariant forall f | f in links' :: f.0 < tree.Tor(i, j)
        invariant forall f | f in links' :: f in links || exists a: nat, b: nat, c: nat :: IsTorLink(tree, f, a, b, c)
        invariant forall a: nat, b: nat, c: nat, f: (nat, nat) {:trigger IsTorLink(tree, f, a, b, c)} |
          IsTorLink(tree, f, a, b, c) && (a < i || (a == i && b < j)) :: f in links'
      {
        for l := 0 to tree.half
          invariant links <= links' && Ascending(links') && numLink == |links'|
          invariant AllBefore(links', (tree.Tor(i, j), tree.Agg(i, l)))
          invariant forall f | f in links' :: f in links || exists a: nat, b: nat, c: nat :: IsTorLink(tree, f, a, b, c)
          invariant forall a: nat, b: nat, c: nat, f: (nat, nat) {:trigger IsTorLink(tree, f, a, b, c)} |
            IsTorLink(tree, f, a, b, c) && (a < i || (a == i && (b < j || (b == j && c < l)))) :: f in links'
        {
          var e := (tree.Tor(i, j), tree.Agg(i, l));
          assert IsTorLink(tree, e, i, j, l);
          AscendingAppend(links', e);
          links' := links' + [e];
          numLink := numLink + 1;
        }
      }
      RowEnds(i, tree.half);
    }
  }

  /** Links from the aggregation switches to their cores. */
  method WriteCoreLinks(tree: Tree, links: seq<(nat, nat)>) returns (links': seq<(nat, nat)>, numLink: nat)
    requires Ascending(links) && forall f | f in links :: f.0 < tree.FirstAgg()
    ensures links <= links' && Ascending(links') && numLink == |links'|
    ensures forall f | f in links' :: f in links || exists i, l, m :: IsCoreLink(tree, f, i, l, m)
    ensures forall i: nat, l: nat, m: nat, f: (nat, nat) {:trigger IsCoreLink(tree, f, i, l, m)} |
      IsCoreLink(tree, f, i, l, m) :: f in links'
  {
    links', numLink := links, |links|;
    RowEnds(0, tree.half);
    for i := 0 to tree.Pods()
      invariant links <= links' && Ascending(links') && numLink == |links'|
      invariant forall f | f in links' :: f.0 < tree.Agg(i, 0)
      invariant forall f | f in links' :: f in links || exists a: nat, b: nat, c: nat :: IsCoreLink(tree, f, a, b, c)
      invariant forall a: nat, b: nat, c: nat, f: (nat, nat) {:trigger IsCoreLink(tree, f, a, b, c)} |
        IsCoreLink(tree, f, a, b, c) && a < i :: f in links'
    {
      for l := 0 to tree.half
        invariant links <= links' && Ascending(links') && numLink == |links'|
        invariant forall f | f in links' :: f.0 < tree.Agg(i, l)
        invariant forall f | f in links' :: f in links || exists a: nat, b: nat, c: nat :: IsCoreLink(tree, f, a, b, c)
        invariant forall a: nat, b: nat, c: nat, f: (nat, nat) {:trigger IsCoreLink(tree, f, a, b, c)} |
          IsCoreLink(tree, f, a, b, c) && (a < i || (a == i && b < l)) :: f in links'
      {
        for m := 0 to tree.half
          invariant links <= links' && Ascending(links') && numLink == |links'|
          invariant AllBefore(links', (tree.Agg(i, l), tree.Core(l, m)))
          invariant forall f | f in links' ::
            f in links || exists a: nat, b: nat, c: nat :: IsCoreLink(tree, f, a, b, c)
          invariant forall a: nat, b: nat, c: nat, f: (nat, nat) {:trigger IsCoreLink(tree, f, a, b, c)} |
            IsCoreLink(tree, f, a, b, c) && (a < i || (a == i && (b < l || (b == l && c < m)))) :: f in links'
        {
          var e := (tree.Agg(i, l), tree.Core(l, m));
          assert IsCoreLink(tree, e, i, l, m);
          AscendingAppend(links', e);
          links' := links' + [e];
          numLink := numLink + 1;
        }
      }
      RowEnds(i, tree.half);
    }
  }

  /** The generated file lists every link of the tree exactly once. */
  method Generate(tree: Tree) returns (links: seq<(nat, nat)>, numLink: nat)
    requires tree.Valid()
    ensures numLink == |links| && NoRepeats(links)
    ensures forall f :: f in links <==> IsLink(tree, f)
  {
    links, numLink := WriteServerLinks(tree);
    ServersBelowTors(tree);
    links, numLink := WriteTorLinks(tree, links);
    links, numLink := WriteCoreLinks(tree, links);
  }

  lemma ServersBelowTors(tree: Tree)
    requires tree.Valid()
    ensures tree.Server(tree.Pods() * tree.half, 0) <= tree.Servers()
  {
    assert tree.Pods() * tree.half * tree.perTor == tree.Pods() * (tree.half * tree.perTor);
    assert tree.Pods() * (tree.half * tree.perTor) <= tree.Pods() * tree.perPod;
  }

  /** With k = 2 * half: k pods of k/2 ToRs and k/2 aggregation switches, and (k/2)^2 cores,
      so 5k^2/4 switches in all, numbered after the servers. */
  lemma SwitchCount(tree: Tree)
    ensures tree.Servers() == 2 * tree.half * tree.perPod
    ensures tree.Size() == tree.Servers() + 5 * (tree.half * tree.half)
  {
    assert tree.Pods() * tree.half == 2 * (tree.half * tree.half);
    assert tree.perPod * tree.Pods() == 2 * tree.half * tree.perPod;
  }

  /** The topology reader rejects a server without a link. With a fractional
      oversubscription the two truncations can disagree, and then the servers
      with the highest ids have none; they all have one exactly when they agree. */
  lemma EveryServerLinked(tree: Tree)
    requires tree.Valid()
    ensures (forall x: nat | x < tree.Servers() :: HasServerLink(tree, x)) <==> tree.half * tree.perTor == tree.perPod
  {
    var torTotal := tree.Pods() * tree.half;
    var linked := LinkedServers(tree, torTotal);
    forall x: nat | x < linked
      ensures HasServerLink(tree, x)
    {
      ServerIndex(tree, x, torTotal);
    }
    NoServerFrom(tree, torTotal, linked);
  }

  /** How many servers have a link: all, exactly when the truncations agree. */
  lemma LinkedServers(tree: Tree, torTotal: nat) returns (linked: nat)
    requires tree.Valid() && torTotal == tree.Pods() * tree.half
    ensures linked == torTotal * tree.perTor <= tree.Servers()
    ensures linked == tree.Servers() <==> tree.half * tree.perTor == tree.perPod
  {
    linked := torTotal * tree.perTor;
    assert linked == tree.Pods() * (tree.half * tree.perTor);
    TwiceGrows(tree.Pods(), tree.half * tree.perTor, tree.perPod);
  }

  lemma TwiceGrows(pods: nat, a: nat, b: nat)
    requires pods > 0 && a <= b
    ensures pods * a <= pods * b && (pods * a == pods * b <==> a == b)
  {
    assert pods * b == pods * a + pods * (b - a);
  }

  lemma NoServerFrom(tree: Tree, torTotal: nat, linked: nat)
    requires torTotal == tree.Pods() * tree.half && linked == torTotal * tree.perTor
    ensures !HasServerLink(tree, linked)
  {
    forall p: nat, i: nat | p < torTotal && i < tree.perTor
      ensures tree.Server(p, i) < linked
    {
      IndexBound(p, i, torTotal, tree.perTor);
    }
  }

  ghost predicate HasServerLink(tree: Tree, x: nat) {
    exists p: nat, i: nat :: p < tree.Pods() * tree.half && i < tree.perTor && x == tree.Server(p, i)
  }

  /** A tree of four pods with an oversubscription of 1.25 has two servers a ToR and five a
      pod, so one server of every pod is left over. */
  lemma FractionLeavesServers() returns (tree: Tree, x: nat)
    ensures tree == Tree(2, (2.0 * 1.25).Floor, (2.0 * 2.0 * 1.25).Floor) == Tree(2, 2, 5) && tree.Valid()
    ensures x < tree.Servers() && !HasServerLink(tree, x)
  {
    tree := Tree(2, 2, 5);
    assert (2.0 * 1.25).Floor == 2 && (2.0 * 2.0 * 1.25).Floor == 5;
    EveryServerLinked(tree);
    x :| x < tree.Servers() && !HasServerLink(tree, x);
  }

  lemma ServerIndex(tree: Tree, x: nat, torTotal: nat)
    requires torTotal == tree.Pods() * tree.half && x < torTotal * tree.perTor
    ensures HasServerLink(tree, x)
  {
    assert tree.perTor > 0;
    var p, i := x / tree.perTor, x % tree.perTor;
    assert x == p * tree.perTor + i;
    if p >= torTotal {
      ProductGrows(torTotal, p, tree.perTor);
    }
    assert x == tree.Server(p, i);
  }

  lemma ProductGrows(a: nat, b: nat, w: nat)
    ensures a <= b ==> a * w <= b * w
  {}

  // ------------------------------------------------------- the tree as a network

  /** net has exactly the generated links, in both directions, and the ids from
      Servers() up are its switches. */
  ghost predicate Describes(net: Net, tree: Tree) {
    && net.Valid() && net.size == tree.Size()
    && (forall x | 0 <= x < net.size :: net.isSwitch[x] <==> x >= tree.Servers())
    && (forall x: nat, y: nat :: (x, y) in net.links <==> IsLink(tree, (x, y)) || IsLink(tree, (y, x)))
  }

  lemma Ranges(tree: Tree, i: nat, j: nat)
    requires i < tree.Pods() && j < tree.half
    ensures tree.Servers() <= tree.Tor(i, j) < tree.FirstAgg() <= tree.Agg(i, j) < tree.FirstCore()
  {
    IndexBound(i, j, tree.Pods(), tree.half);
  }

  lemma CoreRange(tree: Tree, l: nat, m: nat)
    requires l < tree.half && m < tree.half
    ensures tree.FirstCore() <= tree.Core(l, m) < tree.Size()
  {
    IndexBound(l, m, tree.half, tree.half);
  }

  lemma ServerRange(tree: Tree, p: nat, i: nat)
    requires tree.Valid() && p < tree.Pods() * tree.half && i < tree.perTor
    ensures tree.Server(p, i) < tree.Servers()
  {
    IndexBound(p, i, tree.Pods() * tree.half, tree.perTor);
    ServersBelowTors(tree);
  }

  /** Every link goes one level up. */
  lemma LinkLevels(tree: Tree, e: (nat, nat))
    requires tree.Valid() && IsLink(tree, e)
    ensures e.0 < e.1 < tree.Size()
    ensures e.0 < tree.Servers() ==> tree.Servers() <= e.1 < tree.FirstAgg()
    ensures tree.Servers() <= e.0 < tree.FirstAgg() ==> tree.FirstAgg() <= e.1 < tree.FirstCore()
    ensures tree.FirstAgg() <= e.0 ==> tree.FirstCore() <= e.1 && e.0 < tree.FirstCore()
  {
    if p, i :| IsServerLink(tree, e, p, i) {
      ServerRange(tree, p, i);
    } else if i, j, l :| IsTorLink(tree, e, i, j, l) {
      Ranges(tree, i, j);
      Ranges(tree, i, l);
    } else {
      var i, l, m :| IsCoreLink(tree, e, i, l, m);
      Ranges(tree, i, l);
      CoreRange(tree, l, m);
    }
  }

  /** The generated links make a network. */
  lemma GeneratedIsNetwork(tree: Tree, links: seq<(nat, nat)>) returns (net: Net)
    requires tree.Valid() && forall f :: f in links <==> IsLink(tree, f)
    ensures Describes(net, tree)
  {
    var up := set e | e in links;
    var down := set e | e in links :: (e.1, e.0);
    net := Net(tree.Size(), seq(tree.Size(), x => x >= tree.Servers()), up + down);
    forall x: nat, y: nat
      ensures (x, y) in net.links <==> IsLink(tree, (x, y)) || IsLink(tree, (y, x))
    {
      assert (x, y) in up <==> (x, y) in links;
      assert (x, y) in down <==> (y, x) in links;
    }
    LinksStayInside(net, tree);
  }

  lemma LinksStayInside(net: Net, tree: Tree)
    requires tree.Valid() && net.size == tree.Size() && |net.isSwitch| == net.size
    requires forall x: nat, y: nat :: (x, y) in net.links <==> IsLink(tree, (x, y)) || IsLink(tree, (y, x))
    ensures net.Valid()
  {
    forall x: nat, y: nat | (x, y) in net.links
      ensures x < net.size && y < net.size && (y, x) in net.links
    {
      if IsLink(tree, (x, y)) {
        LinkLevels(tree, (x, y));
      } else {
        LinkLevels(tree, (y, x));
      }
    }
  }

  lemma TorNeighbour(net: Net, tree: Tree, i: nat, j: nat, y: nat) returns (l: nat)
    requires tree.Valid() && Describes(net, tree) && i < tree.Pods() && j < tree.half
    requires (tree.Tor(i, j), y) in net.links && net.Switch(y)
    ensures l < tree.half && y == tree.Agg(i, l)
  {
    var x := tree.Tor(i, j);
    Ranges(tree, i, j);
    if IsLink(tree, (y, x)) {
      LinkLevels(tree, (y, x));
      assert false;
    } else {
      LinkLevels(tree, (x, y));
      var a, b, c := TorLinkOf(tree, (x, y));
      IndexUnique(i, j, a, b, tree.half);
      l := c;
    }
  }

  lemma TorLinkOf(tree: Tree, e: (nat, nat)) returns (i: nat, j: nat, l: nat)
    requires tree.Valid() && IsLink(tree, e) && tree.Servers() <= e.0 < tree.FirstAgg()
    ensures IsTorLink(tree, e, i, j, l)
  {
    if p, k :| IsServerLink(tree, e, p, k) {
      ServerRange(tree, p, k);
      assert false;
    } else if a, b, c :| IsCoreLink(tree, e, a, b, c) {
      Ranges(tree, a, b);
      assert false;
    } else {
      i, j, l :| IsTorLink(tree, e, i, j, l);
    }
  }

  lemma CoreLinkOf(tree: Tree, e: (nat, nat)) returns (i: nat, l: nat, m: nat)
    requires tree.Valid() && IsLink(tree, e) && tree.FirstAgg() <= e.0
    ensures IsCoreLink(tree, e, i, l, m)
  {
    if p, k :| IsServerLink(tree, e, p, k) {
      ServerRange(tree, p, k);
      assert false;
    } else if a, b, c :| IsTorLink(tree, e, a, b, c) {
      Ranges(tree, a, b);
      assert false;
    } else {
      i, l, m :| IsCoreLink(tree, e, i, l, m);
    }
  }

  /** Neighbours of an aggregation switch: a ToR of its pod or one of its cores. */
  lemma AggNeighbour(net: Net, tree: Tree, i: nat, l: nat, y: nat) returns (isTor: bool, k: nat)
    requires tree.Valid() && Describes(net, tree) && i < tree.Pods() && l < tree.half
    requires (tree.Agg(i, l), y) in net.links
    ensures k < tree.half && y == if isTor then tree.Tor(i, k) else tree.Core(l, k)
  {
    var x := tree.Agg(i, l);
    Ranges(tree, i, l);
    if IsLink(tree, (y, x)) {
      LinkLevels(tree, (y, x));
      var a, b, c := TorLinkOf(tree, (y, x));
      IndexUnique(i, l, a, c, tree.half);
      isTor, k := true, b;
    } else {
      var a, b, c := CoreLinkOf(tree, (x, y));
      IndexUnique(i, l, a, b, tree.half);
      isTor, k := false, c;
    }
  }

  // ------------------------------------------------------------ shortest paths

  lemma WalkEdges(net: Net, p: seq<nat>, h: nat, i: nat)
    requires IsWalk(net, p, h) && i + 1 < |p|
    ensures (p[i], p[i + 1]) in net.links
    ensures i > 0 ==> net.Switch(p[i])
  {
    if i > 0 {
      WalkEdges(net, p[1..], h, i - 1);
    }
  }

  lemma EdgesWalk(net: Net, p: seq<nat>, h: nat)
    requires p != [] && Last(p) == h && p[0] < net.size && net.Valid()
    requires forall i | 0 <= i < |p| - 1 :: (p[i], p[i + 1]) in net.links
    requires forall i | 0 < i < |p| - 1 :: net.Switch(p[i])
    ensures IsWalk(net, p, h)
  {
    if |p| > 1 {
      assert (p[0], p[0 + 1]) in net.links;
      EdgesWalk(net, p[1..], h);
    }
  }

  ghost function PodPath(tree: Tree, i: nat, j: nat, b: nat, l: nat): seq<nat> {
    [tree.Tor(i, j), tree.Agg(i, l), tree.Tor(i, b)]
  }

  ghost function CorePath(tree: Tree, i: nat, j: nat, a: nat, b: nat, l: nat, m: nat): seq<nat> {
    [tree.Tor(i, j), tree.Agg(i, l), tree.Core(l, m), tree.Agg(a, l), tree.Tor(a, b)]
  }

  lemma PodPathIsWalk(net: Net, tree: Tree, i: nat, j: nat, b: nat, l: nat)
    requires tree.Valid() && Describes(net, tree)
    requires i < tree.Pods() && j < tree.half && b < tree.half && l < tree.half
    ensures IsWalk(net, PodPath(tree, i, j, b, l), tree.Tor(i, b))
  {
    var p := PodPath(tree, i, j, b, l);
    Ranges(tree, i, j);
    Ranges(tree, i, l);
    assert IsTorLink(tree, (p[0], p[1]), i, j, l) && IsTorLink(tree, (p[2], p[1]), i, b, l);
    assert IsLink(tree, (p[0], p[1])) && IsLink(tree, (p[2], p[1]));
    EdgesWalk(net, p, tree.Tor(i, b));
  }

  lemma CorePathIsWalk(net: Net, tree: Tree, i: nat, j: nat, a: nat, b: nat, l: nat, m: nat)
    requires tree.Valid() && Describes(net, tree)
    requires i < tree.Pods() && a < tree.Pods() && j < tree.half && b < tree.half && l < tree.half && m < tree.half
    ensures IsWalk(net, CorePath(tree, i, j, a, b, l, m), tree.Tor(a, b))
  {
    var p := CorePath(tree, i, j, a, b, l, m);
    Ranges(tree, i, j);
    Ranges(tree, i, l);
    Ranges(tree, a, l);
    CoreRange(tree, l, m);
    assert IsTorLink(tree, (p[0], p[1]), i, j, l) && IsCoreLink(tree, (p[1], p[2]), i, l, m);
    assert IsCoreLink(tree, (p[3], p[2]), a, l, m) && IsTorLink(tree, (p[4], p[3]), a, b, l);
    assert IsLink(tree, (p[0], p[1])) && IsLink(tree, (p[1], p[2]));
    assert IsLink(tree, (p[3], p[2])) && IsLink(tree, (p[4], p[3]));
    EdgesWalk(net, p, tree.Tor(a, b));
  }

  /** What a walk from Tor(i, j) to Tor(a, b) of at most four links looks like:
      l and m index the aggregation switch and the core it uses. */
  ghost predicate Shape(tree: Tree, p: seq<nat>, i: nat, j: nat, a: nat, b: nat, l: nat, m: nat) {
    && (|p| == 3 || |p| >= 5)
    && (|p| == 3 ==> i == a && l < tree.half && p == PodPath(tree, i, j, b, l))
    && (|p| == 5 && i != a ==> l < tree.half && m < tree.half && p == CorePath(tree, i, j, a, b, l, m))
  }

  /** A walk between different ToRs has an even length; one of length two stays
      in a pod, one of length four between pods crosses a single core. */
  lemma WalkShape(net: Net, tree: Tree, p: seq<nat>, i: nat, j: nat, a: nat, b: nat)
    returns (l: nat, m: nat)
    requires tree.Valid() && Describes(net, tree)
    requires i < tree.Pods() && a < tree.Pods() && j < tree.half && b < tree.half && (i, j) != (a, b)
    requires IsWalk(net, p, tree.Tor(a, b)) && p[0] == tree.Tor(i, j)
    ensures Shape(tree, p, i, j, a, b, l, m)
  {
    Ranges(tree, i, j);
    Ranges(tree, a, b);
    if |p| == 1 {
      IndexUnique(i, j, a, b, tree.half);
      assert false;
    } else {
      WalkEdges(net, p, tree.Tor(a, b), 0);
      if |p| > 2 {
        WalkEdges(net, p, tree.Tor(a, b), 1);
      }
      l := TorNeighbour(net, tree, i, j, p[1]);
      Ranges(tree, i, l);
      m := WalkShapeFromAgg(net, tree, p, i, j, a, b, l);
    }
  }

  lemma WalkShapeFromAgg(net: Net, tree: Tree, p: seq<nat>, i: nat, j: nat, a: nat, b: nat, l: nat)
    returns (m: nat)
    requires tree.Valid() && Describes(net, tree)
    requires i < tree.Pods() && a < tree.Pods() && j < tree.half && b < tree.half && l < tree.half
    requires IsWalk(net, p, tree.Tor(a, b)) && p[0] == tree.Tor(i, j) && |p| > 2 && p[1] == tree.Agg(i, l)
    ensures Shape(tree, p, i, j, a, b, l, m)
  {
    var t := tree.Tor(a, b);
    Ranges(tree, a, b);
    WalkEdges(net, p, t, 1);
    var isTor, k := AggNeighbour(net, tree, i, l, p[2]);
    m := k;
    if isTor {
      Ranges(tree, i, k);
    } else {
      CoreRange(tree, l, k);
    }
    if |p| == 3 {
      IndexUnique(i, k, a, b, tree.half);
    } else {
      var n := |p| - 2;
      WalkEdges(net, p, t, n);
      assert (t, p[n]) in net.links;
      var c := TorNeighbour(net, tree, a, b, p[n]);
      Ranges(tree, a, c);
      if |p| == 5 && i != a {
        WalkEdges(net, p, t, 2);
        assert (p[3], p[2]) in net.links;
        var isTor', k' := AggNeighbour(net, tree, a, c, p[2]);
        SameMiddle(tree, i, l, isTor, k, a, c, isTor', k');
      }
    }
  }

  /** What two aggregation switches of different pods have in common is a core. */
  lemma SameMiddle(tree: Tree, i: nat, l: nat, isTor: bool, k: nat, a: nat, c: nat, isTor': bool, k': nat)
    requires i < tree.Pods() && a < tree.Pods() && i != a && l < tree.half && c < tree.half
    requires k < tree.half && k' < tree.half
    requires (if isTor then tree.Tor(i, k) else tree.Core(l, k))
          == (if isTor' then tree.Tor(a, k') else tree.Core(c, k'))
    ensures !isTor && !isTor' && l == c && k == k'
  {
    if isTor {
      Ranges(tree, i, k);
    } else {
      CoreRange(tree, l, k);
    }
    if isTor' {
      Ranges(tree, a, k');
    } else {
      CoreRange(tree, c, k');
    }
    if isTor && isTor' {
      IndexUnique(i, k, a, k', tree.half);
    } else {
      IndexUnique(l, k, c, k', tree.half);
    }
  }

  lemma DistanceIs(net: Net, p: seq<nat>, t: nat)
    requires IsWalk(net, p, t)
    requires forall q | IsWalk(net, q, t) && q[0] == p[0] :: |q| >= |p|
    ensures IsDistance(net, p[0], t, |p| - 1) && Reaches(net, p[0], t) && Dist(net, p[0], t) == |p| - 1
  {
    assert HasWalk(net, p[0], t, |p| - 1);
    assert IsDistance(net, p[0], t, |p| - 1);
  }

  /** Different ToRs of one pod are two links apart, and the shortest paths are
      one through each aggregation switch of the pod. */
  lemma SamePodPaths(net: Net, tree: Tree, i: nat, j: nat, b: nat) returns (paths: set<seq<nat>>)
    requires tree.Valid() && Describes(net, tree)
    requires i < tree.Pods() && j < tree.half && b < tree.half && j != b
    ensures Reaches(net, tree.Tor(i, j), tree.Tor(i, b)) && Dist(net, tree.Tor(i, j), tree.Tor(i, b)) == 2
    ensures forall p :: PathEnumeration.IsShortest(net, p, tree.Tor(i, j), tree.Tor(i, b)) <==> p in paths
    ensures |paths| == tree.half
  {
    var s, t := tree.Tor(i, j), tree.Tor(i, b);
    var f := (l: nat) => PodPath(tree, i, j, b, l);
    forall p | IsWalk(net, p, t) && p[0] == s
      ensures |p| >= 3 && (|p| == 3 ==> p in Images(f, tree.half))
    {
      var l, m := WalkShape(net, tree, p, i, j, i, b);
      if |p| == 3 {
        ImageListed(f, tree.half, l);
      }
    }
    forall l: nat | l < tree.half
      ensures IsWalk(net, f(l), t)
    {
      PodPathIsWalk(net, tree, i, j, b, l);
    }
    paths := ShortestFamily(net, s, t, f, tree.half, 3);
  }

  /** When the walks of one length are the n different values of f and no walk is
      shorter, those values are the shortest paths. */
  lemma ShortestFamily(net: Net, s: nat, t: nat, f: nat -> seq<nat>, n: nat, len: nat)
    returns (paths: set<seq<nat>>)
    requires n > 0 && forall x: nat, y: nat | x < y < n :: f(x) != f(y)
    requires forall k: nat | k < n :: IsWalk(net, f(k), t) && f(k)[0] == s && |f(k)| == len
    requires forall p | IsWalk(net, p, t) && p[0] == s :: |p| >= len && (|p| == len ==> p in Images(f, n))
    ensures Reaches(net, s, t) && Dist(net, s, t) == len - 1
    ensures forall p :: PathEnumeration.IsShortest(net, p, s, t) <==> p in paths
    ensures |paths| == n
  {
    paths := Images(f, n);
    ImageCount(f, n);
    DistanceIs(net, f(0), t);
    forall p | p in paths
      ensures PathEnumeration.IsShortest(net, p, s, t)
    {
      var k := ImageIndex(f, n, p);
    }
  }

  /** The values of f below n. */
  ghost function Images(f: nat -> seq<nat>, n: nat): set<seq<nat>> {
    if n == 0 then {} else Images(f, n - 1) + {f(n - 1)}
  }

  lemma ImageListed(f: nat -> seq<nat>, n: nat, k: nat)
    requires k < n
    ensures f(k) in Images(f, n)
  {}

  lemma ImageIndex(f: nat -> seq<nat>, n: nat, p: seq<nat>) returns (k: nat)
    requires p in Images(f, n)
    ensures k < n && p == f(k)
  {
    if p == f(n - 1) {
      k := n - 1;
    } else {
      k := ImageIndex(f, n - 1, p);
    }
  }

  lemma ImageCount(f: nat -> seq<nat>, n: nat)
    requires forall x: nat, y: nat | x < y < n :: f(x) != f(y)
    ensures |Images(f, n)| == n
  {
    if n > 0 {
      ImageCount(f, n - 1);
      if f(n - 1) in Images(f, n - 1) {
        var k := ImageIndex(f, n - 1, f(n - 1));
      }
    }
  }

  /** ToRs of different pods are four links apart, and the shortest paths are one
      through each core. */
  lemma OtherPodPaths(net: Net, tree: Tree, i: nat, j: nat, a: nat, b: nat) returns (paths: set<seq<nat>>)
    requires tree.Valid() && Describes(net, tree)
    requires i < tree.Pods() && a < tree.Pods() && j < tree.half && b < tree.half && i != a
    ensures Reaches(net, tree.Tor(i, j), tree.Tor(a, b)) && Dist(net, tree.Tor(i, j), tree.Tor(a, b)) == 4
    ensures forall p :: PathEnumeration.IsShortest(net, p, tree.Tor(i, j), tree.Tor(a, b)) <==> p in paths
    ensures |paths| == tree.half * tree.half
  {
    var n := tree.half * tree.half;
    assert n > 0 by {
      ProductGrows(1, tree.half, tree.half);
    }
    var f := (k: nat) => NthCorePath(tree, i, j, a, b, k);
    AcrossShapes(net, tree, i, j, a, b, f, n);
    AcrossWalks(net, tree, i, j, a, b, n);
    assert forall x: nat, y: nat | x < y < n :: f(x)[2] != f(y)[2];
    paths := ShortestFamily(net, tree.Tor(i, j), tree.Tor(a, b), f, n, 5);
  }

  lemma AcrossShapes(net: Net, tree: Tree, i: nat, j: nat, a: nat, b: nat, f: nat -> seq<nat>, n: nat)
    requires tree.Valid() && Describes(net, tree) && n == tree.half * tree.half
    requires i < tree.Pods() && a < tree.Pods() && j < tree.half && b < tree.half && i != a
    requires forall k: nat :: f(k) == NthCorePath(tree, i, j, a, b, k)
    ensures forall p | IsWalk(net, p, tree.Tor(a, b)) && p[0] == tree.Tor(i, j) ::
      |p| >= 5 && (|p| == 5 ==> p in Images(f, n))
  {
    forall p | IsWalk(net, p, tree.Tor(a, b)) && p[0] == tree.Tor(i, j)
      ensures |p| >= 5 && (|p| == 5 ==> p in Images(f, n))
    {
      var k := WalkIsNth(net, tree, i, j, a, b, p);
      if |p| == 5 {
        ImageListed(f, n, k);
      }
    }
  }

  lemma AcrossWalks(net: Net, tree: Tree, i: nat, j: nat, a: nat, b: nat, n: nat)
    requires tree.Valid() && Describes(net, tree) && n == tree.half * tree.half
    requires i < tree.Pods() && a < tree.Pods() && j < tree.half && b < tree.half
    ensures forall k: nat | k < n :: IsWalk(net, NthCorePath(tree, i, j, a, b, k), tree.Tor(a, b))
  {
    forall k: nat | k < n
      ensures IsWalk(net, NthCorePath(tree, i, j, a, b, k), tree.Tor(a, b))
    {
      NthIsWalk(net, tree, i, j, a, b, k);
    }
  }

  lemma NthIsWalk(net: Net, tree: Tree, i: nat, j: nat, a: nat, b: nat, k: nat)
    requires tree.Valid() && Describes(net, tree) && k < tree.half * tree.half
    requires i < tree.Pods() && a < tree.Pods() && j < tree.half && b < tree.half
    ensures IsWalk(net, NthCorePath(tree, i, j, a, b, k), tree.Tor(a, b))
  {
    CoreGrid(tree, k);
    CorePathIsWalk(net, tree, i, j, a, b, k / tree.half, k % tree.half);
  }

  lemma WalkIsNth(net: Net, tree: Tree, i: nat, j: nat, a: nat, b: nat, p: seq<nat>) returns (k: nat)
    requires tree.Valid() && Describes(net, tree)
    requires i < tree.Pods() && a < tree.Pods() && j < tree.half && b < tree.half && i != a
    requires IsWalk(net, p, tree.Tor(a, b)) && p[0] == tree.Tor(i, j)
    ensures |p| >= 5
    ensures |p| == 5 ==> k < tree.half * tree.half && p == NthCorePath(tree, i, j, a, b, k)
  {
    var l, m := WalkShape(net, tree, p, i, j, a, b);
    k := 0;
    if |p| == 5 {
      k := CorePathIsNth(tree, i, j, a, b, l, m);
    }
  }

  lemma CorePathIsNth(tree: Tree, i: nat, j: nat, a: nat, b: nat, l: nat, m: nat) returns (k: nat)
    requires l < tree.half && m < tree.half
    ensures k < tree.half * tree.half
    ensures CorePath(tree, i, j, a, b, l, m) == NthCorePath(tree, i, j, a, b, k)
  {
    k := l * tree.half + m;
    IndexBound(l, m, tree.half, tree.half);
    CoreIndex(tree, l, m);
  }

  /** The path through core number k. */
  ghost function NthCorePath(tree: Tree, i: nat, j: nat, a: nat, b: nat, k: nat): seq<nat> {
    if tree.half == 0 then []
    else [tree.Tor(i, j), tree.Agg(i, k / tree.half), tree.FirstCore() + k, tree.Agg(a, k / tree.half), tree.Tor(a, b)]
  }

  lemma CoreIndex(tree: Tree, l: nat, m: nat)
    requires m < tree.half
    ensures (l * tree.half + m) / tree.half == l && (l * tree.half + m) % tree.half == m
  {
    var k := l * tree.half + m;
    assert k == k / tree.half * tree.half + k % tree.half;
    IndexUnique(l, m, k / tree.half, k % tree.half, tree.half);
  }

  lemma CoreGrid(tree: Tree, k: nat)
    requires tree.half > 0 && k < tree.half * tree.half
    ensures k / tree.half < tree.half && k == k / tree.half * tree.half + k % tree.half
  {
    ProductGrows(tree.half, k / tree.half, tree.half);
  }

  /** ToRs of one pod are within the reach of the path enumeration, which with
      ports that fit a byte registers half different identifiers for them. */
  lemma RegisteredInPod(net: Net, tree: Tree, ports: PathEnumeration.Ports, i: nat, j: nat, b: nat,
                        registered: set<(nat, nat)>)
    requires tree.Valid() && Describes(net, tree) && PathEnumeration.GoodPorts(net, ports)
    requires i < tree.Pods() && j < tree.half && b < tree.half && j != b
    requires PathEnumeration.AllShortest(net, ports, tree.Tor(i, j), tree.Tor(i, b), registered)
    ensures |registered| == tree.half
  {
    var paths := SamePodPaths(net, tree, i, j, b);
    IdCount(net, ports, tree.Tor(i, j), tree.Tor(i, b), paths, registered);
  }

  /** So are ToRs of different pods, with half * half identifiers. */
  lemma RegisteredAcrossPods(net: Net, tree: Tree, ports: PathEnumeration.Ports, i: nat, j: nat, a: nat, b: nat,
                             registered: set<(nat, nat)>)
    requires tree.Valid() && Describes(net, tree) && PathEnumeration.GoodPorts(net, ports)
    requires i < tree.Pods() && a < tree.Pods() && j < tree.half && b < tree.half && i != a
    requires PathEnumeration.AllShortest(net, ports, tree.Tor(i, j), tree.Tor(a, b), registered)
    ensures |registered| == tree.half * tree.half
  {
    var paths := OtherPodPaths(net, tree, i, j, a, b);
    IdCount(net, ports, tree.Tor(i, j), tree.Tor(a, b), paths, registered);
  }

  lemma WalkEndsInside(net: Net, s: nat, t: nat)
    requires net.Valid() && Reaches(net, s, t)
    ensures t < net.size
  {
    var d: nat :| HasWalk(net, s, t, d);
    var p :| IsWalk(net, p, t) && p[0] == s && |p| == d + 1;
    if |p| > 1 {
      WalkEdges(net, p, t, |p| - 2);
    }
  }

  lemma IdCount(net: Net, ports: PathEnumeration.Ports, s: nat, t: nat, paths: set<seq<nat>>,
                registered: set<(nat, nat)>)
    requires net.Valid() && PathEnumeration.GoodPorts(net, ports)
    requires Reaches(net, s, t) && Dist(net, s, t) <= 4
    requires forall p :: PathEnumeration.IsShortest(net, p, s, t) <==> p in paths
    requires PathEnumeration.AllShortest(net, ports, s, t, registered)
    ensures |registered| == |paths|
  {
    WalkEndsInside(net, s, t);
    forall p | p in paths
      ensures |p| == Dist(net, s, t) + 1 && PathEnumeration.IsPath(net, p, s, t)
    {
      PathEnumeration.ShortestIsPath(net, p, s, t);
    }
    forall p, q | p in paths && q in paths && Entry(ports, p) == Entry(ports, q)
      ensures p == q
    {
      PathEnumeration.PathIdsDiffer(net, ports, p, q, t);
    }
    forall e
      ensures e in registered <==> e in Entries(ports, paths)
    {
      if e in Entries(ports, paths) {
        var p :| p in paths && e == Entry(ports, p);
        assert PathEnumeration.IsShortest(net, p, s, t);
      }
    }
    assert registered == Entries(ports, paths);
    EntryCount(ports, paths);
  }

  ghost function Entry(ports: PathEnumeration.Ports, p: seq<nat>): (nat, nat) {
    if p == [] then (0, 0) else (PathEnumeration.PathId(ports, p), |p| - 1)
  }

  ghost function Entries(ports: PathEnumeration.Ports, paths: set<seq<nat>>): set<(nat, nat)> {
    set p | p in paths :: Entry(ports, p)
  }

  lemma EntryCount(ports: PathEnumeration.Ports, paths: set<seq<nat>>)
    requires forall p, q | p in paths && q in paths && Entry(ports, p) == Entry(ports, q) :: p == q
    ensures |Entries(ports, paths)| == |paths|
  {
    if paths != {} {
      var p :| p in paths;
      var rest := paths - {p};
      EntryCount(ports, rest);
      assert Entries(ports, paths) == Entries(ports, rest) + {Entry(ports, p)};
    }
  }

  // -------------------------------------------------- the whole configuration

  lemma ServerLinkOf(tree: Tree, e: (nat, nat)) returns (p: nat, k: nat)
    requires tree.Valid() && IsLink(tree, e) && e.0 < tree.Servers()
    ensures IsServerLink(tree, e, p, k)
  {
    if i, j, l :| IsTorLink(tree, e, i, j, l) {
      Ranges(tree, i, j);
      assert false;
    } else if i, l, m :| IsCoreLink(tree, e, i, l, m) {
      Ranges(tree, i, l);
      assert false;
    } else {
      p, k :| IsServerLink(tree, e, p, k);
    }
  }

  /** A linked server hangs off its own ToR and off no other node. */
  lemma ServerHomed(net: Net, tree: Tree, p: nat, k: nat)
    requires tree.Valid() && Describes(net, tree) && p < tree.Pods() * tree.half && k < tree.perTor
    ensures PathEnumeration.Homed(net, tree.Server(p, k), tree.Servers() + p)
  {
    var h, t := tree.Server(p, k), tree.Servers() + p;
    ServerRange(tree, p, k);
    assert IsServerLink(tree, (h, t), p, k) && IsLink(tree, (h, t));
    LinkLevels(tree, (h, t));
    forall x | (x, h) in net.links
      ensures x == t
    {
      if IsLink(tree, (x, h)) {
        LinkLevels(tree, (x, h));
        assert false;
      } else {
        var q, m := ServerLinkOf(tree, (h, x));
        IndexUnique(p, k, q, m, tree.perTor);
      }
    }
  }

  lemma TorDistance(net: Net, tree: Tree, i: nat, j: nat, a: nat, b: nat)
    requires tree.Valid() && Describes(net, tree)
    requires i < tree.Pods() && a < tree.Pods() && j < tree.half && b < tree.half && (i, j) != (a, b)
    ensures Reaches(net, tree.Tor(i, j), tree.Tor(a, b))
    ensures Dist(net, tree.Tor(i, j), tree.Tor(a, b)) == if i == a then 2 else 4
  {
    if i == a {
      var paths := SamePodPaths(net, tree, i, j, b);
    } else {
      var paths := OtherPodPaths(net, tree, i, j, a, b);
    }
  }

  /** The ToRs other than Tor(i, j). */
  ghost predicate IsOtherTor(tree: Tree, i: nat, j: nat, t: nat) {
    exists a: nat, b: nat :: IsTorAt(tree, t, a, b) && (a, b) != (i, j)
  }

  ghost predicate IsTorAt(tree: Tree, t: nat, a: nat, b: nat) {
    a < tree.Pods() && b < tree.half && t == tree.Tor(a, b)
  }

  lemma TorIndex(tree: Tree, p: nat) returns (a: nat, b: nat)
    requires tree.half > 0 && p < tree.Pods() * tree.half
    ensures IsTorAt(tree, tree.Servers() + p, a, b) && p == a * tree.half + b
  {
    a, b := p / tree.half, p % tree.half;
    if a >= tree.Pods() {
      ProductGrows(tree.Pods(), a, tree.half);
    }
  }

  /** The homes read off the generated links are the servers' own ToRs. */
  lemma HomeIsTor(net: Net, tree: Tree, links: seq<(nat, nat)>, hosts: seq<nat>, homes: map<nat, nat>, h: nat)
    returns (a: nat, b: nat)
    requires tree.Valid() && Describes(net, tree) && forall f :: f in links <==> IsLink(tree, f)
    requires PathEnumeration.HomesOf(links, net.isSwitch, hosts, homes) && h in homes && net.Host(h)
    ensures PathEnumeration.Homed(net, h, homes[h]) && IsTorAt(tree, homes[h], a, b) && tree.perTor > 0
  {
    var p, k := ServerLinkOf(tree, (h, homes[h]));
    ServerHomed(net, tree, p, k);
    a, b := TorIndex(tree, p);
  }

  lemma FirstServerHome(net: Net, tree: Tree, links: seq<(nat, nat)>, hosts: seq<nat>, homes: map<nat, nat>, p: nat,
                        t: nat) returns (h: nat)
    requires tree.Valid() && Describes(net, tree) && forall f :: f in links <==> IsLink(tree, f)
    requires PathEnumeration.HomesOf(links, net.isSwitch, hosts, homes)
    requires p < tree.Pods() * tree.half && tree.perTor > 0 && t == tree.Servers() + p
    ensures h in hosts && h in homes && homes[h] == t && PathEnumeration.Homed(net, h, t)
  {
    h := tree.Server(p, 0);
    ServerHomed(net, tree, p, 0);
    assert IsServerLink(tree, (h, tree.Servers() + p), p, 0);
    assert PathEnumeration.Attaches((h, tree.Servers() + p), net.isSwitch);
    assert (h, homes[h]) in net.links;
    assert (homes[h], h) in net.links;
  }

  /** Every ToR has a server to be reached by. */
  lemma TorIsHome(net: Net, tree: Tree, links: seq<(nat, nat)>, hosts: seq<nat>, homes: map<nat, nat>, a: nat, b: nat)
    returns (h: nat)
    requires tree.Valid() && Describes(net, tree) && forall f :: f in links <==> IsLink(tree, f)
    requires PathEnumeration.HomesOf(links, net.isSwitch, hosts, homes)
    requires a < tree.Pods() && b < tree.half && tree.perTor > 0
    ensures h in hosts && h in homes && homes[h] == tree.Tor(a, b)
    ensures PathEnumeration.Homed(net, h, tree.Tor(a, b))
  {
    IndexBound(a, b, tree.Pods(), tree.half);
    h := FirstServerHome(net, tree, links, hosts, homes, a * tree.half + b, tree.Tor(a, b));
  }

  /** The ToRs that a ToR has a row for. */
  lemma ServedAreOthers(net: Net, tree: Tree, links: seq<(nat, nat)>, hosts: seq<nat>, homes: map<nat, nat>, i: nat,
                        j: nat)
    requires tree.Valid() && Describes(net, tree) && forall f :: f in links <==> IsLink(tree, f)
    requires PathEnumeration.HomesOf(links, net.isSwitch, hosts, homes) && forall h | h in homes :: net.Host(h)
    requires i < tree.Pods() && j < tree.half
    ensures forall t :: t in PathEnumeration.ServedTors(net, homes, hosts, tree.Tor(i, j)) <==>
      tree.perTor > 0 && IsOtherTor(tree, i, j, t)
  {
    var s := tree.Tor(i, j);
    forall t | t in PathEnumeration.ServedTors(net, homes, hosts, s)
      ensures tree.perTor > 0 && IsOtherTor(tree, i, j, t)
    {
      var h :| h in hosts && PathEnumeration.Served(net, homes, h, s) && homes[h] == t;
      var a, b := HomeIsTor(net, tree, links, hosts, homes, h);
      assert IsTorAt(tree, t, a, b) && (a, b) != (i, j);
    }
    if tree.perTor > 0 {
      forall t | IsOtherTor(tree, i, j, t)
        ensures t in PathEnumeration.ServedTors(net, homes, hosts, s)
      {
        var a: nat, b: nat :| IsTorAt(tree, t, a, b) && (a, b) != (i, j);
        var h := TorIsHome(net, tree, links, hosts, homes, a, b);
        OtherIsServed(net, tree, i, j, a, b, h);
        assert PathEnumeration.Served(net, homes, h, s);
      }
    }
  }

  lemma OtherIsServed(net: Net, tree: Tree, i: nat, j: nat, a: nat, b: nat, h: nat)
    requires tree.Valid() && Describes(net, tree)
    requires i < tree.Pods() && a < tree.Pods() && j < tree.half && b < tree.half && (i, j) != (a, b)
    requires PathEnumeration.Homed(net, h, tree.Tor(a, b))
    ensures Reaches(net, tree.Tor(i, j), h) && tree.Tor(i, j) != tree.Tor(a, b)
  {
    TorDistance(net, tree, i, j, a, b);
    Ranges(tree, i, j);
    PathEnumeration.DistViaHome(net, tree.Tor(i, j), h, tree.Tor(a, b));
    if tree.Tor(i, j) == tree.Tor(a, b) {
      IndexUnique(i, j, a, b, tree.half);
    }
  }

  lemma RowSize(net: Net, tree: Tree, ports: PathEnumeration.Ports, i: nat, j: nat, a: nat, b: nat,
                registered: set<(nat, nat)>)
    requires tree.Valid() && Describes(net, tree) && PathEnumeration.GoodPorts(net, ports)
    requires i < tree.Pods() && a < tree.Pods() && j < tree.half && b < tree.half && (i, j) != (a, b)
    requires PathEnumeration.AllShortest(net, ports, tree.Tor(i, j), tree.Tor(a, b), registered)
    ensures |registered| == if i == a then tree.half else tree.half * tree.half
  {
    if i == a {
      RegisteredInPod(net, tree, ports, i, j, b, registered);
    } else {
      RegisteredAcrossPods(net, tree, ports, i, j, a, b, registered);
    }
  }

  lemma OthersAreNear(net: Net, tree: Tree, i: nat, j: nat, t: nat)
    requires tree.Valid() && Describes(net, tree) && i < tree.Pods() && j < tree.half && IsOtherTor(tree, i, j, t)
    ensures Reaches(net, tree.Tor(i, j), t) && 2 <= Dist(net, tree.Tor(i, j), t) <= 4
  {
    var a: nat, b: nat :| IsTorAt(tree, t, a, b) && (a, b) != (i, j);
    TorDistance(net, tree, i, j, a, b);
  }

  /** A row of the table is that of another ToR, and as large as it should be. */
  lemma RowIsFull(net: Net, tree: Tree, ports: PathEnumeration.Ports, i: nat, j: nat, a: nat, b: nat,
                  row: set<(nat, nat)>)
    requires tree.Valid() && Describes(net, tree) && PathEnumeration.GoodPorts(net, ports)
    requires i < tree.Pods() && a < tree.Pods() && j < tree.half && b < tree.half
    requires IsOtherTor(tree, i, j, tree.Tor(a, b))
    requires PathEnumeration.AllShortest(net, ports, tree.Tor(i, j), tree.Tor(a, b), row)
    ensures |row| == if a == i then tree.half else tree.half * tree.half
  {
    var c: nat, d: nat :| IsTorAt(tree, tree.Tor(a, b), c, d) && (c, d) != (i, j);
    IndexUnique(a, b, c, d, tree.half);
    RowSize(net, tree, ports, i, j, a, b, row);
  }

  lemma HostsAreHomed(net: Net, tree: Tree, links: seq<(nat, nat)>, routes: Routing.Routes, hosts: seq<nat>,
                      homes: map<nat, nat>)
    requires tree.Valid() && Describes(net, tree) && forall f :: f in links <==> IsLink(tree, f)
    requires Routing.AllRoutes(net, routes)
    requires PathEnumeration.HomesOf(links, net.isSwitch, hosts, homes) && forall h | h in homes :: net.Host(h)
    ensures forall h | h in hosts ::
      h in homes && PathEnumeration.Homed(net, h, homes[h]) && Routing.RoutesTo(net, routes, h)
  {
    forall h | h in hosts
      ensures PathEnumeration.Homed(net, h, homes[h])
    {
      var a, b := HomeIsTor(net, tree, links, hosts, homes, h);
    }
  }

  lemma AllAreNear(net: Net, tree: Tree, i: nat, j: nat)
    requires tree.Valid() && Describes(net, tree) && i < tree.Pods() && j < tree.half
    ensures net.Switch(tree.Tor(i, j))
    ensures forall t | IsOtherTor(tree, i, j, t) ::
      Reaches(net, tree.Tor(i, j), t) && 2 <= Dist(net, tree.Tor(i, j), t) <= 4
  {
    Ranges(tree, i, j);
    forall t | IsOtherTor(tree, i, j, t)
      ensures Reaches(net, tree.Tor(i, j), t) && 2 <= Dist(net, tree.Tor(i, j), t) <= 4
    {
      OthersAreNear(net, tree, i, j, t);
    }
  }

  /** The table has a row for each other ToR, of all shortest paths to it: half of them
      in the pod and half * half outside. */
  ghost predicate FullTable(net: Net, tree: Tree, ports: PathEnumeration.Ports, i: nat, j: nat,
                            table: map<nat, set<(nat, nat)>>)
  {
    && (forall t :: t in table <==> tree.perTor > 0 && IsOtherTor(tree, i, j, t))
    && forall a: nat, b: nat | a < tree.Pods() && b < tree.half && tree.Tor(a, b) in table ::
         && PathEnumeration.AllShortest(net, ports, tree.Tor(i, j), tree.Tor(a, b), table[tree.Tor(a, b)])
         && |table[tree.Tor(a, b)]| == if a == i then tree.half else tree.half * tree.half
  }

  lemma TableIsFull(net: Net, tree: Tree, ports: PathEnumeration.Ports, i: nat, j: nat, tors: set<nat>,
                    table: map<nat, set<(nat, nat)>>)
    requires tree.Valid() && Describes(net, tree) && PathEnumeration.GoodPorts(net, ports)
    requires i < tree.Pods() && j < tree.half
    requires forall t :: t in tors <==> tree.perTor > 0 && IsOtherTor(tree, i, j, t)
    requires PathEnumeration.TableOf(net, ports, tors, tree.Tor(i, j), table)
    ensures FullTable(net, tree, ports, i, j, table)
  {
    AllAreNear(net, tree, i, j);
    forall a: nat, b: nat | a < tree.Pods() && b < tree.half && tree.Tor(a, b) in table
      ensures |table[tree.Tor(a, b)]| == if a == i then tree.half else tree.half * tree.half
    {
      RowIsFull(net, tree, ports, i, j, a, b, table[tree.Tor(a, b)]);
    }
  }

  /** The configuration of one ToR of a generated fat tree, with the routes that
      CalculateRoutes leaves: the branch for a too large topology is never taken, and the
      table is full. */
  method ConfigureTor(tree: Tree, links: seq<(nat, nat)>, net: Net, routes: Routing.Routes,
                      ports: PathEnumeration.Ports, i: nat, j: nat)
    returns (ok: bool, table: map<nat, set<(nat, nat)>>)
    requires tree.Valid() && (forall f :: f in links <==> IsLink(tree, f)) && Describes(net, tree)
    requires Routing.AllRoutes(net, routes) && PathEnumeration.GoodPorts(net, ports)
    requires i < tree.Pods() && j < tree.half
    ensures ok && FullTable(net, tree, ports, i, j, table)
  {
    var hosts, homes := PathEnumeration.FindHomes(links, net.isSwitch);
    HostsAreHomed(net, tree, links, routes, hosts, homes);
    ServedAreOthers(net, tree, links, hosts, homes, i, j);
    AllAreNear(net, tree, i, j);
    ok, table := PathEnumeration.ConfigureSource(net, routes, ports, homes, hosts, tree.Tor(i, j));
    TableIsFull(net, tree, ports, i, j, PathEnumeration.ServedTors(net, homes, hosts, tree.Tor(i, j)), table);
  }
}
