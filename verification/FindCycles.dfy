/** The cycle finder: a stack of simple paths from every root, and the rotation
    test that keeps one representative of each cycle. */
module FindCycles {
  import opened Digraph
  import opened Sequences

  type Graph<T> = map<T, seq<T>>

  ghost predicate Edge<T(!new)>(g: Graph<T>, x: T, y: T) {
    x in g && y in g[x]
  }

  ghost predicate IsPath<T(!new)>(g: Graph<T>, p: seq<T>) {
    p != [] && NoRepeats(p) && forall i | 0 <= i < |p| - 1 :: Edge(g, p[i], p[i + 1])
  }

  /** A list of different nodes, each the parent of the next and the last the
      parent of the first. */
  ghost predicate IsSimpleCycle<T(!new)>(g: Graph<T>, c: seq<T>) {
    IsPath(g, c) && Edge(g, c[|c| - 1], c[0])
  }

  // --------------------------------------------------------------- rotations

  function Rotate<T>(s: seq<T>, k: nat): seq<T>
    requires k <= |s|
  {
    s[k..] + s[..k]
  }

  ghost predicate Rotation<T(!new)>(a: seq<T>, b: seq<T>) {
    exists k :: 0 <= k <= |a| && b == Rotate(a, k)
  }

  lemma RotateTwice<T(!new)>(s: seq<T>, k: nat, m: nat)
    requires k <= |s| && m <= |s|
    ensures Rotate(Rotate(s, k), m) == if k + m <= |s| then Rotate(s, k + m) else Rotate(s, k + m - |s|)
  {}

  lemma RotationTransitive<T(!new)>(a: seq<T>, b: seq<T>, c: seq<T>)
    requires Rotation(a, b) && Rotation(b, c)
    ensures Rotation(a, c)
  {
    var k :| 0 <= k <= |a| && b == Rotate(a, k);
    var m :| 0 <= m <= |b| && c == Rotate(b, m);
    RotateTwice(a, k, m);
  }

  lemma RotationSymmetric<T(!new)>(a: seq<T>, b: seq<T>)
    requires Rotation(a, b)
    ensures Rotation(b, a)
  {
    var k :| 0 <= k <= |a| && b == Rotate(a, k);
    RotateTwice(a, k, |a| - k);
    assert Rotate(a, |a|) == a;
  }

  /** Looks for the head of the second sequence in the first one and compares
      the doubled first sequence from there. */
  method IsRotated<T(==, !new)>(s: seq<T>, t: seq<T>) returns (r: bool)
    requires t != []
    ensures r <==> Rotation(s, t)
  {
    if |s| != |t| {
      return false;
    }
    var starts: seq<nat> := [];
    for i := 0 to |s|
      invariant forall j | 0 <= j < |starts| :: starts[j] < |s|
      invariant forall k | 0 <= k < i && s[k] == t[0] :: k in starts
    {
      if s[i] == t[0] {
        starts := starts + [i];
      }
    }
    var doubled := s + s;
    for i := 0 to |starts|
      invariant forall j | 0 <= j < i :: Rotate(s, starts[j]) != t
    {
      var k := starts[i];
      assert doubled[k..k + |s|] == Rotate(s, k);
      if doubled[k..k + |s|] == t {
        return true;
      }
    }
    if Rotation(s, t) {
      RotationHasStart(s, t, starts);
    }
    return false;
  }

  lemma RotationHasStart<T(!new)>(s: seq<T>, t: seq<T>, starts: seq<nat>)
    requires t != [] && Rotation(s, t) && forall k | 0 <= k < |s| && s[k] == t[0] :: k in starts
    ensures exists j :: 0 <= j < |starts| && starts[j] <= |s| && Rotate(s, starts[j]) == t
  {
    var k :| 0 <= k <= |s| && t == Rotate(s, k);
    var m := if k == |s| then 0 else k;
    assert t == Rotate(s, m) && t[0] == s[m];
    assert m in starts;
    var j :| 0 <= j < |starts| && starts[j] == m;
  }

  /** Some listed cycle is a rotation of c. */
  ghost predicate Covered<T(!new)>(cycles: seq<seq<T>>, c: seq<T>) {
    exists i :: 0 <= i < |cycles| && Rotation(cycles[i], c)
  }

  lemma CoveredGrows<T(!new)>(cycles: seq<seq<T>>, longer: seq<seq<T>>, c: seq<T>)
    requires Covered(cycles, c) && cycles <= longer
    ensures Covered(longer, c)
  {
    var i :| 0 <= i < |cycles| && Rotation(cycles[i], c);
    assert longer[i] == cycles[i];
  }

  /** Every listed cycle is a simple cycle and no two are rotations of each other. */
  ghost predicate Distinct<T(!new)>(g: Graph<T>, cycles: seq<seq<T>>) {
    && (forall i | 0 <= i < |cycles| :: IsSimpleCycle(g, cycles[i]))
    && (forall i, j | 0 <= i < |cycles| && 0 <= j < |cycles| && i != j :: !Rotation(cycles[i], cycles[j]))
  }

  /** Appends a cycle unless a rotation of it is listed already. */
  method AddCycle<T(==, !new)>(ghost g: Graph<T>, cycles: seq<seq<T>>, c: seq<T>) returns (cycles': seq<seq<T>>)
    requires Distinct(g, cycles) && IsSimpleCycle(g, c)
    ensures cycles <= cycles' && Distinct(g, cycles') && Covered(cycles', c)
  {
    var isDup := false;
    var i := 0;
    while i < |cycles| && !isDup
      invariant i <= |cycles| && (isDup ==> Covered(cycles, c))
      invariant !isDup ==> forall j | 0 <= j < i :: !Rotation(cycles[j], c)
    {
      isDup := IsRotated(cycles[i], c);
      i := i + 1;
    }
    if isDup {
      return cycles;
    }
    cycles' := cycles + [c];
    forall j | 0 <= j < |cycles|
      ensures !Rotation(c, cycles[j])
    {
      if Rotation(c, cycles[j]) {
        RotationSymmetric(c, cycles[j]);
      }
    }
    assert Rotate(c, 0) == c;
    assert Rotation(cycles'[|cycles|], c);
  }

  // ------------------------------------------------- exploring from one root

  /** What expanding a path must have left behind: every child that closes the
      path has its cycle covered, every other child has its longer path pending. */
  ghost predicate Expanded<T(!new)>(g: Graph<T>, path: seq<T>, cycles: seq<seq<T>>, pending: set<seq<T>>) {
    path != [] && forall c | Edge(g, path[|path| - 1], c) :: ChildSeen(path, c, cycles, pending)
  }

  ghost predicate ChildSeen<T(!new)>(path: seq<T>, c: T, cycles: seq<seq<T>>, pending: set<seq<T>>) {
    if c in path then Covered(cycles, path[Position(path, c)..]) else path + [c] in pending
  }

  ghost function Position<T(!new)>(s: seq<T>, x: T): (i: nat)
    requires x in s
    ensures i < |s| && s[i] == x && x !in s[..i]
  {
    if s[0] == x then 0 else 1 + Position(s[1..], x)
  }

  lemma ChildSeenGrows<T(!new)>(path: seq<T>, c: T, cycles: seq<seq<T>>, pending: set<seq<T>>,
                                cycles': seq<seq<T>>, pending': set<seq<T>>)
    requires ChildSeen(path, c, cycles, pending) && cycles <= cycles' && pending <= pending'
    ensures ChildSeen(path, c, cycles', pending')
  {
    if c in path {
      CoveredGrows(cycles, cycles', path[Position(path, c)..]);
    }
  }

  /** The search from root: every popped path is expanded into what was popped
      or is still on the stack. */
  ghost predicate Explored<T(!new)>(g: Graph<T>, root: T, popped: set<seq<T>>, cycles: seq<seq<T>>,
                                    stack: seq<seq<T>>)
  {
    && [root] in popped + Elements(stack)
    && (forall p | p in popped + Elements(stack) :: IsPath(g, p) && p[0] == root)
    && (forall p | p in popped :: Expanded(g, p, cycles, popped + Elements(stack)))
  }

  /** When the stack is empty every simple path from the root has been popped. */
  lemma AllPathsPopped<T(!new)>(g: Graph<T>, root: T, popped: set<seq<T>>, cycles: seq<seq<T>>, p: seq<T>)
    requires Explored(g, root, popped, cycles, []) && IsPath(g, p) && p[0] == root
    ensures p in popped
  {
    var n := |p| - 1;
    if n == 0 {
      assert p == [root];
    } else {
      var q := p[..n];
      AllPathsPopped(g, root, popped, cycles, q);
      assert Expanded(g, q, cycles, popped + Elements([])) && Edge(g, p[n - 1], p[n - 1 + 1]);
      assert ChildSeen(q, p[n], cycles, popped + Elements([]));
      assert q + [p[n]] == p;
    }
  }

  ghost predicate ReachesBy<T(!new)>(g: Graph<T>, root: T, p: seq<T>, x: T) {
    IsPath(g, p) && p[0] == root && p[|p| - 1] == x
  }

  ghost predicate ReachesNode<T(!new)>(g: Graph<T>, root: T, x: T) {
    exists p :: ReachesBy(g, root, p, x)
  }

  /** All simple cycles with a node that the root reaches are covered. */
  ghost predicate RootDone<T(!new)>(g: Graph<T>, root: T, cycles: seq<seq<T>>) {
    forall c, x | IsSimpleCycle(g, c) && x in c && ReachesNode(g, root, x) :: Covered(cycles, c)
  }

  /** The first prefix of p that ends in c meets c nowhere else. */
  lemma FirstMeeting<T(!new)>(g: Graph<T>, p: seq<T>, c: seq<T>) returns (i: nat)
    requires IsPath(g, p) && p[|p| - 1] in c
    ensures i < |p| && p[i] in c && forall j | 0 <= j < i :: p[j] !in c
  {
    i := 0;
    while p[i] !in c
      invariant i < |p| && forall j | 0 <= j < i :: p[j] !in c
      decreases |p| - i
    {
      i := i + 1;
    }
  }

  /** A path to a cycle, continued once round the cycle. */
  lemma AroundTheCycle<T(!new)>(g: Graph<T>, p: seq<T>, c: seq<T>, m: nat)
    requires IsPath(g, p) && IsSimpleCycle(g, c) && m < |c| && p[|p| - 1] == c[m]
    requires forall j | 0 <= j < |p| - 1 :: p[j] !in c
    ensures IsPath(g, p + Rotate(c, m)[1..])
    ensures Rotate(c, m)[0] == c[m] && Edge(g, Rotate(c, m)[|c| - 1], c[m])
  {
    var r := Rotate(c, m);
    RotationIsCycle(g, c, m);
    var q := p + r[1..];
    forall i, j | 0 <= i < j < |q|
      ensures q[i] != q[j]
    {
      if i < |p| - 1 && |p| <= j {
        assert q[j] == r[j - |p| + 1] && r[j - |p| + 1] in c;
      }
      if i == |p| - 1 && |p| <= j {
        assert q[i] == r[0] && q[j] == r[j - |p| + 1];
      }
    }
    forall i | 0 <= i < |q| - 1
      ensures Edge(g, q[i], q[i + 1])
    {
      if i >= |p| - 1 {
        assert q[i] == r[i - |p| + 1] && q[i + 1] == r[i - |p| + 2];
      }
    }
  }

  function Wrap(i: nat, m: nat, n: nat): nat
    requires i < n && m < n
  {
    if i + m < n then i + m else i + m - n
  }

  lemma RotateIndex<T(!new)>(c: seq<T>, m: nat, i: nat)
    requires m < |c| && i < |c|
    ensures Rotate(c, m)[i] == c[Wrap(i, m, |c|)]
  {}

  /** Going on in a rotated cycle is going on in the cycle, its end included. */
  lemma NextInCycle<T(!new)>(g: Graph<T>, c: seq<T>, k: nat)
    requires IsSimpleCycle(g, c) && k < |c|
    ensures Edge(g, c[k], c[if k + 1 < |c| then k + 1 else 0])
  {
    if k + 1 < |c| {
      assert Edge(g, c[k], c[k + 1]);
    }
  }

  lemma NextInRotation<T(!new)>(g: Graph<T>, c: seq<T>, m: nat, i: nat)
    requires IsSimpleCycle(g, c) && m < |c| && i < |c|
    ensures Edge(g, Rotate(c, m)[i], Rotate(c, m)[if i + 1 < |c| then i + 1 else 0])
  {
    RotateIndex(c, m, i);
    RotateIndex(c, m, if i + 1 < |c| then i + 1 else 0);
    NextInCycle(g, c, Wrap(i, m, |c|));
  }

  lemma RotationHasNoRepeats<T(!new)>(c: seq<T>, m: nat)
    requires NoRepeats(c) && m < |c|
    ensures NoRepeats(Rotate(c, m)) && forall x :: x in Rotate(c, m) <==> x in c
  {
    forall i, j | 0 <= i < j < |c|
      ensures Rotate(c, m)[i] != Rotate(c, m)[j]
    {
      RotateIndex(c, m, i);
      RotateIndex(c, m, j);
    }
    assert c[..m] + c[m..] == c;
  }

  lemma RotationIsCycle<T(!new)>(g: Graph<T>, c: seq<T>, m: nat)
    requires IsSimpleCycle(g, c) && m < |c|
    ensures IsSimpleCycle(g, Rotate(c, m)) && forall x :: x in Rotate(c, m) <==> x in c
  {
    RotationHasNoRepeats(c, m);
    forall i | 0 <= i < |c| - 1
      ensures Edge(g, Rotate(c, m)[i], Rotate(c, m)[i + 1])
    {
      NextInRotation(g, c, m, i);
    }
    NextInRotation(g, c, m, |c| - 1);
  }

  /** Once its stack is empty, a root has found every simple cycle it can reach. */
  lemma RootFindsCycles<T(!new)>(g: Graph<T>, root: T, popped: set<seq<T>>, cycles: seq<seq<T>>)
    requires Explored(g, root, popped, cycles, [])
    ensures RootDone(g, root, cycles)
  {
    forall c, x | IsSimpleCycle(g, c) && x in c && ReachesNode(g, root, x)
      ensures Covered(cycles, c)
    {
      var p :| ReachesBy(g, root, p, x);
      RootFindsCycle(g, root, popped, cycles, c, p);
    }
  }

  lemma RootFindsCycle<T(!new)>(g: Graph<T>, root: T, popped: set<seq<T>>, cycles: seq<seq<T>>, c: seq<T>, p: seq<T>)
    requires Explored(g, root, popped, cycles, []) && IsSimpleCycle(g, c)
    requires IsPath(g, p) && p[0] == root && p[|p| - 1] in c
    ensures Covered(cycles, c)
  {
    var i := FirstMeeting(g, p, c);
    var q := p[..i + 1];
    var m := Position(c, p[i]);
    var r := Rotate(c, m);
    AroundTheCycle(g, q, c, m);
    var full := q + r[1..];
    AllPathsPopped(g, root, popped, cycles, full);
    assert full[|full| - 1] == r[|c| - 1] by {
      assert r[0] == q[i];
    }
    assert ChildSeen(full, c[m], cycles, popped + Elements([])) by {
      assert Expanded(g, full, cycles, popped + Elements([]));
    }
    assert full[i] == c[m];
    assert Position(full, c[m]) == i;
    assert full[i..] == r;
    var k :| 0 <= k < |cycles| && Rotation(cycles[k], r);
    assert Rotation(c, r);
    RotationSymmetric(c, r);
    RotationTransitive(cycles[k], r, c);
  }

  // ------------------------------------------------------------ termination

  ghost function AllNodes<T(!new)>(g: Graph<T>): set<T> {
    g.Keys + set x, i | x in g && 0 <= i < |g[x]| :: g[x][i]
  }

  lemma PathInside<T(!new)>(g: Graph<T>, p: seq<T>)
    requires IsPath(g, p) && p[0] in AllNodes(g)
    ensures |p| <= |AllNodes(g)|
  {
    forall x | x in p
      ensures x in AllNodes(g)
    {
      var i :| 0 <= i < |p| && p[i] == x;
      if i > 0 {
        assert Edge(g, p[i - 1], p[i - 1 + 1]);
        var k :| 0 <= k < |g[p[i - 1]]| && g[p[i - 1]][k] == x;
      }
    }
    NoRepeatsCount(p);
    SubsetCount(Elements(p), AllNodes(g));
  }

  ghost predicate DegreeBound<T(!new)>(g: Graph<T>, d: nat) {
    forall x | x in g :: |g[x]| <= d
  }

  lemma SomeDegreeBound<T(!new)>(g: Graph<T>) returns (d: nat)
    ensures DegreeBound(g, d)
  {
    d := DegreeBoundOf(g, g.Keys);
  }

  lemma DegreeBoundOf<T(!new)>(g: Graph<T>, keys: set<T>) returns (d: nat)
    requires keys <= g.Keys
    ensures forall x | x in keys :: |g[x]| <= d
  {
    if keys == {} {
      d := 0;
    } else {
      var x :| x in keys;
      var e := DegreeBoundOf(g, keys - {x});
      d := if |g[x]| <= e then e else |g[x]|;
    }
  }

  /** k * w by repeated addition. */
  ghost function Repeat(k: nat, w: nat): nat {
    if k == 0 then 0 else Repeat(k - 1, w) + w
  }

  lemma RepeatGrows(k: nat, d: nat, w: nat)
    requires k <= d
    ensures Repeat(k, w) <= Repeat(d, w)
  {
    if k < d {
      RepeatGrows(k, d - 1, w);
    }
  }

  /** What a path can still cost: itself and, for each of at most d children, a
      path with one node less to go. */
  ghost function Weight(left: nat, d: nat): nat {
    if left == 0 then 1 else 1 + Repeat(d, Weight(left - 1, d))
  }

  ghost function PathWeight<T(!new)>(g: Graph<T>, p: seq<T>, d: nat): nat {
    if |AllNodes(g)| <= |p| then 1 else Weight(|AllNodes(g)| - |p|, d)
  }

  ghost function StackWeight<T(!new)>(g: Graph<T>, stack: seq<seq<T>>, d: nat): nat {
    if stack == [] then 0
    else StackWeight(g, stack[..|stack| - 1], d) + PathWeight(g, stack[|stack| - 1], d)
  }

  lemma PushWeight<T(!new)>(g: Graph<T>, stack: seq<seq<T>>, p: seq<T>, d: nat)
    ensures StackWeight(g, stack + [p], d) == StackWeight(g, stack, d) + PathWeight(g, p, d)
  {
    assert (stack + [p])[..|stack|] == stack;
  }

  /** The weight of a path that is one node longer; a path through all nodes
      has no such continuation. */
  ghost function Step<T(!new)>(g: Graph<T>, path: seq<T>, d: nat): nat {
    if |AllNodes(g)| <= |path| then 0 else Weight(|AllNodes(g)| - |path| - 1, d)
  }

  lemma ExpandWeight<T(!new)>(g: Graph<T>, path: seq<T>, d: nat, kids: nat)
    requires kids <= d
    ensures Repeat(kids, Step(g, path, d)) < PathWeight(g, path, d)
  {
    if |AllNodes(g)| <= |path| {
      RepeatZero(kids);
    } else {
      RepeatGrows(kids, d, Step(g, path, d));
    }
  }

  lemma RepeatZero(k: nat)
    ensures Repeat(k, 0) == 0
  {}

  // --------------------------------------------------------------- the finder

  ghost predicate VisitedFrom<T(!new)>(g: Graph<T>, visited: set<T>, roots: set<T>) {
    forall v | v in visited :: exists r :: r in roots && ReachesNode(g, r, v)
  }

  /** What expanding a path adds to the stack and to the visited nodes. */
  ghost predicate Pushes<T(!new)>(g: Graph<T>, root: T, stack: seq<seq<T>>, stack': seq<seq<T>>,
                                  visited: set<T>, visited': set<T>) {
    && Elements(stack) <= Elements(stack') && visited <= visited'
    && (forall p | p in stack' :: p in stack || (IsPath(g, p) && p[0] == root))
    && (forall v | v in visited' :: v in visited || ReachesNode(g, root, v))
  }

  /** A child on the path closes a cycle, any other child makes a longer path. */
  method VisitChild<T(==, !new)>(ghost g: Graph<T>, ghost root: T, path: seq<T>, child: T,
                                 stack: seq<seq<T>>, visited: set<T>, cycles: seq<seq<T>>, ghost d: nat)
    returns (stack': seq<seq<T>>, visited': set<T>, cycles': seq<seq<T>>)
    requires IsPath(g, path) && path[0] == root && root in AllNodes(g) && Edge(g, path[|path| - 1], child)
    requires Distinct(g, cycles)
    ensures cycles <= cycles' && Distinct(g, cycles')
    ensures Pushes(g, root, stack, stack', visited, visited')
    ensures ChildSeen(path, child, cycles', Elements(stack'))
    ensures StackWeight(g, stack', d) <= StackWeight(g, stack, d) + Step(g, path, d)
  {
    stack', visited', cycles' := stack, visited, cycles;
    if child in path {
      var k := IndexOf(path, child);
      SubPath(g, path, k);
      cycles' := AddCycle(g, cycles, path[k..]);
    } else {
      PushPath(g, root, path, child);
      stack', visited' := PushChild(g, path + [child], child, stack, visited, d);
      LongerWeight(g, path, child, d);
    }
  }

  lemma LongerWeight<T(!new)>(g: Graph<T>, path: seq<T>, child: T, d: nat)
    requires |path| < |AllNodes(g)|
    ensures PathWeight(g, path + [child], d) == Step(g, path, d)
  {}

  method PushChild<T(==, !new)>(ghost g: Graph<T>, longer: seq<T>, child: T, stack: seq<seq<T>>, visited: set<T>,
                                ghost d: nat)
    returns (stack': seq<seq<T>>, visited': set<T>)
    ensures Elements(stack') == Elements(stack) + {longer} && visited' == visited + {child}
    ensures forall p :: p in stack' <==> p in stack || p == longer
    ensures StackWeight(g, stack', d) == StackWeight(g, stack, d) + PathWeight(g, longer, d)
  {
    PushWeight(g, stack, longer, d);
    stack', visited' := stack + [longer], visited + {child};
  }

  /** Looks at the children of a popped path one by one. */
  method ExpandPath<T(==, !new)>(ghost g: Graph<T>, ghost root: T, path: seq<T>, children: seq<T>,
                                 stack: seq<seq<T>>, visited: set<T>, cycles: seq<seq<T>>, ghost d: nat)
    returns (stack': seq<seq<T>>, visited': set<T>, cycles': seq<seq<T>>)
    requires IsPath(g, path) && path[0] == root && root in AllNodes(g)
    requires path[|path| - 1] in g && children == g[path[|path| - 1]] && Distinct(g, cycles)
    ensures cycles <= cycles' && Distinct(g, cycles')
    ensures Pushes(g, root, stack, stack', visited, visited')
    ensures Expanded(g, path, cycles', Elements(stack'))
    ensures StackWeight(g, stack', d) <= StackWeight(g, stack, d) + Repeat(|children|, Step(g, path, d))
  {
    stack', visited', cycles' := stack, visited, cycles;
    for j := 0 to |children|
      invariant cycles <= cycles' && Distinct(g, cycles')
      invariant Pushes(g, root, stack, stack', visited, visited')
      invariant ChildrenSeen(path, children[..j], cycles', Elements(stack'))
      invariant StackWeight(g, stack', d) <= StackWeight(g, stack, d) + Repeat(j, Step(g, path, d))
    {
      ghost var stackBefore, cyclesBefore := stack', cycles';
      assert Edge(g, path[|path| - 1], children[j]);
      stack', visited', cycles' := VisitChild(g, root, path, children[j], stack', visited', cycles', d);
      OneMoreChild(path, children, j, cyclesBefore, Elements(stackBefore), cycles', Elements(stack'));
    }
    assert children[..|children|] == children;
  }

  ghost predicate ChildrenSeen<T(!new)>(path: seq<T>, children: seq<T>, cycles: seq<seq<T>>, pending: set<seq<T>>) {
    forall c | c in children :: ChildSeen(path, c, cycles, pending)
  }

  lemma OneMoreChild<T(!new)>(path: seq<T>, children: seq<T>, j: nat, cycles: seq<seq<T>>, pending: set<seq<T>>,
                              cycles': seq<seq<T>>, pending': set<seq<T>>)
    requires j < |children| && ChildrenSeen(path, children[..j], cycles, pending)
    requires cycles <= cycles' && pending <= pending' && ChildSeen(path, children[j], cycles', pending')
    ensures ChildrenSeen(path, children[..j + 1], cycles', pending')
  {
    forall c | c in children[..j + 1]
      ensures ChildSeen(path, c, cycles', pending')
    {
      if c in children[..j] {
        ChildSeenGrows(path, c, cycles, pending, cycles', pending');
      }
    }
  }

  method IndexOf<T(==, !new)>(s: seq<T>, x: T) returns (i: nat)
    requires x in s
    ensures i == Position(s, x)
  {
    i := 0;
    while s[i] != x
      invariant i < |s| && x in s[i..] && i + Position(s[i..], x) == Position(s, x)
      decreases |s| - i
    {
      assert s[i..][1..] == s[i + 1..];
      i := i + 1;
    }
  }

  lemma SubPath<T(!new)>(g: Graph<T>, path: seq<T>, k: nat)
    requires IsPath(g, path) && k < |path|
    ensures IsPath(g, path[k..])
  {
    var q := path[k..];
    forall i | 0 <= i < |q| - 1
      ensures Edge(g, q[i], q[i + 1])
    {
      assert Edge(g, path[k + i], path[k + i + 1]);
    }
  }

  lemma PushPath<T(!new)>(g: Graph<T>, root: T, path: seq<T>, child: T)
    requires IsPath(g, path) && path[0] == root && root in AllNodes(g)
    requires Edge(g, path[|path| - 1], child) && child !in path
    ensures IsPath(g, path + [child]) && |path| + 1 <= |AllNodes(g)| && ReachesNode(g, root, child)
  {
    var q := path + [child];
    forall i | 0 <= i < |q| - 1
      ensures Edge(g, q[i], q[i + 1])
    {
      if i < |path| - 1 {
        assert Edge(g, path[i], path[i + 1]);
      }
    }
    PathInside(g, q);
    assert ReachesBy(g, root, q, child);
  }

  /** Popping a path and expanding it keeps the search going. */
  lemma PopKeepsExplored<T(!new)>(g: Graph<T>, root: T, popped: set<seq<T>>, path: seq<T>,
                                  cycles: seq<seq<T>>, stack: seq<seq<T>>, cycles': seq<seq<T>>, stack': seq<seq<T>>)
    requires Explored(g, root, popped, cycles, stack + [path]) && cycles <= cycles'
    requires Elements(stack) <= Elements(stack')
    requires forall p | p in stack' :: p in stack || (IsPath(g, p) && p[0] == root)
    requires Expanded(g, path, cycles', Elements(stack'))
    ensures Explored(g, root, popped + {path}, cycles', stack')
  {
    var before, after := popped + Elements(stack + [path]), popped + {path} + Elements(stack');
    assert Elements(stack + [path]) == Elements(stack) + {path};
    assert before <= after;
    forall p | p in popped + {path}
      ensures Expanded(g, p, cycles', after)
    {
      if p in popped {
        ExpandedGrows(g, p, cycles, before, cycles', after);
      } else {
        ExpandedGrows(g, p, cycles', Elements(stack'), cycles', after);
      }
    }
  }

  lemma ExpandedGrows<T(!new)>(g: Graph<T>, path: seq<T>, cycles: seq<seq<T>>, pending: set<seq<T>>,
                               cycles': seq<seq<T>>, pending': set<seq<T>>)
    requires Expanded(g, path, cycles, pending) && cycles <= cycles' && pending <= pending'
    ensures Expanded(g, path, cycles', pending')
  {
    forall c | Edge(g, path[|path| - 1], c)
      ensures ChildSeen(path, c, cycles', pending')
    {
      ChildSeenGrows(path, c, cycles, pending, cycles', pending');
    }
  }

  /** Everything reachable from one root: pops paths until the stack is empty. */
  method SearchRoot<T(==, !new)>(g: Graph<T>, root: T, visited: set<T>, cycles: seq<seq<T>>)
    returns (visited': set<T>, cycles': seq<seq<T>>)
    requires root in g && Distinct(g, cycles)
    ensures cycles <= cycles' && Distinct(g, cycles') && RootDone(g, root, cycles')
    ensures Marks(g, root, visited, visited')
  {
    visited', cycles' := visited, cycles;
    var stack := [[root]];
    ghost var popped: set<seq<T>> := {};
    ghost var d := SomeDegreeBound(g);
    while stack != []
      invariant cycles <= cycles' && Distinct(g, cycles')
      invariant Explored(g, root, popped, cycles', stack)
      invariant Marks(g, root, visited, visited')
      decreases StackWeight(g, stack, d)
    {
      stack, visited', cycles', popped := PopPath(g, root, stack, visited', cycles', popped, d);
    }
    RootFindsCycles(g, root, popped, cycles');
  }

  ghost predicate Marks<T(!new)>(g: Graph<T>, root: T, visited: set<T>, visited': set<T>) {
    visited <= visited' && forall v | v in visited' :: v in visited || ReachesNode(g, root, v)
  }

  method PopPath<T(==, !new)>(g: Graph<T>, ghost root: T, stack: seq<seq<T>>, visited: set<T>, cycles: seq<seq<T>>,
                              ghost popped: set<seq<T>>, ghost d: nat)
    returns (stack': seq<seq<T>>, visited': set<T>, cycles': seq<seq<T>>, ghost popped': set<seq<T>>)
    requires root in g && stack != [] && Distinct(g, cycles) && DegreeBound(g, d)
    requires Explored(g, root, popped, cycles, stack)
    ensures cycles <= cycles' && Distinct(g, cycles')
    ensures Explored(g, root, popped', cycles', stack')
    ensures Marks(g, root, visited, visited')
    ensures StackWeight(g, stack', d) < StackWeight(g, stack, d)
  {
    var path, rest := stack[|stack| - 1], stack[..|stack| - 1];
    assert path in Elements(stack);
    var parent := path[|path| - 1];
    if parent in g {
      stack', visited', cycles' := ExpandPath(g, root, path, g[parent], rest, visited, cycles, d);
      ExpandWeight(g, path, d, |g[parent]|);
    } else {
      stack', visited', cycles' := rest, visited, cycles;
      NoChildren(g, path, cycles, Elements(rest));
      assert PathWeight(g, path, d) > 0;
    }
    popped' := popped + {path};
    assert stack == rest + [path];
    PopKeepsExplored(g, root, popped, path, cycles, rest, cycles', stack');
  }

  lemma NoChildren<T(!new)>(g: Graph<T>, path: seq<T>, cycles: seq<seq<T>>, pending: set<seq<T>>)
    requires path != [] && path[|path| - 1] !in g
    ensures Expanded(g, path, cycles, pending)
  {}

  /** The finder: terminates, yields only simple cycles, never two rotations of
      one cycle, and a rotation of every simple cycle of the graph. */
  method FindAllCycles<T(==, !new)>(g: Graph<T>) returns (cycles: seq<seq<T>>)
    ensures Distinct(g, cycles)
    ensures forall c | IsSimpleCycle(g, c) :: Covered(cycles, c)
  {
    cycles := [];
    var visited: set<T> := {};
    var keys := g.Keys;
    ghost var roots: set<T> := {};
    while keys != {}
      invariant keys <= g.Keys && Distinct(g, cycles)
      invariant forall r | r in roots :: RootDone(g, r, cycles)
      invariant VisitedFrom(g, visited, roots)
      invariant forall k | k in g && k !in keys :: k in roots || k in visited
      decreases keys
    {
      var root :| root in keys;
      keys := keys - {root};
      if root !in visited {
        ghost var before, seen := cycles, visited;
        visited, cycles := SearchRoot(g, root, visited, cycles);
        RootsStayDone(g, roots, before, cycles);
        VisitedGrows(g, seen, visited, roots, root);
        roots := roots + {root};
      }
    }
    forall c | IsSimpleCycle(g, c)
      ensures Covered(cycles, c)
    {
      KeyIsReached(g, roots, visited, c);
    }
  }

  lemma RootsStayDone<T(!new)>(g: Graph<T>, roots: set<T>, cycles: seq<seq<T>>, cycles': seq<seq<T>>)
    requires cycles <= cycles' && forall r | r in roots :: RootDone(g, r, cycles)
    ensures forall r | r in roots :: RootDone(g, r, cycles')
  {
    forall r, c, x | r in roots && IsSimpleCycle(g, c) && x in c && ReachesNode(g, r, x)
      ensures Covered(cycles', c)
    {
      assert RootDone(g, r, cycles);
      CoveredGrows(cycles, cycles', c);
    }
  }

  lemma VisitedGrows<T(!new)>(g: Graph<T>, visited: set<T>, visited': set<T>, roots: set<T>, root: T)
    requires VisitedFrom(g, visited, roots)
    requires Marks(g, root, visited, visited')
    ensures VisitedFrom(g, visited', roots + {root})
  {
    forall v | v in visited'
      ensures exists r :: r in roots + {root} && ReachesNode(g, r, v)
    {
      if v in visited {
        var r :| r in roots && ReachesNode(g, r, v);
        assert r in roots + {root};
      } else {
        assert root in roots + {root};
      }
    }
  }

  lemma KeyIsReached<T(!new)>(g: Graph<T>, roots: set<T>, visited: set<T>, c: seq<T>)
    requires VisitedFrom(g, visited, roots) && IsSimpleCycle(g, c)
    requires forall k | k in g :: k in roots || k in visited
    ensures exists r :: r in roots && ReachesNode(g, r, c[0])
  {
    var x := c[0];
    assert x in g by {
      if |c| > 1 {
        assert Edge(g, c[0], c[0 + 1]);
      }
    }
    if x in roots {
      assert ReachesBy(g, x, [x], x);
    }
  }

  // ------------------------------------------------------- acyclic graphs

  ghost predicate IsClosedWalk<T(!new)>(g: Graph<T>, w: seq<T>) {
    |w| > 1 && w[0] == w[|w| - 1] && forall i | 0 <= i < |w| - 1 :: Edge(g, w[i], w[i + 1])
  }

  /** Any closed walk contains a simple cycle, so the finder yields nothing
      exactly when there is no closed walk at all. */
  lemma ClosedWalkHasCycle<T(!new)>(g: Graph<T>, w: seq<T>) returns (c: seq<T>)
    requires IsClosedWalk(g, w)
    ensures IsSimpleCycle(g, c)
    decreases |w|
  {
    c := w[..|w| - 1];
    if NoRepeats(c) {
      forall i | 0 <= i < |c| - 1
        ensures Edge(g, c[i], c[i + 1])
      {
        assert Edge(g, w[i], w[i + 1]);
      }
      assert Edge(g, w[|w| - 2], w[|w| - 2 + 1]);
    } else {
      var i, j :| 0 <= i < j < |c| && c[i] == c[j];
      var v := w[i..j + 1];
      forall k | 0 <= k < |v| - 1
        ensures Edge(g, v[k], v[k + 1])
      {
        assert Edge(g, w[i + k], w[i + k + 1]);
      }
      c := ClosedWalkHasCycle(g, v);
    }
  }

  lemma CycleIsClosedWalk<T(!new)>(g: Graph<T>, c: seq<T>)
    requires IsSimpleCycle(g, c)
    ensures IsClosedWalk(g, c + [c[0]])
  {
    var w := c + [c[0]];
    forall i | 0 <= i < |w| - 1
      ensures Edge(g, w[i], w[i + 1])
    {
      if i < |c| - 1 {
        assert Edge(g, c[i], c[i + 1]);
      }
    }
  }

  lemma NothingFoundIffAcyclic<T(!new)>(g: Graph<T>, cycles: seq<seq<T>>)
    requires Distinct(g, cycles) && forall c | IsSimpleCycle(g, c) :: Covered(cycles, c)
    ensures cycles == [] <==> forall w :: !IsClosedWalk(g, w)
  {
    if cycles != [] {
      CycleIsClosedWalk(g, cycles[0]);
    } else {
      forall w | IsClosedWalk(g, w)
        ensures false
      {
        var c := ClosedWalkHasCycle(g, w);
      }
    }
  }
}
