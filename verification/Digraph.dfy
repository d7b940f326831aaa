/** Parent-child pairs as a directed graph: chains, cycles, and the parent counts
    that both topological sorts knock down. */
module Digraph {
  import opened Sequences

  type Pair<T> = (T, T)

  ghost function Nodes<T(!new)>(pairs: seq<Pair<T>>): set<T> {
    (set k | 0 <= k < |pairs| :: pairs[k].0) + (set k | 0 <= k < |pairs| :: pairs[k].1)
  }

  /** Consecutive elements of a chain are parent and child. */
  ghost predicate IsChain<T(!new)>(pairs: seq<Pair<T>>, c: seq<T>) {
    c != [] && c[0] in Nodes(pairs) && forall i | 0 <= i < |c| - 1 :: (c[i], c[i + 1]) in pairs
  }

  /** A chain of at least one pair from a node back to itself. */
  ghost predicate IsCycle<T(!new)>(pairs: seq<Pair<T>>, c: seq<T>) {
    IsChain(pairs, c) && |c| > 1 && c[0] == c[|c| - 1]
  }

  ghost predicate Acyclic<T(!new)>(pairs: seq<Pair<T>>) {
    forall c :: !IsCycle(pairs, c)
  }

  lemma PairNodes<T(!new)>(pairs: seq<Pair<T>>, p: T, c: T)
    requires (p, c) in pairs
    ensures p in Nodes(pairs) && c in Nodes(pairs)
  {
    var k :| 0 <= k < |pairs| && pairs[k] == (p, c);
    assert pairs[k].0 == p && pairs[k].1 == c;
  }

  lemma ChainNodes<T(!new)>(pairs: seq<Pair<T>>, c: seq<T>, i: nat)
    requires IsChain(pairs, c) && i < |c|
    ensures c[i] in Nodes(pairs)
  {
    if i > 0 {
      assert (c[i - 1], c[i - 1 + 1]) in pairs;
      PairNodes(pairs, c[i - 1], c[i]);
    }
  }

  lemma ExtendChain<T(!new)>(pairs: seq<Pair<T>>, c: seq<T>, x: T)
    requires IsChain(pairs, c) && (c[|c| - 1], x) in pairs
    ensures IsChain(pairs, c + [x])
  {
    var d := c + [x];
    forall i | 0 <= i < |d| - 1
      ensures (d[i], d[i + 1]) in pairs
    {
      assert i < |c| - 1 ==> d[i] == c[i] && d[i + 1] == c[i + 1];
    }
  }

  lemma SubChain<T(!new)>(pairs: seq<Pair<T>>, c: seq<T>, i: nat, j: nat)
    requires IsChain(pairs, c) && i < j <= |c|
    ensures IsChain(pairs, c[i..j])
  {
    ChainNodes(pairs, c, i);
    var d := c[i..j];
    forall k | 0 <= k < |d| - 1
      ensures (d[k], d[k + 1]) in pairs
    {
      assert (c[i + k], c[i + k + 1]) in pairs;
    }
  }

  // ----------------------------------------------------------- pigeonhole

  lemma SubsetCount<T(!new)>(a: set<T>, b: set<T>)
    requires a <= b
    ensures |a| <= |b|
  {
    assert b == a + (b - a);
  }

  /** A sequence longer than the set it draws from repeats an element. */
  lemma Repeats<T(!new)>(s: seq<T>, within: set<T>) returns (i: nat, j: nat)
    requires (forall x | x in s :: x in within) && |s| > |within|
    ensures i < j < |s| && s[i] == s[j]
  {
    if NoRepeats(s) {
      NoRepeatsCount(s);
      SubsetCount(Elements(s), within);
      assert false;
    } else {
      i, j :| 0 <= i < j < |s| && s[i] == s[j];
    }
  }

  ghost predicate HasParentIn<T(!new)>(pairs: seq<Pair<T>>, stuck: set<T>, x: T) {
    exists p :: p in stuck && (p, x) in pairs
  }

  /** If every node of a non-empty set has a parent in the set, the set holds a
      cycle: parents can be followed back for ever. */
  lemma ParentsMakeCycle<T(!new)>(pairs: seq<Pair<T>>, stuck: set<T>) returns (c: seq<T>)
    requires stuck != {} && stuck <= Nodes(pairs)
    requires forall x {:trigger HasParentIn(pairs, stuck, x)} | x in stuck :: HasParentIn(pairs, stuck, x)
    ensures IsCycle(pairs, c) && forall x | x in c :: x in stuck
  {
    var x :| x in stuck;
    var b := FollowParents(pairs, stuck, x, |stuck|);
    var i, j := Repeats(b, stuck);
    c := b[i..j + 1];
    SubChain(pairs, b, i, j + 1);
  }

  lemma FollowParents<T(!new)>(pairs: seq<Pair<T>>, stuck: set<T>, x: T, n: nat) returns (b: seq<T>)
    requires x in stuck && stuck <= Nodes(pairs)
    requires forall y {:trigger HasParentIn(pairs, stuck, y)} | y in stuck :: HasParentIn(pairs, stuck, y)
    ensures |b| == n + 1 && IsChain(pairs, b) && b[n] == x && forall y | y in b :: y in stuck
  {
    if n == 0 {
      b := [x];
    } else {
      assert HasParentIn(pairs, stuck, x);
      var p :| p in stuck && (p, x) in pairs;
      b := FollowParents(pairs, stuck, p, n - 1);
      ExtendChain(pairs, b, x);
      b := b + [x];
    }
  }

  // --------------------------------------------------------- parent counts

  /** The pairs with child c whose parent is not done yet, with repetitions. */
  ghost function Pending<T(!new)>(pairs: seq<Pair<T>>, c: T, done: set<T>): nat {
    if pairs == [] then 0
    else Pending(pairs[1..], c, done) + if pairs[0].1 == c && pairs[0].0 !in done then 1 else 0
  }

  /** How often c is a child of p. */
  ghost function Multiplicity<T(!new)>(pairs: seq<Pair<T>>, p: T, c: T): nat {
    if pairs == [] then 0
    else Multiplicity(pairs[1..], p, c) + if pairs[0] == (p, c) then 1 else 0
  }

  lemma PendingWithout<T(!new)>(pairs: seq<Pair<T>>, c: T, done: set<T>, p: T)
    requires p !in done
    ensures Pending(pairs, c, done) == Pending(pairs, c, done + {p}) + Multiplicity(pairs, p, c)
  {
    if pairs != [] {
      PendingWithout(pairs[1..], c, done, p);
    }
  }

  lemma PendingZero<T(!new)>(pairs: seq<Pair<T>>, c: T, done: set<T>)
    ensures Pending(pairs, c, done) == 0 <==> forall p | (p, c) in pairs :: p in done
  {
    if pairs != [] {
      PendingZero(pairs[1..], c, done);
      assert pairs == [pairs[0]] + pairs[1..];
    }
  }

  lemma PendingAppend<T(!new)>(pairs: seq<Pair<T>>, last: Pair<T>, c: T, done: set<T>)
    ensures Pending(pairs + [last], c, done)
         == Pending(pairs, c, done) + if last.1 == c && last.0 !in done then 1 else 0
  {
    if pairs != [] {
      PendingAppend(pairs[1..], last, c, done);
      assert (pairs + [last])[1..] == pairs[1..] + [last];
    }
  }

  /** The children of p in pair order, repetitions kept. */
  ghost function ChildrenOf<T(!new)>(pairs: seq<Pair<T>>, p: T): seq<T> {
    if pairs == [] then []
    else ChildrenOf(pairs[..|pairs| - 1], p)
         + if pairs[|pairs| - 1].0 == p then [pairs[|pairs| - 1].1] else []
  }

  lemma ChildrenArePairs<T(!new)>(pairs: seq<Pair<T>>, p: T, c: T)
    ensures c in ChildrenOf(pairs, p) <==> (p, c) in pairs
  {
    if pairs != [] {
      var n := |pairs| - 1;
      ChildrenArePairs(pairs[..n], p, c);
      assert pairs == pairs[..n] + [pairs[n]];
    }
  }

  ghost function Count<T(!new)>(s: seq<T>, x: T): nat {
    if s == [] then 0 else Count(s[..|s| - 1], x) + if s[|s| - 1] == x then 1 else 0
  }

  lemma ChildrenCount<T(!new)>(pairs: seq<Pair<T>>, p: T, c: T)
    ensures Count(ChildrenOf(pairs, p), c) == Multiplicity(pairs, p, c)
  {
    if pairs != [] {
      var n := |pairs| - 1;
      var rest := ChildrenOf(pairs[..n], p);
      ChildrenCount(pairs[..n], p, c);
      MultiplicityAppend(pairs[..n], pairs[n], p, c);
      assert pairs[..n] + [pairs[n]] == pairs;
      assert (rest + [pairs[n].1])[..|rest|] == rest;
      assert rest + [] == rest;
    }
  }

  lemma MultiplicityAppend<T(!new)>(pairs: seq<Pair<T>>, last: Pair<T>, p: T, c: T)
    ensures Multiplicity(pairs + [last], p, c) == Multiplicity(pairs, p, c) + if last == (p, c) then 1 else 0
  {
    if pairs != [] {
      MultiplicityAppend(pairs[1..], last, p, c);
      assert (pairs + [last])[1..] == pairs[1..] + [last];
    }
  }
}
