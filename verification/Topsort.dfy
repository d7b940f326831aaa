/** Topological sorting of parent-child pairs: Kahn's algorithm over a growing
    answer list. */
module Topsort {
  import opened Digraph
  import opened Sequences

  // ------------------------------------------------- shared parent counting

  /** The counts left when the parents in done have been accounted for. */
  ghost predicate Counted<T(!new)>(pairs: seq<Pair<T>>, done: set<T>, counts: map<T, nat>) {
    counts.Keys == Nodes(pairs) - done && forall x | x in counts :: counts[x] == Pending(pairs, x, done)
  }

  /** The child lists of the parents that are not done. */
  ghost predicate Listed<T(!new)>(pairs: seq<Pair<T>>, done: set<T>, children: map<T, seq<T>>) {
    && (forall p :: p in children <==> p !in done && ChildrenOf(pairs, p) != [])
    && (forall p | p in children :: children[p] == ChildrenOf(pairs, p))
  }

  /** Every node of done has all its parents in done. */
  ghost predicate Closed<T(!new)>(pairs: seq<Pair<T>>, done: set<T>) {
    forall p, c | (p, c) in pairs && c in done :: p in done
  }

  method CountPair<T(!new, ==)>(ghost before: seq<Pair<T>>, parent: T, child: T, counts: map<T, nat>)
    returns (counts': map<T, nat>)
    requires Counted(before, {}, counts)
    ensures Counted(before + [(parent, child)], {}, counts')
  {
    NodesAppend(before, (parent, child));
    counts' := counts;
    if parent !in counts' {
      NoNodeNoParents(before, parent);
      counts' := counts'[parent := 0];
    }
    if child !in counts' {
      NoNodeNoParents(before, child);
      counts' := counts'[child := 0];
    }
    counts' := counts'[child := counts'[child] + 1];
    forall x | x in counts'
      ensures counts'[x] == Pending(before + [(parent, child)], x, {})
    {
      PendingAppend(before, (parent, child), x, {});
    }
  }

  method CountParents<T(!new, ==)>(pairs: seq<Pair<T>>) returns (counts: map<T, nat>, children: map<T, seq<T>>)
    ensures Counted(pairs, {}, counts) && Listed(pairs, {}, children)
  {
    counts, children := map[], map[];
    for k := 0 to |pairs|
      invariant Counted(pairs[..k], {}, counts) && Listed(pairs[..k], {}, children)
    {
      var (parent, child) := pairs[k];
      ghost var before := pairs[..k];
      assert pairs[..k + 1] == before + [(parent, child)];
      counts := CountPair(before, parent, child, counts);
      children := children[parent := (if parent in children then children[parent] else []) + [child]];
      ListedAppend(before, (parent, child), children);
    }
    assert pairs[..|pairs|] == pairs;
  }

  lemma NodesAppend<T(!new)>(pairs: seq<Pair<T>>, last: Pair<T>)
    ensures Nodes(pairs + [last]) == Nodes(pairs) + {last.0, last.1}
  {
    var longer := pairs + [last];
    assert longer[|pairs|] == last;
    forall x
      ensures x in Nodes(longer) <==> x in Nodes(pairs) + {last.0, last.1}
    {
      if k :| 0 <= k < |pairs| && (pairs[k].0 == x || pairs[k].1 == x) {
        assert longer[k] == pairs[k];
      }
    }
  }

  lemma NoNodeNoParents<T(!new)>(pairs: seq<Pair<T>>, x: T)
    requires x !in Nodes(pairs)
    ensures Pending(pairs, x, {}) == 0
  {
    PendingZero(pairs, x, {});
    forall p | (p, x) in pairs
      ensures false
    {
      PairNodes(pairs, p, x);
    }
  }

  lemma ListedAppend<T(!new)>(pairs: seq<Pair<T>>, last: Pair<T>, after: map<T, seq<T>>)
    requires forall p | p in after :: p == last.0 || ChildrenOf(pairs, p) == after[p] != []
    requires forall p | ChildrenOf(pairs, p) != [] :: p in after
    requires last.0 in after && after[last.0] == ChildrenOf(pairs, last.0) + [last.1]
    ensures Listed(pairs + [last], {}, after)
  {
    assert (pairs + [last])[..|pairs|] == pairs;
    forall p
      ensures ChildrenOf(pairs + [last], p) == ChildrenOf(pairs, p) + if p == last.0 then [last.1] else []
    {}
  }

  /** A node without pending parents has none among its own children, and its
      children are all still counted. */
  lemma ChildrenAreCounted<T(!new)>(pairs: seq<Pair<T>>, done: set<T>, p: T, c: T)
    requires Closed(pairs, done) && p in Nodes(pairs) && p !in done && Pending(pairs, p, done) == 0
    requires c in ChildrenOf(pairs, p)
    ensures c in Nodes(pairs) && c !in done + {p}
  {
    ChildrenArePairs(pairs, p, c);
    PairNodes(pairs, p, c);
    PendingZero(pairs, p, done);
  }

  lemma ClosedGrows<T(!new)>(pairs: seq<Pair<T>>, done: set<T>, p: T)
    requires Closed(pairs, done) && Pending(pairs, p, done) == 0
    ensures Closed(pairs, done + {p})
  {
    PendingZero(pairs, p, done);
  }

  /** Counts while the children of a done parent are being knocked down: the
      occurrences from position k on are still to be subtracted. */
  ghost predicate Knocking<T(!new)>(pairs: seq<Pair<T>>, done: set<T>, kids: seq<T>, k: nat, counts: map<T, nat>)
    requires k <= |kids|
  {
    && counts.Keys == Nodes(pairs) - done
    && forall x | x in counts ::
         counts[x] == Pending(pairs, x, done) + (Count(kids, x) - Count(kids[..k], x))
  }

  lemma CountPrefix<T(!new)>(s: seq<T>, k: nat, x: T)
    requires k <= |s|
    ensures Count(s[..k], x) <= Count(s, x)
    decreases |s|
  {
    var n := |s| - 1;
    if k <= n {
      CountPrefix(s[..n], k, x);
      assert s[..n][..k] == s[..k];
    } else {
      assert s[..k] == s;
    }
  }

  lemma CountStep<T(!new)>(s: seq<T>, k: nat, x: T)
    requires k < |s|
    ensures Count(s[..k + 1], x) == Count(s[..k], x) + if s[k] == x then 1 else 0
  {
    assert s[..k + 1][..k] == s[..k];
  }

  /** Deleting a parent whose own count is zero starts the knocking down. */
  lemma StartKnocking<T(!new)>(pairs: seq<Pair<T>>, done: set<T>, p: T, counts: map<T, nat>)
    requires Counted(pairs, done, counts) && p in counts
    ensures Knocking(pairs, done + {p}, ChildrenOf(pairs, p), 0, counts - {p})
  {
    forall x | x in counts && x != p
      ensures counts[x] == Pending(pairs, x, done + {p}) + Count(ChildrenOf(pairs, p), x)
    {
      PendingWithout(pairs, x, done, p);
      ChildrenCount(pairs, p, x);
    }
  }

  lemma EndKnocking<T(!new)>(pairs: seq<Pair<T>>, done: set<T>, kids: seq<T>, counts: map<T, nat>)
    requires Knocking(pairs, done, kids, |kids|, counts)
    ensures Counted(pairs, done, counts)
  {
    assert kids[..|kids|] == kids;
  }

  /** One child is knocked down: its count is positive before. */
  lemma KnockOne<T(!new)>(pairs: seq<Pair<T>>, done: set<T>, kids: seq<T>, k: nat, counts: map<T, nat>)
    requires k < |kids| && Knocking(pairs, done, kids, k, counts) && kids[k] in counts
    ensures counts[kids[k]] > 0
    ensures Knocking(pairs, done, kids, k + 1, counts[kids[k] := counts[kids[k]] - 1])
  {
    forall x | x in counts
      ensures Count(kids[..k + 1], x) == Count(kids[..k], x) + if kids[k] == x then 1 else 0
      ensures Count(kids[..k + 1], x) <= Count(kids, x)
    {
      CountStep(kids, k, x);
      CountPrefix(kids, k + 1, x);
    }
  }

  /** Leftover nodes whose counts are all positive hold a cycle. */
  lemma LeftoverCycle<T(!new)>(pairs: seq<Pair<T>>, done: set<T>, counts: map<T, nat>) returns (c: seq<T>)
    requires Counted(pairs, done, counts) && counts != map[]
    requires forall x | x in counts :: counts[x] > 0
    ensures IsCycle(pairs, c) && forall x | x in c :: x in counts
  {
    forall x | x in counts.Keys
      ensures HasParentIn(pairs, counts.Keys, x)
    {
      LeftoverParent(pairs, done, counts, x);
    }
    assert counts.Keys != {} by {
      var x :| x in counts;
    }
    c := ParentsMakeCycle(pairs, counts.Keys);
  }

  lemma LeftoverParent<T(!new)>(pairs: seq<Pair<T>>, done: set<T>, counts: map<T, nat>, x: T)
    requires Counted(pairs, done, counts) && x in counts && counts[x] > 0
    ensures HasParentIn(pairs, counts.Keys, x)
  {
    PendingZero(pairs, x, done);
    var p :| (p, x) in pairs && p !in done;
    PairNodes(pairs, p, x);
  }

  // ------------------------------------------------------------- topsort

  /** Every parent of an element stands before it. */
  ghost predicate ParentsFirst<T(!new)>(pairs: seq<Pair<T>>, order: seq<T>) {
    forall j, p | 0 <= j < |order| && (p, order[j]) in pairs :: p in order[..j]
  }

  /** order lists every node exactly once, parents before children. */
  ghost predicate IsTopological<T(!new)>(pairs: seq<Pair<T>>, order: seq<T>) {
    NoRepeats(order) && Elements(order) == Nodes(pairs) && ParentsFirst(pairs, order)
  }

  ghost function Index<T(!new)>(s: seq<T>, x: T): (i: nat)
    requires x in s
    ensures i < |s| && s[i] == x
  {
    if s[0] == x then 0 else 1 + Index(s[1..], x)
  }

  lemma IndexUnique<T(!new)>(s: seq<T>, i: nat)
    requires NoRepeats(s) && i < |s|
    ensures Index(s, s[i]) == i
  {}

  /** Along a chain the positions in a topological order increase. */
  lemma ChainAscends<T(!new)>(pairs: seq<Pair<T>>, order: seq<T>, c: seq<T>, i: nat)
    requires IsTopological(pairs, order) && IsChain(pairs, c) && i < |c|
    ensures c[0] in order && c[i] in order && Index(order, c[i]) >= Index(order, c[0]) + i
  {
    ChainNodes(pairs, c, 0);
    ChainNodes(pairs, c, i);
    assert c[0] in Elements(order) && c[i] in Elements(order);
    if i > 0 {
      ChainAscends(pairs, order, c, i - 1);
      assert (c[i - 1], c[i - 1 + 1]) in pairs;
      var j := Index(order, c[i]);
      assert c[i - 1] in order[..j];
      var k :| 0 <= k < j && order[k] == c[i - 1];
      IndexUnique(order, k);
    }
  }

  /** Only acyclic pairs have a topological order. */
  lemma OrderedIsAcyclic<T(!new)>(pairs: seq<Pair<T>>, order: seq<T>)
    requires IsTopological(pairs, order)
    ensures Acyclic(pairs)
  {
    forall c | IsCycle(pairs, c)
      ensures false
    {
      ChainAscends(pairs, order, c, |c| - 1);
    }
  }

  datatype Outcome<T> =
    | Ordered(order: seq<T>)
    | CycleError(answer: seq<T>, counts: map<T, nat>, children: map<T, seq<T>>)

  /** The state of the loop over the growing answer: of its elements, those in
      done have been knocked down, and those in ready are exactly the counted
      nodes with count zero. */
  ghost predicate Sorting<T(!new)>(pairs: seq<Pair<T>>, answer: seq<T>, done: set<T>, ready: set<T>,
                                   counts: map<T, nat>)
  {
    && NoRepeats(answer) && ParentsFirst(pairs, answer)
    && Elements(answer) == done + ready && done !! ready && done + ready <= Nodes(pairs)
    && forall x :: x in ready <==> x in counts && counts[x] == 0
  }

  method ZeroKeys<T(!new, ==)>(counts: map<T, nat>) returns (zeros: seq<T>)
    ensures NoRepeats(zeros)
    ensures forall x :: x in zeros <==> x in counts && counts[x] == 0
  {
    zeros := [];
    var keys := counts.Keys;
    while keys != {}
      invariant keys <= counts.Keys && NoRepeats(zeros)
      invariant forall x :: x in zeros <==> x in counts && x !in keys && counts[x] == 0
      decreases keys
    {
      var x :| x in keys;
      keys := keys - {x};
      if counts[x] == 0 {
        zeros := zeros + [x];
      }
    }
  }

  lemma AppendOrdered<T(!new)>(pairs: seq<Pair<T>>, order: seq<T>, x: T)
    requires ParentsFirst(pairs, order) && NoRepeats(order) && x !in order
    requires forall p | (p, x) in pairs :: p in order
    ensures ParentsFirst(pairs, order + [x]) && NoRepeats(order + [x])
    ensures Elements(order + [x]) == Elements(order) + {x}
  {
    var longer := order + [x];
    forall j, p | 0 <= j < |longer| && (p, longer[j]) in pairs
      ensures p in longer[..j]
    {
      if j < |order| {
        assert longer[..j] == order[..j] && longer[j] == order[j];
      } else {
        assert longer[..j] == order;
      }
    }
  }

  lemma InitiallySorted<T(!new)>(pairs: seq<Pair<T>>, answer: seq<T>, counts: map<T, nat>)
    requires Counted(pairs, {}, counts) && NoRepeats(answer)
    requires forall x :: x in answer <==> x in counts && counts[x] == 0
    ensures Sorting(pairs, answer, {}, Elements(answer), counts) && Closed(pairs, {})
  {
    forall j, p | 0 <= j < |answer| && (p, answer[j]) in pairs
      ensures false
    {
      assert answer[j] in answer;
      PendingZero(pairs, answer[j], {});
    }
  }

  lemma AnswerFits<T(!new)>(pairs: seq<Pair<T>>, answer: seq<T>)
    requires NoRepeats(answer) && Elements(answer) <= Nodes(pairs)
    ensures |answer| <= |Nodes(pairs)|
  {
    NoRepeatsCount(answer);
    SubsetCount(Elements(answer), Nodes(pairs));
  }

  /** The body of the loop: a ready parent is deleted from the counts, its
      children are knocked down, and those that reach zero join the answer. */
  method KnockDown<T(!new, ==)>(ghost pairs: seq<Pair<T>>, answer: seq<T>, parent: T, counts: map<T, nat>, kids: seq<T>,
                                ghost done: set<T>, ghost ready: set<T>)
    returns (answer': seq<T>, counts': map<T, nat>, ghost ready': set<T>)
    requires parent in ready && kids == ChildrenOf(pairs, parent)
    requires Counted(pairs, done, counts) && Closed(pairs, done) && Sorting(pairs, answer, done, ready, counts)
    ensures answer <= answer' && Counted(pairs, done + {parent}, counts')
    ensures Closed(pairs, done + {parent}) && Sorting(pairs, answer', done + {parent}, ready', counts')
  {
    StartKnocking(pairs, done, parent, counts);
    ClosedGrows(pairs, done, parent);
    answer', counts', ready' := answer, counts - {parent}, ready - {parent};
    for k := 0 to |kids|
      invariant Knocking(pairs, done + {parent}, kids, k, counts')
      invariant answer <= answer' && Sorting(pairs, answer', done + {parent}, ready', counts')
    {
      ChildrenAreCounted(pairs, done, parent, kids[k]);
      KnockOne(pairs, done + {parent}, kids, k, counts');
      answer', counts', ready' := KnockChild(pairs, answer', counts', kids, k, done + {parent}, ready');
    }
    EndKnocking(pairs, done + {parent}, kids, counts');
  }

  /** One occurrence of a child: its count goes down by one, and at zero, when
      all its parents are done, it joins the answer. */
  method KnockChild<T(!new, ==)>(ghost pairs: seq<Pair<T>>, answer: seq<T>, counts: map<T, nat>,
                                 kids: seq<T>, k: nat, ghost done: set<T>, ghost ready: set<T>)
    returns (answer': seq<T>, counts': map<T, nat>, ghost ready': set<T>)
    requires k < |kids| && kids[k] in counts && counts[kids[k]] > 0 && kids[k] in Nodes(pairs)
    requires Knocking(pairs, done, kids, k + 1, counts[kids[k] := counts[kids[k]] - 1])
    requires Sorting(pairs, answer, done, ready, counts)
    ensures counts' == counts[kids[k] := counts[kids[k]] - 1]
    ensures answer <= answer' && Sorting(pairs, answer', done, ready', counts')
  {
    var child := kids[k];
    counts' := counts[child := counts[child] - 1];
    if counts'[child] == 0 {
      assert forall p | (p, child) in pairs :: p in done by {
        CountPrefix(kids, k + 1, child);
        PendingZero(pairs, child, done);
      }
      assert child !in answer by {
        assert child !in Elements(answer);
      }
      assert forall p | p in done :: p in Elements(answer);
      AppendOrdered(pairs, answer, child);
      answer', ready' := answer + [child], ready + {child};
    } else {
      answer', ready' := answer, ready;
    }
  }

  /** Returns exactly for acyclic pairs, and then a topological order; otherwise
      the nodes left over hold a cycle. */
  method TopologicalSort<T(!new, ==)>(pairs: seq<Pair<T>>) returns (r: Outcome<T>)
    ensures r.Ordered? <==> Acyclic(pairs)
    ensures r.Ordered? ==> IsTopological(pairs, r.order)
    ensures r.CycleError? ==>
      && NoRepeats(r.answer) && ParentsFirst(pairs, r.answer)
      && r.counts.Keys == Nodes(pairs) - Elements(r.answer)
      && exists c :: IsCycle(pairs, c) && forall x | x in c :: x in r.counts
  {
    var answer, counts, children, done := SuckUp(pairs);
    if counts != map[] {
      ghost var c := LeftoverCycle(pairs, done, counts);
      CycleRefutes(pairs, c);
      return CycleError(answer, counts, children);
    }
    assert Nodes(pairs) - done == {};
    OrderedIsAcyclic(pairs, answer);
    return Ordered(answer);
  }

  lemma CycleRefutes<T(!new)>(pairs: seq<Pair<T>>, c: seq<T>)
    requires IsCycle(pairs, c)
    ensures !Acyclic(pairs)
  {}

  /** The invariant of the loop at its i-th element. */
  ghost predicate Sucking<T(!new)>(pairs: seq<Pair<T>>, answer: seq<T>, i: nat, done: set<T>, ready: set<T>,
                                   counts: map<T, nat>, children: map<T, seq<T>>) {
    && i <= |answer| && done == Elements(answer[..i])
    && Counted(pairs, done, counts) && Listed(pairs, done, children)
    && Closed(pairs, done) && Sorting(pairs, answer, done, ready, counts)
  }

  /** Starts from the nodes without parents and knocks down the children of every
      element of the answer, until the answer stops growing. */
  method SuckUp<T(!new, ==)>(pairs: seq<Pair<T>>)
    returns (answer: seq<T>, counts: map<T, nat>, children: map<T, seq<T>>, ghost done: set<T>)
    ensures Counted(pairs, done, counts) && Sorting(pairs, answer, done, {}, counts)
  {
    counts, children := CountParents(pairs);
    answer := ZeroKeys(counts);
    InitiallySorted(pairs, answer, counts);
    var i := 0;
    done := {};
    ghost var ready := Elements(answer);
    while i < |answer|
      invariant Sucking(pairs, answer, i, done, ready, counts, children)
      decreases |Nodes(pairs)| - i
    {
      AnswerFits(pairs, answer);
      answer, counts, children, done, ready := SuckNext(pairs, answer, i, counts, children, done, ready);
      i := i + 1;
    }
    assert answer[..i] == answer;
    assert ready == {};
  }

  method SuckNext<T(!new, ==)>(ghost pairs: seq<Pair<T>>, answer: seq<T>, i: nat, counts: map<T, nat>,
                               children: map<T, seq<T>>, ghost done: set<T>, ghost ready: set<T>)
    returns (answer': seq<T>, counts': map<T, nat>, children': map<T, seq<T>>, ghost done': set<T>,
             ghost ready': set<T>)
    requires i < |answer| && Sucking(pairs, answer, i, done, ready, counts, children)
    ensures Sucking(pairs, answer', i + 1, done', ready', counts', children')
  {
    var parent := answer[i];
    NextIsReady(answer, i, done, ready);
    ListedKids(pairs, done, children, parent);
    answer', counts', ready' := KnockDown(pairs, answer, parent, counts, Kids(children, parent), done, ready);
    assert answer'[..i + 1] == answer[..i + 1];
    children', done' := children - {parent}, done + {parent};
  }

  function Kids<T(==)>(children: map<T, seq<T>>, p: T): seq<T> {
    if p in children then children[p] else []
  }

  lemma ListedKids<T(!new)>(pairs: seq<Pair<T>>, done: set<T>, children: map<T, seq<T>>, p: T)
    requires Listed(pairs, done, children) && p !in done
    ensures Kids(children, p) == ChildrenOf(pairs, p)
    ensures Listed(pairs, done + {p}, children - {p})
  {}

  lemma NextIsReady<T(!new)>(answer: seq<T>, i: nat, done: set<T>, ready: set<T>)
    requires i < |answer| && NoRepeats(answer) && done == Elements(answer[..i])
    requires Elements(answer) == done + ready && done !! ready
    ensures answer[i] in ready && Elements(answer[..i + 1]) == done + {answer[i]}
  {
    assert answer[i] in Elements(answer) && answer[i] !in answer[..i];
    assert answer[..i + 1] == answer[..i] + [answer[i]];
  }
}
