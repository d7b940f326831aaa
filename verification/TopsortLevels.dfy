/** The level version of the topological sort: each level lists the nodes whose
    longest chain of ancestors has that length. */
module TopsortLevels {
  import opened Digraph
  import opened Sequences
  import opened Topsort

  /** Some chain of n pairs ends at x. */
  ghost predicate ChainTo<T(!new)>(pairs: seq<Pair<T>>, x: T, n: nat) {
    exists c :: IsChain(pairs, c) && |c| == n + 1 && c[n] == x
  }

  lemma ChainToNode<T(!new)>(pairs: seq<Pair<T>>, x: T)
    ensures ChainTo(pairs, x, 0) <==> x in Nodes(pairs)
  {
    if x in Nodes(pairs) {
      assert IsChain(pairs, [x]) && |[x]| == 1 && [x][0] == x;
    }
  }

  /** A chain of n + 1 pairs to x is a chain of n pairs to one of its parents. */
  lemma ChainToParent<T(!new)>(pairs: seq<Pair<T>>, x: T, n: nat)
    ensures ChainTo(pairs, x, n + 1) <==> exists p :: (p, x) in pairs && ChainTo(pairs, p, n)
  {
    if ChainTo(pairs, x, n + 1) {
      var c :| IsChain(pairs, c) && |c| == n + 2 && c[n + 1] == x;
      SubChain(pairs, c, 0, n + 1);
      var d := c[0..n + 1];
      assert |d| == n + 1 && d[n] == c[n] && (c[n], c[n + 1]) in pairs;
      assert ChainTo(pairs, c[n], n);
    }
    if p :| (p, x) in pairs && ChainTo(pairs, p, n) {
      var c :| IsChain(pairs, c) && |c| == n + 1 && c[n] == p;
      ExtendChain(pairs, c, x);
      assert (c + [x])[n + 1] == x;
    }
  }

  lemma ShorterChain<T(!new)>(pairs: seq<Pair<T>>, x: T, n: nat)
    requires ChainTo(pairs, x, n + 1)
    ensures ChainTo(pairs, x, n)
  {
    var c :| IsChain(pairs, c) && |c| == n + 2 && c[n + 1] == x;
    SubChain(pairs, c, 1, n + 2);
    assert c[1..n + 2][n] == x;
  }

  /** The longest chain of ancestors of x has n pairs. */
  ghost predicate AtLevel<T(!new)>(pairs: seq<Pair<T>>, x: T, n: nat) {
    ChainTo(pairs, x, n) && !ChainTo(pairs, x, n + 1)
  }

  /** done holds exactly the nodes without a chain of n pairs. */
  ghost predicate Layered<T(!new)>(pairs: seq<Pair<T>>, done: set<T>, n: nat) {
    forall x :: x in Nodes(pairs) && x !in done <==> ChainTo(pairs, x, n)
  }

  lemma StartLayered<T(!new)>(pairs: seq<Pair<T>>)
    ensures Layered(pairs, {}, 0)
  {
    forall x
      ensures x in Nodes(pairs) <==> ChainTo(pairs, x, 0)
    {
      ChainToNode(pairs, x);
    }
  }

  /** Nodes whose parents are all done are the next level. */
  lemma NextLayer<T(!new)>(pairs: seq<Pair<T>>, done: set<T>, n: nat, level: set<T>)
    requires Layered(pairs, done, n) && Closed(pairs, done)
    requires forall x :: x in level <==> x in Nodes(pairs) && x !in done && forall p | (p, x) in pairs :: p in done
    ensures Layered(pairs, done + level, n + 1)
    ensures forall x :: x in level <==> AtLevel(pairs, x, n)
  {
    forall x
      ensures x in Nodes(pairs) && x !in done + level <==> ChainTo(pairs, x, n + 1)
      ensures ChainTo(pairs, x, n + 1) ==> ChainTo(pairs, x, n)
    {
      ChainToParent(pairs, x, n);
      if p :| (p, x) in pairs && ChainTo(pairs, p, n) {
        PairNodes(pairs, p, x);
        ShorterChain(pairs, x, n);
      } else {
        forall p | (p, x) in pairs
          ensures p in done
        {
          PairNodes(pairs, p, x);
        }
      }
    }
  }

  datatype Levels<T> = Levels(levels: seq<seq<T>>, complete: bool, counts: map<T, nat>)

  /** Counts and child lists when the nodes of done are gone. */
  ghost predicate Remaining<T(!new)>(pairs: seq<Pair<T>>, done: set<T>, counts: map<T, nat>, children: map<T, seq<T>>) {
    Counted(pairs, done, counts) && Listed(pairs, done, children) && Closed(pairs, done)
  }

  /** Deletes one parent whose count is zero and knocks down its children. */
  method DropParent<T(!new, ==)>(ghost pairs: seq<Pair<T>>, parent: T, counts: map<T, nat>,
                                 children: map<T, seq<T>>, ghost done: set<T>, ghost zeros: set<T>)
    returns (counts': map<T, nat>, children': map<T, seq<T>>)
    requires Remaining(pairs, done, counts, children) && parent in zeros && AllZero(zeros, counts)
    ensures Remaining(pairs, done + {parent}, counts', children')
    ensures AllZero(zeros - {parent}, counts')
  {
    ListedKids(pairs, done, children, parent);
    StartKnocking(pairs, done, parent, counts);
    ClosedGrows(pairs, done, parent);
    var kids := Kids(children, parent);
    counts', children' := counts - {parent}, children - {parent};
    for k := 0 to |kids|
      invariant Knocking(pairs, done + {parent}, kids, k, counts')
      invariant AllZero(zeros - {parent}, counts')
    {
      ChildrenAreCounted(pairs, done, parent, kids[k]);
      KnockOne(pairs, done + {parent}, kids, k, counts');
      counts' := counts'[kids[k] := counts'[kids[k]] - 1];
    }
    EndKnocking(pairs, done + {parent}, kids, counts');
  }

  ghost predicate AllZero<T(!new)>(s: set<T>, counts: map<T, nat>) {
    forall x | x in s :: x in counts && counts[x] == 0
  }

  /** Deletes a whole level. */
  method DropLevel<T(!new, ==)>(ghost pairs: seq<Pair<T>>, level: seq<T>, counts: map<T, nat>,
                                children: map<T, seq<T>>, ghost done: set<T>)
    returns (counts': map<T, nat>, children': map<T, seq<T>>)
    requires NoRepeats(level) && AllZero(Elements(level), counts)
    requires Remaining(pairs, done, counts, children)
    ensures Remaining(pairs, done + Elements(level), counts', children')
  {
    counts', children' := counts, children;
    ghost var gone, left := done, Elements(level);
    for k := 0 to |level|
      invariant Remaining(pairs, gone, counts', children')
      invariant left == Elements(level[k..]) && AllZero(left, counts')
      invariant gone + left == done + Elements(level)
    {
      DropNext(level, k, gone, left);
      counts', children' := DropParent(pairs, level[k], counts', children', gone, left);
      gone, left := gone + {level[k]}, left - {level[k]};
    }
    assert left == {} && gone == done + Elements(level);
  }

  lemma DropNext<T(!new)>(level: seq<T>, k: nat, gone: set<T>, left: set<T>)
    requires k < |level| && NoRepeats(level) && left == Elements(level[k..])
    ensures level[k] in left && left - {level[k]} == Elements(level[k + 1..])
    ensures gone + {level[k]} + (left - {level[k]}) == gone + left
  {
    assert level[k..] == [level[k]] + level[k + 1..];
  }

  /** The levels list, once each, exactly the nodes whose longest chain of
      ancestors has their number of pairs. */
  ghost predicate LevelsExact<T(!new)>(pairs: seq<Pair<T>>, levels: seq<seq<T>>) {
    forall k | 0 <= k < |levels| :: LevelExact(pairs, levels[k], k)
  }

  ghost predicate LevelExact<T(!new)>(pairs: seq<Pair<T>>, level: seq<T>, k: nat) {
    NoRepeats(level) && level != [] && forall x {:trigger x in level} :: x in level <==> AtLevel(pairs, x, k)
  }

  ghost function Listing<T(!new)>(levels: seq<seq<T>>): set<T> {
    if levels == [] then {} else Listing(levels[..|levels| - 1]) + Elements(levels[|levels| - 1])
  }

  /** Every level is exact. All nodes get a level when the pairs are acyclic;
      otherwise the nodes left over are those with chains of any length. */
  method SortLevels<T(!new, ==)>(pairs: seq<Pair<T>>) returns (r: Levels<T>)
    ensures LevelsExact(pairs, r.levels)
    ensures r.complete <==> Acyclic(pairs)
    ensures r.complete ==> Listing(r.levels) == Nodes(pairs)
    ensures r.counts.Keys == Nodes(pairs) - Listing(r.levels)
    ensures forall x {:trigger x in r.counts} :: x in r.counts <==> forall n: nat :: ChainTo(pairs, x, n)
  {
    var levels, counts := YieldLevels(pairs);
    Finished(pairs, Listing(levels), |levels|, counts);
    if counts == map[] {
      forall x | x in Nodes(pairs)
        ensures x in Listing(levels)
      {
        assert x !in counts.Keys;
      }
    }
    return Levels(levels, counts == map[], counts);
  }

  /** The loop: as long as some node has no counted parent, such nodes are a level. */
  method YieldLevels<T(!new, ==)>(pairs: seq<Pair<T>>) returns (levels: seq<seq<T>>, counts: map<T, nat>)
    ensures LevelsExact(pairs, levels) && Listing(levels) <= Nodes(pairs)
    ensures Counted(pairs, Listing(levels), counts) && forall x | x in counts :: counts[x] > 0
    ensures Layered(pairs, Listing(levels), |levels|) && Layered(pairs, Listing(levels), |levels| + 1)
  {
    var children;
    counts, children := CountParents(pairs);
    levels := [];
    StartLayered(pairs);
    var more := true;
    while more
      invariant Yielding(pairs, levels, counts, children)
      invariant !more ==> Layered(pairs, Listing(levels), |levels| + 1) && forall x | x in counts :: counts[x] > 0
      decreases more, Nodes(pairs) - Listing(levels)
    {
      more, levels, counts, children := YieldLevel(pairs, levels, counts, children);
    }
  }

  ghost predicate Yielding<T(!new)>(pairs: seq<Pair<T>>, levels: seq<seq<T>>, counts: map<T, nat>,
                                    children: map<T, seq<T>>) {
    && Remaining(pairs, Listing(levels), counts, children) && Listing(levels) <= Nodes(pairs)
    && Layered(pairs, Listing(levels), |levels|) && LevelsExact(pairs, levels)
  }

  /** One round of the loop; it is the last one when no node has count zero. */
  method YieldLevel<T(!new, ==)>(ghost pairs: seq<Pair<T>>, levels: seq<seq<T>>, counts: map<T, nat>,
                                 children: map<T, seq<T>>)
    returns (more: bool, levels': seq<seq<T>>, counts': map<T, nat>, children': map<T, seq<T>>)
    requires Yielding(pairs, levels, counts, children)
    ensures Yielding(pairs, levels', counts', children')
    ensures more ==> Nodes(pairs) - Listing(levels') < Nodes(pairs) - Listing(levels)
    ensures !more ==> levels' == levels && Layered(pairs, Listing(levels), |levels| + 1)
    ensures !more ==> forall x | x in counts' :: counts'[x] > 0
  {
    ghost var done := Listing(levels);
    levels', counts', children' := levels, counts, children;
    var level := ZeroKeys(counts);
    LevelIsNext(pairs, done, counts, level, |levels|);
    more := level != [];
    if more {
      counts', children' := DropLevel(pairs, level, counts, children, done);
      assert level[0] in Elements(level);
      levels' := levels + [level];
      assert levels'[..|levels|] == levels;
    }
  }

  lemma LevelIsNext<T(!new)>(pairs: seq<Pair<T>>, done: set<T>, counts: map<T, nat>, level: seq<T>, n: nat)
    requires Counted(pairs, done, counts) && Closed(pairs, done) && Layered(pairs, done, n) && NoRepeats(level)
    requires forall x :: x in level <==> x in counts && counts[x] == 0
    ensures Layered(pairs, done + Elements(level), n + 1)
    ensures level != [] ==> LevelExact(pairs, level, n)
    ensures Elements(level) <= Nodes(pairs) - done
    ensures level == [] ==> Layered(pairs, done, n + 1)
  {
    forall x | x in counts
      ensures counts[x] == 0 <==> forall p | (p, x) in pairs :: p in done
    {
      PendingZero(pairs, x, done);
    }
    NextLayer(pairs, done, n, Elements(level));
    assert level == [] ==> done + Elements(level) == done;
  }

  /** When no level follows, what is left has chains of every length. */
  lemma Finished<T(!new)>(pairs: seq<Pair<T>>, done: set<T>, n: nat, counts: map<T, nat>)
    requires Counted(pairs, done, counts) && Layered(pairs, done, n) && Layered(pairs, done, n + 1)
    requires forall x | x in counts :: counts[x] > 0
    ensures forall x {:trigger x in counts} :: x in counts <==> forall m: nat :: ChainTo(pairs, x, m)
    ensures counts == map[] <==> Acyclic(pairs)
  {
    forall x
      ensures x in counts <==> forall m: nat :: ChainTo(pairs, x, m)
    {
      if x in counts {
        forall m: nat
          ensures ChainTo(pairs, x, m)
        {
          AllLengths(pairs, done, n, m, x);
        }
      } else {
        assert !ChainTo(pairs, x, n);
      }
    }
    if counts != map[] {
      var c := LeftoverCycle(pairs, done, counts);
      CycleRefutes(pairs, c);
    } else {
      assert counts.Keys == {};
      forall c | IsCycle(pairs, c)
        ensures false
      {
        CycleIsLeft(pairs, done, n, c);
      }
    }
  }

  lemma CycleIsLeft<T(!new)>(pairs: seq<Pair<T>>, done: set<T>, n: nat, c: seq<T>)
    requires Layered(pairs, done, n) && IsCycle(pairs, c)
    ensures c[0] in Nodes(pairs) - done
  {
    CycleUnrolls(pairs, c, n, 0);
  }

  lemma ShorterChains<T(!new)>(pairs: seq<Pair<T>>, x: T, n: nat, m: nat)
    requires ChainTo(pairs, x, n) && m <= n
    ensures ChainTo(pairs, x, m)
  {
    if m < n {
      ShorterChain(pairs, x, n - 1);
      ShorterChains(pairs, x, n - 1, m);
    }
  }

  lemma AllLengths<T(!new)>(pairs: seq<Pair<T>>, done: set<T>, n: nat, m: nat, x: T)
    requires Layered(pairs, done, n) && Layered(pairs, done, n + 1)
    requires x in Nodes(pairs) && x !in done
    ensures ChainTo(pairs, x, m)
    decreases m
  {
    assert ChainTo(pairs, x, n) && ChainTo(pairs, x, n + 1);
    if m <= n {
      ShorterChains(pairs, x, n, m);
    } else {
      ChainToParent(pairs, x, n);
      var p :| (p, x) in pairs && ChainTo(pairs, p, n);
      AllLengths(pairs, done, n, m - 1, p);
      ChainToParent(pairs, x, m - 1);
    }
  }

  /** Going round a cycle gives chains of any length to each of its nodes. */
  lemma CycleUnrolls<T(!new)>(pairs: seq<Pair<T>>, c: seq<T>, n: nat, i: nat)
    requires IsCycle(pairs, c) && i < |c|
    ensures ChainTo(pairs, c[i], n)
    decreases n
  {
    ChainNodes(pairs, c, i);
    if n == 0 {
      ChainToNode(pairs, c[i]);
    } else {
      var j := if i == 0 then |c| - 2 else i - 1;
      assert (c[j], c[j + 1]) in pairs && c[j + 1] == c[i];
      CycleUnrolls(pairs, c, n - 1, j);
      ChainToParent(pairs, c[i], n - 1);
    }
  }
}
