/** Sums over lane vectors and the greedy deficit game that the persistent-pool
    branch of SelectLane plays: every lane is credited its weighted share of a
    chunk, and the chosen lane is charged the whole chunk. */
module LaneFairness {
  import opened Sequences

  // ---------------------------------------------------------------- vectors

  /** The sum of the entries of d whose index lies in s. */
  ghost function SumOn(d: seq<real>, s: set<nat>): real {
    if d == [] then 0.0
    else SumOn(d[..|d| - 1], s) + if |d| - 1 in s then d[|d| - 1] else 0.0
  }

  function Plus(d: seq<real>, f: seq<real>): seq<real>
    requires |d| == |f|
  {
    seq(|d|, i requires 0 <= i < |d| => d[i] + f[i])
  }

  lemma SumOnPlus(d: seq<real>, f: seq<real>, s: set<nat>)
    requires |d| == |f|
    ensures SumOn(Plus(d, f), s) == SumOn(d, s) + SumOn(f, s)
  {
    if d != [] {
      var n := |d| - 1;
      assert Plus(d, f)[..n] == Plus(d[..n], f[..n]);
      SumOnPlus(d[..n], f[..n], s);
    }
  }

  lemma SumOnUpdate(d: seq<real>, b: nat, x: real, s: set<nat>)
    requires b < |d|
    ensures SumOn(d[b := x], s) == SumOn(d, s) + if b in s then x - d[b] else 0.0
  {
    var n := |d| - 1;
    if b == n {
      assert d[b := x][..n] == d[..n];
    } else {
      assert d[b := x][..n] == d[..n][b := x];
      SumOnUpdate(d[..n], b, x, s);
    }
  }

  lemma SumOnInsert(d: seq<real>, b: nat, s: set<nat>)
    requires b < |d| && b !in s
    ensures SumOn(d, s + {b}) == SumOn(d, s) + d[b]
  {
    var n := |d| - 1;
    if b == n {
      SumOnSame(d[..n], s, s + {b});
    } else {
      SumOnInsert(d[..n], b, s);
    }
  }

  lemma SumOnSame(d: seq<real>, s: set<nat>, t: set<nat>)
    requires forall i: nat | i < |d| :: i in s <==> i in t
    ensures SumOn(d, s) == SumOn(d, t)
  {
    if d != [] {
      SumOnSame(d[..|d| - 1], s, t);
    }
  }

  lemma SumOnAll(d: seq<real>)
    ensures SumOn(d, Below(|d|)) == RealSum(d)
  {
    if d != [] {
      var n := |d| - 1;
      SumOnAll(d[..n]);
      SumOnSame(d[..n], Below(n), Below(|d|));
    }
  }

  lemma SumOnAtMostSum(f: seq<real>, s: set<nat>)
    requires forall i | 0 <= i < |f| :: f[i] >= 0.0
    ensures 0.0 <= SumOn(f, s) <= RealSum(f)
  {
    if f != [] {
      SumOnAtMostSum(f[..|f| - 1], s);
    }
  }

  lemma SumOnBelow(d: seq<real>, s: set<nat>, m: real)
    requires forall i | i in s :: i < |d| && d[i] <= m
    ensures SumOn(d, s) <= Times(|s|, m)
  {
    if d == [] {
      assert s == {};
    } else {
      var n := |d| - 1;
      var t := s - {n};
      SumOnBelow(d[..n], t, m);
      SumOnSame(d[..n], s, t);
      if n in s {
        assert s == t + {n};
      } else {
        assert t == s;
      }
    }
  }

  /** k * m by repeated addition, which keeps the proofs below linear. */
  function Times(k: nat, m: real): real {
    if k == 0 then 0.0 else Times(k - 1, m) + m
  }

  lemma TimesIsProduct(k: nat, m: real)
    ensures Times(k, m) == k as real * m
  {
    if k > 0 {
      TimesIsProduct(k - 1, m);
      Distribute((k - 1) as real, 1.0, m);
    }
  }

  lemma Distribute(a: real, b: real, m: real)
    ensures (a + b) * m == a * m + b * m
  {}

  // ---------------------------------------------------- one scheduling step

  function Share(weight: real, total: real, chunk: nat): real
    requires total > 0.0
  {
    weight / total * chunk as real
  }

  /** Every lane's share of the chunk. */
  function Shares(weights: seq<real>, chunk: nat): seq<real>
    requires RealSum(weights) > 0.0
  {
    var total := RealSum(weights);
    seq(|weights|, i requires 0 <= i < |weights| => Share(weights[i], total, chunk))
  }

  lemma SharesSumToChunk(weights: seq<real>, chunk: nat)
    requires RealSum(weights) > 0.0
    ensures RealSum(Shares(weights, chunk)) == chunk as real
  {
    var total := RealSum(weights);
    ScaledSum(weights, Shares(weights, chunk), total, chunk);
    assert total / total == 1.0;
  }

  lemma ScaledSum(w: seq<real>, f: seq<real>, total: real, chunk: nat)
    requires |w| == |f| && total > 0.0
    requires forall i | 0 <= i < |w| :: f[i] == Share(w[i], total, chunk)
    ensures RealSum(f) == Share(RealSum(w), total, chunk)
  {
    if w == [] {
      assert 0.0 / total == 0.0;
    } else {
      var n := |w| - 1;
      ScaledSum(w[..n], f[..n], total, chunk);
      ShareAdds(RealSum(w[..n]), w[n], total, chunk);
    }
  }

  lemma ShareAdds(a: real, b: real, total: real, chunk: nat)
    requires total > 0.0
    ensures Share(a + b, total, chunk) == Share(a, total, chunk) + Share(b, total, chunk)
  {
    var c := chunk as real;
    assert a / total + b / total == (a + b) / total;
    Distribute(a / total, b / total, c);
  }

  function Pay(d: seq<real>, cost: real, lane: nat): seq<real>
    requires lane < |d|
  {
    d[lane := d[lane] - cost]
  }

  /** The deficits after one decision: credit every lane, charge the chosen one. */
  function Settle(d: seq<real>, weights: seq<real>, chunk: nat, lane: nat): seq<real>
    requires |d| == |weights| && RealSum(weights) > 0.0 && lane < |d|
  {
    Pay(Plus(d, Shares(weights, chunk)), chunk as real, lane)
  }

  /** lane is what the scan over the positive-weight lanes keeps: the largest
      value, among those the largest weight, among those the smallest index. */
  ghost predicate IsBest(value: seq<real>, weights: seq<real>, lane: nat)
    requires |value| == |weights|
  {
    && lane < |weights| && weights[lane] > 0.0
    && forall i | 0 <= i < |weights| && weights[i] > 0.0 ::
         || value[i] < value[lane]
         || (value[i] == value[lane] && weights[i] < weights[lane])
         || (value[i] == value[lane] && weights[i] == weights[lane] && lane <= i)
  }

  // ------------------------------------------------------- the cup-game bound

  function Harmonic(n: nat): real {
    if n == 0 then 0.0 else Harmonic(n - 1) + 1.0 / n as real
  }

  /** slack[k] is how much k lanes of n may be owed on average: it drops by
      cap/(k+1) from k to k + 1 lanes and is zero for all lanes together. */
  ghost predicate IsSlack(slack: seq<real>, cap: real) {
    && slack != []
    && slack[|slack| - 1] == 0.0
    && forall k | 0 <= k < |slack| - 1 :: SlackDrops(slack, cap, k)
  }

  ghost predicate SlackDrops(slack: seq<real>, cap: real, k: nat)
    requires k + 1 < |slack|
  {
    Times(k + 1, slack[k]) == Times(k + 1, slack[k + 1]) + cap
  }

  /** The only such sequence: cap * (1/(k+1) + ... + 1/n). */
  function HarmonicSlack(n: nat, cap: real): seq<real> {
    seq(n + 1, k requires 0 <= k <= n => cap * (Harmonic(n) - Harmonic(k)))
  }

  lemma HarmonicIsSlack(n: nat, cap: real)
    ensures IsSlack(HarmonicSlack(n, cap), cap)
  {
    var slack := HarmonicSlack(n, cap);
    assert slack[n] == cap * 0.0;
    forall k | 0 <= k < n
      ensures SlackDrops(slack, cap, k)
    {
      var x, r := (k + 1) as real, 1.0 / (k + 1) as real;
      TimesIsProduct(k + 1, slack[k]);
      TimesIsProduct(k + 1, slack[k + 1]);
      assert Harmonic(k + 1) == Harmonic(k) + r;
      ScaleDrop(x, r, cap, Harmonic(n) - Harmonic(k + 1));
    }
  }

  lemma FirstSlack(n: nat, cap: real)
    requires n > 0
    ensures HarmonicSlack(n, cap)[1] == MaxLag(n, cap)
  {
    assert Harmonic(1) == 1.0 by {
      assert Harmonic(1) == Harmonic(0) + 1.0;
    }
    SameProduct(cap, Harmonic(n) - Harmonic(1), Harmonic(n) - 1.0);
  }

  lemma SameProduct(cap: real, x: real, y: real)
    requires x == y
    ensures cap * x == cap * y
  {}

  lemma ScaleDrop(x: real, r: real, cap: real, h: real)
    requires x * r == 1.0
    ensures x * (cap * (h + r)) == x * (cap * h) + cap
  {
    assert cap * (h + r) == cap * h + cap * r;
    assert x * (cap * r) == cap * (x * r);
  }

  /** The invariant of the game: any k lanes together are owed at most k * slack[k]. */
  ghost predicate Balanced(d: seq<real>, slack: seq<real>) {
    && |slack| == |d| + 1
    && forall s: set<nat> | s <= Below(|d|) :: SubsetBounded(d, slack, s)
  }

  ghost predicate SubsetBounded(d: seq<real>, slack: seq<real>, s: set<nat>)
    requires |slack| == |d| + 1 && s <= Below(|d|)
  {
    SubsetCount(s, |d|);
    SumOn(d, s) <= Times(|s|, slack[|s|])
  }

  lemma SubsetCount(s: set<nat>, n: nat)
    requires s <= Below(n)
    ensures |s| <= n
  {
    assert Below(n) == s + (Below(n) - s);
  }

  function Zeros(n: nat): seq<real> {
    seq(n, _ => 0.0)
  }

  lemma SumOnZeros(n: nat, s: set<nat>)
    ensures SumOn(Zeros(n), s) == 0.0
  {
    if n > 0 {
      assert Zeros(n)[..n - 1] == Zeros(n - 1);
      SumOnZeros(n - 1, s);
    }
  }

  lemma ZeroIsBalanced(n: nat, slack: seq<real>, cap: real)
    requires cap >= 0.0 && |slack| == n + 1 && IsSlack(slack, cap)
    ensures Balanced(Zeros(n), slack)
    ensures RealSum(Zeros(n)) == 0.0
  {
    forall s: set<nat> | s <= Below(n)
      ensures SubsetBounded(Zeros(n), slack, s)
    {
      SubsetCount(s, n);
      SumOnZeros(n, s);
      SlackNonNegative(slack, cap, |s|);
      TimesMonotone(|s|, 0.0, slack[|s|]);
      TimesMonotone(|s|, 0.0, 0.0);
      TimesZero(|s|);
    }
    SumOnZeros(n, Below(n));
    SumOnAll(Zeros(n));
  }

  lemma SlackNonNegative(slack: seq<real>, cap: real, k: nat)
    requires cap >= 0.0 && k < |slack| && IsSlack(slack, cap)
    ensures slack[k] >= 0.0
    decreases |slack| - k
  {
    if k < |slack| - 1 {
      SlackNonNegative(slack, cap, k + 1);
      assert SlackDrops(slack, cap, k);
      if slack[k] < 0.0 {
        TimesMonotone(k, slack[k], 0.0);
        TimesMonotone(k + 1, 0.0, slack[k + 1]);
        TimesZero(k);
        TimesZero(k + 1);
      }
    }
  }

  lemma TimesZero(k: nat)
    ensures Times(k, 0.0) == 0.0
  {}

  lemma TimesMonotone(k: nat, m: real, g: real)
    requires m <= g
    ensures Times(k, m) <= Times(k, g)
  {}

  lemma SharesNonNegative(weights: seq<real>, chunk: nat)
    requires RealSum(weights) > 0.0
    requires forall i | 0 <= i < |weights| :: weights[i] >= 0.0
    ensures forall i | 0 <= i < |weights| :: Shares(weights, chunk)[i] >= 0.0
  {
    var total := RealSum(weights);
    forall i | 0 <= i < |weights|
      ensures Share(weights[i], total, chunk) >= 0.0
    {
      ShareNonNegative(weights[i], total, chunk);
    }
  }

  lemma ShareNonNegative(weight: real, total: real, chunk: nat)
    requires total > 0.0 && weight >= 0.0
    ensures Share(weight, total, chunk) >= 0.0
  {
    assert weight / total >= 0.0;
  }

  /** What the proofs below use about one greedy decision: the gains are
      non-negative, add up to the charge, and the charged lane ends up on top. */
  ghost predicate GreedyStep(d: seq<real>, f: seq<real>, c: real, lane: nat)
  {
    && |d| == |f| && lane < |d|
    && (forall i | 0 <= i < |d| :: f[i] >= 0.0)
    && RealSum(f) == c
    && (forall i | 0 <= i < |d| :: Plus(d, f)[i] <= Plus(d, f)[lane])
  }

  lemma BestIsGreedyStep(d: seq<real>, weights: seq<real>, chunk: nat, lane: nat)
    requires |d| == |weights| && RealSum(weights) > 0.0
    requires forall i | 0 <= i < |weights| :: weights[i] > 0.0
    requires IsBest(Plus(d, Shares(weights, chunk)), weights, lane)
    ensures GreedyStep(d, Shares(weights, chunk), chunk as real, lane)
  {
    SharesNonNegative(weights, chunk);
    SharesSumToChunk(weights, chunk);
  }

  /** One greedy decision keeps the game balanced: the charged lane held at
      least as much as every other lane, so the k others hold at most k/(k+1)
      of what the k+1 lanes hold together. */
  lemma GreedyKeepsBalance(d: seq<real>, f: seq<real>, c: real, lane: nat, slack: seq<real>, cap: real)
    requires GreedyStep(d, f, c, lane) && c <= cap
    requires Balanced(d, slack) && IsSlack(slack, cap)
    ensures Balanced(Pay(Plus(d, f), c, lane), slack)
  {
    var p := Plus(d, f);
    var after := p[lane := p[lane] - c];
    forall s: set<nat> | s <= Below(|after|)
      ensures SubsetBounded(after, slack, s)
    {
      SubsetCount(s, |d|);
      SumOnUpdate(p, lane, p[lane] - c, s);
      if lane in s {
        assert SubsetBounded(d, slack, s);
        SumOnPlus(d, f, s);
        SumOnAtMostSum(f, s);
      } else {
        var k, t := |s|, s + {lane};
        SubsetCount(t, |d|);
        assert SubsetBounded(d, slack, t) && SlackDrops(slack, cap, k);
        OthersBounded(d, f, c, lane, slack[k], slack[k + 1], cap, s, t);
      }
    }
  }

  lemma OthersBounded(d: seq<real>, f: seq<real>, c: real, lane: nat,
                      g: real, h: real, cap: real, s: set<nat>, t: set<nat>)
    requires GreedyStep(d, f, c, lane) && c <= cap
    requires s <= Below(|d|) && lane !in s && t == s + {lane}
    requires SumOn(d, t) <= Times(|s| + 1, h) && Times(|s| + 1, g) == Times(|s| + 1, h) + cap
    ensures SumOn(Plus(d, f), s) <= Times(|s|, g)
  {
    var p := Plus(d, f);
    SumOnBelow(p, s, p[lane]);
    WithLane(d, f, c, lane, s, t);
    BelowAverage(|s|, SumOn(p, s), p[lane], SumOn(d, t), g, h, cap);
  }

  lemma WithLane(d: seq<real>, f: seq<real>, c: real, lane: nat, s: set<nat>, t: set<nat>)
    requires GreedyStep(d, f, c, lane) && lane !in s && t == s + {lane}
    ensures SumOn(Plus(d, f), s) + Plus(d, f)[lane] <= SumOn(d, t) + c
  {
    SumOnInsert(Plus(d, f), lane, s);
    SumOnPlus(d, f, t);
    SumOnAtMostSum(f, t);
  }

  /** k values below m whose sum with m is at most before + cap, where before is
      at most k + 1 times h, are at most k times g. */
  lemma BelowAverage(k: nat, below: real, m: real, before: real, g: real, h: real, cap: real)
    requires below <= Times(k, m) && below + m <= before + cap
    requires before <= Times(k + 1, h) && Times(k + 1, g) == Times(k + 1, h) + cap
    ensures below <= Times(k, g)
  {
    if m <= g {
      TimesMonotone(k, m, g);
    }
  }

  /** A balanced vector lags no lane by more than the slack of a single lane. */
  lemma BalancedBoundsLane(d: seq<real>, slack: seq<real>, i: nat)
    requires Balanced(d, slack) && i < |d|
    ensures d[i] <= slack[1]
  {
    SumOnEmpty(d);
    SumOnInsert(d, i, {});
    var s: set<nat> := {i};
    assert {} + {i} == s;
    assert SubsetBounded(d, slack, s);
    assert Times(1, slack[1]) == Times(0, slack[1]) + slack[1];
  }

  lemma SumOnEmpty(d: seq<real>)
    ensures SumOn(d, {}) == 0.0
  {
    if d != [] {
      SumOnEmpty(d[..|d| - 1]);
    }
  }

  /** No lane is ever more than lead ahead of its share. */
  ghost predicate NoneFarAhead(d: seq<real>, lead: real) {
    forall i | 0 <= i < |d| :: d[i] >= -lead
  }

  lemma GreedyKeepsLowerBound(d: seq<real>, f: seq<real>, c: real, lane: nat, lead: real, cap: real)
    requires GreedyStep(d, f, c, lane) && c <= cap && RealSum(d) == 0.0
    requires NoneFarAhead(d, lead) && Times(|d|, cap - lead) == cap
    ensures NoneFarAhead(Pay(Plus(d, f), c, lane), lead)
  {
    var p := Plus(d, f);
    TopAtLeastAverage(d, f, c, lane);
    LeadStep(|d|, p[lane], c, cap, lead);
  }

  lemma TopAtLeastAverage(d: seq<real>, f: seq<real>, c: real, lane: nat)
    requires GreedyStep(d, f, c, lane) && RealSum(d) == 0.0
    ensures Times(|d|, Plus(d, f)[lane]) >= c
  {
    var p, l := Plus(d, f), Below(|d|);
    assert SumOn(p, l) == c by {
      SumOnAll(d);
      SumOnAll(f);
      SumOnPlus(d, f, l);
    }
    SumOnBelow(p, l, p[lane]);
  }

  lemma LeadStep(n: nat, top: real, c: real, cap: real, lead: real)
    requires n > 0 && Times(n, top) >= c && c <= cap && Times(n, cap - lead) == cap
    ensures top - c >= -lead
  {
    assert (c - lead) + (cap - c) == cap - lead;
    TimesAdds(n, c - lead, cap - c);
    TimesAtLeast(n, cap - c);
    if top < c - lead {
      TimesStrict(n, top, c - lead);
    }
  }

  lemma TimesStrict(k: nat, m: real, g: real)
    requires m < g
    ensures if k == 0 then Times(k, m) == Times(k, g) else Times(k, m) < Times(k, g)
  {}

  lemma TimesAdds(k: nat, a: real, b: real)
    ensures Times(k, a + b) == Times(k, a) + Times(k, b)
  {
    if k > 0 {
      TimesAdds(k - 1, a, b);
    }
  }

  lemma TimesAtLeast(k: nat, m: real)
    requires k > 0 && m >= 0.0
    ensures Times(k, m) >= m
  {
    if k > 1 {
      TimesAtLeast(k - 1, m);
    }
  }

  // ------------------------------------------------------ runs of the game

  /** One round: every lane gains, the charged lane pays the sum of the gains. */
  datatype Move = Move(gain: seq<real>, cost: real, lane: nat)

  ghost predicate Playable(n: nat, moves: seq<Move>) {
    forall k | 0 <= k < |moves| ::
      |moves[k].gain| == n && moves[k].lane < n && RealSum(moves[k].gain) == moves[k].cost
  }

  ghost function Position(n: nat, moves: seq<Move>): (d: seq<real>)
    requires Playable(n, moves)
    ensures |d| == n
  {
    if moves == [] then Zeros(n)
    else
      var last := moves[|moves| - 1];
      Pay(Plus(Position(n, moves[..|moves| - 1]), last.gain), last.cost, last.lane)
  }

  ghost predicate GreedyMoves(n: nat, moves: seq<Move>, cap: real)
    requires Playable(n, moves)
  {
    moves == [] ||
    var before, last := moves[..|moves| - 1], moves[|moves| - 1];
    && GreedyMoves(n, before, cap)
    && GreedyStep(Position(n, before), last.gain, last.cost, last.lane)
    && last.cost <= cap
  }

  lemma RoundKeepsSum(d: seq<real>, f: seq<real>, lane: nat)
    requires |d| == |f| && lane < |d|
    ensures RealSum(Pay(Plus(d, f), RealSum(f), lane)) == RealSum(d)
  {
    var p, l := Plus(d, f), Below(|d|);
    SumOnAll(d);
    SumOnAll(f);
    SumOnPlus(d, f, l);
    SumOnUpdate(p, lane, p[lane] - RealSum(f), l);
    SumOnAll(Pay(p, RealSum(f), lane));
  }

  lemma PositionSumsToZero(n: nat, moves: seq<Move>)
    requires Playable(n, moves)
    ensures RealSum(Position(n, moves)) == 0.0
  {
    if moves == [] {
      SumOnZeros(n, Below(n));
      SumOnAll(Zeros(n));
    } else {
      var before, last := moves[..|moves| - 1], moves[|moves| - 1];
      PositionSumsToZero(n, before);
      RoundKeepsSum(Position(n, before), last.gain, last.lane);
    }
  }

  lemma GreedyRunIsBalanced(n: nat, moves: seq<Move>, slack: seq<real>, lead: real, cap: real)
    requires Playable(n, moves) && GreedyMoves(n, moves, cap)
    requires cap >= 0.0 && lead >= 0.0 && Times(n, cap - lead) == cap
    requires |slack| == n + 1 && IsSlack(slack, cap)
    ensures Balanced(Position(n, moves), slack)
    ensures NoneFarAhead(Position(n, moves), lead)
  {
    if moves == [] {
      ZeroIsBalanced(n, slack, cap);
    } else {
      var before, last := moves[..|moves| - 1], moves[|moves| - 1];
      var d := Position(n, before);
      GreedyRunIsBalanced(n, before, slack, lead, cap);
      PositionSumsToZero(n, before);
      GreedyKeepsBalance(d, last.gain, last.cost, last.lane, slack, cap);
      GreedyKeepsLowerBound(d, last.gain, last.cost, last.lane, lead, cap);
    }
  }

  /** cap * (1/2 + 1/3 + ... + 1/n) */
  function MaxLag(n: nat, cap: real): real {
    cap * (Harmonic(n) - 1.0)
  }

  /** cap * (1 - 1/n) */
  function MaxLead(n: nat, cap: real): real
    requires n > 0
  {
    cap * (1.0 - 1.0 / n as real)
  }

  lemma MaxLeadIsLead(n: nat, cap: real)
    requires n > 0 && cap >= 0.0
    ensures MaxLead(n, cap) >= 0.0
    ensures Times(n, cap - MaxLead(n, cap)) == cap
  {
    var r := 1.0 / n as real;
    assert 0.0 < r <= 1.0 && n as real * r == 1.0;
    assert cap - MaxLead(n, cap) == cap * r;
    TimesIsProduct(n, cap * r);
    assert n as real * (cap * r) == (n as real * r) * cap;
  }

  /** The bounds of the cup game: a greedily played position from zero stays
      between -cap * (1 - 1/n) and cap * (1/2 + 1/3 + ... + 1/n). */
  lemma GreedyBounds(n: nat, moves: seq<Move>, cap: real, i: nat)
    requires Playable(n, moves) && GreedyMoves(n, moves, cap)
    requires cap >= 0.0 && i < n
    ensures -MaxLead(n, cap) <= Position(n, moves)[i] <= MaxLag(n, cap)
  {
    var slack, lead := HarmonicSlack(n, cap), MaxLead(n, cap);
    assert lead >= 0.0 && Times(n, cap - lead) == cap by {
      MaxLeadIsLead(n, cap);
    }
    assert slack[1] == MaxLag(n, cap) by {
      FirstSlack(n, cap);
    }
    assert -lead <= Position(n, moves)[i] <= slack[1] by {
      HarmonicIsSlack(n, cap);
      GreedyRunIsBalanced(n, moves, slack, lead, cap);
      BalancedBoundsLane(Position(n, moves), slack, i);
    }
  }
}
