/** What holds for weights that may be zero: no lane is ever more than half a chunk for
    each other lane away from its share, and no smaller bound holds for all runs. */
module ZeroWeightBound {
  import opened LaneFairness
  import opened LaneScheduler
  import opened Sequences
  import opened ZeroWeights

  // ------------------------------------------------------------ the upper bound

  /** owed[k] is what k lanes together may be owed; any m of k lanes mix the bounds for one
      lane more and for m lanes fewer. */
  ghost predicate IsOwed(owed: seq<real>, cap: real) {
    && owed != [] && (forall k | 0 <= k < |owed| :: owed[k] >= 0.0)
    && forall k, m {:trigger Mixes(owed, cap, k, m)} | 1 <= m <= k < |owed| - 1 :: Mixes(owed, cap, k, m)
  }

  ghost predicate Mixes(owed: seq<real>, cap: real, k: nat, m: nat)
    requires m <= k < |owed| - 1
  {
    Times(m, owed[k + 1] + cap) + owed[k - m] <= Times(m + 1, owed[k])
  }

  /** cap * k * (n - k) / 2 */
  function OwedTable(n: nat, cap: real): seq<real> {
    seq(n + 1, k requires 0 <= k <= n => cap * (k * (n - k)) as real / 2.0)
  }

  ghost predicate Owes(d: seq<real>, s: set<nat>, owed: seq<real>)
    requires s <= Below(|d|) && |owed| == |d| + 1
  {
    SubsetCount(s, |d|);
    SumOn(d, s) <= owed[|s|]
  }

  ghost predicate WithinOwed(d: seq<real>, owed: seq<real>) {
    |owed| == |d| + 1 && forall s: set<nat> | s <= Below(|d|) :: Owes(d, s, owed)
  }

  /** What the proof uses about a decision: the gains add up to the charge, and the charged
      lane ends up on top of all lanes that gained. */
  ghost predicate PartialStep(d: seq<real>, f: seq<real>, c: real, lane: nat) {
    && |d| == |f| && lane < |d|
    && (forall i | 0 <= i < |f| :: f[i] >= 0.0)
    && RealSum(f) == c
    && (forall i | 0 <= i < |f| && f[i] > 0.0 :: Plus(d, f)[i] <= Plus(d, f)[lane])
  }

  lemma {:induction false} SumOnUnion(d: seq<real>, a: set<nat>, b: set<nat>)
    requires a !! b
    ensures SumOn(d, a + b) == SumOn(d, a) + SumOn(d, b)
    decreases |d|
  {
    if d != [] {
      SumOnUnion(d[..|d| - 1], a, b);
    }
  }

  lemma {:induction false} SumOnAgrees(d: seq<real>, e: seq<real>, s: set<nat>)
    requires |d| == |e| && forall i | i in s && i < |d| :: d[i] == e[i]
    ensures SumOn(d, s) == SumOn(e, s)
    decreases |d|
  {
    if d != [] {
      SumOnAgrees(d[..|d| - 1], e[..|e| - 1], s);
    }
  }

  lemma OwedIdentity(n: int, k: int, m: int)
    ensures m * ((k + 1) * (n - (k + 1))) + (k - m) * (n - (k - m)) == (m + 1) * (k * (n - k)) - m * (m + 1)
  {
    assert (k + 1) * (n - (k + 1)) == k * (n - k) + (n - 2 * k - 1);
    assert (k - m) * (n - (k - m)) == k * (n - k) + 2 * (k * m) - m * n - m * m;
    assert m * (k * (n - k) + (n - 2 * k - 1)) == m * (k * (n - k)) + m * n - 2 * (k * m) - m;
  }

  lemma TableIsOwed(n: nat, cap: real)
    requires cap >= 0.0
    ensures IsOwed(OwedTable(n, cap), cap)
  {
    var owed := OwedTable(n, cap);
    forall k | 0 <= k <= n
      ensures owed[k] >= 0.0
    {
      TableIsPositive(n, cap, k);
    }
    forall k, m {:trigger Mixes(owed, cap, k, m)} | 1 <= m <= k < n
      ensures Mixes(owed, cap, k, m)
    {
      TableMixesAt(n, cap, k, m);
    }
  }

  lemma TableIsPositive(n: nat, cap: real, k: nat)
    requires k <= n && cap >= 0.0
    ensures OwedTable(n, cap)[k] >= 0.0
  {
    assert k * (n - k) >= 0;
    assert cap * (k * (n - k)) as real >= 0.0;
  }

  lemma TableMixesAt(n: nat, cap: real, k: nat, m: nat)
    requires 1 <= m <= k < n && cap >= 0.0
    ensures Mixes(OwedTable(n, cap), cap, k, m)
  {
    var owed := OwedTable(n, cap);
    OwedIdentity(n, k, m);
    TableMixes(cap, m, (k + 1) * (n - (k + 1)), (k - m) * (n - (k - m)), k * (n - k), owed[k + 1], owed[k - m],
               owed[k]);
  }

  lemma TableMixes(cap: real, m: nat, a: int, b: int, q: int, x: real, y: real, z: real)
    requires m * a + b == (m + 1) * q - m * (m + 1) && m >= 1 && cap >= 0.0
    requires x == cap * a as real / 2.0 && y == cap * b as real / 2.0 && z == cap * q as real / 2.0
    ensures Times(m, x + cap) + y <= Times(m + 1, z)
  {
    TimesIsProduct(m, x + cap);
    TimesIsProduct(m + 1, z);
    SameAsReal(m, a, b, q);
    ScaledStep(m as real, a as real, b as real, q as real, cap, cap);
  }

  lemma SameAsReal(m: int, a: int, b: int, q: int)
    requires m * a + b == (m + 1) * q - m * (m + 1)
    ensures m as real * a as real + b as real == (m + 1) as real * q as real - m as real * (m + 1) as real
  {
    assert (m * a) as real == m as real * a as real;
    assert ((m + 1) * q) as real == (m + 1) as real * q as real;
    assert (m * (m + 1)) as real == m as real * (m + 1) as real;
  }

  lemma ScaledStep(m: real, a: real, b: real, q: real, cap: real, c: real)
    requires m * a + b == (m + 1.0) * q - m * (m + 1.0) && m >= 1.0 && c <= cap && cap >= 0.0
    ensures m * (cap * a / 2.0 + c) + cap * b / 2.0 <= (m + 1.0) * (cap * q / 2.0)
  {
    var h := cap / 2.0;
    assert m * (cap * a / 2.0 + c) + cap * b / 2.0 == h * (m * a + b) + m * c;
    assert (m + 1.0) * (cap * q / 2.0) == h * ((m + 1.0) * q);
    assert h * (m * (m + 1.0)) >= m * c by {
      assert (m + 1.0) * h >= 2.0 * h;
      assert m * ((m + 1.0) * h) >= m * cap;
      assert m * cap >= m * c;
    }
  }

  /** m lanes below top hold a together, and others hold b; z is the mixture of the bounds
      x, of all of them with the top one, and y, of the others. */
  lemma BelowMixture(m: nat, a: real, b: real, top: real, x: real, y: real, z: real)
    requires m >= 1 && a <= Times(m, top) && a + b + top <= x && b <= y
    requires Times(m, x) + y <= Times(m + 1, z)
    ensures a + b <= z
  {
    TimesIsProduct(m, top);
    TimesIsProduct(m, x);
    TimesIsProduct(m + 1, z);
    assert (m + 1) as real == m as real + 1.0;
    Mixed(m as real, a, b, top, x, y, z);
  }

  lemma Mixed(m: real, a: real, b: real, top: real, x: real, y: real, z: real)
    requires m >= 1.0 && a <= m * top && a + b + top <= x && b <= y && m * x + y <= (m + 1.0) * z
    ensures a + b <= z
  {
    assert m * (a + b + top) <= m * x;
    assert (m + 1.0) * (a + b) <= m * (a + b + top) + b;
    Cancel(m + 1.0, a + b, z);
  }

  lemma Cancel(m: real, w: real, z: real)
    requires m > 0.0 && m * w <= m * z
    ensures w <= z
  {
    assert m * (z - w) >= 0.0;
  }

  lemma StepKeepsOwed(d: seq<real>, f: seq<real>, c: real, lane: nat, owed: seq<real>, cap: real)
    requires PartialStep(d, f, c, lane) && c <= cap && WithinOwed(d, owed) && IsOwed(owed, cap)
    ensures WithinOwed(Pay(Plus(d, f), c, lane), owed)
  {
    var p := Plus(d, f);
    forall s: set<nat> | s <= Below(|d|)
      ensures Owes(Pay(p, c, lane), s, owed)
    {
      SubsetCount(s, |d|);
      SumOnUpdate(p, lane, p[lane] - c, s);
      if lane in s {
        assert Owes(d, s, owed);
        SumOnPlus(d, f, s);
        SumOnAtMostSum(f, s);
      } else {
        OthersKeepOwed(d, f, c, lane, owed, cap, s);
      }
    }
  }

  lemma MixedOwed(owed: seq<real>, cap: real, c: real, k: nat, m: nat, a: real, b: real, top: real)
    requires IsOwed(owed, cap) && c <= cap && 1 <= m <= k < |owed| - 1
    requires a <= Times(m, top) && a + b + top <= owed[k + 1] + c && b <= owed[k - m]
    ensures a + b <= owed[k]
  {
    assert Mixes(owed, cap, k, m);
    BelowMixture(m, a, b, top, owed[k + 1] + cap, owed[k - m], owed[k]);
  }

  lemma SplitByGain(d: seq<real>, f: seq<real>, s: set<nat>) returns (gained: set<nat>, rest: set<nat>)
    requires |d| == |f| && s <= Below(|d|) && forall i | 0 <= i < |f| :: f[i] >= 0.0
    ensures gained <= s && rest <= s && |s| == |gained| + |rest|
    ensures forall i | i in gained :: f[i] > 0.0
    ensures SumOn(Plus(d, f), s) == SumOn(Plus(d, f), gained) + SumOn(d, rest)
  {
    gained := set i | i in s && f[i] > 0.0;
    rest := s - gained;
    assert s == gained + rest;
    SumOnUnion(Plus(d, f), gained, rest);
    SumOnAgrees(Plus(d, f), d, rest);
  }

  lemma OthersKeepOwed(d: seq<real>, f: seq<real>, c: real, lane: nat, owed: seq<real>, cap: real, s: set<nat>)
    requires PartialStep(d, f, c, lane) && c <= cap && WithinOwed(d, owed) && IsOwed(owed, cap)
    requires s <= Below(|d|) && lane !in s && |s| <= |d|
    ensures SumOn(Plus(d, f), s) <= owed[|s|]
  {
    var gained, rest := SplitByGain(d, f, s);
    assert Owes(d, rest, owed);
    if gained != {} {
      WithTop(d, f, c, lane, owed, s);
      SubsetCount(gained, |d|);
      GainedKeepOwed(Plus(d, f), lane, c, owed, cap, s, gained, SumOn(d, rest));
    } else {
      SumOnEmpty(Plus(d, f));
    }
  }

  /** p holds the lanes' deficits with their gains; the lanes of s below lane gained or
      belong to the rest. */
  lemma GainedKeepOwed(p: seq<real>, lane: nat, c: real, owed: seq<real>, cap: real, s: set<nat>, gained: set<nat>,
                       restSum: real)
    requires IsOwed(owed, cap) && c <= cap && lane < |p| && |s| < |owed| - 1
    requires gained != {} && |gained| <= |s| && forall i | i in gained :: i < |p| && p[i] <= p[lane]
    requires restSum <= owed[|s| - |gained|]
    requires SumOn(p, gained) + restSum + p[lane] <= owed[|s| + 1] + c
    ensures SumOn(p, gained) + restSum <= owed[|s|]
  {
    SumOnBelow(p, gained, p[lane]);
    MixedOwed(owed, cap, c, |s|, |gained|, SumOn(p, gained), restSum, p[lane]);
  }

  lemma WithTop(d: seq<real>, f: seq<real>, c: real, lane: nat, owed: seq<real>, s: set<nat>)
    requires PartialStep(d, f, c, lane) && WithinOwed(d, owed) && s <= Below(|d|) && lane !in s
    ensures |s| < |d| && SumOn(Plus(d, f), s) + Plus(d, f)[lane] <= owed[|s| + 1] + c
  {
    var t := s + {lane};
    assert Owes(d, t, owed);
    SubsetCount(t, |d|);
    TopSum(d, f, lane, s, t);
  }

  lemma TopSum(d: seq<real>, f: seq<real>, lane: nat, s: set<nat>, t: set<nat>)
    requires |d| == |f| && lane < |d| && lane !in s && t == s + {lane}
    requires forall i | 0 <= i < |f| :: f[i] >= 0.0
    ensures SumOn(Plus(d, f), s) + Plus(d, f)[lane] <= SumOn(d, t) + RealSum(f)
  {
    SumOnInsert(Plus(d, f), lane, s);
    SumOnPlus(d, f, t);
    SumOnAtMostSum(f, t);
  }

  lemma PlainIsPartial(d: seq<real>, weights: seq<real>, chunk: nat, lane: nat)
    requires |d| == |weights| && RealSum(weights) > 0.0
    requires forall i | 0 <= i < |weights| :: weights[i] >= 0.0
    requires IsBest(Plus(d, Shares(weights, chunk)), weights, lane)
    ensures PartialStep(d, Shares(weights, chunk), chunk as real, lane)
  {
    SharesNonNegative(weights, chunk);
    SharesSumToChunk(weights, chunk);
    GainNeedsWeight(weights, chunk);
  }

  lemma GainNeedsWeight(weights: seq<real>, chunk: nat)
    requires RealSum(weights) > 0.0 && forall i | 0 <= i < |weights| :: weights[i] >= 0.0
    ensures forall i | 0 <= i < |weights| && Shares(weights, chunk)[i] > 0.0 :: weights[i] > 0.0
  {
    NoShare(RealSum(weights), chunk);
  }

  lemma {:induction false} PlainRunIsOwed(n: nat, run: seq<Decision>, cap: nat, owed: seq<real>)
    requires PlainRun(n, run, cap) && |owed| == n + 1 && IsOwed(owed, cap as real)
    ensures WithinOwed(Deficits(n, run), owed)
  {
    if run == [] {
      forall s: set<nat> | s <= Below(n)
        ensures Owes(Zeros(n), s, owed)
      {
        SumOnZeros(n, s);
        SubsetCount(s, n);
      }
    } else {
      var before, last := run[..|run| - 1], run[|run| - 1];
      PlainRunIsOwed(n, before, cap, owed);
      assert Plain(last, cap);
      PlainIsPartial(Deficits(n, before), last.weights, last.chunk, last.lane);
      StepKeepsOwed(Deficits(n, before), Shares(last.weights, last.chunk), last.chunk as real, last.lane, owed,
                    cap as real);
    }
  }

  /** cap * (n - 1) / 2 */
  function MaxAway(n: nat, cap: real): real
    requires n > 0
  {
    cap * (n - 1) as real / 2.0
  }

  /** However weights that are not negative change, a lane never gets further than this
      from its share, in either direction. */
  lemma AnyWeightsBound(n: nat, run: seq<Decision>, cap: nat, i: nat)
    requires PlainRun(n, run, cap) && i < n
    ensures -MaxAway(n, cap as real) <= Due(run, i) - Sent(run, i) as real <= MaxAway(n, cap as real)
  {
    TableIsOwed(n, cap as real);
    TableEnds(n, cap as real);
    TableBounds(n, run, cap, OwedTable(n, cap as real), i);
  }

  lemma TableEnds(n: nat, cap: real)
    requires n > 0
    ensures OwedTable(n, cap)[1] == OwedTable(n, cap)[n - 1] == MaxAway(n, cap)
  {
    assert 1 * (n - 1) == n - 1 && (n - 1) * (n - (n - 1)) == n - 1;
  }

  lemma TableBounds(n: nat, run: seq<Decision>, cap: nat, owed: seq<real>, i: nat)
    requires PlainRun(n, run, cap) && i < n && |owed| == n + 1 && IsOwed(owed, cap as real)
    ensures -owed[n - 1] <= Due(run, i) - Sent(run, i) as real <= owed[1]
  {
    PlainRunIsOwed(n, run, cap, owed);
    DeficitIsDueMinusSent(n, run, i);
    DeficitsSumToZero(n, run);
    OwedBoundsLane(Deficits(n, run), owed, i);
  }

  lemma OwedBoundsLane(d: seq<real>, owed: seq<real>, i: nat)
    requires WithinOwed(d, owed) && RealSum(d) == 0.0 && i < |d|
    ensures -owed[|d| - 1] <= d[i] <= owed[1]
  {
    var n := |d|;
    var one: set<nat>, others := {i}, Below(n) - {i};
    assert Owes(d, one, owed) && Owes(d, others, owed);
    SumOnEmpty(d);
    SumOnInsert(d, i, {});
    assert {} + {i} == one;
    assert others + {i} == Below(n) && |others| == n - 1;
    SumOnInsert(d, i, others);
    SumOnAll(d);
  }

  // --------------------------------------------------------------- it is tight

  function Square(x: real): real {
    x * x
  }

  ghost function SumOf(f: real -> real, d: seq<real>): real {
    if d == [] then 0.0 else SumOf(f, d[..|d| - 1]) + f(d[|d| - 1])
  }

  lemma {:induction false} SumOfUpdate(f: real -> real, d: seq<real>, b: nat, x: real)
    requires b < |d|
    ensures SumOf(f, d[b := x]) == SumOf(f, d) - f(d[b]) + f(x)
    decreases |d|
  {
    var n := |d| - 1;
    if b == n {
      assert d[b := x][..n] == d[..n];
    } else {
      assert d[b := x][..n] == d[..n][b := x];
      SumOfUpdate(f, d[..n], b, x);
    }
  }

  lemma {:induction false} SumOfBounded(f: real -> real, d: seq<real>, top: real)
    requires forall i | 0 <= i < |d| :: f(d[i]) <= top
    ensures SumOf(f, d) <= Times(|d|, top)
    decreases |d|
  {
    if d != [] {
      SumOfBounded(f, d[..|d| - 1], top);
    }
  }

  lemma {:induction false} SumOfMoved(f: real -> real, d: seq<real>, i: nat, k: nat, e: real)
    requires i < |d| && k < |d| && i != k
    requires f(d[i] - e) + f(d[k] + e) >= f(d[i]) + f(d[k]) + e
    ensures SumOf(f, Moved(d, i, k, e)) >= SumOf(f, d) + e
  {
    SumOfUpdate(f, d, i, d[i] - e);
    SumOfUpdate(f, d[i := d[i] - e], k, d[k] + e);
  }

  ghost function SumSquares(d: seq<real>): real {
    SumOf(Square, d)
  }

  lemma SquaresBounded(d: seq<real>, m: real)
    requires forall i | 0 <= i < |d| :: -m <= d[i] <= m
    ensures SumSquares(d) <= Times(|d|, Square(m))
  {
    forall i | 0 <= i < |d|
      ensures Square(d[i]) <= Square(m)
    {
      SquareBelow(d[i], m);
    }
    SumOfBounded(Square, d, Square(m));
  }

  lemma SquareBelow(x: real, m: real)
    requires -m <= x <= m
    ensures Square(x) <= Square(m)
  {
    NotNegative(m - x, m + x);
    DifferenceOfSquares(m, x);
  }

  lemma NotNegative(a: real, b: real)
    requires a >= 0.0 && b >= 0.0
    ensures a * b >= 0.0
  {}

  lemma DifferenceOfSquares(m: real, x: real)
    ensures (m - x) * (m + x) == Square(m) - Square(x)
  {}

  lemma {:induction false} SumOfZeros(f: real -> real, n: nat)
    requires f(0.0) == 0.0
    ensures SumOf(f, Zeros(n)) == 0.0
  {
    if n > 0 {
      SumOfZeros(f, n - 1);
      assert Zeros(n)[..n - 1] == Zeros(n - 1);
    }
  }

  /** Moving two lanes apart by e each way adds at least e, when they end up a byte apart. */
  lemma MovedGrows(d: seq<real>, i: nat, k: nat, e: real)
    requires i < |d| && k < |d| && i != k && 0.0 < e <= 0.5 && d[k] - d[i] == 1.0 - e - e
    ensures SumSquares(Moved(d, i, k, e)) >= SumSquares(d) + e
  {
    SquaresSpread(d[i], d[k], e, 1.0 - e);
    SumOfMoved(Square, d, i, k, e);
  }

  lemma SquaresSpread(a: real, b: real, e: real, x: real)
    requires e >= 0.0 && x >= 0.5 && x == b - a + e
    ensures Square(a - e) + Square(b + e) >= Square(a) + Square(b) + e
  {
    SquareOfLess(a, e);
    SquareOfMore(b, e);
    ProductSplit(e, a, b, x);
    HalfAtLeast(e, x);
  }

  lemma SquareOfLess(a: real, e: real)
    ensures Square(a - e) == Square(a) - 2.0 * (a * e) + Square(e)
  {}

  lemma SquareOfMore(b: real, e: real)
    ensures Square(b + e) == Square(b) + 2.0 * (b * e) + Square(e)
  {}

  lemma ProductSplit(e: real, a: real, b: real, x: real)
    requires x == b - a + e
    ensures e * x == b * e - a * e + Square(e)
  {}

  lemma HalfAtLeast(e: real, x: real)
    requires e >= 0.0 && x >= 0.5
    ensures e * x >= e / 2.0
  {
    TimesAtMost(e, 0.5, x);
  }

  lemma TimesAtMost(e: real, y: real, x: real)
    requires e >= 0.0 && y <= x
    ensures e * y <= e * x
  {}

  ghost predicate Apart(d: seq<real>, g: real) {
    forall i, k {:trigger d[i], d[k]} | 0 <= i < |d| && 0 <= k < |d| && i != k :: d[i] - d[k] >= g || d[k] - d[i] >= g
  }

  /** As long as two lanes are less than g apart they can be spread; room says how often at
      most, as the squares are bounded. */
  lemma {:induction false} Spread(n: nat, run: seq<Decision>, g: real, room: nat) returns (longer: seq<Decision>)
    requires PlainRun(n, run, 1) && ByteWise(run) && n > 0 && 0.0 < g < 1.0
    requires Times(n, Square(MaxAway(n, 1.0))) < SumSquares(Deficits(n, run)) + Times(room, (1.0 - g) / 2.0)
    ensures PlainRun(n, longer, 1) && ByteWise(longer) && Apart(Deficits(n, longer), g)
    decreases room
  {
    var d := Deficits(n, run);
    if Apart(d, g) {
      longer := run;
    } else {
      SquaresRoom(n, run);
      var i, k, e := ClosePair(d, g);
      MovedGrows(d, i, k, e);
      var next := Level(n, run, i, k, e);
      longer := Spread(n, next, g, room - 1);
    }
  }

  lemma SquaresRoom(n: nat, run: seq<Decision>)
    requires PlainRun(n, run, 1) && n > 0
    ensures SumSquares(Deficits(n, run)) <= Times(n, Square(MaxAway(n, 1.0)))
  {
    forall i | 0 <= i < n
      ensures -MaxAway(n, 1.0) <= Deficits(n, run)[i] <= MaxAway(n, 1.0)
    {
      AnyWeightsBound(n, run, 1, i);
      DeficitIsDueMinusSent(n, run, i);
    }
    SquaresBounded(Deficits(n, run), MaxAway(n, 1.0));
  }

  lemma ClosePair(d: seq<real>, g: real) returns (i: nat, k: nat, e: real)
    requires !Apart(d, g) && g < 1.0
    ensures i < |d| && k < |d| && i != k && (e == 0.5 ==> i < k)
    ensures (1.0 - g) / 2.0 < e <= 0.5 && d[k] - d[i] == 1.0 - e - e
  {
    var a, b :| 0 <= a < |d| && 0 <= b < |d| && a != b && !(d[a] - d[b] >= g || d[b] - d[a] >= g);
    if d[a] < d[b] || (d[a] == d[b] && a < b) {
      i, k := a, b;
    } else {
      i, k := b, a;
    }
    e := (1.0 - d[k] + d[i]) / 2.0;
  }

  /** 0 + g + 2 * g + ... + (k - 1) * g */
  function Stairs(k: nat, g: real): real {
    if k == 0 then 0.0 else Stairs(k - 1, g) + Times(k - 1, g)
  }

  /** k times the last stair is twice the staircase. */
  lemma {:induction false} StairsIs(k: nat, g: real)
    requires k > 0
    ensures Stairs(k, g) + Stairs(k, g) == Times(k, Times(k - 1, g))
  {
    if k == 1 {
      assert Times(1, 0.0) == Times(0, 0.0) + 0.0;
    } else {
      StairsIs(k - 1, g);
      TimesAdds(k, Times(k - 2, g), g);
    }
  }

  lemma {:induction false} TopOf(d: seq<real>, s: set<nat>) returns (t: nat)
    requires s <= Below(|d|) && s != {}
    ensures t in s && forall i | i in s :: d[i] <= d[t]
  {
    t :| t in s;
    var rest := s - {t};
    if rest != {} {
      var u := TopOf(d, rest);
      if d[u] > d[t] {
        t := u;
      }
    }
  }

  /** The top of lanes that are g apart is above them all by a staircase. */
  lemma {:induction false} TopIsHigh(d: seq<real>, s: set<nat>, g: real) returns (t: nat)
    requires Apart(d, g) && g > 0.0 && s <= Below(|d|) && s != {}
    ensures t in s && (forall i | i in s :: d[i] <= d[t]) && SumOn(d, s) + Stairs(|s|, g) <= Times(|s|, d[t])
    decreases |s|
  {
    t := TopOf(d, s);
    var rest := s - {t};
    assert rest + {t} == s;
    SumOnInsert(d, t, rest);
    if rest == {} {
      SumOnEmpty(d);
    } else {
      var u := TopIsHigh(d, rest, g);
      BelowTop(d, g, u, t);
      NextTop(|rest|, d[t], d[u], g);
    }
  }

  lemma BelowTop(d: seq<real>, g: real, u: nat, t: nat)
    requires Apart(d, g) && g > 0.0 && u < |d| && t < |d| && u != t && d[u] <= d[t]
    ensures d[u] <= d[t] - g
  {}

  lemma NextTop(m: nat, top: real, u: real, g: real)
    requires u <= top - g
    ensures Times(m, u) <= Times(m, top) - Times(m, g)
  {
    TimesMonotone(m, u, top - g);
    TimesAdds(m, top - g, g);
  }

  lemma TopAndStairs(d: seq<real>, g: real) returns (t: nat)
    requires d != [] && Apart(d, g) && g > 0.0 && RealSum(d) == 0.0
    ensures t < |d| && Stairs(|d|, g) <= Times(|d|, d[t])
  {
    SumOnAll(d);
    t := TopIsHigh(d, Below(|d|), g);
  }

  lemma TopOfBalanced(d: seq<real>, g: real) returns (t: nat)
    requires d != [] && Apart(d, g) && g > 0.0 && RealSum(d) == 0.0
    ensures t < |d| && d[t] + d[t] >= Times(|d| - 1, g)
  {
    t := TopAndStairs(d, g);
    HalfStairs(|d|, g, d[t]);
  }

  lemma HalfStairs(n: nat, g: real, x: real)
    requires n > 0 && Stairs(n, g) <= Times(n, x)
    ensures x + x >= Times(n - 1, g)
  {
    StairsIs(n, g);
    TimesAdds(n, x, x);
    if x + x < Times(n - 1, g) {
      TimesStrict(n, x + x, Times(n - 1, g));
    }
  }

  function Negated(d: seq<real>): seq<real> {
    seq(|d|, i requires 0 <= i < |d| => -d[i])
  }

  lemma {:induction false} SumOfNegated(d: seq<real>)
    ensures RealSum(Negated(d)) == -RealSum(d)
    decreases |d|
  {
    if d != [] {
      SumOfNegated(d[..|d| - 1]);
      assert Negated(d)[..|d| - 1] == Negated(d[..|d| - 1]);
    }
  }

  lemma BottomOfBalanced(d: seq<real>, g: real) returns (t: nat)
    requires d != [] && Apart(d, g) && g > 0.0 && RealSum(d) == 0.0
    ensures t < |d| && -d[t] - d[t] >= Times(|d| - 1, g)
  {
    SumOfNegated(d);
    t := TopOfBalanced(Negated(d), g);
  }

  lemma EnoughRoom(x: real, g: real) returns (room: nat)
    requires g > 0.0
    ensures x < Times(room, g)
  {
    if x < 0.0 {
      room := 0;
    } else {
      room := (x / g).Floor + 1;
      TimesIsProduct(room, g);
      assert x == (x / g) * g;
      assert room as real * g > (x / g) * g;
    }
  }

  /** Lanes at least g bytes apart, in a run of single bytes. */
  lemma SpreadOut(n: nat, g: real) returns (run: seq<Decision>)
    requires n > 0 && 0.0 < g < 1.0
    ensures PlainRun(n, run, 1) && ByteWise(run) && Apart(Deficits(n, run), g)
  {
    var room := EnoughRoom(Times(n, Square(MaxAway(n, 1.0))), (1.0 - g) / 2.0);
    SumOfZeros(Square, n);
    run := Spread(n, [], g, room);
  }

  /** No smaller bound holds for all runs: some run with chunks of at most cap bytes takes
      one lane as close below the bound as one likes, and another as close above its
      negative. */
  lemma BoundIsTight(n: nat, cap: nat, eps: real) returns (run: seq<Decision>, i: nat, k: nat)
    requires n > 0 && cap >= 1 && eps > 0.0
    ensures PlainRun(n, run, cap) && i < n && k < n
    ensures Due(run, i) - Sent(run, i) as real > MaxAway(n, cap as real) - eps
    ensures Due(run, k) - Sent(run, k) as real < -MaxAway(n, cap as real) + eps
  {
    var small := Tiny(n, cap, eps);
    var bytes;
    bytes, i, k := FarApart(n, 1.0 - small);
    run := Scaled(bytes, cap);
    ScaledLane(n, bytes, cap, i);
    ScaledLane(n, bytes, cap, k);
    FarEnough(n, cap, eps, small, Deficits(n, bytes)[i]);
    FarEnough(n, cap, eps, small, -Deficits(n, bytes)[k]);
    TimesNegated(cap, Deficits(n, bytes)[k]);
  }

  lemma FarApart(n: nat, g: real) returns (run: seq<Decision>, i: nat, k: nat)
    requires n > 0 && 0.0 < g < 1.0
    ensures PlainRun(n, run, 1) && ByteWise(run) && i < n && k < n
    ensures Deficits(n, run)[i] + Deficits(n, run)[i] >= Times(n - 1, g)
    ensures -Deficits(n, run)[k] - Deficits(n, run)[k] >= Times(n - 1, g)
  {
    run := SpreadOut(n, g);
    DeficitsSumToZero(n, run);
    i := TopOfBalanced(Deficits(n, run), g);
    k := BottomOfBalanced(Deficits(n, run), g);
  }

  lemma ScaledLane(n: nat, run: seq<Decision>, cap: nat, i: nat)
    requires PlainRun(n, run, 1) && ByteWise(run) && cap >= 1 && i < n
    ensures PlainRun(n, Scaled(run, cap), cap)
    ensures Due(Scaled(run, cap), i) - Sent(Scaled(run, cap), i) as real == Times(cap, Deficits(n, run)[i])
  {
    ScaledRun(n, run, cap);
    DeficitIsDueMinusSent(n, Scaled(run, cap), i);
  }

  lemma Tiny(n: nat, cap: nat, eps: real) returns (small: real)
    requires n > 0 && cap >= 1 && eps > 0.0
    ensures 0.0 < small < 1.0 && Times(cap, Times(n - 1, small)) <= eps
  {
    small := SmallPart((cap * n) as real, eps);
    TimesIsProduct(n - 1, small);
    TimesIsProduct(cap, Times(n - 1, small));
    assert (cap * n) as real == cap as real * n as real;
    ProductBelow(cap as real, n as real, (n - 1) as real, small);
  }

  lemma SmallPart(q: real, eps: real) returns (small: real)
    requires q >= 1.0 && eps > 0.0
    ensures 0.0 < small < 1.0 && q * small <= eps
  {
    if eps < q {
      small := eps / q;
      assert q * (eps / q) == eps;
    } else {
      small := 0.5;
    }
  }

  lemma ProductBelow(cap: real, n: real, m: real, small: real)
    requires cap >= 0.0 && m <= n && small >= 0.0
    ensures cap * (m * small) <= (cap * n) * small
  {
    assert (n - m) * small >= 0.0;
    assert cap * ((n - m) * small) >= 0.0;
  }

  lemma {:induction false} TimesNegated(m: nat, x: real)
    ensures Times(m, -x) == -Times(m, x)
  {
    if m > 0 {
      TimesNegated(m - 1, x);
    }
  }

  lemma FarEnough(n: nat, cap: nat, eps: real, small: real, x: real)
    requires n > 0 && cap >= 1 && eps > 0.0
    requires Times(cap, Times(n - 1, small)) <= eps && x + x >= Times(n - 1, 1.0 - small)
    ensures Times(cap, x) > MaxAway(n, cap as real) - eps
  {
    var all, lost := Times(n - 1, 1.0), Times(n - 1, small);
    TimesAdds(n - 1, 1.0 - small, small);
    TimesAdds(cap, all - lost, lost);
    TimesAdds(cap, x, x);
    TimesMonotone(cap, all - lost, x + x);
    AllIsTwice(n, cap);
  }

  lemma AllIsTwice(n: nat, cap: nat)
    requires n > 0
    ensures Times(cap, Times(n - 1, 1.0)) == MaxAway(n, cap as real) + MaxAway(n, cap as real)
  {
    TimesIsProduct(n - 1, 1.0);
    TimesIsProduct(cap, Times(n - 1, 1.0));
  }
}
