/** Lanes of weight zero are passed over by the greedy scan. With three lanes or more
    this breaks the harmonic bound; with two it does not. */
module ZeroWeights {
  import opened LaneFairness
  import opened LaneScheduler
  import opened Sequences

  /** No probe, at most cap bytes, and no negative weight. */
  ghost predicate Plain(d: Decision, cap: nat) {
    !d.probe && d.chunk <= cap && forall i | 0 <= i < |d.weights| :: d.weights[i] >= 0.0
  }

  ghost predicate PlainRun(n: nat, run: seq<Decision>, cap: nat) {
    WellFormed(n, run) && Greedy(n, run) && forall k | 0 <= k < |run| :: Plain(run[k], cap)
  }

  /** What PoolIsFair says, for runs in which weights may be zero. */
  ghost predicate AlwaysFair(n: nat, cap: nat) {
    forall run, i: nat | PlainRun(n, run, cap) && i < n ::
      -MaxLead(n, cap as real) <= Due(run, i) - Sent(run, i) as real <= MaxLag(n, cap as real)
  }

  /** The bounds hold for all runs with weights that are not negative exactly when there
      are at most two lanes, or nothing to send. */
  lemma FairExactlyForTwo(n: nat, cap: nat)
    ensures AlwaysFair(n, cap) <==> n <= 2 || cap == 0
  {
    if n <= 2 || cap == 0 {
      forall run, i: nat | PlainRun(n, run, cap) && i < n
        ensures -MaxLead(n, cap as real) <= Due(run, i) - Sent(run, i) as real <= MaxLag(n, cap as real)
      {
        DeficitIsDueMinusSent(n, run, i);
        if cap == 0 {
          NothingSent(n, run);
        } else {
          var kept := WithoutIdle(n, run, cap);
          PoolIsFair(n, kept, cap, i);
          DeficitIsDueMinusSent(n, kept, i);
        }
      }
    } else {
      var run := ZeroWeightBreaksFairness(n, cap);
    }
  }

  lemma {:induction false} NothingSent(n: nat, run: seq<Decision>)
    requires PlainRun(n, run, 0)
    ensures Deficits(n, run) == Zeros(n)
  {
    if run != [] {
      var before, last := run[..|run| - 1], run[|run| - 1];
      NothingSent(n, before);
      assert Plain(last, 0);
      NothingGained(last.weights, last.lane);
    }
  }

  lemma NothingGained(weights: seq<real>, lane: nat)
    requires RealSum(weights) > 0.0 && lane < |weights|
    ensures Settle(Zeros(|weights|), weights, 0, lane) == Zeros(|weights|)
  {
    assert forall i | 0 <= i < |weights| :: Shares(weights, 0)[i] == 0.0;
  }

  // ---------------------------------------------------------------- two lanes

  /** With one lane of two weighted, that lane is due the whole chunk and gets it. */
  lemma IdleStep(d: seq<real>, weights: seq<real>, chunk: nat, lane: nat)
    requires |d| == |weights| == 2 && RealSum(weights) > 0.0
    requires lane < 2 && weights[1 - lane] == 0.0
    ensures Settle(d, weights, chunk, lane) == d
  {
    IdleShares(weights, chunk, lane);
    var f := Shares(weights, chunk);
    assert f[lane] == chunk as real && f[1 - lane] == 0.0;
    assert Plus(d, f)[lane] == d[lane] + chunk as real && Plus(d, f)[1 - lane] == d[1 - lane];
  }

  lemma IdleShares(weights: seq<real>, chunk: nat, lane: nat)
    requires |weights| == 2 && RealSum(weights) > 0.0
    requires lane < 2 && weights[1 - lane] == 0.0
    ensures Shares(weights, chunk)[lane] == chunk as real && Shares(weights, chunk)[1 - lane] == 0.0
  {
    SumOfTwo(Shares(weights, chunk));
    SharesSumToChunk(weights, chunk);
    NoShare(RealSum(weights), chunk);
  }

  lemma NoShare(total: real, chunk: nat)
    requires total > 0.0
    ensures Share(0.0, total, chunk) == 0.0
  {}

  lemma IdleWeights(weights: seq<real>, lane: nat)
    requires |weights| <= 2 && lane < |weights| && weights[lane] > 0.0
    requires forall i | 0 <= i < |weights| :: weights[i] >= 0.0
    requires exists i :: 0 <= i < |weights| && weights[i] == 0.0
    ensures |weights| == 2 && weights[1 - lane] == 0.0
  {}

  lemma SumOfTwo(w: seq<real>)
    requires |w| == 2
    ensures RealSum(w) == w[0] + w[1]
  {
    assert w[..1][..0] == [];
    assert RealSum(w[..1]) == w[0];
  }

  /** With at most two lanes the decisions that leave a lane out change no deficit. */
  lemma {:induction false} WithoutIdle(n: nat, run: seq<Decision>, cap: nat) returns (kept: seq<Decision>)
    requires n <= 2 && PlainRun(n, run, cap)
    ensures WellFormed(n, kept) && Greedy(n, kept) && AllLanesWeighted(kept, cap)
    ensures Deficits(n, kept) == Deficits(n, run)
  {
    kept := [];
    if run != [] {
      var before, last := run[..|run| - 1], run[|run| - 1];
      var front := WithoutIdle(n, before, cap);
      assert Plain(last, cap);
      if forall i | 0 <= i < n :: last.weights[i] > 0.0 {
        kept := front + [last];
        OneMoreWeighted(n, front, last, cap);
      } else {
        kept := front;
        IdleWeights(last.weights, last.lane);
        IdleStep(Deficits(n, before), last.weights, last.chunk, last.lane);
      }
    }
  }

  lemma OneMoreWeighted(n: nat, run: seq<Decision>, next: Decision, cap: nat)
    requires WellFormed(n, run) && Greedy(n, run) && AllLanesWeighted(run, cap)
    requires |next.weights| == n && next.lane < n && RealSum(next.weights) > 0.0 && Plain(next, cap)
    requires forall i | 0 <= i < n :: next.weights[i] > 0.0
    requires IsBest(Plus(Deficits(n, run), Shares(next.weights, next.chunk)), next.weights, next.lane)
    ensures WellFormed(n, run + [next]) && Greedy(n, run + [next]) && AllLanesWeighted(run + [next], cap)
    ensures Deficits(n, run + [next]) == Settle(Deficits(n, run), next.weights, next.chunk, next.lane)
  {
    var longer := Extend(n, run, next, Plus(Deficits(n, run), Shares(next.weights, next.chunk)));
    WeightedAppend(run, next, cap);
  }

  lemma WeightedAppend(run: seq<Decision>, next: Decision, cap: nat)
    requires AllLanesWeighted(run, cap) && Plain(next, cap)
    requires forall i | 0 <= i < |next.weights| :: next.weights[i] > 0.0
    ensures AllLanesWeighted(run + [next], cap)
  {}

  // -------------------------------------------------------- three lanes or more

  /** Lane i gets the fraction x and lane k the fraction y. */
  ghost function TwoWeights(n: nat, i: nat, x: real, k: nat, y: real): seq<real>
    requires i < n && k < n && i != k
  {
    Zeros(n)[i := x][k := y]
  }

  lemma SumOfPair(n: nat, i: nat, x: real, k: nat, y: real)
    requires i < n && k < n && i != k
    ensures RealSum(TwoWeights(n, i, x, k, y)) == x + y
  {
    var all := Below(n);
    SumOnZeros(n, all);
    SumOnUpdate(Zeros(n), i, x, all);
    SumOnUpdate(Zeros(n)[i := x], k, y, all);
    SumOnAll(TwoWeights(n, i, x, k, y));
  }

  /** The last k lanes get the fraction x each. */
  ghost function Tail(n: nat, k: nat, x: real): seq<real>
    requires k <= n
  {
    seq(n, j requires 0 <= j < n => if j >= n - k then x else 0.0)
  }

  lemma {:induction false} SumOfTail(n: nat, k: nat, x: real)
    requires k <= n
    ensures RealSum(Tail(n, k, x)) == Times(k, x)
    decreases n
  {
    if n > 0 {
      var front := if k == 0 then 0 else k - 1;
      assert Tail(n, k, x)[..n - 1] == Tail(n - 1, front, x);
      SumOfTail(n - 1, front, x);
    }
  }

  /** The deficits after the chunks of one byte for the last n, n - 1, ..., k + 1 lanes:
      every round charges the first of them. */
  ghost function Climbed(n: nat, k: nat): seq<real>
    requires k <= n
  {
    seq(n, j requires 0 <= j < n =>
      if j >= n - k then Harmonic(n) - Harmonic(k) else Harmonic(n) - Harmonic(n - 1 - j) - 1.0)
  }

  lemma UnitShares(weights: seq<real>)
    requires RealSum(weights) == 1.0
    ensures Shares(weights, 1) == weights
  {}

  /** Every chunk is one byte. */
  ghost predicate ByteWise(run: seq<Decision>) {
    forall k | 0 <= k < |run| :: run[k].chunk == 1
  }

  lemma OneMorePlain(n: nat, run: seq<Decision>, next: Decision, cap: nat)
    requires PlainRun(n, run, cap) && Plain(next, cap)
    requires |next.weights| == n && next.lane < n && RealSum(next.weights) > 0.0
    requires IsBest(Plus(Deficits(n, run), Shares(next.weights, next.chunk)), next.weights, next.lane)
    ensures PlainRun(n, run + [next], cap)
    ensures Deficits(n, run + [next]) == Settle(Deficits(n, run), next.weights, next.chunk, next.lane)
  {
    var longer := Extend(n, run, next, Plus(Deficits(n, run), Shares(next.weights, next.chunk)));
    assert forall k | 0 <= k < |run| :: Plain(run[k], cap) && longer[k] == run[k];
  }

  /** One more decision, on a chunk of one byte with weights that add up to 1. */
  lemma Decide(n: nat, run: seq<Decision>, weights: seq<real>, lane: nat) returns (longer: seq<Decision>)
    requires PlainRun(n, run, 1) && ByteWise(run) && |weights| == n && RealSum(weights) == 1.0
    requires forall i | 0 <= i < n :: weights[i] >= 0.0
    requires lane < n && IsBest(Plus(Deficits(n, run), weights), weights, lane)
    ensures PlainRun(n, longer, 1) && ByteWise(longer)
    ensures Deficits(n, longer) == Pay(Plus(Deficits(n, run), weights), 1.0, lane)
  {
    UnitShares(weights);
    OneMorePlain(n, run, Decision(weights, 1, false, lane), 1);
    longer := run + [Decision(weights, 1, false, lane)];
  }

  lemma ClimbStep(n: nat, k: nat, x: real)
    requires 1 <= k < n && x > 0.0 && Harmonic(k + 1) == Harmonic(k) + x
    ensures IsBest(Plus(Climbed(n, k + 1), Tail(n, k + 1, x)), Tail(n, k + 1, x), n - k - 1)
    ensures Pay(Plus(Climbed(n, k + 1), Tail(n, k + 1, x)), 1.0, n - k - 1) == Climbed(n, k)
  {
    var lane := n - k - 1;
    var p := Plus(Climbed(n, k + 1), Tail(n, k + 1, x));
    assert forall i | lane <= i < n :: p[i] == Harmonic(n) - Harmonic(k);
    forall i | 0 <= i < n
      ensures Pay(p, 1.0, lane)[i] == Climbed(n, k)[i]
    {}
  }

  lemma {:induction false} Climb(n: nat, k: nat) returns (run: seq<Decision>)
    requires 1 <= k <= n
    ensures PlainRun(n, run, 1) && ByteWise(run) && Deficits(n, run) == Climbed(n, k)
    decreases n - k
  {
    if k == n {
      run := [];
      assert Zeros(n) == Climbed(n, n);
    } else {
      var before := Climb(n, k + 1);
      var x := 1.0 / (k + 1) as real;
      SumOfTail(n, k + 1, x);
      TimesIsProduct(k + 1, x);
      ClimbStep(n, k, x);
      run := Decide(n, before, Tail(n, k + 1, x), n - k - 1);
    }
  }

  /** The two decisions that follow the climb: the second last lane is brought level with
      the last one, which then gets a little more and is passed over. */
  lemma Overrun(n: nat) returns (run: seq<Decision>)
    requires n >= 3
    ensures PlainRun(n, run, 1) && ByteWise(run) && Deficits(n, run)[n - 1] == MaxLag(n, 1.0) + 0.125
  {
    run := Climb(n, 1);
    FirstHarmonics();
    run := Level(n, run, n - 3, n - 2, 0.25);
    run := Level(n, run, n - 2, n - 1, 0.125);
  }

  /** A decision between two lanes less than a byte apart, with the weights that bring them
      level: the first, which has the larger weight, is charged, and they end up exactly a
      byte apart. */
  lemma Level(n: nat, run: seq<Decision>, i: nat, k: nat, e: real) returns (longer: seq<Decision>)
    requires PlainRun(n, run, 1) && ByteWise(run) && i < n && k < n && i != k
    requires 0.0 < e <= 0.5 && (e == 0.5 ==> i < k)
    requires Deficits(n, run)[k] - Deficits(n, run)[i] == 1.0 - e - e
    ensures PlainRun(n, longer, 1) && ByteWise(longer)
    ensures Deficits(n, longer) == Moved(Deficits(n, run), i, k, e)
  {
    var d := Deficits(n, run);
    SumOfPair(n, i, 1.0 - e, k, e);
    TwoIsBest(d, i, 1.0 - e, k, e);
    longer := Decide(n, run, TwoWeights(n, i, 1.0 - e, k, e), i);
  }

  ghost function Moved(d: seq<real>, i: nat, k: nat, e: real): seq<real>
    requires i < |d| && k < |d|
  {
    d[i := d[i] - e][k := d[k] + e]
  }

  lemma TwoIsBest(d: seq<real>, i: nat, x: real, k: nat, y: real)
    requires i < |d| && k < |d| && i != k && 0.0 < y <= x && (x == y ==> i < k) && x + y == 1.0
    requires d[i] + x == d[k] + y
    ensures IsBest(Plus(d, TwoWeights(|d|, i, x, k, y)), TwoWeights(|d|, i, x, k, y), i)
    ensures Pay(Plus(d, TwoWeights(|d|, i, x, k, y)), 1.0, i) == Moved(d, i, k, y)
  {}

  lemma FirstHarmonics()
    ensures Harmonic(1) == 1.0 && Harmonic(2) == 1.5
  {
    assert Harmonic(1) == Harmonic(0) + 1.0;
    assert Harmonic(2) == Harmonic(1) + 1.0 / 2.0;
  }

  /** A zero weight takes a lane out of the scan, and then the bound fails: for any three
      lanes or more and any chunk size there is a run of such chunks after which the last
      lane lags an eighth of a chunk more than the bound allows. */
  lemma ZeroWeightBreaksFairness(n: nat, cap: nat) returns (run: seq<Decision>)
    requires n >= 3 && cap >= 1
    ensures PlainRun(n, run, cap)
    ensures Due(run, n - 1) - Sent(run, n - 1) as real == MaxLag(n, cap as real) + cap as real / 8.0
    ensures Due(run, n - 1) - Sent(run, n - 1) as real > MaxLag(n, cap as real)
  {
    var small := Overrun(n);
    run := Scaled(small, cap);
    ScaledRun(n, small, cap);
    DeficitIsDueMinusSent(n, run, n - 1);
    Eighth(n, cap);
  }

  lemma Eighth(n: nat, cap: nat)
    ensures Times(cap, MaxLag(n, 1.0) + 0.125) == MaxLag(n, cap as real) + cap as real / 8.0
  {
    TimesIsProduct(cap, MaxLag(n, 1.0) + 0.125);
    assert MaxLag(n, 1.0) == Harmonic(n) - 1.0;
    Distribute(Harmonic(n) - 1.0, 0.125, cap as real);
  }

  // ------------------------------------------------------------------ scaling

  /** The run with chunks of cap bytes. */
  ghost function Scaled(run: seq<Decision>, cap: nat): seq<Decision> {
    seq(|run|, k requires 0 <= k < |run| => run[k].(chunk := cap))
  }

  ghost predicate IsScaled(d: seq<real>, e: seq<real>, cap: nat) {
    |d| == |e| && forall i | 0 <= i < |d| :: e[i] == Times(cap, d[i])
  }

  lemma ScaledShares(weights: seq<real>, cap: nat)
    requires RealSum(weights) > 0.0
    ensures IsScaled(Shares(weights, 1), Shares(weights, cap), cap)
  {
    forall i | 0 <= i < |weights|
      ensures Share(weights[i], RealSum(weights), cap) == Times(cap, Share(weights[i], RealSum(weights), 1))
    {
      TimesIsProduct(cap, weights[i] / RealSum(weights));
    }
  }

  lemma ScaledPlus(d: seq<real>, f: seq<real>, e: seq<real>, g: seq<real>, cap: nat)
    requires IsScaled(d, e, cap) && IsScaled(f, g, cap) && |d| == |f|
    ensures IsScaled(Plus(d, f), Plus(e, g), cap)
  {
    forall i | 0 <= i < |d|
      ensures Plus(e, g)[i] == Times(cap, Plus(d, f)[i])
    {
      TimesAdds(cap, d[i], f[i]);
    }
  }

  lemma ScaledPay(p: seq<real>, q: seq<real>, lane: nat, cap: nat)
    requires IsScaled(p, q, cap) && lane < |p|
    ensures IsScaled(Pay(p, 1.0, lane), Pay(q, cap as real, lane), cap)
  {
    TimesAdds(cap, p[lane], -1.0);
    TimesIsProduct(cap, -1.0);
  }

  lemma ScaledBest(p: seq<real>, q: seq<real>, weights: seq<real>, lane: nat, cap: nat)
    requires IsScaled(p, q, cap) && cap >= 1 && |p| == |weights| && IsBest(p, weights, lane)
    ensures IsBest(q, weights, lane)
  {
    forall i | 0 <= i < |p| && p[i] < p[lane]
      ensures q[i] < q[lane]
    {
      TimesStrict(cap, p[i], p[lane]);
    }
  }

  /** A decision on a scaled position with a scaled chunk scales the outcome. */
  lemma ScaledDecision(d: seq<real>, e: seq<real>, weights: seq<real>, lane: nat, cap: nat)
    requires IsScaled(d, e, cap) && |d| == |weights| && RealSum(weights) > 0.0 && cap >= 1
    requires IsBest(Plus(d, Shares(weights, 1)), weights, lane)
    ensures IsBest(Plus(e, Shares(weights, cap)), weights, lane)
    ensures IsScaled(Settle(d, weights, 1, lane), Settle(e, weights, cap, lane), cap)
  {
    var p, q := Plus(d, Shares(weights, 1)), Plus(e, Shares(weights, cap));
    ScaledShares(weights, cap);
    ScaledPlus(d, Shares(weights, 1), e, Shares(weights, cap), cap);
    ScaledBest(p, q, weights, lane, cap);
    ScaledPay(p, q, lane, cap);
  }

  lemma {:induction false} ScaledRun(n: nat, run: seq<Decision>, cap: nat)
    requires PlainRun(n, run, 1) && ByteWise(run) && cap >= 1
    ensures PlainRun(n, Scaled(run, cap), cap)
    ensures IsScaled(Deficits(n, run), Deficits(n, Scaled(run, cap)), cap)
  {
    if run == [] {
      TimesZero(cap);
    } else {
      var before, last := run[..|run| - 1], run[|run| - 1];
      ScaledRun(n, before, cap);
      assert Plain(last, 1);
      ScaledDecision(Deficits(n, before), Deficits(n, Scaled(before, cap)), last.weights, last.lane, cap);
      ScaledAppend(n, run, cap);
    }
  }

  lemma ScaledAppend(n: nat, run: seq<Decision>, cap: nat)
    requires run != [] && WellFormed(n, run) && PlainRun(n, Scaled(run[..|run| - 1], cap), cap)
    requires var last := run[|run| - 1];
      && Plain(last, 1)
      && IsBest(Plus(Deficits(n, Scaled(run[..|run| - 1], cap)), Shares(last.weights, cap)), last.weights, last.lane)
    ensures PlainRun(n, Scaled(run, cap), cap)
    ensures var last := run[|run| - 1];
      Deficits(n, Scaled(run, cap)) == Settle(Deficits(n, Scaled(run[..|run| - 1], cap)), last.weights, cap, last.lane)
  {
    var before, big := run[..|run| - 1], run[|run| - 1].(chunk := cap);
    assert Scaled(run, cap) == Scaled(before, cap) + [big];
    OneMorePlain(n, Scaled(before, cap), big, cap);
  }
}
