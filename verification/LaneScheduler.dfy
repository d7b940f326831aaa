/** Lane selection of the traffic scheduler: the deficit counters of the
    persistent queue-pair pool and the byte counters of the sub-flow mode. */
module LaneScheduler {
  import opened LaneFairness
  import opened Sequences

  datatype Signal = Signal(weights: seq<real>, isProbe: bool, probeLane: nat)

  /** One call of SelectLane for a fixed ToR pair, with the lane it returned. */
  datatype Decision = Decision(weights: seq<real>, chunk: nat, probe: bool, lane: nat)

  type Pair = (nat, nat)

  // ------------------------------------------------------- runs of decisions

  ghost predicate WellFormed(n: nat, run: seq<Decision>) {
    forall k | 0 <= k < |run| ::
      |run[k].weights| == n && run[k].lane < n && RealSum(run[k].weights) > 0.0
  }

  /** The deficit vector after a run from zero. */
  ghost function Deficits(n: nat, run: seq<Decision>): (d: seq<real>)
    requires WellFormed(n, run)
    ensures |d| == n
  {
    if run == [] then Zeros(n)
    else
      var last := run[|run| - 1];
      Settle(Deficits(n, run[..|run| - 1]), last.weights, last.chunk, last.lane)
  }

  /** Every decision that was not a probe charged the best lane. */
  ghost predicate Greedy(n: nat, run: seq<Decision>)
    requires WellFormed(n, run)
  {
    run == [] ||
    var before, last := run[..|run| - 1], run[|run| - 1];
    && Greedy(n, before)
    && (!last.probe ==>
          IsBest(Plus(Deficits(n, before), Shares(last.weights, last.chunk)), last.weights, last.lane))
  }

  /** The weighted share of all bytes that lane i was due. */
  ghost function Due(run: seq<Decision>, i: nat): real
    requires forall k | 0 <= k < |run| :: i < |run[k].weights| && RealSum(run[k].weights) > 0.0
  {
    if run == [] then 0.0
    else
      var last := run[|run| - 1];
      Due(run[..|run| - 1], i) + Share(last.weights[i], RealSum(last.weights), last.chunk)
  }

  /** The bytes lane i was sent. */
  ghost function Sent(run: seq<Decision>, i: nat): nat {
    if run == [] then 0
    else
      var last := run[|run| - 1];
      Sent(run[..|run| - 1], i) + if last.lane == i then last.chunk else 0
  }

  lemma DeficitIsDueMinusSent(n: nat, run: seq<Decision>, i: nat)
    requires WellFormed(n, run) && i < n
    ensures Deficits(n, run)[i] == Due(run, i) - Sent(run, i) as real
  {
    if run != [] {
      DeficitIsDueMinusSent(n, run[..|run| - 1], i);
    }
  }

  /** The run as moves of the deficit game. */
  ghost function Moves(run: seq<Decision>): (moves: seq<Move>)
    requires forall k | 0 <= k < |run| :: RealSum(run[k].weights) > 0.0
    ensures |moves| == |run|
  {
    seq(|run|, k requires 0 <= k < |run| =>
      Move(Shares(run[k].weights, run[k].chunk), run[k].chunk as real, run[k].lane))
  }

  lemma DeficitsArePosition(n: nat, run: seq<Decision>)
    requires WellFormed(n, run)
    ensures Playable(n, Moves(run))
    ensures Position(n, Moves(run)) == Deficits(n, run)
  {
    forall k | 0 <= k < |run|
      ensures RealSum(Moves(run)[k].gain) == Moves(run)[k].cost
    {
      SharesSumToChunk(run[k].weights, run[k].chunk);
    }
    if run != [] {
      var before, last := run[..|run| - 1], run[|run| - 1];
      DeficitsArePosition(n, before);
      MovesOfMore(run);
      var move := Moves(run)[|run| - 1];
      assert move == Move(Shares(last.weights, last.chunk), last.chunk as real, last.lane);
      assert Position(n, Moves(run)) == Pay(Plus(Position(n, Moves(before)), move.gain), move.cost, move.lane);
    }
  }

  lemma MovesOfMore(run: seq<Decision>)
    requires run != [] && forall k | 0 <= k < |run| :: RealSum(run[k].weights) > 0.0
    ensures Moves(run)[..|run| - 1] == Moves(run[..|run| - 1])
  {}

  /** Conservation, with probes and zero weights allowed. */
  lemma DeficitsSumToZero(n: nat, run: seq<Decision>)
    requires WellFormed(n, run)
    ensures RealSum(Deficits(n, run)) == 0.0
  {
    DeficitsArePosition(n, run);
    PositionSumsToZero(n, Moves(run));
  }

  ghost predicate AllLanesWeighted(run: seq<Decision>, cap: nat) {
    forall k | 0 <= k < |run| ::
      && !run[k].probe && run[k].chunk <= cap
      && forall i | 0 <= i < |run[k].weights| :: run[k].weights[i] > 0.0
  }

  lemma MovesAreGreedy(n: nat, run: seq<Decision>, cap: nat)
    requires WellFormed(n, run) && Greedy(n, run) && AllLanesWeighted(run, cap)
    requires Playable(n, Moves(run))
    ensures GreedyMoves(n, Moves(run), cap as real)
  {
    if run != [] {
      var before, last := run[..|run| - 1], run[|run| - 1];
      assert Moves(run)[..|run| - 1] == Moves(before);
      MovesAreGreedy(n, before, cap);
      DeficitsArePosition(n, before);
      BestIsGreedyStep(Deficits(n, before), last.weights, last.chunk, last.lane);
    }
  }

  /** Fairness of the persistent pool over every run: a lane lags its weighted
      share by at most cap * (1/2 + 1/3 + ... + 1/n) bytes and leads it by at
      most cap * (1 - 1/n) bytes, however the positive weights change. */
  lemma PoolIsFair(n: nat, run: seq<Decision>, cap: nat, i: nat)
    requires WellFormed(n, run) && Greedy(n, run) && AllLanesWeighted(run, cap) && i < n
    ensures -MaxLead(n, cap as real) <= Due(run, i) - Sent(run, i) as real <= MaxLag(n, cap as real)
  {
    DeficitsArePosition(n, run);
    MovesAreGreedy(n, run, cap);
    GreedyBounds(n, Moves(run), cap as real, i);
    DeficitIsDueMinusSent(n, run, i);
  }

  lemma Extend(n: nat, run: seq<Decision>, next: Decision, credited: seq<real>)
    returns (longer: seq<Decision>)
    requires WellFormed(n, run) && Greedy(n, run)
    requires |next.weights| == n && next.lane < n && RealSum(next.weights) > 0.0
    requires credited == Plus(Deficits(n, run), Shares(next.weights, next.chunk))
    requires next.probe || IsBest(credited, next.weights, next.lane)
    ensures longer == run + [next] && WellFormed(n, longer) && Greedy(n, longer)
    ensures Deficits(n, longer) == Pay(credited, next.chunk as real, next.lane)
  {
    longer := run + [next];
    assert longer[..|longer| - 1] == run;
  }

  // ------------------------------------------- runs of the sub-flow counters

  /** lane has the fewest bytes per unit of weight among the lanes with a positive weight,
      compared by cross products; ties go to the larger weight and then the earlier lane. */
  ghost predicate IsLightest(laneBytes: seq<nat>, weights: seq<real>, lane: nat)
    requires |laneBytes| == |weights|
  {
    && lane < |weights| && weights[lane] > 0.0
    && forall i | 0 <= i < |weights| && weights[i] > 0.0 ::
         var mine, other := laneBytes[lane] as real * weights[i], laneBytes[i] as real * weights[lane];
         || mine < other
         || (mine == other && weights[i] < weights[lane])
         || (mine == other && weights[i] == weights[lane] && lane <= i)
  }

  ghost function SentVector(n: nat, run: seq<Decision>): seq<nat> {
    seq(n, i requires 0 <= i < n => Sent(run, i))
  }

  /** Every decision took the least loaded lane per unit of weight, or lane 0
      when no lane had a positive weight. */
  ghost predicate LeastLoaded(n: nat, run: seq<Decision>) {
    run == [] ||
    var before, last := run[..|run| - 1], run[|run| - 1];
    && LeastLoaded(n, before)
    && |last.weights| == n
    && if exists i :: 0 <= i < n && last.weights[i] > 0.0
       then IsLightest(SentVector(n, before), last.weights, last.lane)
       else last.lane == 0
  }

  /** Lane a, of weight v, is no more than some bytes ahead of lane b, of weight w. */
  predicate NotAhead(a: nat, v: real, b: nat, w: real, cap: nat) {
    a as real * w <= b as real * v + cap as real * w
  }

  /** With fixed weights no lane gets more than one chunk ahead of any other, measured in
      bytes per unit of weight: a and b are the bytes of lanes i and j, v and w their weights. */
  lemma SubflowsAreFair(n: nat, run: seq<Decision>, weights: seq<real>, cap: nat, i: nat, j: nat,
                        a: nat, b: nat, v: real, w: real)
    requires LeastLoaded(n, run) && |weights| == n && i < n && j < n
    requires forall k | 0 <= k < |run| :: run[k].weights == weights && run[k].chunk <= cap
    requires a == Sent(run, i) && b == Sent(run, j) && v == weights[i] > 0.0 && w == weights[j] > 0.0
    ensures a as real * w <= b as real * v + cap as real * w
  {
    NoneAhead(n, run, weights, cap, i, j);
    NotAheadMeans(a, v, b, w, cap);
  }

  lemma NotAheadMeans(a: nat, v: real, b: nat, w: real, cap: nat)
    requires NotAhead(a, v, b, w, cap)
    ensures a as real * w <= b as real * v + cap as real * w
  {}

  lemma {:induction false} NoneAhead(n: nat, run: seq<Decision>, weights: seq<real>, cap: nat, i: nat, j: nat)
    requires LeastLoaded(n, run) && |weights| == n && i < n && j < n
    requires forall k | 0 <= k < |run| :: run[k].weights == weights && run[k].chunk <= cap
    requires weights[i] > 0.0 && weights[j] > 0.0
    ensures NotAhead(Sent(run, i), weights[i], Sent(run, j), weights[j], cap)
  {
    if run == [] {
      NotAheadYet(weights[i], weights[j], cap);
    } else {
      var before, last := run[..|run| - 1], run[|run| - 1];
      if last.lane == i {
        LightestIsLight(SentVector(n, before), weights, i, j);
        NotAheadAfter(Sent(before, i), weights[i], Sent(before, j), weights[j], last.chunk, cap);
        NotAheadOfMore(Sent(run, i), weights[i], Sent(before, j), Sent(run, j), weights[j], cap);
      } else {
        NoneAhead(n, before, weights, cap, i, j);
        NotAheadOfMore(Sent(run, i), weights[i], Sent(before, j), Sent(run, j), weights[j], cap);
      }
    }
  }

  lemma LightestIsLight(laneBytes: seq<nat>, weights: seq<real>, i: nat, j: nat)
    requires |laneBytes| == |weights| && IsLightest(laneBytes, weights, i) && j < |weights| && weights[j] > 0.0
    ensures NotAhead(laneBytes[i], weights[i], laneBytes[j], weights[j], 0)
  {}

  lemma NotAheadYet(v: real, w: real, cap: nat)
    requires v > 0.0 && w > 0.0
    ensures NotAhead(0, v, 0, w, cap)
  {}

  lemma NotAheadAfter(a: nat, v: real, b: nat, w: real, chunk: nat, cap: nat)
    requires v > 0.0 && w > 0.0 && NotAhead(a, v, b, w, 0) && chunk <= cap
    ensures NotAhead(a + chunk, v, b, w, cap)
  {
    assert (a + chunk) as real * w == a as real * w + chunk as real * w;
    assert (cap - chunk) as real * w >= 0.0;
  }

  lemma NotAheadOfMore(a: nat, v: real, b: nat, b': nat, w: real, cap: nat)
    requires v > 0.0 && w > 0.0 && NotAhead(a, v, b, w, cap) && b <= b'
    ensures NotAhead(a, v, b', w, cap)
  {
    assert (b' - b) as real * v >= 0.0;
  }

  // --------------------------------------------------------------- the class

  /** d is what the greedy run leaves in the deficit counters. */
  ghost predicate PoolRow(n: nat, run: seq<Decision>, d: seq<real>) {
    WellFormed(n, run) && Greedy(n, run) && d == Deficits(n, run)
  }

  /** a is what the least-loaded run leaves in the byte counters. */
  ghost predicate BytesRow(n: nat, run: seq<Decision>, a: seq<nat>) {
    LeastLoaded(n, run) && a == SentVector(n, run)
  }

  class TrafficScheduler {
    const laneCount: nat
    const pooled: bool
    var deficits: map<Pair, seq<real>>
    var laneBytes: map<Pair, seq<nat>>
    ghost var runs: map<Pair, seq<Decision>>

    /** The counters of every ToR pair are those of the greedy run so far. */
    ghost predicate Valid()
      reads this
    {
      && deficits.Keys == (if pooled then runs.Keys else {})
      && laneBytes.Keys == (if pooled then {} else runs.Keys)
      && (forall key | key in deficits ::
            PoolRow(laneCount, runs[key], deficits[key]))
      && (forall key | key in laneBytes ::
            BytesRow(laneCount, runs[key], laneBytes[key]))
    }

    ghost function Run(key: Pair): seq<Decision>
      reads this
    {
      if key in runs then runs[key] else []
    }

    constructor (laneCount: nat, pooled: bool)
      ensures Valid() && runs == map[]
      ensures this.laneCount == laneCount && this.pooled == pooled
    {
      this.laneCount, this.pooled := laneCount, pooled;
      deficits, laneBytes, runs := map[], map[], map[];
    }

    /** Extends the run of the pair by one decision; the other pairs keep theirs. */
    method SelectLane(key: Pair, chunk: nat, signal: Signal) returns (lane: nat)
      requires Valid() && |signal.weights| == laneCount
      requires pooled ==> RealSum(signal.weights) > 0.0
      requires pooled && signal.isProbe ==> signal.probeLane < laneCount
      modifies this
      ensures Valid()
      ensures runs == old(runs)[key := old(Run(key))
                                  + [Decision(signal.weights, chunk, pooled && signal.isProbe, lane)]]
      ensures pooled && signal.isProbe ==> lane == signal.probeLane
    {
      ghost var run, longer := Run(key), [];
      if pooled {
        var d := if key in deficits then deficits[key] else Zeros(laneCount);
        lane, d, longer := ChargeDeficits(laneCount, d, chunk, signal, run);
        deficits := deficits[key := d];
      } else {
        var a: seq<nat> := if key in laneBytes then laneBytes[key] else seq(laneCount, _ => 0);
        assert a == SentVector(laneCount, Run(key));
        lane, a, longer := AddBytes(laneCount, a, chunk, signal.weights, run);
        laneBytes := laneBytes[key := a];
      }
      runs := runs[key := longer];
    }
  }

  /** One decision on a row of deficit counters. */
  method ChargeDeficits(n: nat, d: seq<real>, chunk: nat, signal: Signal, ghost run: seq<Decision>)
    returns (lane: nat, d': seq<real>, ghost longer: seq<Decision>)
    requires PoolRow(n, run, d) && |signal.weights| == n && RealSum(signal.weights) > 0.0
    requires signal.isProbe ==> signal.probeLane < n
    ensures PoolRow(n, longer, d')
    ensures longer == run + [Decision(signal.weights, chunk, signal.isProbe, lane)]
    ensures signal.isProbe ==> lane == signal.probeLane
  {
    var credited := CreditAll(d, signal.weights, chunk);
    if signal.isProbe {
      lane := signal.probeLane;
    } else {
      lane := PickPositive(credited, signal.weights);
    }
    longer := Extend(n, run, Decision(signal.weights, chunk, signal.isProbe, lane), credited);
    d' := Pay(credited, chunk as real, lane);
  }

  /** One decision on a row of byte counters. */
  method AddBytes(n: nat, a: seq<nat>, chunk: nat, weights: seq<real>, ghost run: seq<Decision>)
    returns (lane: nat, a': seq<nat>, ghost longer: seq<Decision>)
    requires BytesRow(n, run, a) && |weights| == n
    ensures BytesRow(n, longer, a')
    ensures lane < n ==> a' == a[lane := a[lane] + chunk]
    ensures if exists i :: 0 <= i < n && weights[i] > 0.0 then IsLightest(a, weights, lane) else lane == 0
    ensures longer == run + [Decision(weights, chunk, false, lane)]
  {
    var found;
    found, lane := PickLightest(a, weights);
    longer := ExtendBytes(n, run, Decision(weights, chunk, false, lane));
    a' := if lane < n then a[lane := a[lane] + chunk] else a;
    assert a' == SentVector(n, longer);
  }

  method PickLightest(laneBytes: seq<nat>, weights: seq<real>) returns (found: bool, lane: nat)
    requires |laneBytes| == |weights|
    ensures found <==> exists i :: 0 <= i < |weights| && weights[i] > 0.0
    ensures if found then IsLightest(laneBytes, weights, lane) else lane == 0
  {
    var scores := ScoreAll(laneBytes, weights);
    found, lane := PickBest(scores, weights);
    if found {
      BestIsLightest(laneBytes, scores, weights, lane);
    }
  }

  method PickPositive(value: seq<real>, weights: seq<real>) returns (lane: nat)
    requires |value| == |weights| && RealSum(weights) > 0.0
    ensures IsBest(value, weights, lane)
  {
    var found;
    found, lane := PickBest(value, weights);
    if !found {
      NoPositiveWeight(weights);
      assert false;
    }
  }

  lemma ExtendBytes(n: nat, run: seq<Decision>, next: Decision) returns (longer: seq<Decision>)
    requires LeastLoaded(n, run) && |next.weights| == n
    requires if exists i :: 0 <= i < n && next.weights[i] > 0.0
             then IsLightest(SentVector(n, run), next.weights, next.lane)
             else next.lane == 0
    ensures longer == run + [next] && LeastLoaded(n, longer)
    ensures forall i: nat :: Sent(longer, i) == Sent(run, i) + if next.lane == i then next.chunk else 0
  {
    longer := run + [next];
    assert longer[..|longer| - 1] == run;
  }

  lemma NoPositiveWeight(w: seq<real>)
    requires forall i | 0 <= i < |w| :: w[i] <= 0.0
    ensures RealSum(w) <= 0.0
  {
    if w != [] {
      NoPositiveWeight(w[..|w| - 1]);
    }
  }

  method CreditAll(d: seq<real>, weights: seq<real>, chunk: nat) returns (credited: seq<real>)
    requires |d| == |weights| && RealSum(weights) > 0.0
    ensures credited == Plus(d, Shares(weights, chunk))
  {
    var weightSum := 0.0;
    for i := 0 to |weights|
      invariant weightSum == RealSum(weights[..i])
    {
      assert weights[..i + 1][..i] == weights[..i];
      weightSum := weightSum + weights[i];
    }
    assert weights[..|weights|] == weights;
    credited := d;
    for i := 0 to |weights|
      invariant |credited| == |d|
      invariant forall j | 0 <= j < i :: credited[j] == Plus(d, Shares(weights, chunk))[j]
      invariant forall j | i <= j < |d| :: credited[j] == d[j]
    {
      credited := credited[i := credited[i] + weights[i] / weightSum * chunk as real];
    }
  }

  /** The scan works on bytes per unit of weight, negated. */
  method ScoreAll(laneBytes: seq<nat>, weights: seq<real>) returns (scores: seq<real>)
    requires |laneBytes| == |weights|
    ensures |scores| == |weights|
    ensures forall i | 0 <= i < |weights| && weights[i] > 0.0 :: -scores[i] * weights[i] == laneBytes[i] as real
  {
    scores := [];
    for i := 0 to |weights|
      invariant |scores| == i
      invariant forall k | 0 <= k < i && weights[k] > 0.0 :: -scores[k] * weights[k] == laneBytes[k] as real
    {
      var score := if weights[i] <= 0.0 then 0.0 else -(laneBytes[i] as real / weights[i]);
      scores := scores + [score];
    }
  }

  /** Scores compare as the cross products do. */
  lemma BestIsLightest(laneBytes: seq<nat>, scores: seq<real>, weights: seq<real>, lane: nat)
    requires |laneBytes| == |scores| == |weights| && IsBest(scores, weights, lane)
    requires forall i | 0 <= i < |weights| && weights[i] > 0.0 :: -scores[i] * weights[i] == laneBytes[i] as real
    ensures IsLightest(laneBytes, weights, lane)
  {
    forall i | 0 <= i < |weights| && weights[i] > 0.0
      ensures scores[i] < scores[lane] ==>
        laneBytes[lane] as real * weights[i] < laneBytes[i] as real * weights[lane]
      ensures scores[i] == scores[lane] ==>
        laneBytes[lane] as real * weights[i] == laneBytes[i] as real * weights[lane]
    {
      CrossProducts(-scores[lane], weights[lane], -scores[i], weights[i],
                    laneBytes[lane] as real, laneBytes[i] as real);
    }
  }

  lemma CrossProducts(x: real, v: real, y: real, w: real, a: real, b: real)
    requires v > 0.0 && w > 0.0 && a == x * v && b == y * w
    ensures x < y ==> a * w < b * v
    ensures x == y ==> a * w == b * v
  {
    var vw := v * w;
    assert vw > 0.0;
    assert a * w == x * vw && b * v == y * vw;
    if x < y {
      assert (y - x) * vw > 0.0;
    }
  }

  /** The scan shared by both modes: lanes without positive weight are passed
      over, ties go to the larger weight and then to the earlier lane. */
  method PickBest(value: seq<real>, weights: seq<real>) returns (found: bool, lane: nat)
    requires |value| == |weights|
    ensures found <==> exists i :: 0 <= i < |weights| && weights[i] > 0.0
    ensures if found then IsBest(value, weights, lane) else lane == 0
  {
    found, lane := false, 0;
    for i := 0 to |weights|
      invariant !found ==> lane == 0 && forall j | 0 <= j < i :: weights[j] <= 0.0
      invariant found ==> lane < i && IsBest(value[..i], weights[..i], lane)
    {
      if weights[i] > 0.0 {
        if !found || value[i] > value[lane] || (value[i] == value[lane] && weights[i] > weights[lane]) {
          found, lane := true, i;
        }
      }
    }
    assert value[..|value|] == value && weights[..|weights|] == weights;
  }
}
