/** A whole experiment in which the lane of every chunk is the one that SelectLane picks
    from the persistent pool: the bytes appended to a lane are what fairness speaks of. */
module PooledRun {
  import opened EventQueue
  import opened FlowPlan
  import opened Sequences
  import FlowSplit
  import LaneFairness
  import LaneScheduler
  import TrafficRun
  import ZeroWeightBound
  import ZeroWeights

  type Pair = LaneScheduler.Pair

  type Runs = map<Pair, seq<LaneScheduler.Decision>>

  function RunOf(runs: Runs, pair: Pair): seq<LaneScheduler.Decision> {
    if pair in runs then runs[pair] else []
  }

  function Extended(runs: Runs, pair: Pair, d: LaneScheduler.Decision): Runs {
    runs[pair := RunOf(runs, pair) + [d]]
  }

  /** The entries of a lane between two ToRs; tors gives the ToR of each host. */
  function Wanted(tors: nat -> nat, pair: Pair, lane: nat): Key -> bool {
    (k: Key) => tors(k.source) == pair.0 && tors(k.destination) == pair.1 && k.lane == lane
  }

  function PairOf(tors: nat -> nat, flow: Flow): Pair {
    (tors(flow.source), tors(flow.destination))
  }

  /** The bytes of a lane that are appended or about to be. */
  function BytesBound(tors: nat -> nat, pair: Pair, lane: nat, pending: seq<Event>, appends: seq<Append>): int {
    CommitBytes(Wanted(tors, pair, lane), pending) + AppendBytes(Wanted(tors, pair, lane), appends)
  }

  /** Every lane was sent the bytes that are bound for it. */
  ghost predicate Matches(tors: nat -> nat, pending: seq<Event>, appends: seq<Append>, runs: Runs) {
    forall pair: Pair, lane: nat ::
      BytesBound(tors, pair, lane, pending, appends) == LaneScheduler.Sent(RunOf(runs, pair), lane)
  }

  /** No chunk is larger than this. */
  function Cap(c: FlowSplit.Setting): nat {
    if c.chunkBytes < c.gateBytes then c.gateBytes as nat else c.chunkBytes as nat
  }

  ghost predicate ChunksFit(runs: Runs, cap: nat) {
    forall pair, k: nat | pair in runs && k < |runs[pair]| :: runs[pair][k].chunk <= cap
  }

  // ------------------------------------------------------------ what one event does

  lemma SentOneMore(run: seq<LaneScheduler.Decision>, d: LaneScheduler.Decision, lane: nat)
    ensures LaneScheduler.Sent(run + [d], lane) == LaneScheduler.Sent(run, lane) + if d.lane == lane then d.chunk else 0
  {
    assert (run + [d])[..|run|] == run;
  }

  /** A chunk becomes a commit on the lane of the decision made for it. */
  lemma ChunkMatches(tors: nat -> nat, flow: Flow, pending: seq<Event>, appends: seq<Append>, runs: Runs, i: nat,
                     d: LaneScheduler.Decision)
    requires Matches(tors, pending, appends, runs) && i < |pending| && pending[i].Chunk?
    requires d.chunk == pending[i].piece.bytes
    ensures var e := Commit(pending[i].t, pending[i].piece, KeyOf(flow, d.lane));
      Matches(tors, Without(pending, i) + [e], appends, Extended(runs, PairOf(tors, flow), d))
  {
    var e := Commit(pending[i].t, pending[i].piece, KeyOf(flow, d.lane));
    var here := PairOf(tors, flow);
    var runs' := Extended(runs, here, d);
    forall pair: Pair, lane: nat
      ensures BytesBound(tors, pair, lane, Without(pending, i) + [e], appends)
           == LaneScheduler.Sent(RunOf(runs', pair), lane)
    {
      var want := Wanted(tors, pair, lane);
      CommitBytesWithout(want, pending, i);
      CommitBytesOneMore(want, Without(pending, i), e);
      SentOneMore(RunOf(runs, here), d, lane);
      assert BytesBound(tors, pair, lane, pending, appends) == LaneScheduler.Sent(RunOf(runs, pair), lane);
    }
  }

  lemma CommitMatches(tors: nat -> nat, pending: seq<Event>, appends: seq<Append>, runs: Runs, i: nat)
    requires Matches(tors, pending, appends, runs) && i < |pending| && pending[i].Commit?
    ensures Matches(tors, Without(pending, i), appends + [Append(pending[i].piece, pending[i].key, pending[i].t)], runs)
  {
    var a := Append(pending[i].piece, pending[i].key, pending[i].t);
    forall pair: Pair, lane: nat
      ensures BytesBound(tors, pair, lane, Without(pending, i), appends + [a])
           == LaneScheduler.Sent(RunOf(runs, pair), lane)
    {
      CommitBytesWithout(Wanted(tors, pair, lane), pending, i);
      assert (appends + [a])[..|appends|] == appends;
      assert BytesBound(tors, pair, lane, pending, appends) == LaneScheduler.Sent(RunOf(runs, pair), lane);
    }
  }

  /** Other events neither add commits nor take any away. */
  lemma SameCommitsMatch(tors: nat -> nat, pending: seq<Event>, pending': seq<Event>, appends: seq<Append>, runs: Runs)
    requires Matches(tors, pending, appends, runs) && Commits(pending') == Commits(pending)
    ensures Matches(tors, pending', appends, runs)
  {
    forall pair: Pair, lane: nat
      ensures BytesBound(tors, pair, lane, pending', appends) == LaneScheduler.Sent(RunOf(runs, pair), lane)
    {
      CommitBytesOfCommits(Wanted(tors, pair, lane), pending);
      CommitBytesOfCommits(Wanted(tors, pair, lane), pending');
      assert BytesBound(tors, pair, lane, pending, appends) == LaneScheduler.Sent(RunOf(runs, pair), lane);
    }
  }

  // ------------------------------------------------------------- sizes of chunks

  /** A pending piece is one of the plan. */
  lemma PendingIsPlanned(plan: seq<seq<Piece>>, pool: map<Key, nat>, pending: seq<Event>, appends: seq<Append>, i: nat)
    requires Accounts(plan, pool, pending, appends) && i < |pending| && pending[i].Chunk?
    ensures IsPlanned(plan, pending[i].piece)
  {
    var p := pending[i].piece;
    TotalIsCount(Only(p), pending);
    assert pending[i] in pending && Score(Only(p), pending[i]) == 1;
    AppendedIsCount(appends, p);
    assert Occurrences(pending, appends, p) == if IsPlanned(plan, p) then 1 else 0;
  }

  lemma PieceFits(c: FlowSplit.Setting, length: FlowSplit.uint32, sizes: seq<int>, i: nat)
    requires c.ChunkMode() && FlowSplit.IsSplit(c, length, sizes) && i < |sizes|
    ensures 0 < sizes[i] <= Cap(c)
  {
    if 0 < c.gateBytes && FlowSplit.AtLeastOne(length) < c.gateBytes {
      FlowSplit.EvenSum(sizes, 0);
    }
  }

  lemma ChunkFits(c: FlowSplit.Setting, rate: real, flows: seq<Flow>, idx: nat, plan: seq<seq<Piece>>,
                  started: seq<real>, p: Piece)
    requires c.ChunkMode() && StartedSoFar(c, rate, flows, idx, plan, started) && IsPlanned(plan, p)
    ensures 0 < p.bytes <= Cap(c)
  {
    assert IsPlan(c, rate, flows, p.flow, plan[p.flow]);
    PieceFits(c, flows[p.flow].length, Sizes(plan[p.flow]), p.id);
  }

  // --------------------------------------------------------------------- the run

  /** Whatever a policy may signal: weights with a positive sum, and perhaps a probe. */
  predicate IsSignal(s: LaneScheduler.Signal, lanes: nat) {
    |s.weights| == lanes && RealSum(s.weights) > 0.0 && (s.isProbe ==> s.probeLane < lanes)
  }

  method Signal(lanes: nat) returns (s: LaneScheduler.Signal)
    requires lanes > 0
    ensures IsSignal(s, lanes)
  {
    ghost var equal := LaneScheduler.Signal(seq(lanes, _ => 1.0), false, 0);
    SumOfOnes(lanes);
    assert IsSignal(equal, lanes);
    s :| IsSignal(s, lanes);
  }

  lemma {:induction false} SumOfOnes(n: nat)
    ensures RealSum(seq(n, _ => 1.0)) == n as real
  {
    if n > 0 {
      SumOfOnes(n - 1);
      assert seq(n, _ => 1.0)[..n - 1] == seq(n - 1, _ => 1.0);
    }
  }

  /** What the pool knows of the bytes and sizes of the run so far. */
  ghost predicate Tallied(tors: nat -> nat, cap: nat, pending: seq<Event>, appends: seq<Append>, runs: Runs) {
    Matches(tors, pending, appends, runs) && ChunksFit(runs, cap)
  }

  /** What holds between events. */
  ghost predicate Running(tors: nat -> nat, scheduler: TrafficRun.TrafficScheduler,
                          lanes: LaneScheduler.TrafficScheduler)
    reads scheduler, lanes
  {
    && scheduler.Valid() && scheduler.c.ChunkMode()
    && lanes.Valid() && lanes.pooled && lanes.laneCount == scheduler.c.lanes as nat
    && Tallied(tors, Cap(scheduler.c), scheduler.pending, scheduler.appends, lanes.runs)
  }

  lemma ChunkTallied(tors: nat -> nat, flow: Flow, cap: nat, pending: seq<Event>, appends: seq<Append>, runs: Runs,
                     i: nat, d: LaneScheduler.Decision)
    requires Tallied(tors, cap, pending, appends, runs) && i < |pending| && pending[i].Chunk?
    requires d.chunk == pending[i].piece.bytes && d.chunk <= cap
    ensures var e := Commit(pending[i].t, pending[i].piece, KeyOf(flow, d.lane));
      Tallied(tors, cap, Without(pending, i) + [e], appends, Extended(runs, PairOf(tors, flow), d))
  {
    ChunkMatches(tors, flow, pending, appends, runs, i, d);
  }

  /** The lane that SelectLane picks for a chunk, under any signal. */
  method PickLane(lanes: LaneScheduler.TrafficScheduler, pair: Pair, chunk: nat)
    returns (lane: nat, ghost d: LaneScheduler.Decision)
    requires lanes.Valid() && lanes.pooled && lanes.laneCount > 0
    modifies lanes
    ensures lanes.Valid() && d.lane == lane && d.chunk == chunk
    ensures lanes.runs == Extended(old(lanes.runs), pair, d)
  {
    var signal := Signal(lanes.laneCount);
    lane := lanes.SelectLane(pair, chunk, signal);
    d := LaneScheduler.Decision(signal.weights, chunk, signal.isProbe, lane);
  }

  lemma DueChunkFits(scheduler: TrafficRun.TrafficScheduler, i: nat)
    requires scheduler.Valid() && scheduler.c.ChunkMode()
    requires i < |scheduler.pending| && scheduler.pending[i].Chunk?
    ensures scheduler.pending[i].piece.flow < |scheduler.flows|
    ensures 0 < scheduler.pending[i].piece.bytes <= Cap(scheduler.c)
  {
    PendingIsPlanned(scheduler.plan, scheduler.pool, scheduler.pending, scheduler.appends, i);
    ChunkFits(scheduler.c, scheduler.rate, scheduler.flows, scheduler.idx, scheduler.plan, scheduler.started,
              scheduler.pending[i].piece);
  }

  method HandleChunk(tors: nat -> nat, scheduler: TrafficRun.TrafficScheduler, lanes: LaneScheduler.TrafficScheduler,
                     i: nat)
    requires Running(tors, scheduler, lanes) && IsEarliest(scheduler.pending, i) && scheduler.pending[i].Chunk?
    modifies scheduler`now, scheduler`pool, scheduler`lastCommit, scheduler`pending, lanes
    ensures Running(tors, scheduler, lanes)
    ensures Total(StepsLeft, scheduler.pending) == old(Total(StepsLeft, scheduler.pending)) - 1
    ensures FirstLook(scheduler.flows, scheduler.idx, scheduler.pending)
         <= old(FirstLook(scheduler.flows, scheduler.idx, scheduler.pending))
  {
    DueChunkFits(scheduler, i);
    ghost var runs, before := lanes.runs, scheduler.pending;
    var piece := scheduler.pending[i].piece;
    var flow := scheduler.flows[piece.flow];
    var lane, d := PickLane(lanes, PairOf(tors, flow), piece.bytes);
    ChunkTallied(tors, flow, Cap(scheduler.c), before, scheduler.appends, runs, i, d);
    scheduler.ScheduleV5Chunk(i, lane);
  }

  /** Handles an earliest event, any one of them. */
  method Step(tors: nat -> nat, scheduler: TrafficRun.TrafficScheduler, lanes: LaneScheduler.TrafficScheduler)
    requires Running(tors, scheduler, lanes) && scheduler.pending != []
    modifies scheduler, lanes
    ensures Running(tors, scheduler, lanes) && scheduler.idx >= old(scheduler.idx)
    ensures scheduler.idx == old(scheduler.idx) ==>
      FirstLook(scheduler.flows, scheduler.idx, scheduler.pending)
        <= old(FirstLook(scheduler.flows, scheduler.idx, scheduler.pending))
    ensures scheduler.idx == old(scheduler.idx) ==>
      FirstLook(scheduler.flows, scheduler.idx, scheduler.pending)
        < old(FirstLook(scheduler.flows, scheduler.idx, scheduler.pending))
      || Total(StepsLeft, scheduler.pending) < old(Total(StepsLeft, scheduler.pending))
  {
    Earliest(scheduler.pending);
    var i: nat :| IsEarliest(scheduler.pending, i);
    ghost var before, appended := scheduler.pending, scheduler.appends;
    match scheduler.pending[i]
    case Inputs(_) =>
      scheduler.HandleInputs(i);
      SameCommitsMatch(tors, before, scheduler.pending, appended, lanes.runs);
    case Chunk(_, _) => HandleChunk(tors, scheduler, lanes, i);
    case Commit(_, _, _) =>
      CommitMatches(tors, before, appended, lanes.runs, i);
      scheduler.CommitPersistentWqe(i);
    case Seal(_) =>
      CommitsWithout(before, i);
      scheduler.SealPersistentPools(i);
      SameCommitsMatch(tors, before, scheduler.pending, appended, lanes.runs);
  }

  lemma NothingTallied(tors: nat -> nat, cap: nat, pending: seq<Event>)
    requires Commits(pending) == []
    ensures Tallied(tors, cap, pending, [], map[])
  {
    forall pair: Pair, lane: nat
      ensures BytesBound(tors, pair, lane, pending, []) == LaneScheduler.Sent(RunOf(map[], pair), lane)
    {
      CommitBytesOfCommits(Wanted(tors, pair, lane), pending);
    }
  }

  /** The bytes appended to a lane between two ToRs. */
  function AppendedBytes(tors: nat -> nat, pair: Pair, lane: nat, appends: seq<Append>): int {
    AppendBytes(Wanted(tors, pair, lane), appends)
  }

  // -------------------------------------------------------------------- fairness

  ghost predicate NoProbes(run: seq<LaneScheduler.Decision>) {
    forall k | 0 <= k < |run| :: !run[k].probe
  }

  ghost predicate AllPositive(run: seq<LaneScheduler.Decision>) {
    forall k, i | 0 <= k < |run| && 0 <= i < |run[k].weights| :: run[k].weights[i] > 0.0
  }

  ghost predicate NoneNegative(run: seq<LaneScheduler.Decision>) {
    forall k, i | 0 <= k < |run| && 0 <= i < |run[k].weights| :: run[k].weights[i] >= 0.0
  }

  ghost predicate Within(n: nat, cap: nat, run: seq<LaneScheduler.Decision>, away: real)
    requires n > 0
  {
    && (AllPositive(run) ==> -LaneFairness.MaxLead(n, cap as real) <= away <= LaneFairness.MaxLag(n, cap as real))
    && (NoneNegative(run) ==>
          -ZeroWeightBound.MaxAway(n, cap as real) <= away <= ZeroWeightBound.MaxAway(n, cap as real))
  }

  /** Without probes, the bytes appended to a lane stay within the harmonic bounds of its
      weighted share if all weights were positive, and within half a chunk for each other
      lane if none was negative. */
  ghost predicate Fair(tors: nat -> nat, n: nat, cap: nat, appends: seq<Append>, runs: Runs, pair: Pair, lane: nat) {
    var run := RunOf(runs, pair);
    lane < n && LaneScheduler.WellFormed(n, run) && NoProbes(run) ==>
      Within(n, cap, run, LaneScheduler.Due(run, lane) - AppendedBytes(tors, pair, lane, appends) as real)
  }

  ghost predicate AllFair(tors: nat -> nat, n: nat, cap: nat, appends: seq<Append>, runs: Runs) {
    forall pair: Pair, lane: nat :: Fair(tors, n, cap, appends, runs, pair, lane)
  }

  lemma GreedyIsWithin(n: nat, run: seq<LaneScheduler.Decision>, cap: nat, lane: nat)
    requires LaneScheduler.WellFormed(n, run) && LaneScheduler.Greedy(n, run) && NoProbes(run) && lane < n
    requires forall k | 0 <= k < |run| :: run[k].chunk <= cap
    ensures Within(n, cap, run, LaneScheduler.Due(run, lane) - LaneScheduler.Sent(run, lane) as real)
  {
    if AllPositive(run) {
      assert LaneScheduler.AllLanesWeighted(run, cap);
      LaneScheduler.PoolIsFair(n, run, cap, lane);
    }
    if NoneNegative(run) {
      assert forall k | 0 <= k < |run| :: ZeroWeights.Plain(run[k], cap);
      ZeroWeightBound.AnyWeightsBound(n, run, cap, lane);
    }
  }

  lemma AppendsAreFair(tors: nat -> nat, n: nat, cap: nat, appends: seq<Append>, runs: Runs, pair: Pair, lane: nat)
    requires AppendedBytes(tors, pair, lane, appends) == LaneScheduler.Sent(RunOf(runs, pair), lane)
    requires LaneScheduler.WellFormed(n, RunOf(runs, pair)) && LaneScheduler.Greedy(n, RunOf(runs, pair))
    requires ChunksFit(runs, cap)
    ensures Fair(tors, n, cap, appends, runs, pair, lane)
  {
    if NoProbes(RunOf(runs, pair)) && lane < n {
      GreedyIsWithin(n, RunOf(runs, pair), cap, lane);
    }
  }

  lemma PoolIsGreedy(lanes: LaneScheduler.TrafficScheduler)
    requires lanes.Valid() && lanes.pooled
    ensures forall pair: Pair ::
      LaneScheduler.WellFormed(lanes.laneCount, RunOf(lanes.runs, pair))
      && LaneScheduler.Greedy(lanes.laneCount, RunOf(lanes.runs, pair))
  {
    forall pair: Pair
      ensures LaneScheduler.WellFormed(lanes.laneCount, RunOf(lanes.runs, pair))
      ensures LaneScheduler.Greedy(lanes.laneCount, RunOf(lanes.runs, pair))
    {
      if pair in lanes.runs {
        assert LaneScheduler.PoolRow(lanes.laneCount, lanes.runs[pair], lanes.deficits[pair]);
      }
    }
  }

  lemma AllAreFair(tors: nat -> nat, n: nat, cap: nat, appends: seq<Append>, runs: Runs)
    requires Matches(tors, [], appends, runs) && ChunksFit(runs, cap)
    requires forall pair: Pair ::
      LaneScheduler.WellFormed(n, RunOf(runs, pair)) && LaneScheduler.Greedy(n, RunOf(runs, pair))
    ensures forall pair: Pair, lane: nat :: AppendedBytes(tors, pair, lane, appends)
                                         == LaneScheduler.Sent(RunOf(runs, pair), lane)
    ensures AllFair(tors, n, cap, appends, runs)
  {
    forall pair: Pair, lane: nat
      ensures AppendedBytes(tors, pair, lane, appends) == LaneScheduler.Sent(RunOf(runs, pair), lane)
      ensures Fair(tors, n, cap, appends, runs, pair, lane)
    {
      assert BytesBound(tors, pair, lane, [], appends) == LaneScheduler.Sent(RunOf(runs, pair), lane);
      AppendsAreFair(tors, n, cap, appends, runs, pair, lane);
    }
  }

  /** A whole experiment in chunk mode with a persistent pool, for any policy. Each piece is
      appended once, all bytes of every flow are, and between any two ToRs every lane was appended the bytes that the
      decisions for it sent there: a greedy run of decisions, with chunks of at most Cap, and
      so with fair shares. */
  method RunPooled(c: FlowSplit.Setting, rate: real, flows: seq<Flow>, tors: nat -> nat)
    returns (appends: seq<Append>, ghost runs: Runs, ghost plan: seq<seq<Piece>>, ghost started: seq<real>)
    requires c.ChunkMode() && rate > 0.0 && Ordered(flows)
    ensures StartedSoFar(c, rate, flows, |flows|, plan, started)
    ensures forall p: Piece :: AppendedTimes(appends, p) == if IsPlanned(plan, p) then 1 else 0
    ensures forall f: nat | f < |flows| :: FlowBytes(appends, f) == FlowSplit.AtLeastOne(flows[f].length) as int
    ensures forall pair: Pair, lane: nat ::
      AppendedBytes(tors, pair, lane, appends) == LaneScheduler.Sent(RunOf(runs, pair), lane)
    ensures forall pair: Pair ::
      && LaneScheduler.WellFormed(c.lanes as nat, RunOf(runs, pair))
      && LaneScheduler.Greedy(c.lanes as nat, RunOf(runs, pair))
    ensures ChunksFit(runs, Cap(c))
    ensures AllFair(tors, c.lanes as nat, Cap(c), appends, runs)
  {
    var scheduler := new TrafficRun.TrafficScheduler(c, rate, flows);
    var lanes := new LaneScheduler.TrafficScheduler(c.lanes as nat, true);
    NothingTallied(tors, Cap(c), scheduler.pending);
    while scheduler.pending != []
      invariant Running(tors, scheduler, lanes)
      invariant fresh(scheduler) && fresh(lanes)
      invariant scheduler.c == c && scheduler.rate == rate && scheduler.flows == flows
      decreases |flows| - scheduler.idx, FirstLook(flows, scheduler.idx, scheduler.pending),
                Total(StepsLeft, scheduler.pending)
    {
      TotalIsCount(StepsLeft, scheduler.pending);
      Step(tors, scheduler, lanes);
    }
    NothingOnItsWay(scheduler.plan, scheduler.pool, scheduler.pending, scheduler.appends);
    appends, runs, plan, started := scheduler.appends, lanes.runs, scheduler.plan, scheduler.started;
    FlowsAreAppended(c, rate, flows, plan, started, appends);
    PoolIsGreedy(lanes);
    AllAreFair(tors, c.lanes as nat, Cap(c), appends, runs);
  }
}
