/** The traffic scheduler's event loop with persistent queue pairs: flows start at their
    own times, their pieces are committed at theirs, and the pool entries are sealed
    after all commits. Same-time events run in any order. */
module TrafficRun {
  import opened EventQueue
  import opened FlowPlan
  import FlowSplit

  class TrafficScheduler {
    const c: FlowSplit.Setting
    const rate: real
    const flows: seq<Flow>
    var now: real
    var idx: nat
    var lastCommit: real
    var sealScheduled: bool
    var pool: map<Key, nat>
    var pending: seq<Event>
    /** What the queue pairs were given, and the counts they were sealed with. */
    var appends: seq<Append>
    var sealed: bool
    var seals: map<Key, nat>
    ghost var plan: seq<seq<Piece>>
    ghost var started: seq<real>
    /** When the seal came and what had been appended by then. */
    ghost var sealedAt: real
    ghost var sealedWith: seq<Append>

    /** Start schedules the first look at the flow list at time 0. */
    constructor (c: FlowSplit.Setting, rate: real, flows: seq<Flow>)
      requires c.lanes >= 1 && rate > 0.0 && Ordered(flows)
      ensures Valid() && this.c == c && this.rate == rate && this.flows == flows
      ensures now == 0.0 && idx == 0 && pool == map[] && appends == [] && !sealScheduled && !sealed
      ensures pending == if |flows| > 0 then [Inputs(0.0)] else []
    {
      this.c, this.rate, this.flows := c, rate, flows;
      now, idx, lastCommit, sealScheduled, pool, appends, sealed, seals := 0.0, 0, 0.0, false, map[], [], false, map[];
      plan, started := [], [];
      pending := if |flows| > 0 then [Inputs(0.0)] else [];
      new;
      Fresh(pending);
    }

    /** What holds between events and between the flows started by one event. */
    ghost predicate Core()
      reads this
    {
      && StartedSoFar(c, rate, flows, idx, plan, started)
      && Accounts(plan, pool, pending, appends)
      && Timely(pending, now, lastCommit) && OnTime(appends, lastCommit) && Addressed(flows, pending, appends)
    }

    ghost predicate Valid()
      reads this
    {
      && StartedSoFar(c, rate, flows, idx, plan, started)
      && Accounts(plan, pool, pending, appends)
      && Calm(flows, idx, now, lastCommit, sealScheduled, sealed, pending, appends)
      && (!sealed ==> seals == map[])
      && (sealed ==> seals == pool && sealedWith == appends && AllBefore(appends, sealedAt))
    }

    /** Puts a piece on its way to a lane's queue pair, at once. */
    method InstallRdmaSubflow(piece: Piece, lane: nat)
      requires piece.flow < |flows|
      modifies this`pool, this`lastCommit, this`pending
      ensures pending == old(pending) + [Commit(now, piece, KeyOf(flows[piece.flow], lane))]
      ensures pool == Raised(old(pool), KeyOf(flows[piece.flow], lane))
      ensures lastCommit == if old(lastCommit) < now then now else old(lastCommit)
    {
      var key := KeyOf(flows[piece.flow], lane);
      pool := pool[key := CountOf(pool, key) + 1];
      if lastCommit < now {
        lastCommit := now;
      }
      pending := pending + [Commit(now, piece, key)];
    }

    method ScheduleChunk(piece: Piece)
      modifies this`lastCommit, this`pending
      ensures pending == old(pending) + [Chunk(piece.due, piece)]
      ensures lastCommit == if old(lastCommit) < piece.due then piece.due else old(lastCommit)
    {
      pending := pending + [Chunk(piece.due, piece)];
      if lastCommit < piece.due {
        lastCommit := piece.due;
      }
    }

    /** A chunk is put on its way at its own time, a lane's piece at once. */
    method SchedulePiece(ghost before: seq<seq<Piece>>, ghost done: seq<Piece>, piece: Piece, lane: nat)
      requires Accounts(before + [done], pool, pending, appends)
      requires piece.flow == |before| < |flows| && piece.id == |done|
      requires now <= piece.due && (!c.ChunkMode() ==> piece.due == now)
      requires Timely(pending, now, lastCommit) && OnTime(appends, lastCommit) && Addressed(flows, pending, appends)
      requires NoSeals(pending) && NoInputs(pending)
      modifies this`pool, this`lastCommit, this`pending
      ensures Accounts(before + [done + [piece]], pool, pending, appends)
      ensures Timely(pending, now, lastCommit) && OnTime(appends, lastCommit) && Addressed(flows, pending, appends)
      ensures NoSeals(pending) && NoInputs(pending)
      ensures c.ChunkMode() ==> Commits(pending) == old(Commits(pending))
    {
      ghost var e := if c.ChunkMode() then Chunk(piece.due, piece)
                     else Commit(now, piece, KeyOf(flows[piece.flow], lane));
      PieceScheduled(before, done, piece, pool, pending, appends, e);
      PieceQueued(flows, now, lastCommit, pending, appends, e);
      if c.ChunkMode() {
        CommitsOneMore(pending, e);
        ScheduleChunk(piece);
      } else {
        InstallRdmaSubflow(piece, lane);
      }
    }

    method SchedulePieces(pieces: seq<Piece>)
      requires Accounts(plan, pool, pending, appends) && Timely(pending, now, lastCommit)
      requires OnTime(appends, lastCommit) && Addressed(flows, pending, appends)
      requires NoSeals(pending) && NoInputs(pending)
      requires |plan| < |flows| && forall i | 0 <= i < |pieces| :: pieces[i].flow == |plan| && pieces[i].id == i
      requires forall p | p in pieces :: now <= p.due && (!c.ChunkMode() ==> p.due == now)
      modifies this`pool, this`lastCommit, this`pending
      ensures Accounts(plan + [pieces], pool, pending, appends) && Timely(pending, now, lastCommit)
      ensures OnTime(appends, lastCommit) && Addressed(flows, pending, appends) && NoSeals(pending) && NoInputs(pending)
      ensures c.ChunkMode() ==> Commits(pending) == old(Commits(pending))
    {
      FlowBegun(plan, pool, pending, appends);
      for i := 0 to |pieces|
        invariant Accounts(plan + [pieces[..i]], pool, pending, appends) && Timely(pending, now, lastCommit)
        invariant OnTime(appends, lastCommit) && Addressed(flows, pending, appends)
        invariant NoSeals(pending) && NoInputs(pending)
        invariant c.ChunkMode() ==> Commits(pending) == old(Commits(pending))
      {
        SchedulePiece(plan, pieces[..i], pieces[i], i);
        assert pieces[..i + 1] == pieces[..i] + [pieces[i]];
      }
      assert pieces[..|pieces|] == pieces;
    }

    /** One turn of the loop over the flow list: splits the next flow and puts its pieces
        on their way, chunks at their own times, lanes at once. */
    method StartFlow()
      requires Core() && NoSeals(pending) && NoInputs(pending) && idx < |flows| && flows[idx].start == now
      modifies this`pool, this`lastCommit, this`pending, this`idx, this`plan, this`started
      ensures Core() && NoSeals(pending) && NoInputs(pending) && idx == old(idx) + 1
      ensures c.ChunkMode() ==> Commits(pending) == old(Commits(pending))
    {
      var pieces := PlanFlow(c, rate, flows, idx);
      OneMoreStarted(c, rate, flows, idx, plan, started, pieces);
      SchedulePieces(pieces);
      plan := plan + [pieces];
      started := started + [now];
      idx := idx + 1;
    }

    /** Starts every flow whose time has come, then schedules the next look at the list or,
        after the last flow, the seal. */
    method ScheduleFlowInputs()
      requires Core() && NoSeals(pending) && NoInputs(pending)
      requires idx < |flows| && now <= flows[idx].start && !sealScheduled && !sealed && seals == map[]
      modifies this`pool, this`lastCommit, this`pending, this`idx, this`plan, this`started, this`sealScheduled
      ensures Valid()
      ensures flows[old(idx)].start == now ==> idx > old(idx)
      ensures flows[old(idx)].start > now ==> idx == old(idx) && pending == old(pending) + [Inputs(flows[idx].start)]
      ensures idx == |flows| ==>
        Seal((if lastCommit < now then now else lastCommit) + 0.000_000_001) in pending
      ensures c.ChunkMode() ==> Commits(pending) == old(Commits(pending))
    {
      StartDueFlows();
      ScheduleNext();
    }

    method StartDueFlows()
      requires Core() && NoSeals(pending) && NoInputs(pending) && idx < |flows| && now <= flows[idx].start
      modifies this`pool, this`lastCommit, this`pending, this`idx, this`plan, this`started
      ensures Core() && NoSeals(pending) && NoInputs(pending)
      ensures idx >= old(idx) && (idx < |flows| ==> now < flows[idx].start)
      ensures flows[old(idx)].start == now ==> idx > old(idx)
      ensures flows[old(idx)].start > now ==> idx == old(idx) && pending == old(pending)
      ensures c.ChunkMode() ==> Commits(pending) == old(Commits(pending))
    {
      while idx < |flows| && flows[idx].start == now
        invariant Core() && NoSeals(pending) && NoInputs(pending)
        invariant idx >= old(idx) && (idx < |flows| ==> now <= flows[idx].start)
        invariant idx == old(idx) ==> pending == old(pending)
        invariant idx > old(idx) ==> flows[old(idx)].start == now
        invariant c.ChunkMode() ==> Commits(pending) == old(Commits(pending))
        decreases |flows| - idx
      {
        StartFlow();
      }
    }

    method ScheduleNext()
      requires Core() && NoSeals(pending) && NoInputs(pending) && |flows| > 0
      requires !sealScheduled && !sealed && seals == map[]
      requires idx < |flows| ==> now <= flows[idx].start
      modifies this`pending, this`sealScheduled
      ensures Valid() && (idx < |flows| ==> pending == old(pending) + [Inputs(flows[idx].start)])
      ensures idx == |flows| ==>
        pending == old(pending) + [Seal((if lastCommit < now then now else lastCommit) + 0.000_000_001)]
      ensures Commits(pending) == old(Commits(pending))
    {
      ghost var before := pending;
      if idx < |flows| {
        CalmWithNext(flows, idx, now, lastCommit, pending, appends, Inputs(flows[idx].start));
        PlainScheduled(plan, pool, pending, appends, Inputs(flows[idx].start));
        CommitsOneMore(pending, Inputs(flows[idx].start));
        pending := pending + [Inputs(flows[idx].start)];
      } else {
        var latest := if lastCommit < now then now else lastCommit;
        CalmWithNext(flows, idx, now, lastCommit, pending, appends, Seal(latest + 0.000000001));
        PlainScheduled(plan, pool, pending, appends, Seal(latest + 0.000000001));
        CommitsOneMore(pending, Seal(latest + 0.000000001));
        sealScheduled := true;
        pending := pending + [Seal(latest + 0.000000001)];
      }
    }

    // -------------------------------------------------------- event handlers

    method HandleInputs(i: nat)
      requires Valid() && IsEarliest(pending, i) && pending[i].Inputs?
      modifies this
      ensures Valid() && appends == old(appends)
      ensures c.ChunkMode() ==> Commits(pending) == old(Commits(pending))
      ensures idx >= old(idx)
      ensures idx == old(idx) ==> FirstLook(flows, idx, pending) < old(FirstLook(flows, idx, pending))
    {
      ghost var before := pending;
      CalmAfterInputs(flows, idx, now, lastCommit, sealScheduled, sealed, pending, appends, i);
      PlainTaken(plan, pool, pending, appends, i);
      CommitsWithout(pending, i);
      now := pending[i].t;
      pending := Without(pending, i);
      ScheduleFlowInputs();
      if idx == old(idx) {
        LaterLook(flows, idx, before, i);
      }
    }

    /** Takes a chunk and puts its piece on its way. */
    method PassChunk(i: nat, lane: nat)
      requires i < |pending| && pending[i].Chunk? && pending[i].piece.flow < |flows|
      modifies this`now, this`pool, this`lastCommit, this`pending
      ensures now == old(pending[i].t)
      ensures var piece := old(pending[i].piece);
        && pending == Without(old(pending), i) + [Commit(now, piece, KeyOf(flows[piece.flow], lane))]
        && pool == Raised(old(pool), KeyOf(flows[piece.flow], lane))
      ensures old(pending[i].t) <= old(lastCommit) ==> lastCommit == old(lastCommit)
    {
      var piece := pending[i].piece;
      now := pending[i].t;
      pending := Without(pending, i);
      InstallRdmaSubflow(piece, lane);
    }

    /** A due chunk becomes a commit, at once, to the entry of its flow and the lane, which
        is whatever the policy selects. */
    method ScheduleV5Chunk(i: nat, lane: nat)
      requires Valid() && IsEarliest(pending, i) && pending[i].Chunk?
      modifies this`now, this`pool, this`lastCommit, this`pending
      ensures now == old(pending[i].t) && old(pending[i].piece.flow) < |flows|
      ensures var piece := old(pending[i].piece);
        && pending == Without(old(pending), i) + [Commit(now, piece, KeyOf(flows[piece.flow], lane))]
        && pool == Raised(old(pool), KeyOf(flows[piece.flow], lane))
      ensures Valid() && Total(StepsLeft, pending) == old(Total(StepsLeft, pending)) - 1
      ensures FirstLook(flows, idx, pending) <= old(FirstLook(flows, idx, pending))
    {
      CalmAfterChunk(flows, idx, now, lastCommit, sealScheduled, sealed, pending, appends, i, lane);
      var e := pending[i];
      ChunkSent(plan, pool, pending, appends, i, Commit(e.t, e.piece, KeyOf(flows[e.piece.flow], lane)));
      PassChunk(i, lane);
    }

    method CommitPersistentWqe(i: nat)
      requires Valid() && IsEarliest(pending, i) && pending[i].Commit?
      modifies this`now, this`pending, this`appends
      ensures now == old(pending[i].t) && pending == Without(old(pending), i)
      ensures appends == old(appends) + [Append(old(pending[i].piece), old(pending[i].key), now)]
      ensures Valid() && Total(StepsLeft, pending) == old(Total(StepsLeft, pending)) - 1
      ensures FirstLook(flows, idx, pending) <= old(FirstLook(flows, idx, pending))
    {
      var e := pending[i];
      CalmAfterCommit(flows, idx, now, lastCommit, sealScheduled, sealed, pending, appends, i);
      CommitDone(plan, pool, pending, appends, i, Append(e.piece, e.key, e.t));
      now := e.t;
      pending := Without(pending, i);
      appends := appends + [Append(e.piece, e.key, now)];
    }

    method StoreSeals(i: nat)
      requires i < |pending|
      modifies this`now, this`pending, this`sealed, this`seals, this`sealedAt, this`sealedWith
      ensures now == old(pending[i].t) == sealedAt && pending == Without(old(pending), i)
      ensures sealed && seals == pool && sealedWith == appends
    {
      now := pending[i].t;
      pending := Without(pending, i);
      seals := pool;
      sealed := true;
      sealedAt, sealedWith := now, appends;
    }

    /** Seals every pool entry with its count. */
    method SealPersistentPools(i: nat)
      requires Valid() && IsEarliest(pending, i) && pending[i].Seal?
      modifies this`now, this`pending, this`sealed, this`seals, this`sealedAt, this`sealedWith
      ensures now == old(pending[i].t) && pending == Without(old(pending), i)
      ensures sealed && seals == pool && AllBefore(appends, now)
      ensures Valid() && Total(StepsLeft, pending) == old(Total(StepsLeft, pending)) - 1
      ensures FirstLook(flows, idx, pending) <= old(FirstLook(flows, idx, pending))
    {
      CalmAfterSeal(flows, idx, now, lastCommit, sealScheduled, sealed, pending, appends, i);
      PlainTaken(plan, pool, pending, appends, i);
      StoreSeals(i);
    }

    // ------------------------------------------------------------- the run

    /** Handles an earliest event, any one of them. */
    method Step()
      requires Valid() && pending != []
      modifies this
      ensures Valid() && idx >= old(idx)
      ensures idx == old(idx) ==> FirstLook(flows, idx, pending) <= old(FirstLook(flows, idx, pending))
      ensures idx == old(idx) && FirstLook(flows, idx, pending) == old(FirstLook(flows, idx, pending)) ==>
        Total(StepsLeft, pending) < old(Total(StepsLeft, pending))
    {
      Earliest(pending);
      var i: nat :| IsEarliest(pending, i);
      match pending[i]
      case Inputs(_) => HandleInputs(i);
      case Chunk(_, _) =>
        var lane: nat := *;
        ScheduleV5Chunk(i, lane);
      case Commit(_, _, _) => CommitPersistentWqe(i);
      case Seal(_) => SealPersistentPools(i);
    }

    /** Runs until nothing is pending, which happens after finitely many events. Every flow
        has then been started, in order, at its own time; every planned piece has been
        appended, once, at its own time and to an entry of its own flow; and every entry
        has been sealed, after all of this, with the number of pieces appended to it. */
    method Run()
      requires Valid()
      modifies this
      ensures Core() && pending == [] && idx == |flows|
      ensures forall p: Piece :: AppendedTimes(appends, p) == if IsPlanned(plan, p) then 1 else 0
      ensures |appends| == Planned(plan)
      ensures sealed == (|flows| > 0)
      ensures forall k: Key :: CountOf(seals, k) == AppendedTo(appends, k)
      ensures sealed ==> sealedWith == appends && AllBefore(appends, sealedAt)
    {
      while pending != []
        invariant Valid()
        decreases |flows| - idx, FirstLook(flows, idx, pending), Total(StepsLeft, pending)
      {
        TotalIsCount(StepsLeft, pending);
        Step();
      }
      NothingOnItsWay(plan, pool, pending, appends);
      if flows == [] {
        assert plan == [] && appends == [];
      }
    }
  }

  /** A whole experiment on an ordered flow list: what Run promises, with the number of
      completions to wait for. That is the number of pieces appended exactly when no flow's
      count overflows, given that all lengths were read when counting, and never more. */
  method RunExperiment(c: FlowSplit.Setting, rate: real, flows: seq<Flow>, counted: seq<FlowSplit.uint32>)
    returns (target: int, appends: seq<Append>, seals: map<Key, nat>, ghost plan: seq<seq<Piece>>,
             ghost started: seq<real>)
    requires c.lanes >= 1 && rate > 0.0 && Ordered(flows) && CountedFrom(counted, flows)
    ensures StartedSoFar(c, rate, flows, |flows|, plan, started)
    ensures forall p: Piece :: AppendedTimes(appends, p) == if IsPlanned(plan, p) then 1 else 0
    ensures forall a | a in appends ::
              a.t == a.piece.due && a.piece.flow < |flows| && a.key == KeyOf(flows[a.piece.flow], a.key.lane)
    ensures forall a | a in appends :: IsPaced(c, rate, flows[a.piece.flow].start, a.piece.id, a.t)
    ensures forall k: Key :: CountOf(seals, k) == AppendedTo(appends, k)
    ensures forall f: nat | f < |flows| :: FlowBytes(appends, f) == FlowSplit.AtLeastOne(flows[f].length) as int
    ensures target <= |appends|
    ensures counted == Lengths(flows) ==>
      (target == |appends| <==> forall f | 0 <= f < |flows| :: !FlowSplit.Overflows(c, flows[f].length))
  {
    target := FlowSplit.CalculateTargetCompletionCount(c, counted);
    var scheduler := new TrafficScheduler(c, rate, flows);
    scheduler.Run();
    appends, seals, plan, started := scheduler.appends, scheduler.seals, scheduler.plan, scheduler.started;
    TargetMeetsPlan(c, rate, flows, plan, counted, target);
    FlowsAreAppended(c, rate, flows, plan, started, appends);
    AppendsArePaced(c, rate, flows, plan, started, appends);
  }
}
