# Network load-balance experiment driver: a verified model

This project models the stateful parts of the network load-balance experiment driver and
the scripts around it, and proves what they promise. `dafny verify dfyconfig.toml` checks
everything.

| files | what they model |
|---|---|
| `LaneFairness`, `LaneScheduler`, `ZeroWeights`, `ZeroWeightBound` | the byte-deficit lane scheduler as the greedy cup game, with its harmonic bound, when zero weights break it, and the exact bound they leave |
| `DecisionSignal` | congestion holds, weights and recovery probes behind a lane decision |
| `Oracle`, `OracleAvoid` | the bad-lane oracle and the link rates it speaks about; when avoiding its lane keeps chunks off the degraded uplink |
| `FlowSplit`, `EventQueue`, `FlowPlan`, `TrafficRun`, `PooledRun` | splitting flows, the completion target, the event loop that commits and seals, and fairness of the bytes it appends |
| `ProbeLog`, `ProbeTables`, `ProbeSteps`, `HostSensing` | the host probe lifecycle over two objects |
| `DeliveryWindow` | the running window minimum and the smoothed delivery rate |
| `Network`, `PathMetrics`, `Routing` | graphs whose hosts are never transit nodes; breadth-first routes, their delays and rates, and link failure |
| `PathEnumeration`, `FatTree` | registered paths of ToR pairs, and the generated fat trees |
| `Digraph`, `Topsort`, `TopsortLevels`, `FindCycles` | the graph tools of the Python bindings |
| `TestDriver` | the parallel test driver, over every interleaving |
| `CdfSampling`, `FlowTrace` | the traffic generator, its table lookups, the trace checks and the run that follows |
| `PatchSet` | writing and parsing unified diffs |
| `Sequences`, `Wrappers` | sums, repetitions and missing values, shared by the others |

Objects the sources update in place are classes here; ghost fields hold the history that
the fields summarise, and a validity predicate ties the two together. Protocols with
several parties are state machines over their steps. Weights, rates, deficits and times
given as doubles in the sources are exact reals; times in nanoseconds or microseconds are
integers. Assertions, aborts and exceptions are results of their own (`ok`, `None`).

Where the code does not do what one might expect, the code is kept and the exact
condition is proved:

- A lane whose weight is zero is passed over, and then a lane can lag further than the
  harmonic bound: for every chunk size there is such a run with any three lanes or more
  (`ZeroWeightBreaksFairness`). With at most two lanes the bound holds for zero weights
  too, so it holds for all runs exactly then (`FairExactlyForTwo`). For n lanes and chunks
  of at most cap bytes, zero weights leave a bound of cap(n-1)/2 in either direction, and
  no smaller one (`AnyWeightsBound`, `BoundIsTight`).
- The oracle reports the first lane that leaves by the degraded port, and the avoid policy
  takes the weight of that lane only, also after a recovery. Chunks stay off the uplink
  exactly when no other lane with some capacity leaves by it (`KeptOffExactlyAlone`). On a
  fat tree with two aggregation switches a pod or more, and a lane for each path, that
  holds towards the ToRs of the same pod and of no other (`FatTreeKeptOff`).
- The 32-bit rounding up of the predicted chunk count can wrap around; the prediction of
  that flow is then 0, and the run waits for too few completions (`PredictedOrShort`,
  `LargestFlowOverflows`).
- A probe posted at time 0 looks like one never posted. The assertion on the warm-up
  start lets it start at 0, but a run that does never freezes its baseline: it stops at the
  first completion, or when the flows start (`ZeroStartStops`, `StartDecides`).
- With a fractional oversubscription the two truncations of the fat-tree generator can
  disagree; servers without a link are left over (`EveryServerLinked`,
  `FractionLeavesServers`).
- A removed line that begins with `-- `, or an added one that begins with `++ `, is
  written as a file name line and not read back (`RoundTrip`).
- The trace generator draws the delay to a host's next flow before it writes the one that
  is due, and drops the due flow when the next one is past the horizon, however early the
  due one is (`LastFlowDropped`, `DueFlowsDropped`).
- The trace checks accept any size and priority group, but the scheduler reads them into
  32 bits. A number that is too large fails the stream: that flow is read with the largest
  number and the start time of the flow before it, and so are all flows after it
  (`ReadAsWritten`, `HugeSizeIsMisread`).
- With no worker the test driver waits for ever once a test is dispatched
  (`NoWorkersNeverDone`).
- The comment in `bindings/python/topsort.py:109` says that leftover nodes have a child;
  they have a parent, which is what makes the cycle.

## Model

| member | source | states |
|---|---|---|
| LaneFairness.GreedyRunIsBalanced | scratch/network-load-balance/traffic-scheduler.cc:551-587 | in a greedily played cup game every set of lanes stays within the slack of its size, whatever shares each round hands out |
| LaneFairness.GreedyBounds | scratch/network-load-balance/traffic-scheduler.cc:551-587 | a position reached greedily from zero lies between -cap(1-1/n) and cap(1/2+...+1/n) in every lane |
| LaneFairness.PositionSumsToZero | scratch/network-load-balance/traffic-scheduler.cc:551-587 | each round credits as much as it charges, greedy or not |
| LaneScheduler.DeficitIsDueMinusSent | scratch/network-load-balance/traffic-scheduler.cc:551-587 | after any run, probes included, a lane's deficit is its weighted share of all chunks minus the bytes sent on it |
| LaneScheduler.DeficitsSumToZero | scratch/network-load-balance/traffic-scheduler.cc:551-587 | the deficits of a pair always sum to zero, also with probes and zero weights |
| LaneScheduler.PoolIsFair | scratch/network-load-balance/traffic-scheduler.cc:551-587 | with positive, possibly changing weights and chunks of at most cap bytes a lane lags its share by at most cap(1/2+...+1/n) and leads it by at most cap(1-1/n) |
| ZeroWeights.FairExactlyForTwo | scratch/network-load-balance/traffic-scheduler.cc:551-587 | for weights that are not negative both bounds hold over all runs exactly when there are at most two lanes, or nothing to send |
| ZeroWeights.ZeroWeightBreaksFairness | scratch/network-load-balance/traffic-scheduler.cc:574-577 | for any three lanes or more and any chunk size, a run of such chunks after which the last lane lags an eighth of a chunk more than the bound |
| ZeroWeightBound.AnyWeightsBound | scratch/network-load-balance/traffic-scheduler.cc:551-587 | however weights that are not negative change, a lane of n neither lags nor leads its share by more than cap(n-1)/2, after any run with chunks of at most cap bytes |
| ZeroWeightBound.BoundIsTight | scratch/network-load-balance/traffic-scheduler.cc:551-587 | for any number of lanes and any chunk size some run takes one lane as close to that bound as one likes and another as close to its negative |
| LaneScheduler.SubflowsAreFair | scratch/network-load-balance/traffic-scheduler.cc:590-611 | without a pool and with fixed weights no lane gets more than one chunk ahead of another, per unit of weight: its bytes times the other's weight are at most the other's bytes, or a chunk more, times its own |
| LaneScheduler.TrafficScheduler.SelectLane | scratch/network-load-balance/traffic-scheduler.cc:543-611 | each decision extends the run of its ToR pair by one, a greedy one or a probe on its lane, leaves other pairs alone and keeps the counters those of the runs |
| LaneScheduler.PickBest | scratch/network-load-balance/traffic-scheduler.cc:571-587 | the scan finds the positive-weight lane with the largest value, ties to the larger weight and then the earlier lane |
| LaneScheduler.ChargeDeficits | scratch/network-load-balance/traffic-scheduler.cc:551-587 | one pooled decision turns the deficits of a run into those of the run with the decision added |
| LaneScheduler.AddBytes | scratch/network-load-balance/traffic-scheduler.cc:590-611 | one decision without a pool takes the lane with the fewest bytes per unit of positive weight, compared by cross products, ties to the larger weight and the earlier lane, and turns the byte counters of a run into those of the longer run |
| LaneScheduler.PickLightest | scratch/network-load-balance/traffic-scheduler.cc:594-608 | the scan over negated bytes per weight finds that lane, or lane 0 when no weight is positive |
| DecisionSignal.Normalise | scratch/network-load-balance/traffic-scheduler.cc:528-538 | the weights are not negative, add up to 1, and are positive exactly where the capacity is; the assertion fails exactly when no capacity is left |
| DecisionSignal.PairState.Observe | scratch/network-load-balance/traffic-scheduler.cc:262-282 | the single stored hold of a lane answers for its whole history: available exactly when no congested sight of it, with some queue at the marking threshold of its rate or above, is less than a hold time old |
| DecisionSignal.PairState.ApplyQueueEcnBinary | scratch/network-load-balance/traffic-scheduler.cc:248-286 | held lanes get nothing and the others their nominal rate, all of them when all are held; with positive nominal rates some capacity is left |
| DecisionSignal.PairState.MaybeSelectRecoveryProbe | scratch/network-load-balance/traffic-scheduler.cc:331-374 | over all decisions no lane gets two probes in one epoch, and the lane chosen is the first eligible one without a probe in this epoch |
| DecisionSignal.IsEligible | scratch/network-load-balance/traffic-scheduler.cc:346-365 | comparing the wait for the next sample with the sending time, rounded up, tells exactly whether the chunk is still being sent in the nanosecond before that sample; a lane without a rate or without stale degraded samples never is eligible |
| DecisionSignal.ApplySeqBalanceBinary | scratch/network-load-balance/traffic-scheduler.cc:288-329 | inactive lanes get nothing; when all are inactive exactly those whose hold ends first are used, so some capacity is left |
| DecisionSignal.EarliestHold | scratch/network-load-balance/traffic-scheduler.cc:319-328 | the least hold is that of exactly the lanes before which no lane was notified |
| DecisionSignal.Holds | scratch/network-load-balance/traffic-scheduler.cc:309-309 | a lane's hold ends phi after its last notification, and at 0 exactly without one |
| Oracle.GetBadLane | scratch/network-load-balance/traffic-scheduler.cc:174-239 | a bad lane is found exactly when the spine exists, some event concerns it, it is linked and a path leaves by that port; it is the first such path, with the fraction of the last due event |
| Oracle.ScanEvents | scratch/network-load-balance/traffic-scheduler.cc:187-205 | one pass over an event list in any order finds the last due event in execution order, ties to the later entry, and 1.0 before any |
| Oracle.LinkRates.DegradeLink | scratch/network-load-balance/topology.cc:374-389 | sets the rate of the link, and of its reverse when both directions degrade, to the whole number at or just below that fraction of nominal, and no other |
| Oracle.LinkRates.RunUntil | scratch/network-load-balance/topology.cc:398-410 | executing the due events by time, then list order, leaves the link from any ToR to the spine at the whole number at or just below its nominal rate times the fraction in force |
| Oracle.OracleAgreesWithLink | scratch/network-load-balance/traffic-scheduler.cc:174-239 | whenever the oracle finds a bad lane the simulated link runs, at that moment, at the whole number at or just below nominal times the reported fraction |
| OracleAvoid.BuildDecisionSignal | scratch/network-load-balance/traffic-scheduler.cc:444-538 | under oracle-avoid the first lane by the degraded port gets no weight once an event for its link is due, whatever the fraction, and the others keep their proportions; the assertion fails exactly when no capacity is left |
| OracleAvoid.KeptOffExactlyAlone | scratch/network-load-balance/traffic-scheduler.cc:446-448 | over all runs with one lane avoided no chunk leaves by the port if and only if no other lane with some capacity leaves by it |
| OracleAvoid.WeightedGetsTurn | scratch/network-load-balance/traffic-scheduler.cc:571-587 | for every lane with some weight there is a run with these weights in which that lane is chosen |
| OracleAvoid.LeakKeepsUp | scratch/network-load-balance/traffic-scheduler.cc:551-587 | each lane, also one that shares the degraded uplink, is sent its share but for the exact bound |
| OracleAvoid.UplinkIsShared | src/point-to-point/model/letflow-routing.cc:282-296 | with two aggregation switches a pod or more, two places of a ToR's path table towards another pod leave by any one uplink |
| OracleAvoid.UplinkIsAlone | src/point-to-point/model/letflow-routing.cc:282-296 | towards a ToR of the same pod only one place of the table leaves by an uplink |
| OracleAvoid.FatTreeKeptOff | scratch/network-load-balance/traffic-scheduler.cc:446-448 | on every such tree, with a lane for each path, avoiding a lane keeps all chunks off its uplink if and only if the destination is in the same pod |
| Oracle.BuildEvents | run.py:594-611 | the event list of each degradation mode; a recovery outside the horizon is refused |
| Oracle.FlapMeans | run.py:602-609 | up to the horizon a flap is at its low fraction exactly when an even number of whole periods has passed since its start |
| Oracle.ScheduleMeans | run.py:594-611 | every mode's list, executed, has the fraction in force that the mode means at every moment before the horizon |
| FlowSplit.SplitIntoChunks | scratch/network-load-balance/traffic-scheduler.cc:990-1010 | chunk mode: positive pieces that add up to the flow, full chunks and a last one no larger, or one piece below the gate |
| FlowSplit.SplitIntoLanes | scratch/network-load-balance/traffic-scheduler.cc:1012-1024 | lane mode: one piece a lane or a byte, equal but for the remainder in the last |
| FlowSplit.SplitFlow | scratch/network-load-balance/traffic-scheduler.cc:972-1034 | every flow is split as its mode requires, length 0 counted as 1 |
| FlowSplit.SplitIsUnique | scratch/network-load-balance/traffic-scheduler.cc:985-1024 | the requirements on a split leave exactly one list of pieces |
| FlowSplit.CountIsRight | scratch/network-load-balance/traffic-scheduler.cc:113-125 | the predicted count of a flow is the number of its pieces, or 0 when the 32-bit rounding up overflows |
| FlowSplit.CalculateTargetCompletionCount | scratch/network-load-balance/traffic-scheduler.cc:127-148 | the target is the sum of the predictions, or the number of flows with one lane |
| FlowSplit.PredictedOrShort | scratch/network-load-balance/traffic-scheduler.cc:127-148 | the prediction never exceeds the pieces of all flows and equals them exactly when no flow overflows |
| FlowSplit.LargestFlowOverflows | scratch/network-load-balance/traffic-scheduler.cc:113-125 | a flow of 2^32-1 bytes with chunks of 64 KiB is predicted to need no completion |
| FlowSplit.TargetMeetsInstalled | scratch/network-load-balance/traffic-scheduler.cc:113-148 | for every flow list and setting the run waits for exactly the subflows installed if and only if no flow overflows |
| EventQueue.NothingOnItsWay | scratch/network-load-balance/traffic-scheduler.cc:864-872 | with no piece pending every entry's count is the number of appends to it and every planned piece was appended once |
| EventQueue.ChunkSent | scratch/network-load-balance/traffic-scheduler.cc:665-675 | turning a chunk into a commit keeps all accounts when the entry's count goes up by one |
| EventQueue.CommitDone | scratch/network-load-balance/traffic-scheduler.cc:840-862 | turning a commit into an append keeps all accounts |
| EventQueue.PieceScheduled | scratch/network-load-balance/traffic-scheduler.cc:1000-1004 | planning one more piece and scheduling it keeps all accounts |
| FlowPlan.PlanFlow | scratch/network-load-balance/traffic-scheduler.cc:982-1024 | in chunk mode the delay of each piece times the commit rate is the number of bytes before it; outside chunk mode each piece is due at the start |
| FlowPlan.PieceIsPaced | scratch/network-load-balance/traffic-scheduler.cc:990-1010 | in chunk mode the i-th piece of a flow is due as long after its start as i full chunks take at the commit rate, and at the start outside chunk mode |
| FlowPlan.CalmAfterSeal | scratch/network-load-balance/traffic-scheduler.cc:1043-1046 | when the seal is the earliest event no chunk and no commit is pending and every append is strictly earlier |
| FlowPlan.CalmWithNext | scratch/network-load-balance/traffic-scheduler.cc:1036-1048 | after a look at the list either the next look is pending at the next flow's start, or the seal later than every commit |
| FlowPlan.TargetMeetsPlan | scratch/network-load-balance/traffic-scheduler.cc:127-148 | the completion target is at most the number of planned pieces, and equal exactly when no flow overflows |
| FlowPlan.FlowIsAppended | scratch/network-load-balance/traffic-scheduler.cc:972-1034 | when each planned piece and no other was appended once, the bytes appended for a flow over all its lanes are its length, one for an empty flow |
| TrafficRun.TrafficScheduler.constructor | scratch/network-load-balance/traffic-scheduler.cc:75-80 | starts at the first flow with one look at the flow list pending at time 0, or with nothing for an empty list |
| TrafficRun.TrafficScheduler.StartFlow | scratch/network-load-balance/traffic-scheduler.cc:972-1033 | starts exactly the next flow, at its own time, and keeps all accounts |
| TrafficRun.TrafficScheduler.ScheduleFlowInputs | scratch/network-load-balance/traffic-scheduler.cc:969-1049 | starts all flows due now, then schedules the next look or the seal, a nanosecond after the last commit or now |
| TrafficRun.TrafficScheduler.InstallRdmaSubflow | scratch/network-load-balance/traffic-scheduler.cc:665-675 | raises the count of the entry of the flow's end points and lane by one and schedules the commit at once |
| TrafficRun.TrafficScheduler.ScheduleV5Chunk | scratch/network-load-balance/traffic-scheduler.cc:613-652 | a due chunk is replaced by a commit at its own time to the entry of its flow and the lane selected, whose count goes up by one; the invariant of the run is kept |
| TrafficRun.TrafficScheduler.CommitPersistentWqe | scratch/network-load-balance/traffic-scheduler.cc:840-862 | a due commit is replaced by an append of its piece to its entry at its own time; the invariant of the run is kept |
| TrafficRun.TrafficScheduler.SealPersistentPools | scratch/network-load-balance/traffic-scheduler.cc:864-872 | every entry is sealed with its count, after all its commits |
| TrafficRun.TrafficScheduler.Run | scratch/network-load-balance/traffic-scheduler.cc:864-872 | every run, with same-time events in any order, ends; each piece was appended once, the counts sealed are the numbers appended, and nothing is appended at or after the seal |
| TrafficRun.RunExperiment | scratch/network-load-balance/traffic-scheduler.cc:969-1049 | for every ordered flow list each flow starts once at its own time, each piece is appended once to an entry of its own end points, as long after its flow's start as the full chunks before it take at the commit rate, all bytes of every flow are appended and no more, and the target is never more than the number of appends, and equal to it exactly when no flow overflows if all lengths were read when counting |
| PooledRun.ChunkMatches | scratch/network-load-balance/traffic-scheduler.cc:613-652 | sending a due chunk to the lane selected for it keeps, for every pair of ToRs and lane, the bytes appended or committed equal to the bytes the decisions sent |
| PooledRun.CommitMatches | scratch/network-load-balance/traffic-scheduler.cc:840-862 | turning a commit into an append keeps that equality |
| PooledRun.RunPooled | scratch/network-load-balance/traffic-scheduler.cc:613-652 | for every ordered flow list and any signals, each piece is appended once, all bytes of every flow are, the bytes appended to a lane between two ToRs are those its greedy run of decisions sent there, and, with no probe between them, they stay within the harmonic bounds of their share for positive weights and within cap(n-1)/2 for weights that are not negative |
| ProbeLog.RunsAreOrderly | scratch/network-load-balance/traffic-scheduler.cc:874-930 | over every course of events a probe is posted only after all before it have completed, and never completes before its post |
| ProbeLog.ZeroIffEpochAtZero | scratch/network-load-balance/traffic-scheduler.cc:86-93 | the first probe is posted at time 0 exactly when an epoch is due then, that is, when the warm-up starts at 0 |
| ProbeLog.FirstDecidesZero | scratch/network-load-balance/traffic-scheduler.cc:874-930 | no other probe is posted at time 0 unless the first one is |
| HostSensing.ZeroStartStops | scratch/network-load-balance/host-path-sensing.cc:147-170 | a run whose warm-up starts at time 0 goes through exactly as long as nothing completes and the flows have not started, and never has a frozen baseline |
| HostSensing.StartDecides | scratch/network-load-balance/host-path-sensing.cc:208-211 | one run that stops at its first completion, one that stops when the flows start, and the run that starts a nanosecond later and freezes its baseline |
| ProbeSteps.AnswerIsSound | scratch/network-load-balance/host-path-sensing.cc:338-360 | writing a completed probe's row adds exactly its true row |
| ProbeSteps.SkipIsSound | scratch/network-load-balance/host-path-sensing.cc:362-377 | writing a skipped epoch's row adds exactly its true row |
| ProbeSteps.GiveUpIsSound | scratch/network-load-balance/host-path-sensing.cc:392-430 | the flush gives an open probe a timeout row at its deadline |
| ProbeSteps.CompletionIsSound | scratch/network-load-balance/host-path-sensing.cc:147-170 | a completion leaves the tables true to the log, with no probe outstanding |
| ProbeSteps.ExpiryIsSound | scratch/network-load-balance/host-path-sensing.cc:196-206 | a timeout check marks only a probe that has not completed and changes no row |
| HostSensing.HostPathSensing.RecordCommit | scratch/network-load-balance/host-path-sensing.cc:132-145 | a new epoch's post is recorded and counted as outstanding; the assertion against posting twice holds |
| HostSensing.HostPathSensing.RecordProbeSkipped | scratch/network-load-balance/host-path-sensing.cc:186-194 | a skipped epoch is recorded, with its row at once when the baseline is known |
| HostSensing.HostPathSensing.RecordCompletion | scratch/network-load-balance/host-path-sensing.cc:147-170 | the assertion holds exactly for probes not posted at time 0; the completion and, when due, its row are recorded |
| HostSensing.HostPathSensing.CheckProbeTimeout | scratch/network-load-balance/host-path-sensing.cc:196-206 | marks the probe as timed out exactly when it is still open |
| HostSensing.HostPathSensing.EmitProbe | scratch/network-load-balance/host-path-sensing.cc:338-360 | adds the probe's row once; the sample age subtraction never goes below zero |
| HostSensing.HostPathSensing.FinalizeBaseline | scratch/network-load-balance/host-path-sensing.cc:208-225 | aborts exactly with too few samples; the baseline is the least warm-up delay, the threshold the least number of bytes the nominal rate needs for it, and every finished epoch gets its row |
| HostSensing.HostPathSensing.CloseOutputs | scratch/network-load-balance/host-path-sensing.cc:48-58 | adds a row for exactly the probes still open and not posted at time 0 |
| HostSensing.HostProbeScheduler.ScheduleHostProbeEpoch | scratch/network-load-balance/traffic-scheduler.cc:874-930 | posts exactly when no probe is outstanding, skips otherwise, does nothing from the stop time on, and stays in agreement with the sensor |
| HostSensing.HostProbeScheduler.SealHostProbe | scratch/network-load-balance/traffic-scheduler.cc:932-942 | the pair is sealed with the number of probes posted, unless none was |
| HostSensing.HostProbeScheduler.HostProbeWqeEvent | scratch/network-load-balance/traffic-scheduler.cc:944-953 | a completion frees the scheduler, whose assertion never fails |
| HostSensing.Simulate | scratch/network-load-balance/host-path-sensing.cc:338-430 | for every legal course of events that does not abort, once the baseline is frozen and the outputs closed each epoch has exactly one row, true to what happened (success, late success, timeout, skipped) |
| DeliveryWindow.DeliverySensor.constructor | scratch/network-load-balance/host-path-sensing.cc:67-74 | the first window starts from the backlog at the start |
| DeliveryWindow.DeliverySensor.RecordWqeEvent | scratch/network-load-balance/host-path-sensing.cc:101-111 | the stored minimum is the least backlog of the window after every event; the assertion fails exactly when completions would overtake commits |
| DeliveryWindow.DeliverySensor.SampleDeliveryWindow | scratch/network-load-balance/host-path-sensing.cc:227-274 | a window is valid exactly when the backlog was at the threshold or above at the previous sample and at every event since; the reported deltas add up to the completed bytes; a valid window moves the smoothed rate by the fraction beta of its distance to the raw rate, the first one sets it |
| DeliveryWindow.SmoothedIsWeighted | scratch/network-load-balance/host-path-sensing.cc:236-245 | closed form: the newest valid rate weighs beta, each one before it 1-beta times the next, and the oldest all that is left |
| DeliveryWindow.SmoothedStaysWithin | scratch/network-load-balance/host-path-sensing.cc:236-245 | for weights from 0 to 1 the smoothed rate lies between the least and the greatest valid raw rate |
| DeliveryWindow.BadWeightLeavesRange | scratch/network-load-balance/host-path-sensing.cc:241-244 | for every other weight it can leave that range |
| Network.ForwardingArrives | scratch/network-load-balance/topology.cc:254-256 | whatever next hops are chosen a packet arrives after exactly as many hops as its distance |
| Network.NextHopExists | scratch/network-load-balance/topology.cc:254-256 | every node that reaches the host has a next hop |
| Network.SecondIsNextHop | scratch/network-load-balance/topology.cc:254-256 | the second node of a shortest walk is a next hop, one hop closer |
| Routing.SearchFindsDistances | scratch/network-load-balance/topology.cc:235-258 | when the search queue is used up the distances are exact over walks that pass only switches, and no other node reaches the host |
| Routing.SearchFindsHops | scratch/network-load-balance/topology.cc:254-256 | the collected next hops are all neighbours one hop closer, each once |
| Routing.FindRoutes | scratch/network-load-balance/topology.cc:223-258 | the search gives every reached node its exact next hops and, over one shortest path, the sums of the delays and of the sending times, each rounded down, and the least rate; it changes no route to another host |
| PathMetrics.Cross | scratch/network-load-balance/topology.cc:245-249 | one more link turns the metrics of any list of links into those of the longer list: sums of delays and of sending times, least rate |
| Routing.TopologyManager.CalculateRoute | scratch/network-load-balance/topology.cc:223-268 | fills in the exact routes towards one host, and such metrics for every node that reaches it, and changes the entries of no other host |
| Routing.TopologyManager.CalculateRoutes | scratch/network-load-balance/topology.cc:290-295 | after it every host has exact routes, and every pair the metrics of one of its shortest paths |
| Routing.TopologyManager.TakeDownLink | scratch/network-load-balance/topology.cc:343-355 | a link that is up goes down both ways and all routes and metrics are exact for the graph without it; otherwise nothing changes, and no entry loses its index, delay or rate |
| Routing.LinksTakenDown | scratch/network-load-balance/topology.cc:346-350 | clearing the two flags removes the link and nothing else from the graph |
| PathEnumeration.UnpackPacked | scratch/network-load-balance/load-balancer-setup.cc:23-27 | each hop's port is read back from the packed identifier |
| PathEnumeration.PathIdDecodes | scratch/network-load-balance/load-balancer-setup.cc:32 | the identifier of a path gives back the output port of every hop |
| PathEnumeration.PathIdsDiffer | scratch/network-load-balance/load-balancer-setup.cc:115-117 | paths of one length from one source have different identifiers |
| PathEnumeration.ShortestIsPath | scratch/network-load-balance/load-balancer-setup.cc:109-157 | following next hops to the end and being a shortest walk are the same |
| PathEnumeration.DistViaHome | scratch/network-load-balance/load-balancer-setup.cc:95-101 | a single-homed host is one hop beyond its ToR from everywhere |
| PathEnumeration.NextHopsToHome | scratch/network-load-balance/load-balancer-setup.cc:109-112 | the next hops towards a host are those towards its ToR, and at the ToR the host alone |
| PathEnumeration.RegisterPath | scratch/network-load-balance/load-balancer-setup.cc:126-134 | the reused buffer spells the path just found and nothing stale, because all paths so far have this length |
| PathEnumeration.EnumeratePaths | scratch/network-load-balance/load-balancer-setup.cc:108-157 | gives up exactly when the ToRs are more than four links apart; from two links on registers exactly the shortest paths, with the distance as hop count |
| PathEnumeration.FindHomes | scratch/network-load-balance/load-balancer-setup.cc:60-84 | every host that a link attaches to a switch is found, with such a switch as its ToR |
| PathEnumeration.ConfigureSource | scratch/network-load-balance/load-balancer-setup.cc:84-159 | one source ToR's table has exactly a row of all shortest paths for each other served ToR |
| FatTree.TruncationIsValid | config/fat_topology_gen.py:10-24 | every oversubscription of at least 1 gives server counts the id layout is valid for |
| FatTree.WriteServerLinks | config/fat_topology_gen.py:42-48 | lists the server links, ascending |
| FatTree.WriteTorLinks | config/fat_topology_gen.py:50-57 | adds all links from ToRs to the aggregation switches of their pods, ascending |
| FatTree.WriteCoreLinks | config/fat_topology_gen.py:60-68 | adds all links from aggregation switches to their cores, ascending |
| FatTree.Generate | config/fat_topology_gen.py:38-68 | lists every link of the tree, none twice, and counts them |
| FatTree.SwitchCount | config/fat_topology_gen.py:10-36 | k pods of k/2 ToRs and k/2 aggregation switches and (k/2)^2 cores: 5k^2/4 switches, numbered after the servers |
| FatTree.EveryServerLinked | config/fat_topology_gen.py:21-22 | every server has a link exactly when the two truncated server counts agree |
| FatTree.FractionLeavesServers | config/fat_topology_gen.py:21-22 | four pods with an oversubscription of 1.25 leave a server without a link |
| FatTree.GeneratedIsNetwork | config/fat_topology_gen.py:42-68 | the listed links form a symmetric network of hosts and switches |
| FatTree.SamePodPaths | config/fat_topology_gen.py:50-57 | two ToRs of one pod are two links apart with exactly k/2 shortest paths |
| FatTree.OtherPodPaths | config/fat_topology_gen.py:60-68 | ToRs of different pods are four links apart with exactly (k/2)^2 shortest paths |
| FatTree.RegisteredInPod | scratch/network-load-balance/load-balancer-setup.cc:112-118 | k/2 different paths are registered between ToRs of one pod |
| FatTree.RegisteredAcrossPods | scratch/network-load-balance/load-balancer-setup.cc:137-155 | (k/2)^2 different paths are registered between ToRs of different pods |
| FatTree.ServerHomed | config/fat_topology_gen.py:42-48 | a linked server hangs off its own ToR and off no other node |
| FatTree.ConfigureTor | scratch/network-load-balance/load-balancer-setup.cc:84-159 | on every fat tree, from the generated links and the exact routes, the configuration of every ToR never takes the branch for a too large topology and gives a row of all shortest paths for each other ToR: k/2 in the pod, (k/2)^2 outside |
| Digraph.ParentsMakeCycle | bindings/python/topsort.py:108-111 | a non-empty set in which every node has a parent holds a cycle |
| Topsort.CountParents | bindings/python/topsort.py:77-90 | the counts and child lists of a pair list with repetitions |
| Topsort.KnockDown | bindings/python/topsort.py:97-106 | deleting a ready parent keeps the counts those of the remaining pairs and the answer in order |
| Topsort.LeftoverCycle | bindings/python/topsort.py:108-111 | leftover nodes with positive counts hold a cycle |
| Topsort.OrderedIsAcyclic | bindings/python/topsort.py:112 | only acyclic pairs have a topological order |
| Topsort.TopologicalSort | bindings/python/topsort.py:77-112 | returns exactly for acyclic pairs, every node once and parents first; otherwise the leftover nodes hold a cycle |
| TopsortLevels.YieldLevels | bindings/python/topsort.py:203-224 | each level is the nodes whose longest chain of ancestors has its length |
| TopsortLevels.SortLevels | bindings/python/topsort.py:203-232 | the levels are exact, cover all nodes exactly for acyclic pairs, and leave over exactly the nodes with chains of every length |
| TopsortLevels.CycleUnrolls | bindings/python/topsort.py:226-229 | a node on a cycle has ancestor chains of every length |
| FindCycles.IsRotated | bindings/python/rad_util.py:762-775 | true exactly for rotations |
| FindCycles.AddCycle | bindings/python/topsort.py:369-378 | a cycle is listed unless a rotation of it is |
| FindCycles.ExpandPath | bindings/python/topsort.py:362-385 | every child closes a listed cycle or makes a longer path, and the termination measure does not grow beyond the popped path's share |
| FindCycles.SearchRoot | bindings/python/topsort.py:351-385 | the stack runs empty, and every simple cycle reachable from the root is covered |
| FindCycles.FindAllCycles | bindings/python/topsort.py:343-385 | terminates on every finite graph; yields only simple cycles, no two rotations of each other, and a rotation of every simple cycle |
| FindCycles.ClosedWalkHasCycle | bindings/python/topsort.py:367-369 | every closed walk contains a simple cycle |
| FindCycles.NothingFoundIffAcyclic | bindings/python/topsort.py:343-385 | nothing is yielded exactly when the graph has no closed walk |
| TestDriver.StepKeepsInv | test.py:921-989 | every step of every thread keeps each job in exactly one place and the poison jobs last |
| TestDriver.ReachableInv | test.py:1575-1619 | so does every run, under every interleaving |
| TestDriver.RunsAreBounded | test.py:1594-1619 | no schedule runs for ever: a bound on the steps of every run |
| TestDriver.AlwaysProgress | test.py:1594-1619 | until the driver is done some thread can go on without an interrupt, given a worker or nothing to run |
| TestDriver.NoWorkersNeverDone | test.py:1313-1316 | with no worker and a test to run the driver never finishes |
| TestDriver.EachCollectedOnce | test.py:1594-1619 | once as many jobs are collected as dispatched, each test has come back once and nothing else is queued or held |
| TestDriver.CodesAreTrue | test.py:942-989 | on every run a test is launched at most once, a skipped one never, and its job carries what the launch returned |
| TestDriver.BreaksNeedInterrupt | test.py:935-938 | a test job becomes a break only if there was an interrupt |
| TestDriver.FinishedRun | test.py:1736-1803 | when the driver is done every job came back once, every worker took its poison job and left, the queues are empty, and the result is 0 exactly when every job passed or was skipped without being interrupted; the tally counts the skipped, passed, failed, valgrind and crashed jobs by their return codes |
| CdfSampling.TestCdf | traffic_gen/custom_rand.py:5-13 | accepts exactly the tables from 0 to 100 that strictly increase in both columns; an empty one raises |
| CdfSampling.CustomRand.SetCdf | traffic_gen/custom_rand.py:14-18 | keeps the old table unless the new one is accepted |
| CdfSampling.CurveIncreases | traffic_gen/custom_rand.py:31-44 | the table's curve is the graph of a strictly increasing function and of its inverse |
| CdfSampling.CustomRand.GetPercentileFromValue | traffic_gen/custom_rand.py:31-38 | on the table's range a point of the curve; -1 outside; negative below the first value |
| CdfSampling.CustomRand.GetValueFromPercentile | traffic_gen/custom_rand.py:39-44 | for percentiles from 0 to 100 a point of the curve; none above |
| CdfSampling.LookupsAreInverse | traffic_gen/custom_rand.py:31-44 | looking up and back gives the same, and both lookups strictly increase |
| CdfSampling.CustomRand.Rand | traffic_gen/custom_rand.py:28-30 | a draw from [0,1) gives a value of the table's range, its end excluded |
| CdfSampling.CustomRand.GetAvg | traffic_gen/custom_rand.py:19-27 | the area under the table's curve as a fraction |
| CdfSampling.CustomRand.GetIntegralY | traffic_gen/custom_rand.py:45-57 | the area up to a percentile, and the whole area above 100 |
| CdfSampling.WholeIntegralIsAverage | traffic_gen/custom_rand.py:45-57 | the integral up to 100 is the average |
| CdfSampling.IntegralBounds | traffic_gen/custom_rand.py:45-57 | between two percentiles the integral grows at least as fast as the lower value and at most as fast as the upper |
| PatchSet.TurnChanges | utils/check-style.py:231-264 | a line raises exactly when it cannot be read or has no patch or chunk to go to; otherwise it adds one patch, names the last one's destination, adds one empty chunk to the last patch, or adds itself to the current chunk, and changes nothing else |
| PatchSet.CurrentHoldsSince | utils/check-style.py:231-264 | the chunk that lines are added to is the one whose header was read last, and holds exactly the content lines read since, whatever file names came in between |
| PatchSet.ParsePatchset | utils/check-style.py:221-265 | the loop raises exactly where a turn does and otherwise returns what the turns built |
| PatchSet.ReadLine | utils/check-style.py:244-263 | a written line is read back as itself exactly when it does not look like a file name line |
| PatchSet.ReadMeans | utils/check-style.py:222-263 | what any line is read as, if and only if: a name by its mark, a chunk header by its four numerals whatever text follows it, content by its sign where neither fits |
| PatchSet.HeaderIsWritten | utils/check-style.py:180-195 | the four numerals of a written header: the positions, and as lengths the numbers of lines on each side, common ones counted on both |
| PatchSet.ReadHeader | utils/check-style.py:193-195 | a written chunk header is read back with its two positions |
| PatchSet.NumberOfDigits | utils/check-style.py:180-183 | reading a printed number gives the number |
| PatchSet.DigitsOfNumber | utils/check-style.py:169-171 | printing a number that was read gives its numeral back, when it had no zeros in front |
| PatchSet.PatchesComeBack | utils/check-style.py:215-219 | clean patches come back as they were |
| PatchSet.ParsedCounts | utils/check-style.py:221-265 | what is read holds as many lines as were read as content |
| PatchSet.RoundTrip | utils/check-style.py:157-265 | writing and reading gives the same patches exactly when no removed line begins with "-- " and no added one with "++ " |
| PatchSet.WriteLines | utils/check-style.py:157-165 | writes every line with its sign; raises exactly when some line has no side |
| PatchSet.WritePatches | utils/check-style.py:193-219 | the text of a whole patch set |
| PatchSet.SplitJoined | utils/check-style.py:231 | reading a file line by line undoes writing the lines |
| PatchSet.WriteAndParse | utils/check-style.py:157-265 | the same round trip through the text of the file |
| FlowTrace.ValidateFlowFile | run.py:251-292 | passes exactly the traces with valid rows in start order whose number is declared |
| FlowTrace.Generate | traffic_gen/traffic_gen.py:79-98 | for two hosts or more and any draws every row list passes the checks, and consists of each host's flows at their due times; a due flow is written exactly when the one after it is due within the horizon too; every row has priority group 3 and as size a value of the table's range cut to a whole number, or 1 below 1 |
| FlowTrace.LastFlowDropped | traffic_gen/traffic_gen.py:89-90 | every host is retired with a flow due that is never written, because the one after it would be past the horizon |
| FlowTrace.DueFlowsDropped | traffic_gen/traffic_gen.py:89-90 | two hosts with flows due well within the horizon and an empty trace |
| FlowTrace.HeapMin | traffic_gen/traffic_gen.py:84 | the head of the heap is its least entry |
| FlowTrace.FlowReader.ReadFlowInput | scratch/network-load-balance/traffic-scheduler.cc:955-960 | a row that fits is read as it is; the first that does not leaves the largest number in the field that is too large and the old values after it; nothing is read after that |
| FlowTrace.ReadFlows | scratch/network-load-balance/traffic-scheduler.cc:955-960 | the flows read are those of the rows up to the first that does not fit, then that one misread, over and over |
| FlowTrace.CountLengths | scratch/network-load-balance/traffic-scheduler.cc:131-148 | the counting pass sees the same lengths up to there, and 0 after it |
| FlowTrace.ReadAsWritten | scratch/network-load-balance/traffic-scheduler.cc:955-960 | the flows read are those of the trace exactly when its numbers fit 32 bits |
| FlowTrace.HugeSizeIsMisread | run.py:270-287 | a trace that passes the checks with a size of 2^32, after which the next two flows are read with the largest size and the first one's start |
| FlowTrace.ValidIsOrdered | run.py:282-287 | a valid trace is read as an ordered flow list, even where it is misread |
| FlowTrace.CheckAndRun | scratch/network-load-balance/traffic-scheduler.cc:955-1049 | every trace that passes the checks is consumed with each flow read started exactly once, in order, at the time read; the flows read are those of the trace exactly when its numbers fit 32 bits; the target is never more than the number of appends |

## Left out

- LaneScheduler.TrafficScheduler.SelectLane: floating-point rounding of weights and deficits is not modelled; they are exact reals.
- TrafficRun.TrafficScheduler.Run: times are exact; with doubles the nanosecond added to the last commit time could be rounded away.
- PooledRun.RunPooled: the fixed lanes of host sensing, for which no lane is selected, are not part of it; the signal of each decision is arbitrary.
- OracleAvoid.FatTreeKeptOff: capacities do not change during the run, and lanes and paths are equally many; `KeptOffExactlyAlone` covers any number of lanes.
- Oracle.LinkRates.RunUntil: the link-down event and the data rate class are not part of this model; only the rates set by degradation are.
- Oracle.BuildEvents: a flap period of zero or less, for which the loop does not end, is excluded.
- HostSensing.Simulate: the queue wait, congestion and retry columns of the rows and the separate truth file are left out; a probe's timer is taken to run before a completion at the same instant.
- DeliveryWindow.DeliverySensor.RecordWqeEvent: the identity checks on queue pairs (end points, group, lane, key) are left out; events of the target flow are given.
- PathEnumeration.EnumeratePaths: the tables of the four load balancers are one set of identifier and hop count pairs; the diagnostics and per-mode tables are left out.
- PathEnumeration.ConfigureSource: maps keyed by node pointers are taken in the order of node ids; the result does not depend on it.
- Routing.TopologyManager.TakeDownLink: the switch and host forwarding tables and the redistribution of queue pairs are left out; the routes they are filled from are modelled.
- Routing.FindRoutes: the search works on values and its result is stored in the class afterwards.
- Topsort.TopologicalSort: dictionaries are maps and their order is arbitrary; the child lists in the exception are left out.
- PatchSet.ParsePatchset: patches and chunks are values found by their place, not shared objects; the chunk that lines are added to may lie in an earlier patch, as in the source.
- PatchSet.WriteAndParse: names and lines hold no newline, as lines read from a file do not.
- FlowTrace.Generate: termination depends on the draws (delays of zero for ever), so the delays are a finite list; the header rewritten in place and the printing of times in decimal are left out.
- FlowTrace.CheckAndRun: the number of nodes, and of rows, is one that fits the 32-bit field it is read into; a topology or flow file where it does not is refused before the run.
- FlowTrace.ValidateFlowFile: splitting lines and converting fields to numbers are left out; rows are given as numbers.
- CdfSampling.CustomRand.Rand: the draws are arbitrary; their distribution is left out.
- TestDriver.FinishedRun: launching a process is an arbitrary return code; output files and messages are left out.
- DecisionSignal.PairState.ApplyQueueEcnBinary: the state of one pair of ToR switches; the map over pairs is left out, and so is the publication of estimated capacities.
- Sizes of 16-bit fields in pool keys, port counters and packet headers are left out.
- Monitoring, configuration parsing, plotting, the GTK viewer and the wireless fits are left out: input and output, or numeric fits.
