/** The congestion policies' lane capacities and weights, and the recovery probes, for one
    pair of ToR switches. Times are nanoseconds. */
module DecisionSignal {
  import opened Sequences

  datatype Observation = Observation(nominal: nat, queue: nat, degraded: bool, samples: nat, age: nat)

  // --------------------------------------------------------------- weights

  lemma {:induction false} SumIsPositive(s: seq<real>)
    requires forall i | 0 <= i < |s| :: s[i] >= 0.0
    ensures RealSum(s) >= 0.0
    ensures RealSum(s) > 0.0 <==> exists i :: 0 <= i < |s| && s[i] > 0.0
    decreases |s|
  {
    if s != [] {
      var front := s[..|s| - 1];
      SumIsPositive(front);
      if i :| 0 <= i < |front| && front[i] > 0.0 {
        assert s[i] > 0.0;
      }
      if i :| 0 <= i < |s| && s[i] > 0.0 {
        assert i == |s| - 1 || front[i] > 0.0;
      }
    }
  }

  /** Shares of a total: not negative, adding up to 1, positive where the capacity is. */
  predicate IsShare(weights: seq<real>, capacities: seq<real>) {
    && |weights| == |capacities|
    && (forall i | 0 <= i < |weights| :: weights[i] >= 0.0 && (weights[i] > 0.0 <==> capacities[i] > 0.0))
    && RealSum(weights) == 1.0
  }

  lemma {:induction false} SumOfShares(weights: seq<real>, capacities: seq<real>, total: real)
    requires |weights| == |capacities| && total > 0.0
    requires forall i | 0 <= i < |weights| :: weights[i] == capacities[i] / total
    ensures RealSum(weights) == RealSum(capacities) / total
    decreases |weights|
  {
    if weights != [] {
      var n := |weights| - 1;
      SumOfShares(weights[..n], capacities[..n], total);
    }
  }

  lemma ShareSign(x: real, total: real)
    requires x >= 0.0 && total > 0.0
    ensures x / total >= 0.0 && (x / total > 0.0 <==> x > 0.0)
  {}

  /** The capacity-proportional weights; ok is the assertion that some capacity is left. */
  method Normalise(capacities: seq<real>) returns (ok: bool, weights: seq<real>)
    requires forall i | 0 <= i < |capacities| :: capacities[i] >= 0.0
    ensures ok <==> exists i :: 0 <= i < |capacities| && capacities[i] > 0.0
    ensures ok ==> IsShare(weights, capacities) && RealSum(capacities) > 0.0
    ensures ok ==> forall i | 0 <= i < |weights| :: weights[i] == capacities[i] / RealSum(capacities)
  {
    var total := 0.0;
    for i := 0 to |capacities|
      invariant total == RealSum(capacities[..i])
    {
      assert capacities[..i + 1][..i] == capacities[..i];
      total := total + capacities[i];
    }
    assert capacities[..|capacities|] == capacities;
    SumIsPositive(capacities);
    weights := [];
    ok := total > 0.0;
    if ok {
      for i := 0 to |capacities|
        invariant |weights| == i && forall k | 0 <= k < i :: weights[k] == capacities[k] / total
        invariant forall k | 0 <= k < i :: weights[k] >= 0.0 && (weights[k] > 0.0 <==> capacities[k] > 0.0)
      {
        ShareSign(capacities[i], total);
        weights := weights + [capacities[i] / total];
      }
      SumOfShares(weights, capacities, total);
      Whole(total);
    }
  }

  lemma Whole(total: real)
    requires total > 0.0
    ensures total / total == 1.0
  {}

  // ----------------------------------------------------------- binary holds

  /** A lane is held back while it was seen congested less than a hold time ago. */
  predicate Held(congestedAt: seq<nat>, hold: nat, now: nat) {
    exists i :: 0 <= i < |congestedAt| && now < congestedAt[i] + hold
  }

  /** until is the end of the latest hold, 0 without any. */
  predicate IsHold(congestedAt: seq<nat>, hold: nat, until: nat) {
    && (forall i | 0 <= i < |congestedAt| :: congestedAt[i] + hold <= until)
    && (until == 0 || exists i :: 0 <= i < |congestedAt| && until == congestedAt[i] + hold)
  }

  lemma Resighted(congestedAt: seq<nat>, hold: nat, until: nat, now: nat)
    requires IsHold(congestedAt, hold, until)
    ensures IsHold(congestedAt + [now], hold, if until < now + hold then now + hold else until)
  {
    var more := congestedAt + [now];
    assert more[|congestedAt|] == now && forall i | 0 <= i < |congestedAt| :: more[i] == congestedAt[i];
    if until >= now + hold && until != 0 {
      var i :| 0 <= i < |congestedAt| && until == congestedAt[i] + hold;
      assert until == more[i] + hold;
    }
  }

  lemma HeldByHold(congestedAt: seq<nat>, hold: nat, until: nat, now: nat)
    requires IsHold(congestedAt, hold, until)
    ensures Held(congestedAt, hold, now) <==> now < until
  {}

  /** Some bytes are queued, and no fewer than the marking threshold of the port's rate, if
      there is one. */
  ghost predicate Congested(o: Observation, kmin: map<nat, nat>) {
    o.queue != 0 && (o.nominal in kmin ==> kmin[o.nominal] <= o.queue)
  }

  /** The sights of congestion once the first l lanes have been looked at. */
  ghost function Sighted(before: seq<seq<nat>>, observations: seq<Observation>, kmin: map<nat, nat>, now: nat, l: nat)
    : (after: seq<seq<nat>>)
    requires |before| == |observations|
    ensures |after| == |before|
  {
    seq(|before|, k requires 0 <= k < |before| =>
      if k < l && Congested(observations[k], kmin) then before[k] + [now] else before[k])
  }

  lemma SightedNext(before: seq<seq<nat>>, observations: seq<Observation>, kmin: map<nat, nat>, now: nat, l: nat)
    requires l < |before| == |observations|
    ensures Sighted(before, observations, kmin, now, l)[l] == before[l]
    ensures Sighted(before, observations, kmin, now, l + 1) ==
      if Congested(observations[l], kmin) then Sighted(before, observations, kmin, now, l)[l := before[l] + [now]]
      else Sighted(before, observations, kmin, now, l)
    ensures Sighted(before, observations, kmin, now, l + 1)[..l + 1] ==
      Sighted(before, observations, kmin, now, l)[..l] + [Sighted(before, observations, kmin, now, l + 1)[l]]
  {}

  /** What the lanes seen so far get, and whether any of them is available. */
  predicate Judged(seen: seq<seq<nat>>, hold: nat, now: nat, observations: seq<Observation>, capacities: seq<real>,
                   availableCount: nat)
    requires |seen| <= |observations|
  {
    && |capacities| == |seen|
    && (forall k | 0 <= k < |seen| ::
          capacities[k] == if Held(seen[k], hold, now) then 0.0 else observations[k].nominal as real)
    && (availableCount == 0 <==> AllHeld(seen, hold, now))
  }

  lemma JudgedNext(seen: seq<seq<nat>>, next: seq<nat>, hold: nat, now: nat, observations: seq<Observation>,
                   capacities: seq<real>, availableCount: nat)
    requires |seen| < |observations| && Judged(seen, hold, now, observations, capacities, availableCount)
    ensures Held(next, hold, now) ==>
      Judged(seen + [next], hold, now, observations, capacities + [0.0], availableCount)
    ensures !Held(next, hold, now) ==>
      Judged(seen + [next], hold, now, observations, capacities + [observations[|seen|].nominal as real],
             availableCount + 1)
  {
    assert (seen + [next])[|seen|] == next && forall k | 0 <= k < |seen| :: (seen + [next])[k] == seen[k];
    assert AllHeld(seen + [next], hold, now) <==> AllHeld(seen, hold, now) && Held(next, hold, now);
  }

  class PairState {
    const lanes: nat
    const hold: nat
    const kmin: map<nat, nat>
    var holds: seq<nat>
    var lastEpochs: seq<int>
    /** When each lane was seen congested, and the probes sent so far. */
    ghost var congestedAt: seq<seq<nat>>
    ghost var probes: seq<(nat, nat)>
    ghost var epochNow: nat

    constructor (lanes: nat, hold: nat, kmin: map<nat, nat>)
      ensures HoldsValid() && ProbesValid() && this.lanes == lanes && this.hold == hold && this.kmin == kmin
      ensures probes == [] && congestedAt == seq(lanes, _ => [])
    {
      this.lanes, this.hold, this.kmin := lanes, hold, kmin;
      holds, lastEpochs := seq(lanes, _ => 0), seq(lanes, _ => -1);
      congestedAt, probes, epochNow := seq(lanes, _ => []), [], 0;
    }

    /** Each lane's hold is the latest one any congested sight of it asked for. */
    ghost predicate HoldsValid()
      reads this
    {
      && |holds| == |congestedAt| == lanes
      && forall l | 0 <= l < lanes :: IsHold(congestedAt[l], hold, holds[l])
    }

    /** Updates one lane's hold and says whether it is available. */
    method Observe(l: nat, o: Observation, now: nat) returns (available: bool)
      requires HoldsValid() && l < lanes
      modifies this`holds, this`congestedAt
      ensures HoldsValid()
      ensures congestedAt ==
        if Congested(o, kmin) then old(congestedAt)[l := old(congestedAt[l]) + [now]] else old(congestedAt)
      ensures available <==> !Held(congestedAt[l], hold, now)
    {
      var threshold := if o.nominal in kmin then kmin[o.nominal] else 0;
      var congested := o.queue > 0 && o.queue >= threshold;
      if congested {
        Resighted(congestedAt[l], hold, holds[l], now);
        congestedAt := congestedAt[l := congestedAt[l] + [now]];
        if holds[l] < now + hold {
          holds := holds[l := now + hold];
        }
      }
      available := now >= holds[l];
      HeldByHold(congestedAt[l], hold, holds[l], now);
    }

    /** The queue-and-ECN policy: held lanes get nothing, the others their nominal rate;
        when all are held, all get their nominal rate. With positive nominal rates some
        capacity is always left. */
    method ApplyQueueEcnBinary(observations: seq<Observation>, now: nat) returns (capacities: seq<real>)
      requires HoldsValid() && |observations| == lanes
      modifies this`holds, this`congestedAt
      ensures HoldsValid() && |congestedAt| == |capacities| == lanes
      ensures forall l | 0 <= l < lanes ::
        congestedAt[l] == if Congested(observations[l], kmin) then old(congestedAt[l]) + [now] else old(congestedAt[l])
      ensures forall l | 0 <= l < lanes ::
        capacities[l] == if Held(congestedAt[l], hold, now) && !AllHeld(congestedAt, hold, now) then 0.0
                         else observations[l].nominal as real
      ensures lanes > 0 && (forall l | 0 <= l < lanes :: observations[l].nominal > 0) ==>
        exists l :: 0 <= l < lanes && capacities[l] > 0.0
    {
      var availableCount;
      capacities, availableCount := ObserveAll(observations, now);
      if availableCount == 0 {
        capacities := RestoreAll(observations);
      }
      if lanes > 0 && forall l | 0 <= l < lanes :: observations[l].nominal > 0 {
        SomeCapacity(observations, congestedAt, now, capacities);
      }
    }

    /** One sight of every lane, and what the lanes that are not held get. */
    method ObserveAll(observations: seq<Observation>, now: nat) returns (capacities: seq<real>, availableCount: nat)
      requires HoldsValid() && |observations| == lanes
      modifies this`holds, this`congestedAt
      ensures HoldsValid() && congestedAt == Sighted(old(congestedAt), observations, kmin, now, lanes)
      ensures Judged(congestedAt, hold, now, observations, capacities, availableCount)
    {
      capacities := [];
      availableCount := 0;
      for l := 0 to lanes
        invariant HoldsValid() && congestedAt == Sighted(old(congestedAt), observations, kmin, now, l)
        invariant Judged(congestedAt[..l], hold, now, observations, capacities, availableCount)
      {
        SightedNext(old(congestedAt), observations, kmin, now, l);
        JudgedNext(congestedAt[..l], Sighted(old(congestedAt), observations, kmin, now, l + 1)[l], hold, now,
                   observations, capacities, availableCount);
        var available := Observe(l, observations[l], now);
        if available {
          availableCount := availableCount + 1;
          capacities := capacities + [observations[l].nominal as real];
        } else {
          capacities := capacities + [0.0];
        }
      }
      assert congestedAt[..lanes] == congestedAt;
    }

    lemma SomeCapacity(observations: seq<Observation>, congestedAt: seq<seq<nat>>, now: nat, capacities: seq<real>)
      requires |observations| == |congestedAt| == |capacities| > 0
      requires forall l | 0 <= l < |observations| :: observations[l].nominal > 0
      requires forall l | 0 <= l < |observations| ::
        capacities[l] == if Held(congestedAt[l], hold, now) && !AllHeld(congestedAt, hold, now) then 0.0
                         else observations[l].nominal as real
      ensures exists l :: 0 <= l < |capacities| && capacities[l] > 0.0
    {
      if AllHeld(congestedAt, hold, now) {
        assert capacities[0] > 0.0;
      } else {
        var l :| 0 <= l < |congestedAt| && !Held(congestedAt[l], hold, now);
        assert capacities[l] > 0.0;
      }
    }

    /** All lanes get their nominal rate back. */
    method RestoreAll(observations: seq<Observation>) returns (capacities: seq<real>)
      requires |observations| == lanes
      ensures |capacities| == lanes
      ensures forall l | 0 <= l < lanes :: capacities[l] == observations[l].nominal as real
    {
      capacities := [];
      for l := 0 to lanes
        invariant |capacities| == l
        invariant forall k | 0 <= k < l :: capacities[k] == observations[k].nominal as real
      {
        capacities := capacities + [observations[l].nominal as real];
      }
    }

    // ------------------------------------------------------ recovery probes

    /** Probes never repeat a lane within an epoch. */
    ghost predicate ProbesValid()
      reads this
    {
      && |lastEpochs| == lanes
      && (forall l | 0 <= l < lanes :: lastEpochs[l] <= epochNow)
      && (forall l | 0 <= l < lanes :: lastEpochs[l] == -1 || (l, lastEpochs[l]) in probes)
      && (forall i | 0 <= i < |probes| :: probes[i].0 < lanes && probes[i].1 <= lastEpochs[probes[i].0])
      && (forall i, j | 0 <= i < j < |probes| :: probes[i] != probes[j])
    }

    method SendProbe(l: nat, epoch: nat)
      requires ProbesValid() && l < lanes && lastEpochs[l] != epoch && epoch == epochNow
      modifies this`lastEpochs, this`probes
      ensures ProbesValid() && probes == old(probes) + [(l, epoch)]
    {
      lastEpochs := lastEpochs[l := epoch];
      probes := probes + [(l, epoch)];
    }

    /** Sends at most one probe, over the first lane that is degraded and stale and has had
        none in this epoch, when the chunk is small enough and the next sample near. */
    method MaybeSelectRecoveryProbe(observations: seq<Observation>, now: nat, chunkSize: nat, period: nat,
                                    samplePeriod: nat, cap: nat, stale: nat)
      returns (lane: int)
      requires ProbesValid() && |observations| == lanes && samplePeriod > 0
      requires period > 0 ==> epochNow <= now / period
      modifies this`lastEpochs, this`probes, this`epochNow
      ensures ProbesValid() && (period > 0 ==> epochNow == now / period)
      ensures -1 <= lane < lanes
      ensures lane == -1 ==> probes == old(probes)
      ensures lane >= 0 ==> period > 0 && 0 < chunkSize <= cap && probes == old(probes) + [(lane, now / period)]
      ensures lane >= 0 ==> Eligible(observations[lane], now, chunkSize, samplePeriod, stale)
      ensures period > 0 && 0 < chunkSize <= cap ==>
        forall l | 0 <= l < (if lane == -1 then lanes else lane) ::
          !Eligible(observations[l], now, chunkSize, samplePeriod, stale) || (l, now / period) in old(probes)
    {
      if period == 0 || cap == 0 || chunkSize == 0 {
        if period > 0 {
          epochNow := now / period;
        }
        return -1;
      }
      var probeEpoch := now / period;
      epochNow := probeEpoch;
      for l := 0 to lanes
        invariant ProbesValid() && epochNow == probeEpoch && probes == old(probes)
        invariant forall k | 0 <= k < l :: chunkSize <= cap ==>
          !Eligible(observations[k], now, chunkSize, samplePeriod, stale) || (k, probeEpoch) in probes
      {
        var eligible := IsEligible(observations[l], now, chunkSize, samplePeriod, stale);
        if eligible && lastEpochs[l] != probeEpoch && chunkSize <= cap {
          SendProbe(l, probeEpoch);
          return l;
        }
      }
      return -1;
    }
  }

  predicate AllHeld(congestedAt: seq<seq<nat>>, hold: nat, now: nat) {
    forall l | 0 <= l < |congestedAt| :: Held(congestedAt[l], hold, now)
  }

  /** Degraded with stale samples, and the chunk is still being sent, at the nominal rate, in
      the nanosecond before the next sample: at that time fewer bits have gone than it has. */
  ghost predicate Eligible(o: Observation, now: nat, chunkSize: nat, samplePeriod: nat, stale: nat)
    requires samplePeriod > 0
  {
    && o.degraded && o.samples > 0 && o.age >= stale
    && o.nominal > 0
    && (samplePeriod - now % samplePeriod - 1) * o.nominal < chunkSize * 8_000_000_000
  }

  method IsEligible(o: Observation, now: nat, chunkSize: nat, samplePeriod: nat, stale: nat) returns (eligible: bool)
    requires samplePeriod > 0
    ensures eligible <==> Eligible(o, now, chunkSize, samplePeriod, stale)
  {
    var timeToSample := samplePeriod - now % samplePeriod;
    var staleDegraded := o.degraded && o.samples > 0 && o.age >= stale;
    var window := ProbeWindow(chunkSize, o.nominal);
    WindowReaches(chunkSize, o.nominal, window, timeToSample);
    eligible := staleDegraded && timeToSample <= window;
  }

  /** The nanoseconds a chunk takes to send, rounded up; none without a rate. */
  method ProbeWindow(chunkSize: nat, nominal: nat) returns (window: nat)
    ensures nominal == 0 ==> window == 0
    ensures nominal > 0 ==> window * nominal >= chunkSize * 8_000_000_000
    ensures nominal > 0 && window > 0 ==> (window - 1) * nominal < chunkSize * 8_000_000_000
  {
    if nominal == 0 {
      return 0;
    }
    var bits := chunkSize * 8 * 1_000_000_000;
    RoundedUp(bits, nominal, (bits + nominal - 1) / nominal);
    window := (bits + nominal - 1) / nominal;
  }

  lemma RoundedUp(bits: nat, rate: nat, q: nat)
    requires rate > 0 && q == (bits + rate - 1) / rate
    ensures q * rate >= bits && (q - 1) * rate < bits
  {
    var v := bits + rate - 1;
    assert v == q * rate + v % rate;
    assert (q - 1) * rate == q * rate - rate;
  }

  lemma WindowReaches(chunkSize: nat, nominal: nat, window: nat, wait: nat)
    requires wait > 0 && (nominal == 0 ==> window == 0)
    requires nominal > 0 ==> window * nominal >= chunkSize * 8_000_000_000
    requires nominal > 0 && window > 0 ==> (window - 1) * nominal < chunkSize * 8_000_000_000
    ensures wait <= window <==> nominal > 0 && (wait - 1) * nominal < chunkSize * 8_000_000_000
  {
    if nominal > 0 {
      if wait <= window {
        NoMore(wait - 1, window - 1, nominal);
      } else {
        NoMore(window, wait - 1, nominal);
      }
    }
  }

  lemma NoMore(a: nat, b: nat, rate: nat)
    requires a <= b
    ensures a * rate <= b * rate
  {}

  // ---------------------------------------------------- sequence balancing

  /** The lane had a congestion notification, less than phi ago; time 0 stands for none. */
  ghost predicate Inactive(lastCnp: seq<nat>, phi: nat, now: nat, l: nat)
    requires l < |lastCnp|
  {
    lastCnp[l] != 0 && now < lastCnp[l] + phi
  }

  /** No lane was notified before this one: its hold ends first. */
  ghost predicate EndsFirst(lastCnp: seq<nat>, l: nat)
    requires l < |lastCnp|
  {
    forall k | 0 <= k < |lastCnp| :: lastCnp[l] <= lastCnp[k]
  }

  /** Until when each lane is held back; 0 without a notification. */
  method Holds(lastCnp: seq<nat>, phi: nat) returns (holds: seq<nat>)
    ensures |holds| == |lastCnp|
    ensures forall l | 0 <= l < |lastCnp| :: holds[l] == 0 <==> lastCnp[l] == 0
    ensures forall l | 0 <= l < |lastCnp| && lastCnp[l] != 0 :: holds[l] - phi == lastCnp[l]
  {
    holds := [];
    for l := 0 to |lastCnp|
      invariant |holds| == l
      invariant forall k | 0 <= k < l :: holds[k] == 0 <==> lastCnp[k] == 0
      invariant forall k | 0 <= k < l && lastCnp[k] != 0 :: holds[k] - phi == lastCnp[k]
    {
      holds := holds + [if lastCnp[l] == 0 then 0 else lastCnp[l] + phi];
    }
  }

  /** The least hold is that of the lanes whose hold ends first. */
  method EarliestHold(lastCnp: seq<nat>, phi: nat, holds: seq<nat>) returns (earliest: nat)
    requires lastCnp != [] && |holds| == |lastCnp|
    requires forall l | 0 <= l < |lastCnp| :: holds[l] == 0 <==> lastCnp[l] == 0
    requires forall l | 0 <= l < |lastCnp| && lastCnp[l] != 0 :: holds[l] - phi == lastCnp[l]
    ensures exists l :: 0 <= l < |lastCnp| && EndsFirst(lastCnp, l)
    ensures forall l | 0 <= l < |lastCnp| :: EndsFirst(lastCnp, l) <==> holds[l] == earliest
  {
    earliest := holds[0];
    ghost var first := 0;
    for l := 1 to |holds|
      invariant 0 <= first < |holds| && earliest == holds[first]
      invariant forall k | 0 <= k < l :: earliest <= holds[k]
    {
      if holds[l] < earliest {
        earliest := holds[l];
        first := l;
      }
    }
    assert EndsFirst(lastCnp, first);
    forall l | 0 <= l < |lastCnp|
      ensures EndsFirst(lastCnp, l) <==> holds[l] == earliest
    {
      if EndsFirst(lastCnp, l) {
        assert lastCnp[l] <= lastCnp[first];
      }
    }
  }

  /** Inactive lanes get nothing and the others their nominal rate; when all are inactive,
      those whose hold ends first get their nominal rate. With positive nominal rates some
      capacity is always left, as the policy asserts. */
  method ApplySeqBalanceBinary(lastCnp: seq<nat>, nominal: seq<real>, phi: nat, now: nat)
    returns (capacities: seq<real>, fallback: bool)
    requires |lastCnp| == |nominal| > 0
    ensures |capacities| == |nominal|
    ensures fallback <==> forall l | 0 <= l < |nominal| :: Inactive(lastCnp, phi, now, l)
    ensures forall l | 0 <= l < |nominal| ::
      capacities[l] ==
        if (if fallback then EndsFirst(lastCnp, l) else !Inactive(lastCnp, phi, now, l)) then nominal[l]
                       else 0.0
    ensures (forall l | 0 <= l < |nominal| :: nominal[l] > 0.0) ==>
      exists l :: 0 <= l < |nominal| && capacities[l] > 0.0
  {
    var holds := Holds(lastCnp, phi);
    capacities, fallback := [], true;
    for l := 0 to |nominal|
      invariant |capacities| == l
      invariant fallback <==> forall k | 0 <= k < l :: Inactive(lastCnp, phi, now, k)
      invariant forall k | 0 <= k < l :: capacities[k] == if Inactive(lastCnp, phi, now, k) then 0.0 else nominal[k]
    {
      var inactive := now < holds[l];
      assert inactive == Inactive(lastCnp, phi, now, l);
      capacities := capacities + [if inactive then 0.0 else nominal[l]];
      fallback := fallback && inactive;
    }
    if fallback {
      var earliest := EarliestHold(lastCnp, phi, holds);
      for l := 0 to |nominal|
        invariant |capacities| == |nominal|
        invariant forall k | 0 <= k < l :: capacities[k] == if EndsFirst(lastCnp, k) then nominal[k] else 0.0
        invariant forall k | l <= k < |nominal| :: capacities[k] == 0.0
      {
        assert EndsFirst(lastCnp, l) <==> holds[l] == earliest;
        if holds[l] == earliest {
          capacities := capacities[l := nominal[l]];
        }
      }
      ghost var first :| 0 <= first < |lastCnp| && EndsFirst(lastCnp, first);
      assert capacities[first] == nominal[first];
    }
  }
}
