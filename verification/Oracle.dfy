/** The bad-lane oracle of the traffic scheduler and the link rates it speaks about.
    Times are microseconds. */
module Oracle {
  import FlowSplit
  import PathEnumeration
  import opened Wrappers

  /** time is relative to the start of the flows. */
  datatype Event = Event(time: nat, a: nat, b: nat, fraction: real)

  /** nominal gives the configured rate of each directed link. */
  datatype Config = Config(start: nat, bidirectional: bool, spine: nat, nodes: nat, nominal: map<(nat, nat), nat>,
                           events: seq<Event>)

  /** Links have two directions and fractions are not negative. */
  predicate WellFormed(c: Config) {
    && (forall l | l in c.nominal :: (l.1, l.0) in c.nominal)
    && (forall i | 0 <= i < |c.events| :: c.events[i].fraction >= 0.0)
  }

  // ------------------------------------------------------------- reference

  /** The i-th event sets the rate from tor to the spine. */
  predicate Concerns(c: Config, tor: nat, i: nat) {
    && i < |c.events|
    && (   (c.events[i].a == tor && c.events[i].b == c.spine)
        || (c.bidirectional && c.events[i].b == tor && c.events[i].a == c.spine))
  }

  function TimeOf(c: Config, i: nat): nat
    requires i < |c.events|
  {
    c.start + c.events[i].time
  }

  /** Execution order: by time, then by place in the list. */
  predicate Before(c: Config, i: nat, j: nat)
    requires i < |c.events| && j < |c.events|
  {
    TimeOf(c, i) < TimeOf(c, j) || (TimeOf(c, i) == TimeOf(c, j) && i < j)
  }

  /** k is the last event for tor and the spine, in execution order, among those allowed. */
  ghost predicate IsLast(c: Config, tor: nat, allowed: set<nat>, k: nat) {
    && k in allowed && Concerns(c, tor, k)
    && forall j: nat | j in allowed && Concerns(c, tor, j) && j != k :: Before(c, j, k)
  }

  ghost predicate NoneYet(c: Config, tor: nat, allowed: set<nat>) {
    forall j: nat | j in allowed :: !Concerns(c, tor, j)
  }

  /** The events due at a decision. */
  function Due(c: Config, decision: nat): (due: set<nat>)
  {
    set i: nat | i < |c.events| && TimeOf(c, i) <= decision
  }

  /** The fraction in force after the allowed events: that of the last one that concerns
      the link, 1 before any. */
  ghost predicate InForce(c: Config, tor: nat, allowed: set<nat>, fraction: real) {
    if NoneYet(c, tor, allowed) then fraction == 1.0
    else exists k: nat :: IsLast(c, tor, allowed, k) && c.events[k].fraction == fraction
  }

  lemma OneInForce(c: Config, tor: nat, allowed: set<nat>, f: real, g: real)
    requires InForce(c, tor, allowed, f) && InForce(c, tor, allowed, g)
    ensures f == g
  {
    if !NoneYet(c, tor, allowed) {
      var i: nat :| IsLast(c, tor, allowed, i) && c.events[i].fraction == f;
      var j: nat :| IsLast(c, tor, allowed, j) && c.events[j].fraction == g;
      assert i == j || Before(c, i, j);
    }
  }

  /** rate is that fraction of the nominal rate, rounded down to whole bits per second. */
  ghost predicate IsPart(rate: int, nominal: nat, fraction: real) {
    rate as real <= nominal as real * fraction < rate as real + 1.0
  }

  method Truncated(nominal: nat, fraction: real) returns (rate: int)
    ensures rate as real <= nominal as real * fraction < rate as real + 1.0
  {
    rate := (nominal as real * fraction).Floor;
  }

  lemma AllOfIt(nominal: nat)
    ensures IsPart(nominal, nominal, 1.0)
  {}

  // ------------------------------------------------------------ link rates

  class LinkRates {
    const c: Config
    var rates: map<(nat, nat), int>

    constructor (c: Config)
      ensures this.c == c && rates == c.nominal
    {
      this.c := c;
      rates := c.nominal;
    }

    /** Sets the rate of the link from a to b, and back when both directions degrade. */
    method DegradeLink(a: nat, b: nat, fraction: real)
      requires WellFormed(c) && rates.Keys == c.nominal.Keys
      modifies this
      ensures rates.Keys == c.nominal.Keys
      ensures forall l | l in rates ::
        if l == (a, b) || (c.bidirectional && l == (b, a)) then IsPart(rates[l], c.nominal[l], fraction)
        else rates[l] == old(rates)[l]
    {
      if (a, b) !in c.nominal {
        return;
      }
      var rate := Truncated(c.nominal[(a, b)], fraction);
      assert IsPart(rate, c.nominal[(a, b)], fraction);
      rates := rates[(a, b) := rate];
      if c.bidirectional {
        rate := Truncated(c.nominal[(b, a)], fraction);
        assert IsPart(rate, c.nominal[(b, a)], fraction);
        rates := rates[(b, a) := rate];
      }
    }

    /** The next pending event in execution order. */
    method First(pending: set<nat>) returns (k: nat)
      requires pending != {} && forall i | i in pending :: i < |c.events|
      ensures k in pending && forall i | i in pending && i != k :: Before(c, k, i)
    {
      k :| k in pending;
      var rest := pending - {k};
      while rest != {}
        invariant rest <= pending && k in pending
        invariant forall i | i in pending && i != k :: i in rest || Before(c, k, i)
        decreases |rest|
      {
        var i :| i in rest;
        rest := rest - {i};
        if TimeOf(c, i) < TimeOf(c, k) || (TimeOf(c, i) == TimeOf(c, k) && i < k) {
          k := i;
        }
      }
    }

    /** Executes the link events due at a decision, in execution order: the rate from any
        tor to the spine is then its nominal rate times the fraction in force. */
    method RunUntil(decision: nat, ghost tor: nat) returns (ghost fraction: real)
      requires WellFormed(c) && rates == c.nominal && (tor, c.spine) in c.nominal
      modifies this
      ensures InForce(c, tor, Due(c, decision), fraction)
      ensures (tor, c.spine) in rates && IsPart(rates[(tor, c.spine)], c.nominal[(tor, c.spine)], fraction)
    {
      var pending := Due(c, decision);
      ghost var executed: set<nat> := {};
      fraction := 1.0;
      AllOfIt(c.nominal[(tor, c.spine)]);
      while pending != {}
        invariant executed + pending == Due(c, decision)
        invariant forall i, j | i in executed && j in pending :: Before(c, i, j)
        invariant InForce(c, tor, executed, fraction)
        invariant rates.Keys == c.nominal.Keys
        invariant IsPart(rates[(tor, c.spine)], c.nominal[(tor, c.spine)], fraction)
        decreases |pending|
      {
        var k := First(pending);
        var e := c.events[k];
        DegradeLink(e.a, e.b, e.fraction);
        fraction := Execute(c, tor, executed, fraction, k);
        pending := pending - {k};
        executed := executed + {k};
      }
      assert executed == Due(c, decision);
    }
  }

  /** The fraction in force after one more event, later than all before it. */
  lemma Execute(c: Config, tor: nat, executed: set<nat>, fraction: real, k: nat) returns (next: real)
    requires InForce(c, tor, executed, fraction) && k < |c.events| && k !in executed
    requires forall i | i in executed :: i < |c.events| && Before(c, i, k)
    ensures next == (if Concerns(c, tor, k) then c.events[k].fraction else fraction)
    ensures InForce(c, tor, executed + {k}, next)
  {
    next := if Concerns(c, tor, k) then c.events[k].fraction else fraction;
    if Concerns(c, tor, k) {
      assert IsLast(c, tor, executed + {k}, k);
    } else if !NoneYet(c, tor, executed) {
      var j: nat :| IsLast(c, tor, executed, j) && c.events[j].fraction == fraction;
      assert IsLast(c, tor, executed + {k}, j);
    }
  }

  // ---------------------------------------------------------------- oracle

  datatype Verdict = Verdict(found: bool, lane: nat, fraction: real, since: Option<nat>)

  /** The due events among the first n of the list. */
  function DueAmong(c: Config, decision: nat, n: nat): set<nat> {
    set i: nat | i < |c.events| && i < n && TimeOf(c, i) <= decision
  }

  /** The scan of the event list. */
  method ScanEvents(c: Config, tor: nat, decision: nat) returns (local: bool, fraction: real, since: Option<nat>)
    ensures local <==> exists i: nat :: Concerns(c, tor, i)
    ensures InForce(c, tor, Due(c, decision), fraction)
    ensures since.Some? <==> !NoneYet(c, tor, Due(c, decision))
    ensures since.Some? ==> exists k: nat :: IsLast(c, tor, Due(c, decision), k) && since.value == TimeOf(c, k)
  {
    local, fraction, since := false, 1.0, None;
    var latest := -1;
    ghost var last: nat := 0;
    for i := 0 to |c.events|
      invariant local <==> exists j: nat :: j < i && Concerns(c, tor, j)
      invariant since == if latest == -1 then None else Some(latest)
      invariant latest == -1 ==> NoneYet(c, tor, DueAmong(c, decision, i)) && fraction == 1.0
      invariant latest != -1 ==> IsLast(c, tor, DueAmong(c, decision, i), last)
      invariant latest != -1 ==> latest == TimeOf(c, last) && fraction == c.events[last].fraction
    {
      var event := c.events[i];
      var matches :=
        (event.a == tor && event.b == c.spine) || (c.bidirectional && event.b == tor && event.a == c.spine);
      assert DueAmong(c, decision, i + 1) == DueAmong(c, decision, i) + if TimeOf(c, i) <= decision then {i} else {};
      assert matches == Concerns(c, tor, i);
      if matches {
        local := true;
        var eventTime := c.start + event.time;
        if eventTime <= decision && eventTime >= latest {
          latest := eventTime;
          fraction := event.fraction;
          since := Some(eventTime);
          last := i;
        }
      }
    }
    assert DueAmong(c, decision, |c.events|) == Due(c, decision);
  }

  /** port is the output port of the tor towards the spine, when they are linked; paths
      are the path identifiers towards the destination, when there is a table of them. */
  method GetBadLane(c: Config, tor: nat, port: Option<nat>, paths: Option<seq<nat>>, decision: nat) returns (v: Verdict)
    requires port.Some? <==> (tor, c.spine) in c.nominal
    ensures v.found <==>
      && c.spine < c.nodes && (exists i: nat :: Concerns(c, tor, i)) && port.Some? && paths.Some?
      && exists lane: nat :: lane < |paths.value| && PathEnumeration.OutPort(paths.value[lane], 0) == port.value
    ensures v.found ==> v.lane < |paths.value| && PathEnumeration.OutPort(paths.value[v.lane], 0) == port.value
    ensures v.found ==> forall lane | 0 <= lane < v.lane :: PathEnumeration.OutPort(paths.value[lane], 0) != port.value
    ensures v.found ==> InForce(c, tor, Due(c, decision), v.fraction)
    ensures v.found ==> (v.since.Some? <==> !NoneYet(c, tor, Due(c, decision)))
    ensures v.found && v.since.Some? ==> v.since.value <= decision
  {
    v := Verdict(false, 0, 1.0, None);
    if c.spine >= c.nodes {
      return;
    }
    var local, fraction, since := ScanEvents(c, tor, decision);
    v := Verdict(false, 0, fraction, since);
    if !local || port.None? || paths.None? {
      return;
    }
    for lane := 0 to |paths.value|
      invariant forall k | 0 <= k < lane :: PathEnumeration.OutPort(paths.value[k], 0) != port.value
    {
      if PathEnumeration.OutPort(paths.value[lane], 0) == port.value {
        return Verdict(true, lane, fraction, since);
      }
    }
  }

  /** Whenever the oracle finds a bad lane, the link towards the spine runs, at that very
      moment, at its nominal rate times the fraction the oracle reports. */
  method OracleAgreesWithLink(c: Config, tor: nat, port: Option<nat>, paths: Option<seq<nat>>, decision: nat)
    returns (v: Verdict, rates: map<(nat, nat), int>)
    requires WellFormed(c) && (port.Some? <==> (tor, c.spine) in c.nominal)
    ensures v.found ==> (tor, c.spine) in rates && (tor, c.spine) in c.nominal
    ensures v.found ==> IsPart(rates[(tor, c.spine)], c.nominal[(tor, c.spine)], v.fraction)
  {
    v := GetBadLane(c, tor, port, paths, decision);
    var links := new LinkRates(c);
    if v.found {
      ghost var fraction := links.RunUntil(decision, tor);
      OneInForce(c, tor, Due(c, decision), fraction, v.fraction);
    }
    rates := links.rates;
  }

  // ------------------------------------------------------------- schedules

  datatype Mode = Static | OnceRecovery | Flap

  /** What a schedule means t microseconds after the flows start: degraded from the start
      time on; in a flap, for every other period; with recovery, until it comes. */
  function Meant(mode: Mode, start: nat, period: nat, low: real, high: real, t: nat): real
    requires mode == Flap ==> period > 0
  {
    if t < start then 1.0
    else match mode
         case Static => low
         case OnceRecovery => if t < start + period then low else high
         case Flap => if ((t - start) / period) % 2 == 0 then low else high
  }

  /** The event list for one link; None where the recovery would come too late. A flap
      period must be positive, or the loop would not end. */
  method BuildEvents(mode: Mode, a: nat, b: nat, start: nat, period: nat, low: real, high: real, horizon: nat)
    returns (r: Option<seq<Event>>)
    requires mode == Flap ==> period > 0
    ensures r.None? <==> mode == OnceRecovery && start + period >= horizon
    ensures r.Some? ==> forall i | 0 <= i < |r.value| :: r.value[i].a == a && r.value[i].b == b
    ensures r.Some? && mode == Static ==> r.value == [Event(start, a, b, low)]
    ensures r.Some? && mode == OnceRecovery ==> r.value == [Event(start, a, b, low), Event(start + period, a, b, high)]
    ensures r.Some? && mode == Flap ==>
      IsFlap(r.value, start, period, low, high) && start + |r.value| * period >= horizon
  {
    match mode
    case Static => return Some([Event(start, a, b, low)]);
    case OnceRecovery =>
      var recovery := start + period;
      if recovery >= horizon {
        return None;
      }
      return Some([Event(start, a, b, low), Event(recovery, a, b, high)]);
    case Flap =>
      var events := [];
      var t := start;
      var lo := true;
      while t < horizon
        invariant t == start + |events| * period && lo == (|events| % 2 == 0)
        invariant IsFlap(events, start, period, low, high)
        invariant forall i | 0 <= i < |events| :: events[i].a == a && events[i].b == b
        decreases horizon - t
      {
        var fraction := if lo then low else high;
        events := events + [Event(t, a, b, fraction)];
        t := t + period;
        lo := !lo;
      }
      return Some(events);
  }

  predicate IsFlap(events: seq<Event>, start: nat, period: nat, low: real, high: real) {
    forall i: nat | i < |events| ::
      events[i].time == start + i * period && events[i].fraction == if i % 2 == 0 then low else high
  }

  /** The j-th period has begun exactly when j is at most the number of whole periods. */
  lemma PeriodOf(elapsed: nat, period: nat, j: nat)
    requires period > 0
    ensures j * period <= elapsed <==> j <= elapsed / period
  {
    var q := elapsed / period;
    assert elapsed == q * period + elapsed % period;
    if j > q {
      FlowSplit.OneLess(q, j, period);
    } else if j < q {
      FlowSplit.OneLess(j, q, period);
    }
  }

  lemma FlapDue(c: Config, start: nat, period: nat, low: real, high: real, t: nat, j: nat)
    requires period > 0 && IsFlap(c.events, start, period, low, high) && start <= t && j < |c.events|
    ensures j in Due(c, c.start + t) <==> j <= (t - start) / period
    ensures forall k: nat | j < k < |c.events| :: Before(c, j, k)
  {
    PeriodOf(t - start, period, j);
    assert c.events[j].time == start + j * period;
    forall k: nat | j < k < |c.events|
      ensures Before(c, j, k)
    {
      FlowSplit.OneLess(j, k, period);
      assert c.events[k].time == start + k * period;
    }
  }

  /** A flap schedule in force is the low fraction in the first period after its start
      and every second one from there, the high one in between, up to the horizon. */
  lemma FlapMeans(c: Config, tor: nat, start: nat, period: nat, low: real, high: real, horizon: nat, t: nat)
    requires period > 0 && IsFlap(c.events, start, period, low, high) && start + |c.events| * period >= horizon
    requires forall i: nat | i < |c.events| :: Concerns(c, tor, i)
    requires t < horizon
    ensures InForce(c, tor, Due(c, c.start + t), Meant(Flap, start, period, low, high, t))
  {
    var due := Due(c, c.start + t);
    if t < start {
      forall i: nat | i < |c.events|
        ensures i !in due
      {
        assert c.events[i].time == start + i * period >= start;
      }
      assert NoneYet(c, tor, due);
    } else {
      var k := (t - start) / period;
      PeriodOf(t - start, period, |c.events|);
      forall j: nat | j < |c.events|
        ensures j in due <==> j <= k
        ensures j < k ==> Before(c, j, k)
      {
        FlapDue(c, start, period, low, high, t, j);
      }
      assert IsLast(c, tor, due, k);
    }
  }

  /** Each schedule, handed to the simulator, has at every moment before the horizon the
      fraction in force that it is meant to have. */
  method ScheduleMeans(mode: Mode, tor: nat, start: nat, period: nat, low: real, high: real, horizon: nat, c: Config,
                       ghost t: nat)
    returns (r: Option<Config>)
    requires mode == Flap ==> period > 0
    requires t < horizon
    ensures r.None? <==> mode == OnceRecovery && start + period >= horizon
    ensures r.Some? ==>
      InForce(r.value, tor, Due(r.value, r.value.start + t), Meant(mode, start, period, low, high, t))
  {
    var events := BuildEvents(mode, tor, c.spine, start, period, low, high, horizon);
    if events.None? {
      return None;
    }
    var built := c.(events := events.value);
    assert forall i: nat | i < |built.events| :: Concerns(built, tor, i);
    ghost var due := Due(built, built.start + t);
    match mode {
      case Flap => FlapMeans(built, tor, start, period, low, high, horizon, t);
      case Static =>
        assert t < start ==> NoneYet(built, tor, due);
        assert t >= start ==> IsLast(built, tor, due, 0);
      case OnceRecovery =>
        assert t < start ==> NoneYet(built, tor, due);
        assert start <= t < start + period ==> IsLast(built, tor, due, 0);
        assert start + period <= t ==> IsLast(built, tor, due, 1);
    }
    r := Some(built);
  }
}
