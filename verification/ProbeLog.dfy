/** What happens to host probes, as a log of events, and what the path sensor's tables
    and result rows must say about it. Times are nanoseconds. */
module ProbeLog {

  datatype Config = Config(startNs: nat, stopNs: nat, timeoutNs: nat, minSamples: nat, nominalRate: nat)

  datatype Status = Success | LateSuccess | Timeout | SkippedBusy

  datatype Row = Row(id: nat, status: Status, post: nat, cqe: nat, timeout: nat, delay: nat, age: nat, warmup: bool)

  // ------------------------------------------------------------- reference

  /** What happens outside: an epoch timer fires, the network completes a probe, a
      probe's timeout timer fires, the flows start. */
  datatype Event = Epoch(t: nat) | Cqe(id: nat, t: nat) | Check(id: nat, t: nat) | Freeze(t: nat)

  /** What became of an epoch so far; expired says that its timeout timer has fired. */
  datatype Fate = Open(post: nat, expired: bool) | Done(post: nat, expired: bool, cqe: nat) | Busy(time: nat)
  {
    predicate Posted() { !Busy? }
  }

  /** The fate of every epoch in order, and the delays of the probes that completed in
      time during the warm-up. */
  datatype Log = Log(clock: nat, fates: seq<Fate>, warm: seq<int>, frozen: bool)
  {
    predicate Idle() { AllClosed(fates) }

    function Add(t: nat, f: Fate): Log { this.(clock := t, fates := Extended(fates, f)) }
  }

  /** fates + [f], which the solver follows more easily index by index. */
  function Extended(fates: seq<Fate>, f: Fate): seq<Fate> {
    seq(|fates| + 1, i requires 0 <= i <= |fates| => if i < |fates| then fates[i] else f)
  }

  lemma ExtendedIsAppend(fates: seq<Fate>, f: Fate)
    ensures Extended(fates, f) == fates + [f]
    ensures Extended(fates, f)[..|fates|] == fates
  {}

  predicate AllClosed(fates: seq<Fate>) {
    forall i | 0 <= i < |fates| :: !fates[i].Open?
  }

  const NOTHING := Log(0, [], [], false)

  /** An epoch posts a probe exactly when no posted one is still open. */
  function Next(c: Config, l: Log, e: Event): Log
    requires Legal(c, l, e)
  {
    match e
    case Epoch(t) =>
      if t >= c.stopNs then l
      else l.Add(t, if l.Idle() then Open(t, false) else Busy(t))
    case Cqe(id, t) =>
      var f := l.fates[id];
      l.(clock := t, fates := l.fates[id := Done(f.post, f.expired, t)],
         warm := if f.post < c.startNs && t <= c.startNs && !f.expired then l.warm + [t - f.post] else l.warm)
    case Check(id, t) => l.(clock := t, fates := l.fates[id := l.fates[id].(expired := true)])
    case Freeze(t) => l.(clock := t, frozen := true)
  }

  /** Time never runs backwards; a posted probe completes at most once; its timer fires
      once, on time, and before a completion at the same instant; the baseline is
      frozen once, when the flows start. */
  predicate Legal(c: Config, l: Log, e: Event) {
    && l.clock <= e.t
    && match e
       case Epoch(_) => true
       case Cqe(id, t) =>
         id < |l.fates| && l.fates[id].Open? && (l.fates[id].expired <==> t >= l.fates[id].post + c.timeoutNs)
       case Check(id, t) =>
         id < |l.fates| && l.fates[id].Posted() && !l.fates[id].expired && t == l.fates[id].post + c.timeoutNs
       case Freeze(t) => !l.frozen && t == c.startNs
  }

  datatype Outcome = Illegal | At(log: Log)

  function After(c: Config, events: seq<Event>): Outcome {
    if events == [] then At(NOTHING)
    else match After(c, events[..|events| - 1])
         case Illegal => Illegal
         case At(l) => if Legal(c, l, events[|events| - 1]) then At(Next(c, l, events[|events| - 1])) else Illegal
  }

  predicate LegalRun(c: Config, events: seq<Event>) {
    After(c, events).At?
  }

  predicate DoneBefore(f: Fate, g: Fate) {
    f.Posted() && g.Posted() ==> f.Done? && f.cqe <= g.post
  }

  /** A probe is posted only after every one before it has completed, so that at most
      one is open at any time. */
  predicate Orderly(c: Config, l: Log) {
    && (forall i | 0 <= i < |l.fates| && l.fates[i].Busy? :: l.fates[i].time <= l.clock)
    && (forall i | 0 <= i < |l.fates| && l.fates[i].Posted() :: l.fates[i].post <= l.clock)
    && (forall i | 0 <= i < |l.fates| && l.fates[i].Done? :: l.fates[i].post <= l.fates[i].cqe <= l.clock)
    && (forall i, j {:trigger DoneBefore(l.fates[i], l.fates[j])} | 0 <= i < j < |l.fates| ::
          DoneBefore(l.fates[i], l.fates[j]))
    && (l.fates != [] ==> l.fates[0].Posted())
  }

  lemma EpochKeepsOrderly(c: Config, l: Log, t: nat)
    requires Orderly(c, l) && l.clock <= t
    ensures Orderly(c, l.Add(t, if l.Idle() then Open(t, false) else Busy(t)))
    ensures Orderly(c, l.(clock := t))
  {
    PairsKept(l, l.Add(t, if l.Idle() then Open(t, false) else Busy(t)));
  }

  lemma CqeKeepsOrderly(c: Config, l: Log, id: nat, t: nat)
    requires Orderly(c, l) && Legal(c, l, Cqe(id, t))
    ensures Orderly(c, Next(c, l, Cqe(id, t)))
  {
    PairsKept(l, Next(c, l, Cqe(id, t)));
  }

  lemma CheckKeepsOrderly(c: Config, l: Log, id: nat, t: nat)
    requires Orderly(c, l) && Legal(c, l, Check(id, t))
    ensures Orderly(c, Next(c, l, Check(id, t)))
  {
    PairsKept(l, Next(c, l, Check(id, t)));
  }

  /** Two epochs in order stay so when fates only become more final. */
  lemma PairsKept(l: Log, l': Log)
    requires forall i, j {:trigger DoneBefore(l.fates[i], l.fates[j])} | 0 <= i < j < |l.fates| ::
      DoneBefore(l.fates[i], l.fates[j])
    requires |l.fates| <= |l'.fates| <= |l.fates| + 1
    requires forall i | 0 <= i < |l.fates| :: LaterFate(l.fates[i], l'.fates[i])
    requires |l'.fates| > |l.fates| && l'.fates[|l.fates|].Posted() ==>
      l.Idle() && forall i | 0 <= i < |l.fates| && l.fates[i].Done? :: l.fates[i].cqe <= l'.fates[|l.fates|].post
    ensures forall i, j {:trigger DoneBefore(l'.fates[i], l'.fates[j])} | 0 <= i < j < |l'.fates| ::
      DoneBefore(l'.fates[i], l'.fates[j])
  {
    forall i, j {:trigger DoneBefore(l'.fates[i], l'.fates[j])} | 0 <= i < j < |l'.fates|
      ensures DoneBefore(l'.fates[i], l'.fates[j])
    {
      assert LaterFate(l.fates[i], l'.fates[i]);
      if j < |l.fates| {
        assert LaterFate(l.fates[j], l'.fates[j]);
        assert DoneBefore(l.fates[i], l.fates[j]);
      }
    }
  }

  predicate LaterFate(f: Fate, g: Fate) {
    f.Posted() == g.Posted() && (f.Posted() ==> g.post == f.post) && (f.Done? ==> g.Done? && g.cqe == f.cqe)
  }

  lemma StepKeepsOrderly(c: Config, l: Log, e: Event)
    requires Orderly(c, l) && Legal(c, l, e)
    ensures Orderly(c, Next(c, l, e))
  {
    match e
    case Epoch(t) => EpochKeepsOrderly(c, l, t);
    case Cqe(id, t) => CqeKeepsOrderly(c, l, id, t);
    case Check(id, t) => CheckKeepsOrderly(c, l, id, t);
    case Freeze(_) =>
  }

  lemma {:induction false} RunsAreOrderly(c: Config, events: seq<Event>)
    requires LegalRun(c, events)
    ensures Orderly(c, After(c, events).log)
  {
    if events != [] {
      var front := events[..|events| - 1];
      RunsAreOrderly(c, front);
      StepKeepsOrderly(c, After(c, front).log, events[|events| - 1]);
    }
  }

  lemma {:induction false} PrefixIsLegal(c: Config, events: seq<Event>, i: nat)
    requires LegalRun(c, events) && i < |events|
    ensures LegalRun(c, events[..i]) && Legal(c, After(c, events[..i]).log, events[i])
    ensures After(c, events[..i + 1]) == At(Next(c, After(c, events[..i]).log, events[i]))
    decreases |events|
  {
    var n := |events| - 1;
    if i == n {
      assert events[..i + 1] == events;
    } else {
      PrefixIsLegal(c, events[..n], i);
      assert events[..n][..i] == events[..i] && events[..n][..i + 1] == events[..i + 1];
    }
  }

  predicate PostedAtZero(l: Log, id: nat) {
    id < |l.fates| && l.fates[id].Posted() && l.fates[id].post == 0
  }

  /** Some probe is posted at time 0 exactly when the first one is. */
  lemma FirstDecidesZero(c: Config, events: seq<Event>)
    requires LegalRun(c, events)
    ensures var l := After(c, events).log; (exists id: nat :: PostedAtZero(l, id)) <==> PostedAtZero(l, 0)
  {
    var l := After(c, events).log;
    RunsAreOrderly(c, events);
    if id: nat :| PostedAtZero(l, id) {
      assert id == 0 || DoneBefore(l.fates[0], l.fates[id]);
    }
  }

  /** The first probe is posted at time 0 exactly when an epoch is due then, that is, when
      the warm-up starts at time 0. */
  lemma {:induction false} ZeroIffEpochAtZero(c: Config, events: seq<Event>)
    requires LegalRun(c, events) && c.stopNs > 0
    ensures PostedAtZero(After(c, events).log, 0) <==> Epoch(0) in events
  {
    if events != [] {
      var front, last := events[..|events| - 1], events[|events| - 1];
      ZeroIffEpochAtZero(c, front);
      RunsAreOrderly(c, front);
      assert events == front + [last];
    }
  }

  // ------------------------------------------------------------------ rows

  /** The row an epoch should get, its age apart. */
  function Expected(c: Config, l: Log, id: nat): Row
    requires id < |l.fates| && (l.fates[id].Done? ==> l.fates[id].post <= l.fates[id].cqe)
  {
    match l.fates[id]
    case Busy(time) => Row(id, SkippedBusy, 0, 0, 0, 0, 0, time < c.startNs)
    case Open(post, _) => Row(id, Timeout, post, 0, post + c.timeoutNs, 0, 0, post < c.startNs)
    case Done(post, _, cqe) =>
      if cqe < post + c.timeoutNs then Row(id, Success, post, cqe, 0, cqe - post, 0, post < c.startNs)
      else Row(id, LateSuccess, post, cqe, post + c.timeoutNs, cqe - post, 0, post < c.startNs)
  }

  function CountRows(rows: seq<Row>, id: nat): nat {
    if rows == [] then 0
    else CountRows(rows[..|rows| - 1], id) + if rows[|rows| - 1].id == id then 1 else 0
  }

  predicate Answered(r: Row) {
    r.status == Success || r.status == LateSuccess
  }

  /** When the last answered probe among the rows completed. */
  function LastCqe(rows: seq<Row>): nat {
    if rows == [] then 0
    else if Answered(rows[|rows| - 1]) then rows[|rows| - 1].cqe
    else LastCqe(rows[..|rows| - 1])
  }

  /** The moment a row speaks about. */
  function Moment(l: Log, r: Row): nat
    requires r.id < |l.fates|
  {
    if Answered(r) then r.cqe
    else if l.fates[r.id].Busy? then l.fates[r.id].time
    else r.timeout
  }

  function AgeAt(last: nat, moment: nat): nat {
    if last == 0 || moment <= last then 0 else moment - last
  }

  /** A row's age is the time since the answered probe before it, 0 without one or
      when that is later. */
  predicate AgesRight(l: Log, rows: seq<Row>)
    requires forall r | r in rows :: r.id < |l.fates|
  {
    rows != [] ==>
      var front, last := rows[..|rows| - 1], rows[|rows| - 1];
      AgesRight(l, front) && last.age == AgeAt(LastCqe(front), Moment(l, last))
  }

  /** The row tells what happened, its age apart. */
  predicate RowTrue(c: Config, l: Log, r: Row) {
    && r.id < |l.fates|
    && (l.fates[r.id].Done? ==> l.fates[r.id].post <= l.fates[r.id].cqe)
    && r.(age := 0) == Expected(c, l, r.id)
  }

  /** The rows are those of the written epochs, one each, and tell what happened. */
  ghost predicate RowsAre(c: Config, l: Log, rows: seq<Row>, written: set<nat>) {
    && (forall id: nat :: CountRows(rows, id) == if id in written then 1 else 0)
    && (forall r | r in rows :: RowTrue(c, l, r))
    && AgesRight(l, rows)
  }

  lemma RowAppended(c: Config, l: Log, rows: seq<Row>, written: set<nat>, r: Row)
    requires RowsAre(c, l, rows, written) && r.id !in written
    requires RowTrue(c, l, r) && r.age == AgeAt(LastCqe(rows), Moment(l, r))
    ensures RowsAre(c, l, rows + [r], written + {r.id})
    ensures LastCqe(rows + [r]) == if Answered(r) then r.cqe else LastCqe(rows)
  {
    assert (rows + [r])[..|rows|] == rows;
  }
}
