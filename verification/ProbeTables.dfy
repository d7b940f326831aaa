/** The path sensor's tables of probes, and what they must say about a log of events. */
module ProbeTables {
  import opened ProbeLog

  datatype Probe = Probe(post: nat, cqe: nat, timeout: nat, timedOut: bool, terminal: bool, emitted: bool)

  datatype Skipped = Skipped(id: nat, time: nat, emitted: bool)

  /** The fields of the path sensor that concern probes. */
  datatype Sensor = Sensor(probes: map<nat, Probe>, skipped: seq<Skipped>, activePosted: int, warmupDelays: seq<int>,
                           frozen: bool, lastSuccess: nat, rows: seq<Row>)

  const BLANK := Probe(0, 0, 0, false, false, false)

  /** What the probe table's subscript operator gives: a blank probe for a new identifier. */
  function Lookup(probes: map<nat, Probe>, id: nat): Probe {
    if id in probes then probes[id] else BLANK
  }

  predicate ProbeMatches(c: Config, f: Fate, p: Probe) {
    && f.Posted()
    && p.post == f.post
    && p.terminal == f.Done?
    && p.cqe == (if f.Done? then f.cqe else 0)
    && p.timedOut == (if f.Done? then f.cqe >= f.post + c.timeoutNs else f.expired)
    && p.timeout == if p.timedOut then p.post + c.timeoutNs else 0
  }

  ghost predicate ProbesMatch(c: Config, l: Log, probes: map<nat, Probe>, written: set<nat>) {
    && (forall id: nat :: id in probes <==> id < |l.fates| && l.fates[id].Posted())
    && (forall id | id in probes :: ProbeMatches(c, l.fates[id], probes[id]))
    && (forall id | id in probes :: probes[id].emitted == (id in written))
  }

  /** The skipped epochs in order. */
  function BusyIds(fates: seq<Fate>): seq<nat> {
    if fates == [] then []
    else
      var front := BusyIds(fates[..|fates| - 1]);
      if fates[|fates| - 1].Busy? then front + [|fates| - 1] else front
  }

  lemma BusyIdsAreBusy(fates: seq<Fate>)
    ensures var ids := BusyIds(fates);
      && (forall i | 0 <= i < |ids| :: ids[i] < |fates| && fates[ids[i]].Busy?)
      && (forall i, j | 0 <= i < j < |ids| :: ids[i] < ids[j])
      && (forall id: nat | id < |fates| && fates[id].Busy? :: id in ids)
  {
    if fates != [] {
      BusyIdsAreBusy(fates[..|fates| - 1]);
    }
  }

  lemma BusyIdsKept(fates: seq<Fate>, id: nat, f: Fate)
    requires id < |fates| && !fates[id].Busy? && !f.Busy?
    ensures BusyIds(fates[id := f]) == BusyIds(fates)
  {
    var n := |fates| - 1;
    if id < n {
      BusyIdsKept(fates[..n], id, f);
      assert fates[id := f][..n] == fates[..n][id := f];
    } else {
      assert fates[id := f][..n] == fates[..n];
    }
  }

  predicate SkippedMatch(l: Log, skipped: seq<Skipped>, written: set<nat>) {
    var ids := BusyIds(l.fates);
    && |skipped| == |ids|
    && (forall i | 0 <= i < |skipped| :: skipped[i].id == ids[i])
    && (forall i | 0 <= i < |skipped| :: skipped[i].id < |l.fates| && l.fates[skipped[i].id] == Busy(skipped[i].time))
    && (forall i | 0 <= i < |skipped| :: skipped[i].emitted == (skipped[i].id in written))
  }

  /** The row printed for a completed probe, and for a skipped epoch. */
  function AnswerRow(c: Config, id: nat, p: Probe, age: nat): Row
    requires p.post <= p.cqe
  {
    Row(id, if p.timedOut then LateSuccess else Success, p.post, p.cqe, p.timeout, p.cqe - p.post, age,
        p.post < c.startNs)
  }

  function SkipRow(c: Config, s: Skipped, age: nat): Row {
    Row(s.id, SkippedBusy, 0, 0, 0, 0, age, s.time < c.startNs)
  }

  // ------------------------------------------------------------- soundness

  predicate WrittenIs(l: Log, written: set<nat>) {
    && (forall id | id in written :: l.frozen && id < |l.fates| && !l.fates[id].Open?)
    && (l.frozen ==> forall id: nat | id < |l.fates| && !l.fates[id].Open? :: id in written)
  }

  /** Probes posted at time 0 cannot be told from probes never posted. */
  predicate DoneAfterZero(l: Log) {
    forall id | 0 <= id < |l.fates| && l.fates[id].Done? :: l.fates[id].post > 0
  }

  /** The tables say what the log says, and the rows are those of the written epochs. */
  ghost predicate Sound(c: Config, l: Log, s: Sensor, written: set<nat>) {
    && ProbesMatch(c, l, s.probes, written)
    && SkippedMatch(l, s.skipped, written)
    && RowsAre(c, l, s.rows, written)
    && s.activePosted == (if l.Idle() then 0 else 1)
    && s.warmupDelays == l.warm
    && s.frozen == l.frozen
    && s.lastSuccess == LastCqe(s.rows)
  }

  /** Between events the written epochs are the finished ones, once the baseline is known. */
  predicate Settled(c: Config, l: Log, lastSuccess: nat, written: set<nat>) {
    && Orderly(c, l)
    && WrittenIs(l, written)
    && DoneAfterZero(l)
    && lastSuccess <= l.clock
  }

  // ---------------------------------------------------------------- writing

  function Answer(c: Config, s: Sensor, id: nat): Sensor
    requires id in s.probes && s.probes[id].post <= s.probes[id].cqe
  {
    var p := s.probes[id];
    s.(probes := s.probes[id := p.(emitted := true)], lastSuccess := p.cqe,
       rows := s.rows + [AnswerRow(c, id, p, AgeAt(s.lastSuccess, p.cqe))])
  }

  function Skip(c: Config, s: Sensor, i: nat): Sensor
    requires i < |s.skipped|
  {
    var k := s.skipped[i];
    s.(skipped := s.skipped[i := k.(emitted := true)], rows := s.rows + [SkipRow(c, k, AgeAt(s.lastSuccess, k.time))])
  }

  /** The row of a probe that never completed. */
  function GiveUp(c: Config, s: Sensor, id: nat): Sensor
    requires id in s.probes
  {
    var p := s.probes[id];
    var timeout := if p.timeout > 0 then p.timeout else p.post + c.timeoutNs;
    s.(probes := s.probes[id := p.(emitted := true)],
       rows := s.rows + [Row(id, Timeout, p.post, 0, timeout, 0, AgeAt(s.lastSuccess, timeout), p.post < c.startNs)])
  }

  // --------------------------------------------- what a log step leaves true

  /** Fates that give the same row. */
  predicate SameRow(f: Fate, g: Fate) {
    f == g || (f.Done? && g.Done? && f.post == g.post && f.cqe == g.cqe)
  }

  /** The tables after the post of a probe. */
  function Posted(s: Sensor, id: nat, t: nat): Sensor {
    s.(probes := s.probes[id := Lookup(s.probes, id).(post := t)], activePosted := s.activePosted + 1)
  }

  /** The completion of a probe, before its row is written. */
  function Complete(c: Config, s: Sensor, id: nat, t: nat): Sensor
    requires id in s.probes
  {
    var p := s.probes[id];
    s.(probes := s.probes[id := p.(cqe := t, terminal := true)], activePosted := s.activePosted - 1,
       warmupDelays := if p.post < c.startNs && t <= c.startNs && !p.timedOut then s.warmupDelays + [t - p.post]
                       else s.warmupDelays)
  }

  /** The timer of a probe that has not completed marks it; otherwise nothing changes. */
  function Expire(s: Sensor, id: nat, t: nat): Sensor
    requires id in s.probes
  {
    if s.probes[id].terminal then s
    else s.(probes := s.probes[id := s.probes[id].(timedOut := true, timeout := t)])
  }

  // ------------------------------------------------------------------ loops

  /** The completed probes not left have their rows; those left completed no sooner than last. */
  ghost predicate CompletedWritten(l: Log, left: set<nat>, written: set<nat>, last: nat) {
    && (forall id: nat :: id in written <==> id < |l.fates| && l.fates[id].Done? && id !in left)
    && (forall id | id in left && id < |l.fates| && l.fates[id].Done? :: last <= l.fates[id].cqe)
    && last <= l.clock
  }

  /** All completed probes and the first i skipped epochs have their rows. */
  ghost predicate SkipsWritten(l: Log, i: nat, written: set<nat>)
    requires i <= |BusyIds(l.fates)|
  {
    forall id: nat :: id in written <==> id < |l.fates| && (l.fates[id].Done? || id in BusyIds(l.fates)[..i])
  }

  predicate Abandoned(l: Log, id: nat) {
    id < |l.fates| && l.fates[id].Open? && l.fates[id].post > 0
  }

  /** The abandoned probes not left have their rows too. */
  ghost predicate AbandonedWritten(l: Log, before: set<nat>, left: set<nat>, written: set<nat>) {
    forall id: nat :: id in written <==> id in before || (Abandoned(l, id) && id !in left)
  }
}
