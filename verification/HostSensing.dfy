/** The host probe lifecycle, split over the traffic scheduler, which decides at each
    epoch whether to post a probe, and the path sensor, which records what becomes of
    it and writes one result row for each epoch. */
module HostSensing {
  import opened ProbeLog
  import opened ProbeSteps
  import opened ProbeTables

  method Least(s: set<nat>) returns (least: nat)
    requires s != {}
    ensures least in s && forall x | x in s :: least <= x
  {
    least :| least in s;
    var rest := s - {least};
    while rest != {}
      invariant rest <= s && least in s
      invariant forall x | x in s :: x in rest || least <= x
      decreases |rest|
    {
      var x :| x in rest;
      rest := rest - {x};
      if x < least {
        least := x;
      }
    }
  }

  method MinElement(delays: seq<int>) returns (least: int)
    requires delays != []
    ensures least in delays && forall d | d in delays :: least <= d
  {
    least := delays[0];
    for i := 1 to |delays|
      invariant least in delays && forall j | 0 <= j < i :: least <= delays[j]
    {
      if delays[i] < least {
        least := delays[i];
      }
    }
  }

  /** q is the least integer that is at least x / d. */
  predicate IsCeiling(q: int, x: int, d: int) {
    d * (q - 1) < x <= d * q
  }

  function CeilDiv(x: int, d: int): (q: int)
    requires d > 0
    ensures IsCeiling(q, x, d)
  {
    (x + d - 1) / d
  }

  /** The path sensor's probe side. Its result file is the sequence rows. */
  class HostPathSensing {
    const c: Config
    var probes: map<nat, Probe>
    var skipped: seq<Skipped>
    var activePosted: int
    var warmupDelays: seq<int>
    var baselineDelay: int
    var backlogThreshold: int
    var frozen: bool
    var open: bool
    var lastSuccess: nat
    var rows: seq<Row>
    ghost var log: Log
    ghost var written: set<nat>

    constructor (c: Config)
      ensures Valid() && this.c == c && log == NOTHING
    {
      this.c := c;
      probes, skipped, activePosted, warmupDelays := map[], [], 0, [];
      baselineDelay, backlogThreshold, frozen, open, lastSuccess, rows := 0, 0, false, true, 0, [];
      log, written := NOTHING, {};
    }

    ghost function Fields(): Sensor
      reads this
    {
      Sensor(probes, skipped, activePosted, warmupDelays, frozen, lastSuccess, rows)
    }

    ghost predicate Valid()
      reads this
    {
      open && Sound(c, log, Fields(), written) && Settled(c, log, lastSuccess, written)
    }

    /** Writes the row of a completed probe once the baseline is known. */
    method EmitProbe(id: nat)
      requires open && frozen && Sound(c, log, Fields(), written) && id !in written
      requires id < |log.fates| && log.fates[id].Done? && lastSuccess <= log.fates[id].cqe
      requires log.fates[id].post <= log.fates[id].cqe
      modifies this`probes, this`lastSuccess, this`rows, this`written
      ensures Sound(c, log, Fields(), written) && written == old(written) + {id}
      ensures lastSuccess == log.fates[id].cqe
    {
      AnswerIsSound(c, log, Fields(), written, id);
      var probe := probes[id];
      if !open || probe.emitted || !probe.terminal || !frozen {
        return;
      }
      var age: nat := if lastSuccess == 0 then 0 else probe.cqe - lastSuccess;
      rows := rows + [AnswerRow(c, id, probe, age)];
      lastSuccess := probe.cqe;
      probes := probes[id := probe.(emitted := true)];
      written := written + {id};
    }

    method EmitSkippedProbe(i: nat)
      requires open && frozen && Sound(c, log, Fields(), written)
      requires i < |skipped| && skipped[i].id !in written
      modifies this`skipped, this`rows, this`written
      ensures Sound(c, log, Fields(), written) && written == old(written + {skipped[i].id})
      ensures |skipped| == old(|skipped|)
    {
      SkipIsSound(c, log, Fields(), written, i);
      var s := skipped[i];
      if !open || s.emitted || !frozen {
        return;
      }
      var age := if lastSuccess == 0 || s.time <= lastSuccess then 0 else s.time - lastSuccess;
      rows := rows + [SkipRow(c, s, age)];
      skipped := skipped[i := s.(emitted := true)];
      written := written + {s.id};
    }

    /** What a commit stores; ok is the assertion that the epoch is new. */
    method StorePost(id: nat, now: nat) returns (ok: bool)
      modifies this`probes, this`activePosted, this`log
      ensures ok == (Lookup(old(probes), id).post == 0)
      ensures ok ==> Fields() == Posted(old(Fields()), id, now) && log == old(log).Add(now, Open(now, false))
    {
      var probe := Lookup(probes, id);
      if probe.post != 0 {
        return false;
      }
      probes := probes[id := probe.(post := now)];
      activePosted := activePosted + 1;
      log := log.Add(now, Open(now, false));
      ok := true;
    }

    /** RecordWqeEvent for a commit. */
    method RecordCommit(id: nat, now: nat) returns (ok: bool)
      requires Valid() && log.clock <= now && id == |log.fates| && log.Idle()
      modifies this`probes, this`activePosted, this`log
      ensures ok && Valid()
      ensures log == old(log).Add(now, Open(now, false))
    {
      PostKeepsAll(c, log, Fields(), written, now);
      ok := StorePost(id, now);
    }

    method StoreSkipped(id: nat, now: nat)
      requires Sound(c, log, Fields(), written) && id == |log.fates| && !log.Idle() && id !in written
      requires forall k | k in written && k < |log.fates| :: !log.fates[k].Open?
      modifies this`skipped, this`log
      ensures Sound(c, log, Fields(), written) && log == old(log).Add(now, Busy(now))
      ensures skipped == old(skipped) + [Skipped(id, now, false)]
    {
      ghost var before, l := Fields(), log;
      skipped := skipped + [Skipped(id, now, false)];
      log := log.Add(now, Busy(now));
      BusyIsSound(c, l, before, written, now);
    }

    method EmitLastSkipped(ghost id: nat)
      requires open && Sound(c, log, Fields(), written) && id !in written
      requires skipped != [] && skipped[|skipped| - 1].id == id
      modifies this`skipped, this`rows, this`written
      ensures Sound(c, log, Fields(), written)
      ensures written == old(written) + if log.frozen then {id} else {}
    {
      if frozen {
        EmitSkippedProbe(|skipped| - 1);
      }
    }

    method RecordProbeSkipped(id: nat, now: nat)
      requires Valid() && log.clock <= now && id == |log.fates| && !log.Idle()
      modifies this`skipped, this`rows, this`log, this`written
      ensures Valid()
      ensures log == old(log).Add(now, Busy(now))
    {
      BusyIsSettled(c, log, lastSuccess, written, now);
      StoreSkipped(id, now);
      EmitLastSkipped(id);
    }

    /** The part of a completion that comes before its row. */
    method MarkCompleted(id: nat, now: nat) returns (ok: bool)
      requires Sound(c, log, Fields(), written) && Legal(c, log, Cqe(id, now)) && id !in written
      requires Next(c, log, Cqe(id, now)).Idle()
      modifies this`probes, this`activePosted, this`warmupDelays, this`log
      ensures ok == (old(log.fates[id].post) > 0)
      ensures ok ==> Sound(c, log, Fields(), written) && log == Next(c, old(log), Cqe(id, now))
    {
      ghost var before := Fields();
      ghost var l := log;
      assert id in probes && ProbeMatches(c, l.fates[id], probes[id]);
      var probe := Lookup(probes, id);
      if probe.post == 0 || probe.terminal {
        return false;
      }
      log := Next(c, log, Cqe(id, now));
      probes := probes[id := probe.(cqe := now, terminal := true)];
      activePosted := activePosted - 1;
      if probe.post < c.startNs && now <= c.startNs && !probe.timedOut {
        warmupDelays := warmupDelays + [now - probe.post];
      }
      ok := true;
      assert Fields() == Complete(c, before, id, now);
      CompletionIsSound(c, l, before, written, id, now);
    }

    /** RecordWqeEvent for a completion: ok is the assertion that it matches a post. */
    method RecordCompletion(id: nat, now: nat) returns (ok: bool)
      requires Valid() && Legal(c, log, Cqe(id, now))
      modifies this`probes, this`activePosted, this`warmupDelays, this`lastSuccess, this`rows, this`log, this`written
      ensures ok == (old(log.fates[id].post) > 0)
      ensures ok ==> Valid() && log == Next(c, old(log), Cqe(id, now))
    {
      CompletionIsSettled(c, log, lastSuccess, written, id, now);
      ok := MarkCompleted(id, now);
      if ok && frozen {
        EmitProbe(id);
      }
    }

    method StoreExpiry(id: nat, now: nat)
      requires id in probes && Legal(c, log, Check(id, now))
      modifies this`probes, this`log
      ensures Fields() == Expire(old(Fields()), id, now) && log == Next(c, old(log), Check(id, now))
    {
      log := Next(c, log, Check(id, now));
      if id in probes && !probes[id].terminal {
        probes := probes[id := probes[id].(timedOut := true, timeout := now)];
      }
    }

    method CheckProbeTimeout(id: nat, now: nat)
      requires Valid() && Legal(c, log, Check(id, now))
      modifies this`probes, this`log
      ensures Valid() && log == Next(c, old(log), Check(id, now))
    {
      ExpiryIsSettled(c, log, lastSuccess, written, id, now);
      ExpiryIsSound(c, log, Fields(), written, id, now);
      StoreExpiry(id, now);
    }

    /** Writes the rows of all completed probes, in the order of their identifiers. */
    method EmitCompleted()
      requires open && frozen && Sound(c, log, Fields(), written) && written == {} && lastSuccess == 0
      requires Orderly(c, log)
      modifies this`probes, this`lastSuccess, this`rows, this`written
      ensures Sound(c, log, Fields(), written) && SkipsWritten(log, 0, written) && lastSuccess <= log.clock
    {
      var left := probes.Keys;
      CompletedStart(log, left);
      while left != {}
        invariant Sound(c, log, Fields(), written)
        invariant forall id | id in left :: id in probes
        invariant CompletedWritten(log, left, written, lastSuccess)
        decreases |left|
      {
        left := EmitNext(left);
      }
      SkipsStart(log, written, lastSuccess);
    }

    method EmitNext(left: set<nat>) returns (rest: set<nat>)
      requires open && frozen && Sound(c, log, Fields(), written) && Orderly(c, log)
      requires left != {} && forall id | id in left :: id in probes
      requires CompletedWritten(log, left, written, lastSuccess)
      modifies this`probes, this`lastSuccess, this`rows, this`written
      ensures Sound(c, log, Fields(), written) && CompletedWritten(log, rest, written, lastSuccess)
      ensures |rest| < |left| && forall id | id in rest :: id in probes
    {
      var id := Least(left);
      rest := left - {id};
      ghost var before, last := written, lastSuccess;
      assert id < |log.fates| && id !in written && (log.fates[id].Done? ==> last <= log.fates[id].cqe);
      EmitIfTerminal(id);
      CompletedNext(c, log, left, before, last, id);
    }

    method EmitIfTerminal(id: nat)
      requires open && frozen && Sound(c, log, Fields(), written) && id in probes && id !in written
      requires log.fates[id].Done? ==> log.fates[id].post <= log.fates[id].cqe && lastSuccess <= log.fates[id].cqe
      modifies this`probes, this`lastSuccess, this`rows, this`written
      ensures Sound(c, log, Fields(), written) && id < |log.fates|
      ensures log.fates[id].Done? ==> written == old(written) + {id} && lastSuccess == log.fates[id].cqe
      ensures !log.fates[id].Done? ==> written == old(written) && lastSuccess == old(lastSuccess)
      ensures forall k :: k in old(probes) <==> k in probes
    {
      if probes[id].terminal {
        EmitProbe(id);
      }
    }

    /** Writes the rows of all skipped epochs. */
    method EmitSkipped()
      requires open && frozen && Sound(c, log, Fields(), written)
      requires SkipsWritten(log, 0, written) && log.frozen
      modifies this`skipped, this`rows, this`written
      ensures Sound(c, log, Fields(), written) && WrittenIs(log, written)
    {
      for i := 0 to |skipped|
        invariant |skipped| == |BusyIds(log.fates)|
        invariant Sound(c, log, Fields(), written)
        invariant SkipsWritten(log, i, written)
      {
        SkipsNext(log, i, written);
        EmitSkippedProbe(i);
      }
      SkipsEnd(log, written);
    }

    method EmitAll()
      requires open && frozen && Sound(c, log, Fields(), written) && written == {} && lastSuccess == 0
      requires Orderly(c, log) && DoneAfterZero(log) && log.frozen
      modifies this`probes, this`skipped, this`lastSuccess, this`rows, this`written
      ensures Valid()
    {
      EmitCompleted();
      EmitSkipped();
    }

    method StartRows(now: nat)
      requires Valid() && Legal(c, log, Freeze(now))
      modifies this`probes, this`skipped, this`frozen, this`lastSuccess, this`rows, this`log, this`written
      ensures Valid() && log == Next(c, old(log), Freeze(now))
    {
      ghost var before := Fields();
      ghost var l := log;
      frozen := true;
      log := Next(c, log, Freeze(now));
      StepKeepsOrderly(c, l, Freeze(now));
      FreezeIsSound(c, l, before, written, now);
      EmitAll();
    }

    method SetBaseline()
      requires warmupDelays != []
      modifies this`baselineDelay, this`backlogThreshold
      ensures baselineDelay in warmupDelays && forall d | d in warmupDelays :: baselineDelay <= d
      ensures IsCeiling(backlogThreshold, c.nominalRate * baselineDelay, 8000000000)
    {
      baselineDelay := MinElement(warmupDelays);
      backlogThreshold := CeilDiv(c.nominalRate * baselineDelay, 8000000000);
    }

    /** Fixes the baseline at the least warm-up delay, and the backlog threshold at the
        bytes the nominal rate carries in that time, rounded up; ok is the abort check. */
    method FinalizeBaseline(now: nat) returns (ok: bool)
      requires Valid() && Legal(c, log, Freeze(now)) && c.minSamples > 0
      modifies this
      ensures ok == (|old(log.warm)| >= c.minSamples)
      ensures ok ==> Valid() && log == Next(c, old(log), Freeze(now))
      ensures ok ==> baselineDelay in log.warm && forall d | d in log.warm :: baselineDelay <= d
      ensures ok ==> IsCeiling(backlogThreshold, c.nominalRate * baselineDelay, 8000000000)
    {
      if |warmupDelays| < c.minSamples {
        return false;
      }
      SetBaseline();
      StartRows(now);
      ok := true;
    }

    /** Closing the outputs gives the probes still open their row, unless they were
        posted at time 0. */
    method CloseOutputs()
      requires Valid()
      modifies this`probes, this`rows, this`written, this`open
      ensures Sound(c, log, Fields(), written)
      ensures AbandonedWritten(log, old(written), {}, written)
    {
      FlushUnresolvedProbes();
      open := false;
    }

    method FlushUnresolvedProbes()
      requires Sound(c, log, Fields(), written)
      requires forall id | id in written :: id < |log.fates| && !log.fates[id].Open?
      modifies this`probes, this`rows, this`written
      ensures Sound(c, log, Fields(), written)
      ensures AbandonedWritten(log, old(written), {}, written)
    {
      var left := probes.Keys;
      AbandonedStart(log, written, left);
      while left != {}
        invariant forall id | id in left :: id in probes
        invariant Sound(c, log, Fields(), written)
        invariant AbandonedWritten(log, old(written), left, written)
        decreases |left|
      {
        left := FlushNext(old(written), left);
      }
    }

    method FlushNext(ghost before: set<nat>, left: set<nat>) returns (rest: set<nat>)
      requires Sound(c, log, Fields(), written) && left != {} && forall id | id in left :: id in probes
      requires forall id | id in before :: id < |log.fates| && !log.fates[id].Open?
      requires AbandonedWritten(log, before, left, written)
      modifies this`probes, this`rows, this`written
      ensures Sound(c, log, Fields(), written) && AbandonedWritten(log, before, rest, written)
      ensures |rest| < |left| && forall id | id in rest :: id in probes
    {
      var id := Least(left);
      rest := left - {id};
      FlushProbe(id);
    }

    /** The row of a probe given up on. */
    method StoreTimeout(id: nat)
      requires id in probes
      modifies this`probes, this`rows
      ensures Fields() == GiveUp(c, old(Fields()), id)
    {
      var probe := probes[id];
      var timeout := if probe.timeout > 0 then probe.timeout else probe.post + c.timeoutNs;
      var age := if lastSuccess == 0 || timeout <= lastSuccess then 0 else timeout - lastSuccess;
      rows := rows + [Row(id, Timeout, probe.post, 0, timeout, 0, age, probe.post < c.startNs)];
      probes := probes[id := probe.(emitted := true)];
    }

    method FlushProbe(id: nat)
      requires Sound(c, log, Fields(), written) && id in probes && (id in written ==> log.fates[id].Done?)
      modifies this`probes, this`rows, this`written
      ensures Sound(c, log, Fields(), written) && forall k :: k in old(probes) <==> k in probes
      ensures written == old(written) + if Abandoned(log, id) then {id} else {}
    {
      var probe := probes[id];
      if probe.terminal || probe.emitted || probe.post == 0 {
        return;
      }
      GiveUpIsSound(c, log, Fields(), written, id);
      StoreTimeout(id);
      written := written + {id};
    }
  }

  function CountPosted(fates: seq<Fate>): nat {
    if fates == [] then 0
    else CountPosted(fates[..|fates| - 1]) + if fates[|fates| - 1].Posted() then 1 else 0
  }

  lemma CountPostedKept(fates: seq<Fate>, id: nat, f: Fate)
    requires id < |fates| && fates[id].Posted() == f.Posted()
    ensures CountPosted(fates[id := f]) == CountPosted(fates)
  {
    var n := |fates| - 1;
    if id < n {
      CountPostedKept(fates[..n], id, f);
      assert fates[id := f][..n] == fates[..n][id := f];
    } else {
      assert fates[id := f][..n] == fates[..n];
    }
  }

  /** The traffic scheduler's probe side. */
  class HostProbeScheduler {
    const c: Config
    var epoch: nat
    var outstanding: bool
    var entryCreated: bool
    var scheduledWqes: nat

    constructor (c: Config)
      ensures this.c == c && Agrees(NOTHING)
    {
      this.c := c;
      epoch, outstanding, entryCreated, scheduledWqes := 0, false, false, 0;
    }

    /** The scheduler's flags say the same about the log as the path sensor's tables. */
    predicate Agrees(l: Log)
      reads this
    {
      && epoch == |l.fates|
      && outstanding == !l.Idle()
      && scheduledWqes == CountPosted(l.fates)
      && entryCreated == (scheduledWqes > 0)
    }

    /** Numbers the epoch and decides whether it posts, which makes the pair outstanding. */
    method TakeEpoch(ghost l: Log, now: nat) returns (probeId: nat, post: bool)
      requires Agrees(l)
      modifies this
      ensures probeId == |l.fates| && post == l.Idle()
      ensures Agrees(l.Add(now, if post then Open(now, false) else Busy(now)))
    {
      probeId := epoch;
      epoch := epoch + 1;
      post := !outstanding;
      if post {
        if !entryCreated {
          entryCreated := true;
        }
        outstanding := true;
        scheduledWqes := scheduledWqes + 1;
      }
      OneMore(l.fates, now);
    }

    /** Every epoch before the stop time is posted, or skipped while a probe is outstanding. */
    method ScheduleHostProbeEpoch(sensing: HostPathSensing, now: nat) returns (ok: bool)
      requires sensing.c == c && sensing.Valid() && Agrees(sensing.log) && sensing.log.clock <= now
      modifies this, sensing
      ensures ok && sensing.Valid() && Agrees(sensing.log)
      ensures sensing.log == Next(c, old(sensing.log), Epoch(now))
      ensures now >= c.stopNs ==> scheduledWqes == old(scheduledWqes)
    {
      if now >= c.stopNs {
        return true;
      }
      var probeId, post := TakeEpoch(sensing.log, now);
      if post {
        ok := sensing.RecordCommit(probeId, now);
      } else {
        sensing.RecordProbeSkipped(probeId, now);
        ok := true;
      }
    }

    /** The count the probe pair is sealed with: as many as were ever posted. */
    method SealHostProbe(ghost l: Log) returns (sealed: bool, expected: nat)
      requires Agrees(l)
      ensures sealed == (CountPosted(l.fates) > 0)
      ensures sealed ==> expected == CountPosted(l.fates)
    {
      if !entryCreated {
        return false, 0;
      }
      return true, scheduledWqes;
    }

    /** A completion frees the scheduler; ok is its own assertion, then the sensor's. */
    method HostProbeWqeEvent(sensing: HostPathSensing, id: nat, now: nat) returns (ok: bool)
      requires sensing.c == c && sensing.Valid() && Agrees(sensing.log) && Legal(c, sensing.log, Cqe(id, now))
      modifies this, sensing
      ensures ok == (old(sensing.log.fates[id].post) > 0)
      ensures ok ==> sensing.Valid() && Agrees(sensing.log) && sensing.log == Next(c, old(sensing.log), Cqe(id, now))
    {
      ghost var l := sensing.log;
      assert l.fates[id].Open?;
      CompletionIsSettled(c, l, sensing.lastSuccess, sensing.written, id, now);
      CountPostedKept(l.fates, id, Next(c, l, Cqe(id, now)).fates[id]);
      ok := sensing.RecordCompletion(id, now);
      if !outstanding {
        return false;
      }
      outstanding := false;
    }
  }

  lemma OneMore(fates: seq<Fate>, t: nat)
    ensures AllClosed(Extended(fates, Busy(t))) == AllClosed(fates) && !AllClosed(Extended(fates, Open(t, false)))
    ensures CountPosted(Extended(fates, Busy(t))) == CountPosted(fates)
    ensures CountPosted(Extended(fates, Open(t, false))) == CountPosted(fates) + 1
  {
    ExtendedIsAppend(fates, Busy(t));
    ExtendedIsAppend(fates, Open(t, false));
    assert Extended(fates, Open(t, false))[|fates|].Open?;
    if i :| 0 <= i < |fates| && fates[i].Open? {
      assert Extended(fates, Busy(t))[i].Open?;
    }
  }

  /** The events at which the program stops: a completion of a probe posted at time 0,
      and a baseline with too few samples. */
  predicate Aborts(c: Config, l: Log, e: Event) {
    match e
    case Cqe(id, _) => PostedAtZero(l, id)
    case Freeze(_) => |l.warm| < c.minSamples
    case _ => false
  }

  /** No event of the run aborts it. */
  predicate GoesThrough(c: Config, events: seq<Event>)
    requires LegalRun(c, events)
  {
    events != [] ==>
      var front, last := events[..|events| - 1], events[|events| - 1];
      GoesThrough(c, front) && !Aborts(c, After(c, front).log, last)
  }

  lemma {:induction false} PrefixGoesThrough(c: Config, events: seq<Event>, i: nat)
    requires LegalRun(c, events) && i <= |events| && GoesThrough(c, events)
    ensures LegalRun(c, events[..i]) && GoesThrough(c, events[..i])
    decreases |events|
  {
    if i == |events| {
      assert events[..i] == events;
    } else {
      PrefixGoesThrough(c, events[..|events| - 1], i);
      assert events[..|events| - 1][..i] == events[..i];
    }
  }

  lemma NextGoesThrough(c: Config, events: seq<Event>, i: nat)
    requires LegalRun(c, events) && i < |events|
    ensures LegalRun(c, events[..i]) && Legal(c, After(c, events[..i]).log, events[i])
    ensures After(c, events[..i + 1]) == At(Next(c, After(c, events[..i]).log, events[i]))
    ensures GoesThrough(c, events[..i + 1])
       <==> GoesThrough(c, events[..i]) && !Aborts(c, After(c, events[..i]).log, events[i])
    ensures !GoesThrough(c, events[..i + 1]) ==> !GoesThrough(c, events)
  {
    PrefixIsLegal(c, events, i);
    assert events[..i + 1][..i] == events[..i];
    if GoesThrough(c, events) {
      PrefixGoesThrough(c, events, i + 1);
    }
  }

  /** A probe posted at time 0 can never complete, so it stays the only one. */
  predicate StuckAtZero(l: Log) {
    && !l.frozen && l.warm == [] && |l.fates| > 0 && l.fates[0].Open? && l.fates[0].post == 0
    && forall i | 0 < i < |l.fates| :: l.fates[i].Busy?
  }

  lemma {:induction false} ZeroNeverCompletes(c: Config, events: seq<Event>)
    requires LegalRun(c, events) && GoesThrough(c, events) && c.minSamples > 0
    ensures var l := After(c, events).log;
      && (PostedAtZero(l, 0) ==> StuckAtZero(l))
      && (l.fates == [] ==> l.warm == [] && !l.frozen)
  {
    if events != [] {
      ZeroNeverCompletes(c, events[..|events| - 1]);
    }
  }

  /** A warm-up that starts at time 0 never reaches a frozen baseline: such a run goes
      through exactly as long as nothing completes and the flows have not started. */
  lemma {:induction false} ZeroStartStops(c: Config, events: seq<Event>)
    requires LegalRun(c, events) && c.minSamples > 0 && c.stopNs > 0 && Epoch(0) in events
    ensures GoesThrough(c, events) <==> forall e | e in events :: !e.Cqe? && !e.Freeze?
    ensures GoesThrough(c, events) ==> !After(c, events).log.frozen
  {
    ZeroIffEpochAtZero(c, events);
    if GoesThrough(c, events) {
      ZeroNeverCompletes(c, events);
      NothingCompletes(c, events);
    } else {
      SomethingCompletes(c, events);
    }
  }

  lemma {:induction false} NothingCompletes(c: Config, events: seq<Event>)
    requires LegalRun(c, events) && GoesThrough(c, events) && c.minSamples > 0
    requires After(c, events).log.fates == [] || PostedAtZero(After(c, events).log, 0)
    ensures forall e | e in events :: !e.Cqe? && !e.Freeze?
  {
    if events != [] {
      var front, last := events[..|events| - 1], events[|events| - 1];
      ZeroNeverCompletes(c, front);
      RunsAreOrderly(c, front);
      NothingCompletes(c, front);
      assert events == front + [last];
    }
  }

  lemma {:induction false} SomethingCompletes(c: Config, events: seq<Event>)
    requires LegalRun(c, events) && !GoesThrough(c, events)
    ensures exists e :: e in events && (e.Cqe? || e.Freeze?)
  {
    var front, last := events[..|events| - 1], events[|events| - 1];
    assert events == front + [last];
    if !GoesThrough(c, front) {
      SomethingCompletes(c, front);
      var e :| e in front && (e.Cqe? || e.Freeze?);
      assert e in events;
    } else {
      assert last in events;
    }
  }

  /** Started at time 0, the first completion stops the program; started a nanosecond
      later, the same probe is answered and the baseline is frozen. */
  lemma StartDecides() returns (c: Config)
    ensures c.minSamples > 0 && c.stopNs > 0
    ensures LegalRun(c, [Epoch(0), Cqe(0, 4)]) && !GoesThrough(c, [Epoch(0), Cqe(0, 4)])
    ensures LegalRun(c, [Epoch(0), Freeze(10)]) && !GoesThrough(c, [Epoch(0), Freeze(10)])
    ensures LegalRun(c, [Epoch(1), Cqe(0, 4), Freeze(10)]) && GoesThrough(c, [Epoch(1), Cqe(0, 4), Freeze(10)])
    ensures After(c, [Epoch(1), Cqe(0, 4), Freeze(10)]).log.frozen
  {
    c := Config(10, 20, 5, 1, 0);
    var zero := NOTHING.Add(0, Open(0, false));
    assert [Epoch(0), Cqe(0, 4)][..1] == [Epoch(0), Freeze(10)][..1] == [Epoch(0)] && [Epoch(0)][..0] == [];
    assert After(c, [Epoch(0)]) == At(zero);
    var one := NOTHING.Add(1, Open(1, false));
    assert [Epoch(1), Cqe(0, 4), Freeze(10)][..2] == [Epoch(1), Cqe(0, 4)];
    assert [Epoch(1), Cqe(0, 4)][..1] == [Epoch(1)] && [Epoch(1)][..0] == [];
    assert After(c, [Epoch(1)]) == At(one) && GoesThrough(c, [Epoch(1)]);
    assert After(c, [Epoch(1), Cqe(0, 4)]) == At(Log(4, [Done(1, false, 4)], [3], false));
  }

  method Handle(sensing: HostPathSensing, scheduler: HostProbeScheduler, e: Event) returns (ok: bool)
    requires sensing.c == scheduler.c && sensing.c.minSamples > 0
    requires sensing.Valid() && scheduler.Agrees(sensing.log) && Legal(sensing.c, sensing.log, e)
    modifies sensing, scheduler
    ensures ok == !Aborts(sensing.c, old(sensing.log), e)
    ensures ok ==> sensing.Valid() && scheduler.Agrees(sensing.log)
    ensures ok ==> sensing.log == Next(sensing.c, old(sensing.log), e)
  {
    match e
    case Epoch(t) => ok := scheduler.ScheduleHostProbeEpoch(sensing, t);
    case Cqe(id, t) => ok := scheduler.HostProbeWqeEvent(sensing, id, t);
    case Check(id, t) =>
      ghost var fates := sensing.log.fates;
      SameIdle(fates, id, fates[id].(expired := true));
      CountPostedKept(fates, id, fates[id].(expired := true));
      sensing.CheckProbeTimeout(id, t);
      ok := true;
    case Freeze(t) => ok := sensing.FinalizeBaseline(t);
  }

  /** Any course of events, then the closing of the outputs. The run goes through unless
      it aborts; once the baseline is frozen each epoch has exactly one row; each row tells
      what happened; and the pair is sealed with the number of probes posted. */
  method Simulate(c: Config, events: seq<Event>) returns (ok: bool, rows: seq<Row>, sealed: bool, expected: nat)
    requires LegalRun(c, events) && c.minSamples > 0
    ensures ok == GoesThrough(c, events)
    ensures ok ==> RowsTell(c, After(c, events).log, rows)
    ensures ok && After(c, events).log.frozen ==> forall id: nat ::
      CountRows(rows, id) == if id < |After(c, events).log.fates| then 1 else 0
    ensures ok ==> sealed == (CountPosted(After(c, events).log.fates) > 0)
    ensures ok && sealed ==> expected == CountPosted(After(c, events).log.fates)
  {
    var sensing := new HostPathSensing(c);
    var scheduler := new HostProbeScheduler(c);
    rows, sealed, expected := [], false, 0;
    for i := 0 to |events|
      invariant sensing.c == c && scheduler.c == c && sensing.Valid() && scheduler.Agrees(sensing.log)
      invariant fresh(sensing) && fresh(scheduler)
      invariant After(c, events[..i]) == At(sensing.log)
      invariant GoesThrough(c, events[..i])
    {
      NextGoesThrough(c, events, i);
      ok := Handle(sensing, scheduler, events[i]);
      if !ok {
        return;
      }
    }
    assert events[..|events|] == events;
    ok := true;
    sealed, expected := scheduler.SealHostProbe(sensing.log);
    NonePostedAtZero(c, events);
    rows := ReadRows(sensing);
  }

  lemma NonePostedAtZero(c: Config, events: seq<Event>)
    requires LegalRun(c, events) && GoesThrough(c, events) && c.minSamples > 0
    ensures After(c, events).log.frozen ==> forall id: nat :: !PostedAtZero(After(c, events).log, id)
  {
    ZeroNeverCompletes(c, events);
    FirstDecidesZero(c, events);
  }

  /** What the result file holds after closing. */
  method ReadRows(sensing: HostPathSensing) returns (rows: seq<Row>)
    requires sensing.Valid()
    requires sensing.log.frozen ==> forall id: nat :: !PostedAtZero(sensing.log, id)
    modifies sensing
    ensures RowsTell(sensing.c, old(sensing.log), rows)
    ensures old(sensing.log.frozen) ==> forall id: nat ::
      CountRows(rows, id) == if id < |old(sensing.log.fates)| then 1 else 0
  {
    ghost var l := sensing.log;
    ghost var before := sensing.written;
    sensing.CloseOutputs();
    rows := sensing.rows;
    if l.frozen {
      forall id: nat
        ensures id in sensing.written <==> id < |l.fates|
      {
        assert !PostedAtZero(l, id);
        assert id in sensing.written <==> id in before || Abandoned(l, id);
      }
    }
  }

  predicate RowsTell(c: Config, l: Log, rows: seq<Row>) {
    (forall r | r in rows :: RowTrue(c, l, r)) && AgesRight(l, rows)
  }
}
