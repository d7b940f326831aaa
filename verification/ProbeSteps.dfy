/** Every change of the path sensor's tables keeps them true to the log. */
module ProbeSteps {
  import opened ProbeLog
  import opened ProbeTables

  lemma AnswerRowAppended(c: Config, l: Log, rows: seq<Row>, written: set<nat>, id: nat, p: Probe)
    requires RowsAre(c, l, rows, written) && id !in written
    requires id < |l.fates| && ProbeMatches(c, l.fates[id], p) && p.terminal && p.post <= p.cqe
    ensures var rows' := rows + [AnswerRow(c, id, p, AgeAt(LastCqe(rows), p.cqe))];
      RowsAre(c, l, rows', written + {id}) && LastCqe(rows') == p.cqe
  {
    RowAppended(c, l, rows, written, AnswerRow(c, id, p, AgeAt(LastCqe(rows), p.cqe)));
  }

  lemma SkipRowAppended(c: Config, l: Log, rows: seq<Row>, written: set<nat>, s: Skipped)
    requires RowsAre(c, l, rows, written) && s.id !in written
    requires s.id < |l.fates| && l.fates[s.id] == Busy(s.time)
    ensures var rows' := rows + [SkipRow(c, s, AgeAt(LastCqe(rows), s.time))];
      RowsAre(c, l, rows', written + {s.id}) && LastCqe(rows') == LastCqe(rows)
  {
    RowAppended(c, l, rows, written, SkipRow(c, s, AgeAt(LastCqe(rows), s.time)));
  }

  // ---------------------------------------------------------------- writing

  lemma AnswerIsSound(c: Config, l: Log, s: Sensor, written: set<nat>, id: nat)
    requires Sound(c, l, s, written) && id !in written
    requires id < |l.fates| && l.fates[id].Done? && l.fates[id].post <= l.fates[id].cqe
    ensures id in s.probes && s.probes[id].post <= s.probes[id].cqe == l.fates[id].cqe
    ensures Sound(c, l, Answer(c, s, id), written + {id})
  {
    AnswerRowAppended(c, l, s.rows, written, id, s.probes[id]);
  }

  lemma SkipIsSound(c: Config, l: Log, s: Sensor, written: set<nat>, i: nat)
    requires Sound(c, l, s, written) && i < |s.skipped| && s.skipped[i].id !in written
    ensures Sound(c, l, Skip(c, s, i), written + {s.skipped[i].id})
  {
    SkipRowAppended(c, l, s.rows, written, s.skipped[i]);
    BusyIdsAreBusy(l.fates);
  }

  lemma GiveUpIsSound(c: Config, l: Log, s: Sensor, written: set<nat>, id: nat)
    requires Sound(c, l, s, written) && id !in written && id < |l.fates| && l.fates[id].Open? && l.fates[id].post > 0
    ensures id in s.probes && Sound(c, l, GiveUp(c, s, id), written + {id})
  {
    assert l.fates[id].Posted();
    var row := GiveUp(c, s, id).rows[|s.rows|];
    assert RowTrue(c, l, row);
    RowAppended(c, l, s.rows, written, row);
  }

  // --------------------------------------------- what a log step leaves true

  lemma RowCounted(rows: seq<Row>, r: Row)
    requires r in rows
    ensures CountRows(rows, r.id) > 0
  {
    var front := rows[..|rows| - 1];
    if r != rows[|rows| - 1] {
      assert rows == front + [rows[|rows| - 1]];
      RowCounted(front, r);
    }
  }

  lemma AgesKept(l: Log, l': Log, rows: seq<Row>)
    requires forall r | r in rows :: r.id < |l.fates| <= |l'.fates| && SameRow(l.fates[r.id], l'.fates[r.id])
    requires AgesRight(l, rows)
    ensures AgesRight(l', rows)
  {
    if rows != [] {
      AgesKept(l, l', rows[..|rows| - 1]);
      assert rows[|rows| - 1] in rows;
    }
  }

  lemma RowsKept(c: Config, l: Log, l': Log, rows: seq<Row>, written: set<nat>)
    requires RowsAre(c, l, rows, written) && |l.fates| <= |l'.fates|
    requires forall id | id in written && id < |l.fates| :: SameRow(l.fates[id], l'.fates[id])
    ensures RowsAre(c, l', rows, written)
  {
    forall r | r in rows
      ensures RowTrue(c, l', r) && SameRow(l.fates[r.id], l'.fates[r.id])
    {
      RowCounted(rows, r);
      assert RowTrue(c, l, r);
    }
    AgesKept(l, l', rows);
  }

  lemma PostedProbes(c: Config, l: Log, t: nat, probes: map<nat, Probe>, written: set<nat>)
    requires ProbesMatch(c, l, probes, written) && |l.fates| !in written
    ensures ProbesMatch(c, l.Add(t, Open(t, false)),
                        probes[|l.fates| := BLANK.(post := t)], written)
  {}

  lemma BusyProbes(c: Config, l: Log, t: nat, probes: map<nat, Probe>, written: set<nat>)
    requires ProbesMatch(c, l, probes, written)
    ensures ProbesMatch(c, l.Add(t, Busy(t)), probes, written)
  {}

  lemma PostedSkips(l: Log, t: nat, skipped: seq<Skipped>, written: set<nat>)
    requires SkippedMatch(l, skipped, written)
    ensures SkippedMatch(l.Add(t, Open(t, false)), skipped, written)
  {
    ExtendedIsAppend(l.fates, Open(t, false));
  }

  lemma BusySkips(l: Log, t: nat, skipped: seq<Skipped>, written: set<nat>)
    requires SkippedMatch(l, skipped, written) && |l.fates| !in written
    ensures SkippedMatch(l.Add(t, Busy(t)), skipped + [Skipped(|l.fates|, t, false)], written)
  {
    ExtendedIsAppend(l.fates, Busy(t));
  }

  lemma FateMatches(c: Config, l: Log, id: nat, f: Fate, p: Probe, probes: map<nat, Probe>, skipped: seq<Skipped>,
                    written: set<nat>)
    requires ProbesMatch(c, l, probes, written) && SkippedMatch(l, skipped, written)
    requires id < |l.fates| && l.fates[id].Posted() && ProbeMatches(c, f, p) && p.emitted == (id in written)
    ensures ProbesMatch(c, l.(fates := l.fates[id := f]), probes[id := p], written)
    ensures SkippedMatch(l.(fates := l.fates[id := f]), skipped, written)
  {
    BusyIdsKept(l.fates, id, f);
  }

  lemma SameIdle(fates: seq<Fate>, id: nat, f: Fate)
    requires id < |fates| && fates[id].Open? == f.Open?
    ensures AllClosed(fates) == AllClosed(fates[id := f])
  {
    if i :| 0 <= i < |fates| && fates[i].Open? {
      assert fates[id := f][i].Open?;
    }
  }

  lemma NewIsBlank(c: Config, l: Log, s: Sensor, written: set<nat>)
    requires Sound(c, l, s, written)
    ensures Lookup(s.probes, |l.fates|) == BLANK
  {
    assert |l.fates| !in s.probes;
  }

  lemma PostIsSound(c: Config, l: Log, s: Sensor, written: set<nat>, t: nat)
    requires Sound(c, l, s, written) && l.Idle() && |l.fates| !in written
    ensures Sound(c, l.Add(t, Open(t, false)), Posted(s, |l.fates|, t), written)
  {
    var l' := l.Add(t, Open(t, false));
    NewIsBlank(c, l, s, written);
    PostedProbes(c, l, t, s.probes, written);
    PostedSkips(l, t, s.skipped, written);
    RowsKept(c, l, l', s.rows, written);
    assert l'.fates[|l.fates|].Open?;
  }

  lemma PostIsSettled(c: Config, l: Log, lastSuccess: nat, written: set<nat>, t: nat)
    requires Settled(c, l, lastSuccess, written) && l.clock <= t && l.Idle()
    ensures |l.fates| !in written
    ensures Settled(c, l.Add(t, Open(t, false)), lastSuccess, written)
  {
    EpochKeepsOrderly(c, l, t);
  }

  lemma PostKeepsAll(c: Config, l: Log, s: Sensor, written: set<nat>, t: nat)
    requires Sound(c, l, s, written) && Settled(c, l, s.lastSuccess, written) && l.clock <= t && l.Idle()
    ensures Lookup(s.probes, |l.fates|) == BLANK
    ensures Sound(c, l.Add(t, Open(t, false)), Posted(s, |l.fates|, t), written)
    ensures Settled(c, l.Add(t, Open(t, false)), s.lastSuccess, written)
  {
    NewIsBlank(c, l, s, written);
    PostIsSettled(c, l, s.lastSuccess, written, t);
    PostIsSound(c, l, s, written, t);
  }

  lemma BusyIsSound(c: Config, l: Log, s: Sensor, written: set<nat>, t: nat)
    requires Sound(c, l, s, written) && !l.Idle() && |l.fates| !in written
    requires forall id | id in written && id < |l.fates| :: !l.fates[id].Open?
    ensures Sound(c, l.Add(t, Busy(t)),
                  s.(skipped := s.skipped + [Skipped(|l.fates|, t, false)]), written)
  {
    var l' := l.Add(t, Busy(t));
    BusyProbes(c, l, t, s.probes, written);
    BusySkips(l, t, s.skipped, written);
    RowsKept(c, l, l', s.rows, written);
    var i :| 0 <= i < |l.fates| && l.fates[i].Open?;
    assert l'.fates[i].Open?;
  }

  lemma BusyIsSettled(c: Config, l: Log, lastSuccess: nat, written: set<nat>, t: nat)
    requires Settled(c, l, lastSuccess, written) && l.clock <= t && !l.Idle()
    ensures Settled(c, l.Add(t, Busy(t)), lastSuccess,
                    if l.frozen then written + {|l.fates|} else written)
  {
    EpochKeepsOrderly(c, l, t);
  }

  /** A new fate for an epoch that has no row yet, or one that leaves its row alone. */
  lemma FateIsSound(c: Config, l: Log, l': Log, id: nat, p: Probe, s: Sensor, written: set<nat>)
    requires ProbesMatch(c, l, s.probes, written) && SkippedMatch(l, s.skipped, written)
    requires RowsAre(c, l, s.rows, written)
    requires |l'.fates| == |l.fates| && id < |l.fates| && l'.fates == l.fates[id := l'.fates[id]]
    requires l.fates[id].Posted() && ProbeMatches(c, l'.fates[id], p) && p.emitted == (id in written)
    requires id in written ==> SameRow(l.fates[id], l'.fates[id])
    ensures ProbesMatch(c, l', s.probes[id := p], written)
    ensures SkippedMatch(l', s.skipped, written) && RowsAre(c, l', s.rows, written)
  {
    FateMatches(c, l, id, l'.fates[id], p, s.probes, s.skipped, written);
    RowsKept(c, l, l', s.rows, written);
  }

  lemma CompletionIsSound(c: Config, l: Log, s: Sensor, written: set<nat>, id: nat, t: nat)
    requires Sound(c, l, s, written) && Legal(c, l, Cqe(id, t)) && id !in written
    requires Next(c, l, Cqe(id, t)).Idle()
    ensures id in s.probes && s.probes[id].post == l.fates[id].post && !s.probes[id].terminal
    ensures Sound(c, Next(c, l, Cqe(id, t)), Complete(c, s, id, t), written)
  {
    assert !l.Idle() by {
      assert l.fates[id].Open?;
    }
    DelayIsSame(c, l, s, id, t);
    FateIsSound(c, l, Next(c, l, Cqe(id, t)), id, s.probes[id].(cqe := t, terminal := true), s, written);
  }

  lemma DelayIsSame(c: Config, l: Log, s: Sensor, id: nat, t: nat)
    requires id in s.probes && Legal(c, l, Cqe(id, t)) && ProbeMatches(c, l.fates[id], s.probes[id])
    requires s.warmupDelays == l.warm
    ensures Complete(c, s, id, t).warmupDelays == Next(c, l, Cqe(id, t)).warm
  {}

  lemma CompletionIsSettled(c: Config, l: Log, lastSuccess: nat, written: set<nat>, id: nat, t: nat)
    requires Settled(c, l, lastSuccess, written) && Legal(c, l, Cqe(id, t))
    ensures id !in written && Next(c, l, Cqe(id, t)).Idle()
    ensures l.fates[id].post > 0 ==> Settled(c, Next(c, l, Cqe(id, t)), if l.frozen then t else lastSuccess,
                    if l.frozen then written + {id} else written)
  {
    CqeKeepsOrderly(c, l, id, t);
    forall i | 0 <= i < |l.fates| && i != id
      ensures !l.fates[i].Open?
    {
      assert if i < id then DoneBefore(l.fates[i], l.fates[id]) else DoneBefore(l.fates[id], l.fates[i]);
    }
  }

  lemma ExpiryIsSound(c: Config, l: Log, s: Sensor, written: set<nat>, id: nat, t: nat)
    requires Sound(c, l, s, written) && Legal(c, l, Check(id, t))
    requires id in written ==> l.fates[id].Done?
    ensures id in s.probes
    ensures Sound(c, Next(c, l, Check(id, t)), Expire(s, id, t), written)
  {
    var l' := Next(c, l, Check(id, t));
    FateIsSound(c, l, l', id, Expire(s, id, t).probes[id], s, written);
    assert s.probes[id].terminal ==> s.probes[id := s.probes[id]] == s.probes;
    SameIdle(l.fates, id, l'.fates[id]);
  }

  lemma ExpiryIsSettled(c: Config, l: Log, lastSuccess: nat, written: set<nat>, id: nat, t: nat)
    requires Settled(c, l, lastSuccess, written) && Legal(c, l, Check(id, t))
    ensures Settled(c, Next(c, l, Check(id, t)), lastSuccess, written)
  {
    StepKeepsOrderly(c, l, Check(id, t));
  }

  lemma FreezeIsSound(c: Config, l: Log, s: Sensor, written: set<nat>, t: nat)
    requires Sound(c, l, s, written) && Settled(c, l, s.lastSuccess, written) && Legal(c, l, Freeze(t))
    ensures written == {} && s.lastSuccess == 0
    ensures Sound(c, Next(c, l, Freeze(t)), s.(frozen := true), written)
  {
    RowsKept(c, l, Next(c, l, Freeze(t)), s.rows, written);
    if s.rows != [] {
      RowCounted(s.rows, s.rows[0]);
    }
    assert s.rows == [];
  }

  // ------------------------------------------------------------------ loops

  lemma CompletedStart(l: Log, left: set<nat>)
    requires forall id: nat | id < |l.fates| && l.fates[id].Posted() :: id in left
    ensures CompletedWritten(l, left, {}, 0)
  {}

  lemma CompletedNext(c: Config, l: Log, left: set<nat>, written: set<nat>, last: nat, id: nat)
    requires CompletedWritten(l, left, written, last) && Orderly(c, l)
    requires id in left && id < |l.fates| && forall x | x in left :: id <= x
    ensures l.fates[id].Done? ==> CompletedWritten(l, left - {id}, written + {id}, l.fates[id].cqe)
    ensures !l.fates[id].Done? ==> CompletedWritten(l, left - {id}, written, last)
  {
    if l.fates[id].Done? {
      forall x | x in left && x < |l.fates| && l.fates[x].Done?
        ensures l.fates[id].cqe <= l.fates[x].cqe
      {
        assert x == id || DoneBefore(l.fates[id], l.fates[x]);
      }
    }
  }

  lemma SkipsStart(l: Log, written: set<nat>, last: nat)
    requires CompletedWritten(l, {}, written, last)
    ensures SkipsWritten(l, 0, written) && last <= l.clock
  {}

  lemma SkipsNext(l: Log, i: nat, written: set<nat>)
    requires i < |BusyIds(l.fates)| && SkipsWritten(l, i, written)
    ensures BusyIds(l.fates)[i] !in written
    ensures SkipsWritten(l, i + 1, written + {BusyIds(l.fates)[i]})
  {
    var ids := BusyIds(l.fates);
    BusyIdsAreBusy(l.fates);
    assert ids[..i + 1] == ids[..i] + [ids[i]];
    var written' := written + {ids[i]};
    forall id: nat
      ensures id in written' <==> id < |l.fates| && (l.fates[id].Done? || id in ids[..i + 1])
    {
      assert id in ids[..i + 1] <==> id in ids[..i] || id == ids[i];
      assert id in written <==> id < |l.fates| && (l.fates[id].Done? || id in ids[..i]);
    }
  }

  lemma SkipsEnd(l: Log, written: set<nat>)
    requires SkipsWritten(l, |BusyIds(l.fates)|, written) && l.frozen
    ensures WrittenIs(l, written)
  {
    var ids := BusyIds(l.fates);
    BusyIdsAreBusy(l.fates);
    assert ids[..|ids|] == ids;
    forall id: nat
      ensures id in written <==> id < |l.fates| && !l.fates[id].Open?
    {
      if id in ids {
        var i :| 0 <= i < |ids| && ids[i] == id;
      }
    }
  }

  lemma AbandonedStart(l: Log, written: set<nat>, left: set<nat>)
    requires forall id: nat | id < |l.fates| && l.fates[id].Posted() :: id in left
    ensures AbandonedWritten(l, written, left, written)
  {}
}
