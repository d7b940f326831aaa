/** The traffic trace: its generator, the checks made before a run, and the run that
    consumes it. Start times are nanoseconds. */
module FlowTrace {
  import CdfSampling
  import EventQueue
  import FlowPlan
  import FlowSplit
  import TrafficRun

  datatype Row = Row(src: int, dst: int, pg: int, size: int, start: int)

  /** A host's next flow in the generator's heap. */
  datatype Entry = Entry(t: int, host: int)

  const BASE := 2000000000

  // ------------------------------------------------------------- validator

  predicate RowValid(r: Row, hosts: int, start: int, stop: int) {
    && 0 <= r.src < hosts && 0 <= r.dst < hosts && r.src != r.dst
    && r.pg >= 0 && r.size > 0
    && start <= r.start <= stop
  }

  /** Every row is valid, rows are ordered by start time, and their number is declared. */
  predicate TraceValid(declared: int, rows: seq<Row>, hosts: int, start: int, stop: int) {
    && declared == |rows|
    && (forall i | 0 <= i < |rows| :: RowValid(rows[i], hosts, start, stop))
    && (forall i, j | 0 <= i < j < |rows| :: rows[i].start <= rows[j].start)
  }

  /** ok is false where the check raises. */
  method ValidateFlowFile(declared: int, rows: seq<Row>, hosts: int, start: int, stop: int) returns (ok: bool)
    ensures ok == TraceValid(declared, rows, hosts, start, stop)
  {
    if declared < 0 {
      return false;
    }
    var rowCount := 0;
    var previousStart := 0;
    for i := 0 to |rows|
      invariant rowCount == i && (i > 0 ==> previousStart == rows[i - 1].start)
      invariant forall k | 0 <= k < i :: RowValid(rows[k], hosts, start, stop)
      invariant forall k, m | 0 <= k < m < i :: rows[k].start <= rows[m].start
    {
      var r := rows[i];
      if !(0 <= r.src < hosts && 0 <= r.dst < hosts && r.src != r.dst) {
        return false;
      }
      if r.pg < 0 || r.size <= 0 {
        return false;
      }
      if !(start <= r.start <= stop) {
        return false;
      }
      if i > 0 && r.start < previousStart {
        return false;
      }
      previousStart := r.start;
      rowCount := rowCount + 1;
    }
    ok := rowCount == declared;
  }

  // ------------------------------------------------------------- generator

  ghost predicate Less(a: Entry, b: Entry) {
    a.t < b.t || (a.t == b.t && a.host <= b.host)
  }

  /** The head of the heap: its least entry. */
  method HeapMin(heap: seq<Entry>) returns (k: nat)
    requires heap != []
    ensures k < |heap| && forall i | 0 <= i < |heap| :: Less(heap[k], heap[i])
  {
    k := 0;
    for i := 1 to |heap|
      invariant k < i && forall m | 0 <= m < i :: Less(heap[k], heap[m])
    {
      if heap[i].t < heap[k].t || (heap[i].t == heap[k].t && heap[i].host < heap[k].host) {
        k := i;
      }
    }
  }

  /** What a turn of the generation loop does: write a row, or retire a host. */
  datatype Turn = Wrote(row: Row) | Retired(host: int)

  function Written(log: seq<Turn>): seq<Row> {
    if log == [] then []
    else Written(log[..|log| - 1]) + if log[|log| - 1].Wrote? then [log[|log| - 1].row] else []
  }

  /** When a host's next flow is due: at its first arrival, or the delay drawn in the turn
      of its last row after that row. */
  ghost function NextDue(log: seq<Turn>, first: seq<nat>, inters: seq<nat>, host: nat): int
    requires |log| <= |inters| && host < |first|
  {
    if log == [] then 2_000_000_000 + first[host]
    else
      var n := |log| - 1;
      if log[n].Wrote? && log[n].row.src == host then log[n].row.start + inters[n]
      else NextDue(log[..n], first, inters, host)
  }

  predicate IsRetired(log: seq<Turn>, host: int) {
    Retired(host) in log
  }

  /** Every turn takes a host not yet retired, at its due time, and writes its row if the
      flow after that, by the delay just drawn, is within the horizon, or retires it. */
  ghost predicate Renews(log: seq<Turn>, first: seq<nat>, inters: seq<nat>, duration: nat) {
    && |log| <= |inters|
    && (log != [] ==>
          var n := |log| - 1;
          && Renews(log[..n], first, inters, duration)
          && match log[n]
             case Wrote(row) =>
               && 0 <= row.src < |first| && !IsRetired(log[..n], row.src)
               && row.start == NextDue(log[..n], first, inters, row.src) <= BASE + duration - inters[n]
             case Retired(h) =>
               && 0 <= h < |first| && !IsRetired(log[..n], h)
               && NextDue(log[..n], first, inters, h) > BASE + duration - inters[n])
  }

  /** A host is retired in the turn of a flow that is due and is never written: its next
      flow would be past the horizon, but it need not be. */
  lemma {:induction false} LastFlowDropped(log: seq<Turn>, first: seq<nat>, inters: seq<nat>, duration: nat, h: nat)
    returns (n: nat)
    requires Renews(log, first, inters, duration) && IsRetired(log, h) && h < |first|
    ensures n < |log| && log[n] == Retired(h) && |log| <= |inters|
    ensures NextDue(log, first, inters, h) == NextDue(log[..n], first, inters, h) > BASE + duration - inters[n]
    ensures forall k | n < k < |log| && log[k].Wrote? :: log[k].row.src != h
  {
    var last := |log| - 1;
    if log[last] == Retired(h) {
      n := last;
    } else {
      assert log == log[..last] + [log[last]];
      n := LastFlowDropped(log[..last], first, inters, duration, h);
      assert log[..last][..n] == log[..n];
    }
  }

  /** Two hosts have a flow due three nanoseconds after the start, well before the horizon,
      and the trace is empty. */
  lemma DueFlowsDropped() returns (log: seq<Turn>)
    ensures Renews(log, [3, 3], [20, 20], 10) && Written(log) == []
    ensures forall h | 0 <= h < 2 :: IsRetired(log, h) && NextDue([], [3, 3], [20, 20], h) == BASE + 3 < BASE + 10
  {
    log := [Retired(0), Retired(1)];
    assert log[..1] == [Retired(0)] && [Retired(0)][..0] == [];
    assert Renews([Retired(0)], [3, 3], [20, 20], 10);
    assert NextDue([Retired(0)], [3, 3], [20, 20], 1) == BASE + 3;
  }

  lemma OneMoreTurn(log: seq<Turn>, turn: Turn)
    ensures (log + [turn])[..|log|] == log && |log + [turn]| - 1 == |log|
    ensures Written(log + [turn]) == Written(log) + if turn.Wrote? then [turn.row] else []
    ensures forall h :: IsRetired(log + [turn], h) <==> IsRetired(log, h) || turn == Retired(h)
  {
    assert (log + [turn])[..|log|] == log;
  }

  /** The heap holds each host not yet retired, once, with its due time. */
  ghost predicate HeapRight(heap: seq<Entry>, log: seq<Turn>, first: seq<nat>, inters: seq<nat>)
    requires |log| <= |inters|
  {
    && (forall i | 0 <= i < |heap| :: 0 <= heap[i].host < |first| && !IsRetired(log, heap[i].host)
          && heap[i].t == NextDue(log, first, inters, heap[i].host))
    && (forall i, j | 0 <= i < j < |heap| :: heap[i].host != heap[j].host)
    && |heap| == |Unretired(log, |first|)|
  }

  function Unretired(log: seq<Turn>, hosts: nat): set<int> {
    set h | 0 <= h < hosts && !IsRetired(log, h)
  }

  lemma HeapAfterRow(heap: seq<Entry>, log: seq<Turn>, first: seq<nat>, inters: seq<nat>, k: nat, row: Row)
    requires |log| < |inters| && HeapRight(heap, log, first, inters)
    requires k < |heap| && row.src == heap[k].host && row.start == heap[k].t
    ensures HeapRight(heap[k := Entry(row.start + inters[|log|], row.src)], log + [Wrote(row)], first, inters)
  {
    OneMoreTurn(log, Wrote(row));
    assert Unretired(log + [Wrote(row)], |first|) == Unretired(log, |first|);
  }

  lemma HeapAfterRetirement(heap: seq<Entry>, log: seq<Turn>, first: seq<nat>, inters: seq<nat>, k: nat)
    requires |log| < |inters| && HeapRight(heap, log, first, inters) && k < |heap|
    ensures HeapRight(heap[..k] + heap[k + 1..], log + [Retired(heap[k].host)], first, inters)
  {
    var heap' := heap[..k] + heap[k + 1..];
    OneMoreTurn(log, Retired(heap[k].host));
    forall i | 0 <= i < |heap'|
      ensures heap'[i] == heap[if i < k then i else i + 1]
    {}
    var left := Unretired(log, |first|);
    assert heap[k].host in left;
    assert Unretired(log + [Retired(heap[k].host)], |first|) == left - {heap[k].host};
  }

  lemma RowAccepted(rows: seq<Row>, hosts: int, duration: nat, row: Row)
    requires TraceValid(|rows|, rows, hosts, BASE, BASE + duration)
    requires RowValid(row, hosts, BASE, BASE + duration) && forall r | r in rows :: r.start <= row.start
    ensures TraceValid(|rows| + 1, rows + [row], hosts, BASE, BASE + duration)
  {}

  ghost predicate Generating(hosts: nat, duration: nat, first: seq<nat>, inters: seq<nat>, heap: seq<Entry>,
                             rows: seq<Row>, log: seq<Turn>)
  {
    && |first| == hosts && |log| <= |inters|
    && rows == Written(log) && Renews(log, first, inters, duration)
    && TraceValid(|rows|, rows, hosts, BASE, BASE + duration)
    && HeapRight(heap, log, first, inters)
    && (forall i | 0 <= i < |heap| :: BASE <= heap[i].t)
    && (forall r, i | r in rows && 0 <= i < |heap| :: r.start <= heap[i].t)
  }

  lemma RowTurn(hosts: nat, duration: nat, first: seq<nat>, inters: seq<nat>, heap: seq<Entry>, rows: seq<Row>,
                log: seq<Turn>, k: nat, row: Row)
    requires Generating(hosts, duration, first, inters, heap, rows, log) && |log| < |inters|
    requires k < |heap| && forall i | 0 <= i < |heap| :: Less(heap[k], heap[i])
    requires row.src == heap[k].host && row.start == heap[k].t && heap[k].t + inters[|log|] <= duration + BASE
    requires 0 <= row.dst < hosts && row.dst != row.src && row.pg >= 0 && row.size > 0
    ensures Generating(hosts, duration, first, inters, heap[k := Entry(heap[k].t + inters[|log|], row.src)],
                       rows + [row], log + [Wrote(row)])
  {
    OneMoreTurn(log, Wrote(row));
    HeapAfterRow(heap, log, first, inters, k, row);
    RowAccepted(rows, hosts, duration, row);
  }

  lemma RetirementTurn(hosts: nat, duration: nat, first: seq<nat>, inters: seq<nat>, heap: seq<Entry>, rows: seq<Row>,
                       log: seq<Turn>, k: nat)
    requires Generating(hosts, duration, first, inters, heap, rows, log) && |log| < |inters|
    requires k < |heap| && heap[k].t + inters[|log|] > duration + BASE
    ensures Generating(hosts, duration, first, inters, heap[..k] + heap[k + 1..], rows, log + [Retired(heap[k].host)])
  {
    OneMoreTurn(log, Retired(heap[k].host));
    HeapAfterRetirement(heap, log, first, inters, k);
    var heap' := heap[..k] + heap[k + 1..];
    assert forall i | 0 <= i < |heap'| :: heap'[i] == heap[if i < k then i else i + 1];
  }

  /** The flow generation loop, for any draws: first holds the first arrival delays, inters
      the delays drawn afterwards, one in each turn, and done tells whether the heap ran
      empty before they did; the other draws are free. Every row list it can write passes
      the checks. It consists of each host's flows at their due times, and a due flow is
      written exactly when the flow after it is due within the horizon too. */
  method Generate(hosts: nat, duration: nat, first: seq<nat>, inters: seq<nat>, sampler: CdfSampling.CustomRand)
    returns (rows: seq<Row>, flowCount: int, done: bool, ghost log: seq<Turn>)
    requires hosts >= 2 && |first| == hosts && sampler.Valid()
    ensures TraceValid(flowCount, rows, hosts, 2_000_000_000, 2_000_000_000 + duration)
    ensures forall r | r in rows :: r.pg == 3 && IsDrawn(sampler.cdf, r.size)
    ensures rows == Written(log) && Renews(log, first, inters, duration)
    ensures if done then forall h | 0 <= h < hosts :: IsRetired(log, h) else |log| == |inters|
  {
    rows, flowCount, log := [], 0, [];
    var heap := seq(hosts, i requires 0 <= i < hosts => Entry(BASE + first[i], i));
    AllUnretired(hosts);
    for turn := 0 to |inters|
      invariant |log| == turn && flowCount == |rows|
      invariant Generating(hosts, duration, first, inters, heap, rows, log)
      invariant forall r | r in rows :: r.pg == 3 && IsDrawn(sampler.cdf, r.size)
    {
      if |heap| == 0 {
        break;
      }
      var k := HeapMin(heap);
      var t, src := heap[k].t, heap[k].host;
      var dst := DrawOther(hosts, src);
      if t + inters[turn] > duration + BASE {
        RetirementTurn(hosts, duration, first, inters, heap, rows, log, k);
        heap := heap[..k] + heap[k + 1..];
        log := log + [Retired(src)];
      } else {
        var size := DrawSize(sampler);
        var row := Row(src, dst, 3, size, t);
        RowTurn(hosts, duration, first, inters, heap, rows, log, k, row);
        flowCount := flowCount + 1;
        rows := rows + [row];
        heap := heap[k := Entry(t + inters[turn], src)];
        log := log + [Wrote(row)];
      }
    }
    done := heap == [];
    if done {
      forall h | 0 <= h < hosts
        ensures IsRetired(log, h)
      {
        assert h !in Unretired(log, hosts);
      }
    }
  }

  lemma AllUnretired(hosts: nat)
    ensures |Unretired([], hosts)| == hosts
  {
    if hosts > 0 {
      AllUnretired(hosts - 1);
      assert Unretired([], hosts) == Unretired([], hosts - 1) + {hosts - 1};
    }
  }

  /** Drawn again until it differs from the source. */
  method DrawOther(hosts: int, src: int) returns (dst: int)
    requires hosts >= 2
    ensures 0 <= dst < hosts && dst != src
  {
    assert 0 <= (if src == 0 then 1 else 0) < hosts;
    dst :| 0 <= dst < hosts && dst != src;
  }

  /** x with its fraction cut off, or 1 for one below 1. */
  ghost predicate IsWhole(x: real, size: int) {
    if x < 1.0 then size == 1 else size as real <= x < size as real + 1.0
  }

  /** A size made of a value in the range of the table. */
  ghost predicate IsDrawn(cdf: seq<CdfSampling.Point>, size: int) {
    cdf != [] && exists x: real :: cdf[0].x <= x < cdf[|cdf| - 1].x && IsWhole(x, size)
  }

  method DrawSize(sampler: CdfSampling.CustomRand) returns (size: int)
    requires sampler.Valid()
    ensures size > 0 && IsDrawn(sampler.cdf, size)
  {
    var draw: real :| 0.0 <= draw < 1.0;
    var value := sampler.Rand(draw);
    size := if value.value >= 0.0 then value.value.Floor else -((-value.value).Floor);
    if size <= 0 {
      size := 1;
    }
    assert IsWhole(value.value, size);
  }

  // --------------------------------------------------------------- reading

  const MAX: FlowSplit.uint32 := 0xFFFF_FFFF

  /** The four integers of the row fit the 32-bit fields they are read into. */
  predicate RowFits(r: Row) {
    r.src < FlowSplit.WORD && r.dst < FlowSplit.WORD && r.pg < FlowSplit.WORD && r.size < FlowSplit.WORD
  }

  predicate Fits(rows: seq<Row>) {
    forall i | 0 <= i < |rows| :: RowFits(rows[i])
  }

  /** A checked row of a network whose nodes are numbered in 32 bits. */
  predicate Readable(r: Row) {
    && 0 <= r.src < FlowSplit.WORD && 0 <= r.dst < FlowSplit.WORD
    && r.pg >= 0 && r.size > 0 && r.start >= 0
  }

  /** The reader's copy of the next flow. */
  datatype Input = Input(src: FlowSplit.uint32, dst: FlowSplit.uint32, pg: FlowSplit.uint32, size: FlowSplit.uint32,
                         start: real)

  const BLANK := Input(0, 0, 0, 0, 0.0)

  /** A time in seconds, of so many nanoseconds. */
  ghost predicate IsTime(seconds: real, ns: int) {
    seconds * 1_000_000_000.0 == ns as real
  }

  ghost predicate Matches(f: Input, r: Row) {
    && f.src as int == r.src && f.dst as int == r.dst && f.pg as int == r.pg && f.size as int == r.size
    && IsTime(f.start, r.start)
  }

  /** What a row that does not fit leaves in the reader's copy: the field that is too large
      reads as the largest number, and the fields after it, the start time among them, keep
      what the row before left. */
  function Misread(before: Input, r: Row): Input
    requires Readable(r)
  {
    var ends := before.(src := r.src as FlowSplit.uint32, dst := r.dst as FlowSplit.uint32);
    if r.pg >= FlowSplit.WORD then ends.(pg := MAX)
    else ends.(pg := r.pg as FlowSplit.uint32, size := MAX)
  }

  /** The input stream of the flow file, with the flow read last. A field that is too large
      fails the stream, and a failed stream reads nothing more. */
  class FlowReader {
    var failed: bool
    var input: Input

    constructor ()
      ensures !failed && input == BLANK
    {
      failed, input := false, BLANK;
    }

    method ReadWord(value: nat, was: FlowSplit.uint32) returns (word: FlowSplit.uint32)
      modifies this`failed
      ensures failed == (old(failed) || value >= FlowSplit.WORD)
      ensures word == if old(failed) then was else if failed then MAX else value as FlowSplit.uint32
    {
      if failed {
        return was;
      }
      if value >= FlowSplit.WORD {
        failed := true;
        return MAX;
      }
      word := value as FlowSplit.uint32;
    }

    method ReadFlowInput(r: Row)
      requires Readable(r)
      modifies this
      ensures failed == (old(failed) || !RowFits(r))
      ensures old(failed) ==> input == old(input)
      ensures !old(failed) ==> if RowFits(r) then Matches(input, r) else input == Misread(old(input), r)
    {
      var src := ReadWord(r.src, input.src);
      var dst := ReadWord(r.dst, input.dst);
      var pg := ReadWord(r.pg, input.pg);
      var size := ReadWord(r.size, input.size);
      input := Input(src, dst, pg, size, if failed then input.start else r.start as real / 1000000000.0);
    }
  }

  /** How many rows are read before the first that does not fit. */
  function Good(rows: seq<Row>): (good: nat)
    ensures good <= |rows|
    ensures forall i | 0 <= i < good :: RowFits(rows[i])
    ensures good < |rows| ==> !RowFits(rows[good])
  {
    if rows == [] then 0
    else
      var before := Good(rows[..|rows| - 1]);
      if before == |rows| - 1 && RowFits(rows[before]) then before + 1 else before
  }

  predicate AllReadable(rows: seq<Row>) {
    forall i | 0 <= i < |rows| :: Readable(rows[i])
  }

  /** What the reader makes of the rows: the good ones as they are, the next one misread,
      and the same flow over and over after that. */
  ghost predicate ReadsAs(rows: seq<Row>, read: seq<Input>)
    requires AllReadable(rows)
  {
    var good := Good(rows);
    && |read| == |rows|
    && (forall i | 0 <= i < good :: Matches(read[i], rows[i]))
    && (good < |rows| ==> read[good] == Misread(if good == 0 then BLANK else read[good - 1], rows[good]))
    && (forall i | good < i < |rows| :: read[i] == read[good])
  }

  method ReadFlows(rows: seq<Row>) returns (read: seq<Input>)
    requires AllReadable(rows)
    ensures ReadsAs(rows, read)
  {
    var reader := new FlowReader();
    read := [];
    for i := 0 to |rows|
      invariant |read| == i && fresh(reader)
      invariant reader.failed <==> Good(rows[..i]) < i
      invariant reader.input == if i == 0 then BLANK else read[i - 1]
      invariant ReadsAs(rows[..i], read)
    {
      assert rows[..i + 1][..i] == rows[..i];
      reader.ReadFlowInput(rows[i]);
      read := read + [reader.input];
    }
    assert rows[..|rows|] == rows;
  }

  /** The lengths the counting pass sees, which starts every row with blank variables. */
  predicate CountsAs(rows: seq<Row>, counted: seq<FlowSplit.uint32>)
    requires AllReadable(rows)
  {
    var good := Good(rows);
    && |counted| == |rows|
    && (forall i | 0 <= i < good :: counted[i] as int == rows[i].size)
    && (good < |rows| ==> counted[good] == Misread(BLANK, rows[good]).size)
    && (forall i | good < i < |rows| :: counted[i] == 0)
  }

  method CountLengths(rows: seq<Row>) returns (counted: seq<FlowSplit.uint32>)
    requires AllReadable(rows)
    ensures CountsAs(rows, counted)
  {
    var reader := new FlowReader();
    counted := [];
    for i := 0 to |rows|
      invariant fresh(reader)
      invariant reader.failed <==> Good(rows[..i]) < i
      invariant CountsAs(rows[..i], counted)
    {
      assert rows[..i + 1][..i] == rows[..i];
      reader.input := BLANK;
      reader.ReadFlowInput(rows[i]);
      counted := counted + [reader.input.size];
    }
    assert rows[..|rows|] == rows;
  }

  ghost predicate AsWritten(rows: seq<Row>, read: seq<Input>) {
    |read| == |rows| && forall i | 0 <= i < |rows| :: Matches(read[i], rows[i])
  }

  /** The trace is read as it is written exactly when it fits. */
  lemma ReadAsWritten(rows: seq<Row>, read: seq<Input>)
    requires AllReadable(rows) && ReadsAs(rows, read)
    ensures AsWritten(rows, read) <==> Fits(rows)
  {
    if Good(rows) < |rows| {
      assert !Matches(read[Good(rows)], rows[Good(rows)]);
    }
  }

  /** A trace that passes the checks with a size of 2^32: that flow and the one after it are
      read with the largest size and the start time of the first. */
  lemma HugeSizeIsMisread() returns (rows: seq<Row>)
    ensures TraceValid(3, rows, 2, BASE, BASE + 20) && AllReadable(rows) && !Fits(rows)
    ensures rows[1].start == BASE + 10 && rows[2] == Row(0, 1, 3, 5, BASE + 20)
    ensures forall read | ReadsAs(rows, read) :: read[1] == read[2] == Input(1, 0, 3, 0xFFFF_FFFF, 2.0)
  {
    rows := [Row(0, 1, 3, 100, BASE), Row(1, 0, 3, 0x1_0000_0000, BASE + 10), Row(0, 1, 3, 5, BASE + 20)];
    assert RowFits(rows[0]) && !RowFits(rows[1]);
    assert Good(rows) == 1;
    forall read | ReadsAs(rows, read)
      ensures read[1] == read[2] == Input(1, 0, 3, 0xFFFF_FFFF, 2.0)
    {
      assert Matches(read[0], rows[0]);
    }
  }

  // ------------------------------------------------------------------- run

  /** The flows as the scheduler starts them. */
  function ToFlows(read: seq<Input>): seq<FlowPlan.Flow> {
    seq(|read|, i requires 0 <= i < |read| =>
      FlowPlan.Flow(read[i].src as nat, read[i].dst as nat, read[i].pg as nat, read[i].size, read[i].start))
  }

  /** A valid trace is read as an ordered flow list, even where it is misread. */
  lemma ValidIsOrdered(declared: int, rows: seq<Row>, hosts: int, start: int, stop: int, read: seq<Input>)
    requires TraceValid(declared, rows, hosts, start, stop) && start >= 0 && hosts <= FlowSplit.WORD
    requires AllReadable(rows) && ReadsAs(rows, read)
    ensures FlowPlan.Ordered(ToFlows(read))
  {
    forall f, g | 0 <= f <= g < |rows|
      ensures 0.0 <= read[f].start <= read[g].start
    {
      StartIs(rows, read, f);
      StartIs(rows, read, g);
    }
  }

  /** A row that is not read starts with the last one that is. */
  lemma StartIs(rows: seq<Row>, read: seq<Input>, i: nat)
    requires AllReadable(rows) && ReadsAs(rows, read) && i < |rows|
    ensures if i < Good(rows) then IsTime(read[i].start, rows[i].start)
            else if Good(rows) == 0 then read[i].start == 0.0
            else IsTime(read[i].start, rows[Good(rows) - 1].start)
  {}

  /** A trace that passes the checks is read, and every flow read is started exactly once,
      in order, at the time read, whatever lanes are selected; each of its pieces is then
      appended once. The flows read are those of the trace exactly when its numbers fit
      32 bits. ok is false where the checks raise. */
  method CheckAndRun(declared: int, rows: seq<Row>, hosts: int, start: int, stop: int, c: FlowSplit.Setting, rate: real)
    returns (ok: bool, read: seq<Input>, target: int, appends: seq<EventQueue.Append>,
             ghost plan: seq<seq<EventQueue.Piece>>, ghost started: seq<real>)
    requires start >= 0 && hosts <= FlowSplit.WORD && c.lanes >= 1 && rate > 0.0
    ensures ok == TraceValid(declared, rows, hosts, start, stop)
    ensures ok ==> AllReadable(rows) && ReadsAs(rows, read) && (AsWritten(rows, read) <==> Fits(rows))
    ensures ok ==> FlowPlan.StartedSoFar(c, rate, ToFlows(read), |rows|, plan, started)
    ensures ok && Fits(rows) ==> forall i | 0 <= i < |rows| :: i < |started| && IsTime(started[i], rows[i].start)
    ensures ok ==> forall p: EventQueue.Piece ::
      EventQueue.AppendedTimes(appends, p) == if EventQueue.IsPlanned(plan, p) then 1 else 0
    ensures ok ==> target <= |appends|
    ensures ok && Fits(rows) ==>
      (target == |appends| <==> forall i | 0 <= i < |rows| :: !FlowSplit.Overflows(c, read[i].size))
  {
    read, target, appends, plan, started := [], 0, [], [], [];
    ok := ValidateFlowFile(declared, rows, hosts, start, stop);
    if ok {
      var counted := CountLengths(rows);
      read := ReadFlows(rows);
      ReadAsWritten(rows, read);
      ValidIsOrdered(declared, rows, hosts, start, stop, read);
      var seals;
      target, appends, seals, plan, started := TrafficRun.RunExperiment(c, rate, ToFlows(read), counted);
    }
  }
}
