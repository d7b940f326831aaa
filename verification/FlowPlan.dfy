/** The flow list, what each flow is split into and when, and what must hold of the
    pending events while the list is worked through. */
module FlowPlan {
  import opened EventQueue
  import FlowSplit
  import opened Sequences

  datatype Flow = Flow(source: nat, destination: nat, group: nat, length: FlowSplit.uint32, start: real)

  /** The flow list is ordered by start time, from 0 on. */
  predicate Ordered(flows: seq<Flow>) {
    && (forall f | 0 <= f < |flows| :: flows[f].start >= 0.0)
    && forall f, g | 0 <= f <= g < |flows| :: flows[f].start <= flows[g].start
  }

  function Sizes(pieces: seq<Piece>): seq<int> {
    seq(|pieces|, i requires 0 <= i < |pieces| => pieces[i].bytes)
  }

  /** The time due at which the bytes before a piece have passed at the commit rate since
      the start, or the start itself outside chunk mode. */
  ghost predicate IsDue(chunked: bool, rate: real, start: real, before: int, due: real) {
    if chunked then (due - start) * rate == before as real else due == start
  }

  /** p is the i-th piece of the f-th flow, due after those before it. */
  ghost predicate IsPiece(c: FlowSplit.Setting, rate: real, flows: seq<Flow>, f: nat, sizes: seq<int>, i: nat,
                          p: Piece)
    requires f < |flows| && i < |sizes|
  {
    && p.flow == f && p.id == i && p.bytes == sizes[i]
    && IsDue(c.chunkBytes > 0 && c.lanes > 1, rate, flows[f].start, Sum(sizes[..i]), p.due)
  }

  lemma DueAfter(rate: real, start: real, before: int, due: real)
    requires rate > 0.0 && before >= 0 && due == start + before as real / rate
    ensures IsDue(true, rate, start, before, due) && start <= due
  {
    assert before as real / rate * rate == before as real;
  }

  /** The pieces of the f-th flow are a split of its length, each due after those before it. */
  ghost predicate IsPlan(c: FlowSplit.Setting, rate: real, flows: seq<Flow>, f: nat, pieces: seq<Piece>)
    requires rate > 0.0
  {
    && f < |flows|
    && FlowSplit.IsSplit(c, flows[f].length, Sizes(pieces))
    && forall i | 0 <= i < |pieces| :: IsPiece(c, rate, flows, f, Sizes(pieces), i, pieces[i])
  }

  method PlanFlow(c: FlowSplit.Setting, rate: real, flows: seq<Flow>, f: nat) returns (pieces: seq<Piece>)
    requires c.lanes >= 1 && rate > 0.0 && f < |flows|
    ensures IsPlan(c, rate, flows, f, pieces)
    ensures forall p | p in pieces :: flows[f].start <= p.due && (!c.ChunkMode() ==> p.due == flows[f].start)
    ensures forall i | 0 <= i < |pieces| :: pieces[i].flow == f && pieces[i].id == i
  {
    var sizes := FlowSplit.SplitFlow(c, flows[f].length);
    pieces := [];
    var committed := 0;
    for i := 0 to |sizes|
      invariant |pieces| == i && committed == Sum(sizes[..i]) >= 0
      invariant forall k | 0 <= k < i :: IsPiece(c, rate, flows, f, sizes, k, pieces[k])
      invariant forall p | p in pieces :: flows[f].start <= p.due && (!c.ChunkMode() ==> p.due == flows[f].start)
    {
      var delay := if c.ChunkMode() then committed as real / rate else 0.0;
      DueAfter(rate, flows[f].start, committed, flows[f].start + committed as real / rate);
      pieces := pieces + [Piece(f, i, sizes[i], flows[f].start + delay)];
      assert sizes[..i + 1][..i] == sizes[..i];
      committed := committed + sizes[i];
    }
    assert Sizes(pieces) == sizes;
  }

  function Lengths(flows: seq<Flow>): seq<FlowSplit.uint32> {
    seq(|flows|, f requires 0 <= f < |flows| => flows[f].length)
  }

  function AllSizes(plan: seq<seq<Piece>>): seq<seq<int>> {
    seq(|plan|, f requires 0 <= f < |plan| => Sizes(plan[f]))
  }

  /** Every flow was split as it should be, so as many pieces are planned as installed. */
  lemma PlansAreSplits(c: FlowSplit.Setting, rate: real, flows: seq<Flow>, plan: seq<seq<Piece>>)
    requires rate > 0.0 && |plan| == |flows|
    requires forall f | 0 <= f < |flows| :: IsPlan(c, rate, flows, f, plan[f])
    ensures FlowSplit.AllSplit(c, Lengths(flows), AllSizes(plan))
    ensures Planned(plan) == FlowSplit.CountAll(AllSizes(plan))
  {
    PlannedIsCount(plan);
  }

  /** The lengths that the counting pass over the flow list sees: the flows' own, or 0 where
      it could not read them. */
  predicate CountedFrom(counted: seq<FlowSplit.uint32>, flows: seq<Flow>) {
    |counted| == |flows| && forall f | 0 <= f < |flows| :: counted[f] == flows[f].length || counted[f] == 0
  }

  lemma TargetMeetsPlan(c: FlowSplit.Setting, rate: real, flows: seq<Flow>, plan: seq<seq<Piece>>,
                        counted: seq<FlowSplit.uint32>, target: int)
    requires rate > 0.0 && c.lanes >= 1 && |plan| == |flows| && CountedFrom(counted, flows)
    requires forall f | 0 <= f < |flows| :: IsPlan(c, rate, flows, f, plan[f])
    requires target == if c.lanes == 1 then |flows| else FlowSplit.Predicted(c, counted)
    ensures target <= Planned(plan)
    ensures counted == Lengths(flows) ==>
      (target == Planned(plan) <==> forall f | 0 <= f < |flows| :: !FlowSplit.Overflows(c, flows[f].length))
  {
    PlansAreSplits(c, rate, flows, plan);
    FlowSplit.PredictedOrShort(c, Lengths(flows), AllSizes(plan));
    FlowSplit.CountedIsShort(c, Lengths(flows), counted, AllSizes(plan));
    if c.lanes == 1 {
      FlowSplit.OneLaneOnePiece(c, Lengths(flows), AllSizes(plan));
    }
    SameOverflows(c, flows);
  }

  lemma SameOverflows(c: FlowSplit.Setting, flows: seq<Flow>)
    ensures (forall i | 0 <= i < |Lengths(flows)| :: !FlowSplit.Overflows(c, Lengths(flows)[i])) <==>
      forall f | 0 <= f < |flows| :: !FlowSplit.Overflows(c, flows[f].length)
  {
    assert forall f | 0 <= f < |flows| :: Lengths(flows)[f] == flows[f].length;
  }

  lemma {:induction false} PlannedIsCount(plan: seq<seq<Piece>>)
    ensures Planned(plan) == FlowSplit.CountAll(AllSizes(plan))
  {
    if plan != [] {
      var n := |plan| - 1;
      PlannedIsCount(plan[..n]);
      assert AllSizes(plan)[..n] == AllSizes(plan[..n]);
    }
  }

  predicate NoInputs(pending: seq<Event>) {
    forall e | e in pending :: !e.Inputs?
  }

  predicate NoSeals(pending: seq<Event>) {
    forall e | e in pending :: !e.Seal?
  }

  predicate NoPieces(pending: seq<Event>) {
    forall e | e in pending :: !e.Chunk? && !e.Commit?
  }

  /** The pool entry of a flow's end points and a lane. */
  function KeyOf(flow: Flow, lane: nat): Key {
    Key(flow.source, flow.destination, flow.group, lane)
  }

  /** Pieces are bound for, and appended to, a pool entry of their own flow's end points. */
  predicate Addressed(flows: seq<Flow>, pending: seq<Event>, appends: seq<Append>) {
    && (forall e | e in pending && (e.Chunk? || e.Commit?) :: e.piece.flow < |flows|)
    && (forall e | e in pending && e.Commit? :: e.key == KeyOf(flows[e.piece.flow], e.key.lane))
    && (forall a | a in appends :: a.piece.flow < |flows| && a.key == KeyOf(flows[a.piece.flow], a.key.lane))
  }

  /** A new piece is queued in time, to an entry of its own flow. */
  lemma PieceQueued(flows: seq<Flow>, now: real, last: real, pending: seq<Event>, appends: seq<Append>, e: Event)
    requires Timely(pending, now, last) && OnTime(appends, last) && Addressed(flows, pending, appends)
    requires NoSeals(pending) && NoInputs(pending)
    requires e.Chunk? || e.Commit?
    requires now <= e.t == e.piece.due && e.piece.flow < |flows|
    requires e.Commit? ==> e.key == KeyOf(flows[e.piece.flow], e.key.lane)
    ensures var last' := if last < e.t then e.t else last;
      Timely(pending + [e], now, last') && OnTime(appends, last')
    ensures Addressed(flows, pending + [e], appends) && NoSeals(pending + [e]) && NoInputs(pending + [e])
  {
  }

  /** The flows before idx have been started, each at its own time, and split as planned. */
  ghost predicate StartedSoFar(c: FlowSplit.Setting, rate: real, flows: seq<Flow>, idx: nat, plan: seq<seq<Piece>>,
                         started: seq<real>)
  {
    && c.lanes >= 1 && rate > 0.0 && Ordered(flows)
    && |plan| == |started| == idx <= |flows|
    && (forall f | 0 <= f < idx :: IsPlan(c, rate, flows, f, plan[f]))
    && (forall f | 0 <= f < idx :: started[f] == flows[f].start)
  }

  lemma OneMoreStarted(c: FlowSplit.Setting, rate: real, flows: seq<Flow>, idx: nat, plan: seq<seq<Piece>>,
                       started: seq<real>, pieces: seq<Piece>)
    requires StartedSoFar(c, rate, flows, idx, plan, started) && idx < |flows|
    requires IsPlan(c, rate, flows, idx, pieces)
    ensures StartedSoFar(c, rate, flows, idx + 1, plan + [pieces], started + [flows[idx].start])
  {
  }

  // ------------------------------------------------------- bytes of a flow

  /** The bytes of a flow that were appended, on whatever lanes. */
  function FlowBytes(appends: seq<Append>, f: nat): int {
    if appends == [] then 0
    else
      var last := appends[|appends| - 1].piece;
      FlowBytes(appends[..|appends| - 1], f) + if last.flow == f then last.bytes else 0
  }

  /** The bytes appended for each of these pieces, as often as it was. */
  function BytesOfEach(pieces: seq<Piece>, appends: seq<Append>): seq<int> {
    seq(|pieces|, i requires 0 <= i < |pieces| => pieces[i].bytes * AppendedTimes(appends, pieces[i]))
  }

  lemma {:induction false} SumOfNone(s: seq<int>)
    requires forall i | 0 <= i < |s| :: s[i] == 0
    ensures Sum(s) == 0
  {
    if s != [] {
      SumOfNone(s[..|s| - 1]);
    }
  }

  lemma {:induction false} SumWithMore(s: seq<int>, i: nat, more: int)
    requires i < |s|
    ensures Sum(s[i := s[i] + more]) == Sum(s) + more
  {
    var n := |s| - 1;
    if i < n {
      SumWithMore(s[..n], i, more);
      assert s[i := s[i] + more][..n] == s[..n][i := s[i] + more];
    } else {
      assert s[i := s[i] + more][..n] == s[..n];
    }
  }

  lemma {:induction false} BytesByPiece(pieces: seq<Piece>, f: nat, appends: seq<Append>)
    requires forall i | 0 <= i < |pieces| :: pieces[i].flow == f && pieces[i].id == i
    requires forall a | a in appends && a.piece.flow == f :: a.piece in pieces
    ensures FlowBytes(appends, f) == Sum(BytesOfEach(pieces, appends))
  {
    if appends == [] {
      SumOfNone(BytesOfEach(pieces, appends));
    } else {
      var before, p := appends[..|appends| - 1], appends[|appends| - 1].piece;
      BytesByPiece(pieces, f, before);
      if p.flow == f {
        assert appends[|appends| - 1] in appends;
        SumWithMore(BytesOfEach(pieces, before), p.id, p.bytes);
        OneMoreOf(pieces, appends, p.id);
      } else {
        assert BytesOfEach(pieces, appends) == BytesOfEach(pieces, before);
      }
    }
  }

  lemma OneMoreOf(pieces: seq<Piece>, appends: seq<Append>, i: nat)
    requires forall k | 0 <= k < |pieces| :: pieces[k].id == k
    requires appends != [] && i < |pieces| && appends[|appends| - 1].piece == pieces[i]
    ensures var each := BytesOfEach(pieces, appends[..|appends| - 1]);
      BytesOfEach(pieces, appends) == each[i := each[i] + pieces[i].bytes]
  {
    var before := appends[..|appends| - 1];
    var each := BytesOfEach(pieces, before);
    forall k | 0 <= k < |pieces|
      ensures BytesOfEach(pieces, appends)[k] == each[i := each[i] + pieces[i].bytes][k]
    {
      TimesOneMore(pieces[k].bytes, AppendedTimes(before, pieces[k]));
    }
  }

  lemma TimesOneMore(bytes: int, times: int)
    ensures bytes * (times + 1) == bytes * times + bytes
  {}

  lemma {:induction false} AppendedAtLeastOnce(appends: seq<Append>, a: Append)
    requires a in appends
    ensures AppendedTimes(appends, a.piece) >= 1
  {
    var before := appends[..|appends| - 1];
    if a in before {
      AppendedAtLeastOnce(before, a);
    } else {
      AppendedIsCount(before, a.piece);
    }
  }

  lemma {:induction false} AppendedIsCount(appends: seq<Append>, p: Piece)
    ensures AppendedTimes(appends, p) >= 0
  {
    if appends != [] {
      AppendedIsCount(appends[..|appends| - 1], p);
    }
  }

  lemma PiecesAreNumbered(c: FlowSplit.Setting, rate: real, flows: seq<Flow>, f: nat, pieces: seq<Piece>)
    requires rate > 0.0 && IsPlan(c, rate, flows, f, pieces)
    ensures forall i | 0 <= i < |pieces| :: pieces[i].flow == f && pieces[i].id == i
    ensures Sum(Sizes(pieces)) == FlowSplit.AtLeastOne(flows[f].length) as int
  {
  }

  lemma OnceEachIsSizes(pieces: seq<Piece>, appends: seq<Append>)
    requires forall i | 0 <= i < |pieces| :: AppendedTimes(appends, pieces[i]) == 1
    ensures BytesOfEach(pieces, appends) == Sizes(pieces)
  {
  }

  /** When every planned piece, and no other, was appended once, exactly the bytes of each
      flow were appended, one for an empty flow. */
  lemma FlowIsAppended(c: FlowSplit.Setting, rate: real, flows: seq<Flow>, plan: seq<seq<Piece>>, started: seq<real>,
                       appends: seq<Append>, f: nat)
    requires StartedSoFar(c, rate, flows, |flows|, plan, started) && f < |flows|
    requires forall p: Piece :: AppendedTimes(appends, p) == if IsPlanned(plan, p) then 1 else 0
    ensures FlowBytes(appends, f) == FlowSplit.AtLeastOne(flows[f].length) as int
  {
    var pieces := plan[f];
    assert IsPlan(c, rate, flows, f, pieces);
    PiecesAreNumbered(c, rate, flows, f, pieces);
    forall i | 0 <= i < |pieces|
      ensures AppendedTimes(appends, pieces[i]) == 1
    {
      assert IsPlanned(plan, pieces[i]);
    }
    forall a | a in appends && a.piece.flow == f
      ensures a.piece in pieces
    {
      AppendedAtLeastOnce(appends, a);
      assert IsPlanned(plan, a.piece);
    }
    BytesByPiece(pieces, f, appends);
    OnceEachIsSizes(pieces, appends);
  }

  lemma FlowsAreAppended(c: FlowSplit.Setting, rate: real, flows: seq<Flow>, plan: seq<seq<Piece>>,
                         started: seq<real>, appends: seq<Append>)
    requires StartedSoFar(c, rate, flows, |flows|, plan, started)
    requires forall p: Piece :: AppendedTimes(appends, p) == if IsPlanned(plan, p) then 1 else 0
    ensures forall f: nat | f < |flows| :: FlowBytes(appends, f) == FlowSplit.AtLeastOne(flows[f].length) as int
  {
    forall f: nat | f < |flows|
      ensures FlowBytes(appends, f) == FlowSplit.AtLeastOne(flows[f].length) as int
    {
      FlowIsAppended(c, rate, flows, plan, started, appends, f);
    }
  }

  /** In chunk mode a time as long after the start as so many full chunks take at the commit
      rate; else the start. */
  ghost predicate IsPaced(c: FlowSplit.Setting, rate: real, start: real, before: nat, t: real) {
    if c.chunkBytes > 0 && c.lanes > 1 then (t - start) * rate == (before * c.chunkBytes as nat) as real
    else t == start
  }

  lemma DueIsPaced(c: FlowSplit.Setting, rate: real, start: real, before: nat, bytes: int, t: real)
    requires IsDue(c.chunkBytes > 0 && c.lanes > 1, rate, start, bytes, t)
    requires c.chunkBytes > 0 && c.lanes > 1 ==> bytes == before * c.chunkBytes as nat
    ensures IsPaced(c, rate, start, before, t)
  {
  }

  lemma BytesBefore(c: FlowSplit.Setting, length: FlowSplit.uint32, sizes: seq<int>, i: nat)
    requires FlowSplit.IsSplit(c, length, sizes) && i < |sizes| && c.chunkBytes > 0 && c.lanes > 1
    ensures Sum(sizes[..i]) == i * c.chunkBytes as nat
  {
    if |sizes| == 1 {
      assert Sum(sizes[..0]) == 0;
    } else {
      FlowSplit.EvenFront(sizes, c.chunkBytes as int, i);
    }
  }

  /** A piece is due once the chunks before it have passed at the commit rate, at the start
      of its flow outside chunk mode. */
  lemma PieceIsPaced(c: FlowSplit.Setting, rate: real, flows: seq<Flow>, plan: seq<seq<Piece>>, started: seq<real>,
                     p: Piece)
    requires StartedSoFar(c, rate, flows, |flows|, plan, started) && IsPlanned(plan, p)
    ensures p.flow < |flows| && IsPaced(c, rate, flows[p.flow].start, p.id, p.due)
  {
    var pieces := plan[p.flow];
    assert IsPlan(c, rate, flows, p.flow, pieces);
    assert IsPiece(c, rate, flows, p.flow, Sizes(pieces), p.id, p);
    if c.chunkBytes > 0 && c.lanes > 1 {
      BytesBefore(c, flows[p.flow].length, Sizes(pieces), p.id);
    }
    DueIsPaced(c, rate, flows[p.flow].start, p.id, Sum(Sizes(pieces)[..p.id]), p.due);
  }

  lemma AppendsArePaced(c: FlowSplit.Setting, rate: real, flows: seq<Flow>, plan: seq<seq<Piece>>,
                        started: seq<real>, appends: seq<Append>)
    requires StartedSoFar(c, rate, flows, |flows|, plan, started)
    requires forall p: Piece :: AppendedTimes(appends, p) == if IsPlanned(plan, p) then 1 else 0
    requires forall a | a in appends :: a.t == a.piece.due
    ensures forall a | a in appends ::
      a.piece.flow < |flows| && IsPaced(c, rate, flows[a.piece.flow].start, a.piece.id, a.t)
  {
    forall a | a in appends
      ensures a.piece.flow < |flows| && IsPaced(c, rate, flows[a.piece.flow].start, a.piece.id, a.t)
    {
      AppendedAtLeastOnce(appends, a);
      PieceIsPaced(c, rate, flows, plan, started, a.piece);
    }
  }

  /** While flows are left one look at the list is pending, at the next one's start, or
      at time 0 for the first; after that none. */
  predicate InputsRight(flows: seq<Flow>, idx: nat, now: real, pending: seq<Event>)
    requires idx <= |flows|
  {
    && Total(InputsLeft, pending) == (if idx < |flows| then 1 else 0)
    && forall e | e in pending && e.Inputs? ::
         idx < |flows| && e.t <= flows[idx].start && (e.t == flows[idx].start || e.t == now == 0.0)
  }

  /** The seal is scheduled when the last flow has started, and pending until it comes. */
  predicate SealsRight(flows: seq<Flow>, idx: nat, sealScheduled: bool, sealed: bool, pending: seq<Event>) {
    && sealScheduled == (idx == |flows| > 0)
    && (sealed ==> sealScheduled && NoPieces(pending))
    && Total(SealsLeft, pending) == (if sealScheduled && !sealed then 1 else 0)
  }

  predicate AllBefore(appends: seq<Append>, t: real) {
    forall a | a in appends :: a.t < t
  }

  /** 1 while the look at the flow list that may start no flow, the first, is to come. */
  ghost function FirstLook(flows: seq<Flow>, idx: nat, pending: seq<Event>): nat {
    if idx < |flows| && exists e :: e in pending && e.Inputs? && e.t != flows[idx].start then 1 else 0
  }

  lemma LaterLook(flows: seq<Flow>, idx: nat, pending: seq<Event>, i: nat)
    requires idx < |flows| && i < |pending| && pending[i].Inputs? && NoInputs(Without(pending, i))
    requires pending[i].t != flows[idx].start
    ensures FirstLook(flows, idx, Without(pending, i) + [Inputs(flows[idx].start)]) < FirstLook(flows, idx, pending)
  {
    assert pending[i] in pending;
  }

  /** What holds of the pending events between two of them. */
  ghost predicate Calm(flows: seq<Flow>, idx: nat, now: real, last: real, sealScheduled: bool, sealed: bool,
                       pending: seq<Event>, appends: seq<Append>)
  {
    && idx <= |flows|
    && Timely(pending, now, last) && OnTime(appends, last) && Addressed(flows, pending, appends)
    && InputsRight(flows, idx, now, pending)
    && SealsRight(flows, idx, sealScheduled, sealed, pending)
  }

  /** The pending events once the earliest, a chunk, has become a commit. */
  lemma CalmAfterChunk(flows: seq<Flow>, idx: nat, now: real, last: real, sealScheduled: bool, sealed: bool,
                       pending: seq<Event>, appends: seq<Append>, i: nat, lane: nat)
    requires Calm(flows, idx, now, last, sealScheduled, sealed, pending, appends)
    requires IsEarliest(pending, i) && pending[i].Chunk?
    ensures pending[i].piece.flow < |flows| && pending[i].t == pending[i].piece.due <= last
    ensures var e := Commit(pending[i].t, pending[i].piece, KeyOf(flows[pending[i].piece.flow], lane));
      && Calm(flows, idx, e.t, last, sealScheduled, sealed, Without(pending, i) + [e], appends)
      && Total(StepsLeft, Without(pending, i) + [e]) == Total(StepsLeft, pending) - 1
      && FirstLook(flows, idx, Without(pending, i) + [e]) <= FirstLook(flows, idx, pending)
  {
    assert pending[i] in pending;
    WithoutIsIn(pending, i);
    WithOneMore(Without(pending, i), Commit(pending[i].t, pending[i].piece, KeyOf(flows[pending[i].piece.flow], lane)));
  }

  lemma CalmAfterCommit(flows: seq<Flow>, idx: nat, now: real, last: real, sealScheduled: bool, sealed: bool,
                        pending: seq<Event>, appends: seq<Append>, i: nat)
    requires Calm(flows, idx, now, last, sealScheduled, sealed, pending, appends)
    requires IsEarliest(pending, i) && pending[i].Commit?
    ensures !sealed
    ensures var e := pending[i];
      && Calm(flows, idx, e.t, last, sealScheduled, sealed, Without(pending, i),
              appends + [Append(e.piece, e.key, e.t)])
      && Total(StepsLeft, Without(pending, i)) == Total(StepsLeft, pending) - 1
      && FirstLook(flows, idx, Without(pending, i)) <= FirstLook(flows, idx, pending)
  {
    assert pending[i] in pending;
    WithoutIsIn(pending, i);
  }

  /** When the seal is the earliest event nothing is left to be committed. */
  lemma CalmAfterSeal(flows: seq<Flow>, idx: nat, now: real, last: real, sealScheduled: bool, sealed: bool,
                      pending: seq<Event>, appends: seq<Append>, i: nat)
    requires Calm(flows, idx, now, last, sealScheduled, sealed, pending, appends)
    requires IsEarliest(pending, i) && pending[i].Seal?
    ensures Calm(flows, idx, pending[i].t, last, sealScheduled, true, Without(pending, i), appends)
    ensures AllBefore(appends, pending[i].t)
    ensures Total(StepsLeft, Without(pending, i)) == Total(StepsLeft, pending) - 1
    ensures FirstLook(flows, idx, Without(pending, i)) <= FirstLook(flows, idx, pending)
  {
    assert pending[i] in pending;
    WithoutIsIn(pending, i);
    TotalIsCount(SealsLeft, pending);
    TotalIsCount(SealsLeft, Without(pending, i));
  }

  /** The next look at the list, or the seal after the last flow, is put among the events. */
  lemma CalmWithNext(flows: seq<Flow>, idx: nat, now: real, last: real, pending: seq<Event>, appends: seq<Append>,
                     e: Event)
    requires idx <= |flows| && |flows| > 0 && NoInputs(pending) && NoSeals(pending)
    requires Timely(pending, now, last) && OnTime(appends, last) && Addressed(flows, pending, appends)
    requires idx < |flows| ==> e == Inputs(flows[idx].start) && now <= e.t
    requires idx == |flows| ==> e.Seal? && now <= e.t && last < e.t
    ensures Calm(flows, idx, now, last, idx == |flows|, false, pending + [e], appends)
  {
    TotalZero(InputsLeft, pending);
    TotalZero(SealsLeft, pending);
    WithOneMore(pending, e);
  }

  lemma CalmAfterInputs(flows: seq<Flow>, idx: nat, now: real, last: real, sealScheduled: bool, sealed: bool,
                        pending: seq<Event>, appends: seq<Append>, i: nat)
    requires Calm(flows, idx, now, last, sealScheduled, sealed, pending, appends)
    requires IsEarliest(pending, i) && pending[i].Inputs?
    ensures idx < |flows| && pending[i].t <= flows[idx].start && !sealScheduled && !sealed
    ensures NoInputs(Without(pending, i)) && NoSeals(Without(pending, i))
    ensures Timely(Without(pending, i), pending[i].t, last) && Addressed(flows, Without(pending, i), appends)
  {
    assert pending[i] in pending;
    WithoutIsIn(pending, i);
    TotalIsCount(InputsLeft, Without(pending, i));
    TotalIsCount(SealsLeft, Without(pending, i));
  }

  lemma {:induction false} Earliest(pending: seq<Event>)
    requires pending != []
    ensures exists i: nat :: IsEarliest(pending, i)
  {
    var n := |pending| - 1;
    if n == 0 {
      assert IsEarliest(pending, 0);
    } else {
      Earliest(pending[..n]);
      var i: nat :| IsEarliest(pending[..n], i);
      if pending[n].t < pending[i].t {
        assert IsEarliest(pending, n);
      } else {
        assert IsEarliest(pending, i);
      }
    }
  }

  lemma Fresh(pending: seq<Event>)
    requires pending == [] || pending == [Inputs(0.0)]
    ensures Accounts([], map[], pending, [])
    ensures Total(InputsLeft, pending) == |pending| && Total(SealsLeft, pending) == 0
  {
    if pending != [] {
      assert pending[..0] == [];
    }
    forall q: Query
      ensures !q.InputsLeft? && !q.StepsLeft? ==> Total(q, pending) == 0
    {
      if pending != [] {
        assert Total(q, pending) == Total(q, pending[..0]) + Score(q, pending[0]);
      }
    }
    forall p: Piece
      ensures Occurrences(pending, [], p) == if IsPlanned([], p) then 1 else 0
    {
      assert Total(Only(p), pending) == 0;
    }
    forall k: Key
      ensures CountOf(map[], k) == AppendedTo([], k) + Total(CommitsTo(k), pending)
    {
      assert Total(CommitsTo(k), pending) == 0;
    }
  }
}
