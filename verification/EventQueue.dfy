/** The simulator's pending events as far as traffic is concerned, and sums over them.
    Times are exact seconds. */
module EventQueue {

  datatype Key = Key(source: nat, destination: nat, group: nat, lane: nat)

  /** A piece is a subflow: its flow, its number within the flow, its length, and when it
      is due to be committed. */
  datatype Piece = Piece(flow: nat, id: nat, bytes: int, due: real)

  datatype Event =
    | Inputs(t: real)
    | Chunk(t: real, piece: Piece)
    | Commit(t: real, piece: Piece, key: Key)
    | Seal(t: real)

  datatype Append = Append(piece: Piece, key: Key, t: real)

  /** What can be counted in the queue: the commits bound for a pool entry, all pieces,
      one piece, pending inputs, pending seals, and the steps still needed. */
  datatype Query = CommitsTo(key: Key) | Pieces | Only(piece: Piece) | InputsLeft | SealsLeft | StepsLeft

  function Score(q: Query, e: Event): int {
    match q
    case CommitsTo(k) => if e.Commit? && e.key == k then 1 else 0
    case Pieces => if e.Chunk? || e.Commit? then 1 else 0
    case Only(p) => if (e.Chunk? || e.Commit?) && e.piece == p then 1 else 0
    case InputsLeft => if e.Inputs? then 1 else 0
    case SealsLeft => if e.Seal? then 1 else 0
    case StepsLeft => if e.Chunk? then 2 else 1
  }

  function Total(q: Query, events: seq<Event>): int {
    if events == [] then 0 else Total(q, events[..|events| - 1]) + Score(q, events[|events| - 1])
  }

  function Without(events: seq<Event>, i: nat): seq<Event>
    requires i < |events|
  {
    events[..i] + events[i + 1..]
  }

  lemma TotalOneMore(q: Query, events: seq<Event>, e: Event)
    ensures Total(q, events + [e]) == Total(q, events) + Score(q, e)
  {
    assert (events + [e])[..|events|] == events;
  }

  lemma {:induction false} TotalWithout(q: Query, events: seq<Event>, i: nat)
    requires i < |events|
    ensures Total(q, Without(events, i)) == Total(q, events) - Score(q, events[i])
    decreases |events|
  {
    var n := |events| - 1;
    if i == n {
      assert Without(events, i) == events[..n];
    } else {
      TotalWithout(q, events[..n], i);
      assert Without(events, i)[..n - 1] == Without(events[..n], i);
    }
  }

  lemma {:induction false} TotalIsCount(q: Query, events: seq<Event>)
    ensures Total(q, events) >= 0
    ensures Total(q, events) == 0 ==> forall e | e in events :: Score(q, e) == 0
    decreases |events|
  {
    if events != [] {
      TotalIsCount(q, events[..|events| - 1]);
      assert events == events[..|events| - 1] + [events[|events| - 1]];
    }
  }

  lemma {:induction false} TotalZero(q: Query, events: seq<Event>)
    requires forall e | e in events :: Score(q, e) == 0
    ensures Total(q, events) == 0
    decreases |events|
  {
    if events != [] {
      TotalZero(q, events[..|events| - 1]);
    }
  }

  /** The commits among the events, in order. */
  function Commits(events: seq<Event>): seq<Event> {
    if events == [] then []
    else Commits(events[..|events| - 1]) + if events[|events| - 1].Commit? then [events[|events| - 1]] else []
  }

  lemma CommitsOneMore(events: seq<Event>, e: Event)
    ensures Commits(events + [e]) == Commits(events) + if e.Commit? then [e] else []
  {
    assert (events + [e])[..|events|] == events;
  }

  lemma {:induction false} CommitsWithout(events: seq<Event>, i: nat)
    requires i < |events| && !events[i].Commit?
    ensures Commits(Without(events, i)) == Commits(events)
    decreases |events|
  {
    var n := |events| - 1;
    if i == n {
      assert Without(events, i) == events[..n];
    } else {
      CommitsWithout(events[..n], i);
      assert Without(events, i)[..n - 1] == Without(events[..n], i);
    }
  }

  /** The bytes of the commits bound for wanted entries. */
  function CommitBytes(want: Key -> bool, events: seq<Event>): int {
    if events == [] then 0
    else CommitBytes(want, events[..|events| - 1]) + BytesOf(want, events[|events| - 1])
  }

  function BytesOf(want: Key -> bool, e: Event): int {
    if e.Commit? && want(e.key) then e.piece.bytes else 0
  }

  lemma CommitBytesOneMore(want: Key -> bool, events: seq<Event>, e: Event)
    ensures CommitBytes(want, events + [e]) == CommitBytes(want, events) + BytesOf(want, e)
  {
    assert (events + [e])[..|events|] == events;
  }

  lemma {:induction false} CommitBytesWithout(want: Key -> bool, events: seq<Event>, i: nat)
    requires i < |events|
    ensures CommitBytes(want, Without(events, i)) == CommitBytes(want, events) - BytesOf(want, events[i])
    decreases |events|
  {
    var n := |events| - 1;
    if i == n {
      assert Without(events, i) == events[..n];
    } else {
      CommitBytesWithout(want, events[..n], i);
      assert Without(events, i)[..n - 1] == Without(events[..n], i);
    }
  }

  lemma {:induction false} CommitBytesOfCommits(want: Key -> bool, events: seq<Event>)
    ensures CommitBytes(want, Commits(events)) == CommitBytes(want, events)
    decreases |events|
  {
    if events != [] {
      var front, last := events[..|events| - 1], events[|events| - 1];
      CommitBytesOfCommits(want, front);
      if last.Commit? {
        CommitBytesOneMore(want, Commits(front), last);
      } else {
        assert Commits(events) == Commits(front);
      }
    }
  }

  /** The bytes appended to wanted entries. */
  function AppendBytes(want: Key -> bool, appends: seq<Append>): int {
    if appends == [] then 0
    else
      var last := appends[|appends| - 1];
      AppendBytes(want, appends[..|appends| - 1]) + if want(last.key) then last.piece.bytes else 0
  }

  /** What was appended to the queue pairs. */
  function AppendedTo(appends: seq<Append>, k: Key): int {
    if appends == [] then 0
    else AppendedTo(appends[..|appends| - 1], k) + if appends[|appends| - 1].key == k then 1 else 0
  }

  function AppendedTimes(appends: seq<Append>, p: Piece): int {
    if appends == [] then 0
    else AppendedTimes(appends[..|appends| - 1], p) + if appends[|appends| - 1].piece == p then 1 else 0
  }

  lemma AppendedOneMore(appends: seq<Append>, a: Append, k: Key, p: Piece)
    ensures AppendedTo(appends + [a], k) == AppendedTo(appends, k) + if a.key == k then 1 else 0
    ensures AppendedTimes(appends + [a], p) == AppendedTimes(appends, p) + if a.piece == p then 1 else 0
  {
    assert (appends + [a])[..|appends|] == appends;
  }

  /** The entries' counts of scheduled work: what was appended and what is about to be. */
  function CountOf(pool: map<Key, nat>, k: Key): nat {
    if k in pool then pool[k] else 0
  }

  function Raised(pool: map<Key, nat>, k: Key): map<Key, nat> {
    pool[k := CountOf(pool, k) + 1]
  }

  ghost predicate Balanced(pool: map<Key, nat>, pending: seq<Event>, appends: seq<Append>) {
    forall k: Key :: CountOf(pool, k) == AppendedTo(appends, k) + Total(CommitsTo(k), pending)
  }

  /** How often a piece is on its way or has been appended. */
  function Occurrences(pending: seq<Event>, appends: seq<Append>, p: Piece): int {
    Total(Only(p), pending) + AppendedTimes(appends, p)
  }

  predicate IsPlanned(plan: seq<seq<Piece>>, p: Piece) {
    p.flow < |plan| && p.id < |plan[p.flow]| && plan[p.flow][p.id] == p
  }

  /** The planned pieces, and no others, are on their way or appended, once each. */
  ghost predicate OnceEach(plan: seq<seq<Piece>>, pending: seq<Event>, appends: seq<Append>) {
    forall p: Piece :: Occurrences(pending, appends, p) == if IsPlanned(plan, p) then 1 else 0
  }

  function Planned(plan: seq<seq<Piece>>): nat {
    if plan == [] then 0 else Planned(plan[..|plan| - 1]) + |plan[|plan| - 1]|
  }

  /** As many pieces are on their way or appended as are planned. */
  predicate Counted(plan: seq<seq<Piece>>, pending: seq<Event>, appends: seq<Append>) {
    Total(Pieces, pending) + |appends| == Planned(plan)
  }

  /** All accounts of the pieces together. */
  ghost predicate Accounts(plan: seq<seq<Piece>>, pool: map<Key, nat>, pending: seq<Event>, appends: seq<Append>) {
    OnceEach(plan, pending, appends) && Balanced(pool, pending, appends) && Counted(plan, pending, appends)
  }

  predicate Timely(pending: seq<Event>, now: real, last: real) {
    && (forall e | e in pending :: now <= e.t)
    && (forall e | e in pending && (e.Chunk? || e.Commit?) :: e.t == e.piece.due <= last)
    && (forall e | e in pending && e.Seal? :: e.t > last)
  }

  predicate OnTime(appends: seq<Append>, last: real) {
    forall a | a in appends :: a.t == a.piece.due <= last
  }

  predicate IsEarliest(pending: seq<Event>, i: nat) {
    i < |pending| && forall e | e in pending :: pending[i].t <= e.t
  }

  // ------------------------------------------------- effects of one change

  /** A new piece is put on its way, either to be sent to a lane later or straight to an
      entry whose count goes up with it. */
  lemma AddPiece(plan: seq<seq<Piece>>, done: seq<Piece>, p: Piece, pending: seq<Event>, appends: seq<Append>, e: Event)
    requires OnceEach(plan + [done], pending, appends)
    requires p.flow == |plan| && p.id == |done| && (e.Chunk? || e.Commit?) && e.piece == p
    ensures OnceEach(plan + [done + [p]], pending + [e], appends)
  {
    forall q: Piece
      ensures Occurrences(pending + [e], appends, q) == if IsPlanned(plan + [done + [p]], q) then 1 else 0
    {
      TotalOneMore(Only(q), pending, e);
      assert Occurrences(pending, appends, q) == if IsPlanned(plan + [done], q) then 1 else 0;
      assert IsPlanned(plan + [done + [p]], q) <==> IsPlanned(plan + [done], q) || q == p;
    }
  }

  lemma AddCommit(pool: map<Key, nat>, pending: seq<Event>, appends: seq<Append>, e: Event)
    requires Balanced(pool, pending, appends) && e.Commit?
    ensures Balanced(Raised(pool, e.key), pending + [e], appends)
  {
    forall k: Key
      ensures CountOf(Raised(pool, e.key), k) == AppendedTo(appends, k) + Total(CommitsTo(k), pending + [e])
    {
      TotalOneMore(CommitsTo(k), pending, e);
      assert CountOf(pool, k) == AppendedTo(appends, k) + Total(CommitsTo(k), pending);
    }
  }

  /** Events that are not commits leave the entries' counts balanced. */
  lemma AddOther(pool: map<Key, nat>, pending: seq<Event>, appends: seq<Append>, e: Event)
    requires Balanced(pool, pending, appends) && !e.Commit?
    ensures Balanced(pool, pending + [e], appends)
  {
    forall k: Key
      ensures CountOf(pool, k) == AppendedTo(appends, k) + Total(CommitsTo(k), pending + [e])
    {
      TotalOneMore(CommitsTo(k), pending, e);
      assert CountOf(pool, k) == AppendedTo(appends, k) + Total(CommitsTo(k), pending);
    }
  }

  /** Events that carry no piece leave the pieces alone. */
  lemma AddPlain(plan: seq<seq<Piece>>, pending: seq<Event>, appends: seq<Append>, e: Event)
    requires OnceEach(plan, pending, appends) && (e.Inputs? || e.Seal?)
    ensures OnceEach(plan, pending + [e], appends)
  {
    forall q: Piece
      ensures Occurrences(pending + [e], appends, q) == if IsPlanned(plan, q) then 1 else 0
    {
      TotalOneMore(Only(q), pending, e);
      assert Occurrences(pending, appends, q) == if IsPlanned(plan, q) then 1 else 0;
    }
  }

  lemma TakePlain(plan: seq<seq<Piece>>, pool: map<Key, nat>, pending: seq<Event>, appends: seq<Append>, i: nat)
    requires OnceEach(plan, pending, appends) && Balanced(pool, pending, appends)
    requires i < |pending| && (pending[i].Inputs? || pending[i].Seal?)
    ensures OnceEach(plan, Without(pending, i), appends) && Balanced(pool, Without(pending, i), appends)
  {
    forall q: Piece
      ensures Occurrences(Without(pending, i), appends, q) == if IsPlanned(plan, q) then 1 else 0
    {
      TotalWithout(Only(q), pending, i);
      assert Occurrences(pending, appends, q) == if IsPlanned(plan, q) then 1 else 0;
    }
    forall k: Key
      ensures CountOf(pool, k) == AppendedTo(appends, k) + Total(CommitsTo(k), Without(pending, i))
    {
      TotalWithout(CommitsTo(k), pending, i);
      assert CountOf(pool, k) == AppendedTo(appends, k) + Total(CommitsTo(k), pending);
    }
  }

  /** A chunk turns into a commit of the same piece. */
  lemma ChunkToCommit(plan: seq<seq<Piece>>, pool: map<Key, nat>, pending: seq<Event>, appends: seq<Append>, i: nat,
                      e: Event)
    requires OnceEach(plan, pending, appends) && Balanced(pool, pending, appends)
    requires i < |pending| && pending[i].Chunk? && e.Commit? && e.piece == pending[i].piece
    ensures OnceEach(plan, Without(pending, i) + [e], appends)
    ensures Balanced(Raised(pool, e.key), Without(pending, i) + [e], appends)
  {
    forall q: Piece
      ensures Occurrences(Without(pending, i) + [e], appends, q) == if IsPlanned(plan, q) then 1 else 0
    {
      TotalWithout(Only(q), pending, i);
      TotalOneMore(Only(q), Without(pending, i), e);
      assert Occurrences(pending, appends, q) == if IsPlanned(plan, q) then 1 else 0;
    }
    forall k: Key
      ensures CountOf(pool, k) == AppendedTo(appends, k) + Total(CommitsTo(k), Without(pending, i))
    {
      TotalWithout(CommitsTo(k), pending, i);
      assert CountOf(pool, k) == AppendedTo(appends, k) + Total(CommitsTo(k), pending);
    }
    AddCommit(pool, Without(pending, i), appends, e);
  }

  /** A commit turns into an append. */
  lemma CommitToAppend(plan: seq<seq<Piece>>, pool: map<Key, nat>, pending: seq<Event>, appends: seq<Append>, i: nat,
                       a: Append)
    requires OnceEach(plan, pending, appends) && Balanced(pool, pending, appends)
    requires i < |pending| && pending[i].Commit? && a.piece == pending[i].piece && a.key == pending[i].key
    ensures OnceEach(plan, Without(pending, i), appends + [a])
    ensures Balanced(pool, Without(pending, i), appends + [a])
  {
    forall q: Piece
      ensures Occurrences(Without(pending, i), appends + [a], q) == if IsPlanned(plan, q) then 1 else 0
    {
      TotalWithout(Only(q), pending, i);
      AppendedOneMore(appends, a, a.key, q);
      assert Occurrences(pending, appends, q) == if IsPlanned(plan, q) then 1 else 0;
    }
    forall k: Key
      ensures CountOf(pool, k) == AppendedTo(appends + [a], k) + Total(CommitsTo(k), Without(pending, i))
    {
      TotalWithout(CommitsTo(k), pending, i);
      AppendedOneMore(appends, a, k, a.piece);
      assert CountOf(pool, k) == AppendedTo(appends, k) + Total(CommitsTo(k), pending);
    }
  }

  /** With no piece on its way, the entries count exactly what was appended to them, and
      every planned piece has been appended once. */
  lemma NothingOnItsWay(plan: seq<seq<Piece>>, pool: map<Key, nat>, pending: seq<Event>, appends: seq<Append>)
    requires OnceEach(plan, pending, appends) && Balanced(pool, pending, appends)
    requires forall e | e in pending :: !e.Chunk? && !e.Commit?
    ensures forall k: Key :: CountOf(pool, k) == AppendedTo(appends, k)
    ensures forall p: Piece :: AppendedTimes(appends, p) == if IsPlanned(plan, p) then 1 else 0
    ensures Total(Pieces, pending) == 0
  {
    forall k: Key
      ensures CountOf(pool, k) == AppendedTo(appends, k)
    {
      TotalZero(CommitsTo(k), pending);
      assert CountOf(pool, k) == AppendedTo(appends, k) + Total(CommitsTo(k), pending);
    }
    forall p: Piece
      ensures AppendedTimes(appends, p) == if IsPlanned(plan, p) then 1 else 0
    {
      TotalZero(Only(p), pending);
      assert Occurrences(pending, appends, p) == if IsPlanned(plan, p) then 1 else 0;
    }
    TotalZero(Pieces, pending);
  }

  lemma EmptyFlow(plan: seq<seq<Piece>>, pending: seq<Event>, appends: seq<Append>)
    requires OnceEach(plan, pending, appends)
    ensures OnceEach(plan + [[]], pending, appends)
  {
    forall p: Piece
      ensures Occurrences(pending, appends, p) == if IsPlanned(plan + [[]], p) then 1 else 0
    {
      assert Occurrences(pending, appends, p) == if IsPlanned(plan, p) then 1 else 0;
      assert IsPlanned(plan + [[]], p) <==> IsPlanned(plan, p);
    }
  }

  // ------------------------------------------------------- all accounts

  lemma PieceScheduled(plan: seq<seq<Piece>>, done: seq<Piece>, p: Piece, pool: map<Key, nat>, pending: seq<Event>,
                       appends: seq<Append>, e: Event)
    requires Accounts(plan + [done], pool, pending, appends)
    requires p.flow == |plan| && p.id == |done| && (e.Chunk? || e.Commit?) && e.piece == p
    ensures e.Chunk? ==> Accounts(plan + [done + [p]], pool, pending + [e], appends)
    ensures e.Commit? ==> Accounts(plan + [done + [p]], Raised(pool, e.key), pending + [e], appends)
  {
    AddPiece(plan, done, p, pending, appends, e);
    TotalOneMore(Pieces, pending, e);
    assert (plan + [done])[..|plan|] == plan && (plan + [done + [p]])[..|plan|] == plan;
    if e.Chunk? {
      AddOther(pool, pending, appends, e);
    } else {
      AddCommit(pool, pending, appends, e);
    }
  }

  lemma FlowBegun(plan: seq<seq<Piece>>, pool: map<Key, nat>, pending: seq<Event>, appends: seq<Append>)
    requires Accounts(plan, pool, pending, appends)
    ensures Accounts(plan + [[]], pool, pending, appends)
  {
    EmptyFlow(plan, pending, appends);
    assert (plan + [[]])[..|plan|] == plan;
  }

  lemma PlainScheduled(plan: seq<seq<Piece>>, pool: map<Key, nat>, pending: seq<Event>, appends: seq<Append>, e: Event)
    requires Accounts(plan, pool, pending, appends) && (e.Inputs? || e.Seal?)
    ensures Accounts(plan, pool, pending + [e], appends)
  {
    AddPlain(plan, pending, appends, e);
    AddOther(pool, pending, appends, e);
    TotalOneMore(Pieces, pending, e);
  }

  lemma PlainTaken(plan: seq<seq<Piece>>, pool: map<Key, nat>, pending: seq<Event>, appends: seq<Append>, i: nat)
    requires Accounts(plan, pool, pending, appends) && i < |pending| && (pending[i].Inputs? || pending[i].Seal?)
    ensures Accounts(plan, pool, Without(pending, i), appends)
  {
    TakePlain(plan, pool, pending, appends, i);
    TotalWithout(Pieces, pending, i);
  }

  lemma ChunkSent(plan: seq<seq<Piece>>, pool: map<Key, nat>, pending: seq<Event>, appends: seq<Append>, i: nat,
                  e: Event)
    requires Accounts(plan, pool, pending, appends)
    requires i < |pending| && pending[i].Chunk? && e.Commit? && e.piece == pending[i].piece
    ensures Accounts(plan, Raised(pool, e.key), Without(pending, i) + [e], appends)
  {
    ChunkToCommit(plan, pool, pending, appends, i, e);
    TotalWithout(Pieces, pending, i);
    TotalOneMore(Pieces, Without(pending, i), e);
  }

  lemma CommitDone(plan: seq<seq<Piece>>, pool: map<Key, nat>, pending: seq<Event>, appends: seq<Append>, i: nat,
                   a: Append)
    requires Accounts(plan, pool, pending, appends)
    requires i < |pending| && pending[i].Commit? && a.piece == pending[i].piece && a.key == pending[i].key
    ensures Accounts(plan, pool, Without(pending, i), appends + [a])
  {
    CommitToAppend(plan, pool, pending, appends, i, a);
    TotalWithout(Pieces, pending, i);
  }

  lemma WithoutIsIn(pending: seq<Event>, i: nat)
    requires i < |pending|
    ensures forall e | e in Without(pending, i) :: e in pending
    ensures OneFewer(Without(pending, i), pending, pending[i])
  {
    TotalWithout(InputsLeft, pending, i);
    TotalWithout(SealsLeft, pending, i);
    TotalWithout(StepsLeft, pending, i);
  }

  /** The counts that steer the loop, with and without an event. */
  predicate OneFewer(without: seq<Event>, with: seq<Event>, e: Event) {
    && Total(InputsLeft, with) == Total(InputsLeft, without) + Score(InputsLeft, e)
    && Total(SealsLeft, with) == Total(SealsLeft, without) + Score(SealsLeft, e)
    && Total(StepsLeft, with) == Total(StepsLeft, without) + Score(StepsLeft, e)
  }

  lemma WithOneMore(pending: seq<Event>, e: Event)
    ensures OneFewer(pending, pending + [e], e)
  {
    TotalOneMore(InputsLeft, pending, e);
    TotalOneMore(SealsLeft, pending, e);
    TotalOneMore(StepsLeft, pending, e);
  }
}
