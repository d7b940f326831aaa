/** The parallel test driver: the main thread, the worker threads and an
    interrupt as a state machine whose steps interleave in any order. */
module TestDriver {

  /** A queued job; the trailing poison jobs are breaks from the start, a test job
      becomes one when a worker finds the interrupt flag set. */
  datatype Job = Job(id: nat, isBreak: bool, isSkip: bool, code: int)

  datatype Worker = Idle | Checking(job: Job) | Running(job: Job) | Putting(job: Job) | Exited

  datatype Main =
    | Dispatching(next: nat)
    | Poisoning(sent: nat)
    | Collecting(got: nat)
    | Joining(joined: nat)
    | Done(result: int)

  datatype Tally = Tally(passed: nat, skipped: nat, failed: nat, valgrind: nat, crashed: nat)

  /** collected lists the jobs the main thread has taken from the output queue and
      launches the tests a process was started for, with what it returned. */
  datatype State = State(inQ: seq<Job>, outQ: seq<Job>, workers: seq<Worker>, main: Main,
                         interrupted: bool, tally: Tally, collected: seq<Job>,
                         launches: map<nat, int>)

  /** The tests to run and the number of processors. */
  datatype Config = Config(skips: seq<bool>, processors: nat) {
    function Jobs(): nat { |skips| }

    function TestJob(i: nat): Job
      requires i < Jobs()
    {
      Job(i, false, skips[i], 0)
    }
  }

  const POISON := Job(0, true, false, 0)

  function AllIdle(n: nat): (ws: seq<Worker>)
    ensures |ws| == n && forall w | w in ws :: w.Idle?
  {
    seq(n, _ => Idle)
  }

  function Init(c: Config): State {
    State([], [], AllIdle(c.processors), Dispatching(0), false, Tally(0, 0, 0, 0, 0), [], map[])
  }

  // ----------------------------------------------------------------- steps

  /** code is what the launched process returns; only a running worker uses it. */
  datatype Step = MainStep | WorkerStep(w: nat, code: int) | Interrupt

  predicate Enabled(c: Config, s: State, step: Step) {
    match step
    case Interrupt => !s.interrupted
    case WorkerStep(w, _) =>
      w < |s.workers| && !s.workers[w].Exited? && (s.workers[w].Idle? ==> s.inQ != [])
    case MainStep =>
      match s.main
      case Dispatching(_) => true
      case Poisoning(_) => true
      case Collecting(got) => got < c.Jobs() ==> s.outQ != []
      case Joining(k) => k < c.processors ==> k < |s.workers| && s.workers[k].Exited?
      case Done(_) => false
  }

  function Count(t: Tally, job: Job): Tally {
    if job.isBreak then t
    else if job.isSkip then t.(skipped := t.skipped + 1)
    else if job.code == 0 then t.(passed := t.passed + 1)
    else if job.code == 1 then t.(failed := t.failed + 1)
    else if job.code == 2 then t.(valgrind := t.valgrind + 1)
    else t.(crashed := t.crashed + 1)
  }

  function MainNext(c: Config, s: State): State
    requires Enabled(c, s, MainStep)
  {
    match s.main
    case Dispatching(i) =>
      if i < c.Jobs() then s.(inQ := s.inQ + [c.TestJob(i)], main := Dispatching(i + 1))
      else s.(main := Poisoning(0))
    case Poisoning(k) =>
      if k < c.processors then s.(inQ := s.inQ + [POISON], main := Poisoning(k + 1))
      else s.(main := Collecting(0))
    case Collecting(got) =>
      if got < c.Jobs() then
        s.(outQ := s.outQ[1..], main := Collecting(got + 1),
           tally := Count(s.tally, s.outQ[0]), collected := s.collected + [s.outQ[0]])
      else s.(main := Joining(0))
    case Joining(k) =>
      if k < c.processors then s.(main := Joining(k + 1))
      else s.(main := Done(if s.tally.passed + s.tally.skipped == c.Jobs() then 0 else 1))
  }

  function WorkerNext(s: State, w: nat, code: int): State
    requires w < |s.workers| && !s.workers[w].Exited? && (s.workers[w].Idle? ==> s.inQ != [])
  {
    match s.workers[w]
    case Idle =>
      var job := s.inQ[0];
      s.(inQ := s.inQ[1..], workers := s.workers[w := if job.isBreak then Exited else Checking(job)])
    case Checking(job) =>
      var next := if s.interrupted then Putting(job.(isBreak := true))
                  else if job.isSkip then Putting(job) else Running(job);
      s.(workers := s.workers[w := next])
    case Running(job) =>
      s.(workers := s.workers[w := Putting(job.(code := code))], launches := s.launches[job.id := code])
    case Putting(job) => s.(workers := s.workers[w := Idle], outQ := s.outQ + [job])
  }

  function Next(c: Config, s: State, step: Step): State
    requires Enabled(c, s, step)
  {
    match step
    case Interrupt => s.(interrupted := true)
    case WorkerStep(w, code) => WorkerNext(s, w, code)
    case MainStep => MainNext(c, s)
  }

  datatype Outcome = Stuck | At(state: State)

  /** Where a sequence of steps leads from the initial state, if each is enabled in turn. */
  function After(c: Config, run: seq<Step>): Outcome {
    if run == [] then At(Init(c))
    else match After(c, run[..|run| - 1])
         case Stuck => Stuck
         case At(s) => if Enabled(c, s, run[|run| - 1]) then At(Next(c, s, run[|run| - 1])) else Stuck
  }

  predicate Reaches(c: Config, run: seq<Step>, s: State) {
    After(c, run) == At(s)
  }

  // ------------------------------------------------------------- counting

  /** Test jobs with identifier k in a queue. */
  function CountTests(q: seq<Job>, k: nat): nat {
    if q == [] then 0 else CountTests(q[1..], k) + if !q[0].isBreak && q[0].id == k then 1 else 0
  }

  function CountIds(q: seq<Job>, k: nat): nat {
    if q == [] then 0 else CountIds(q[1..], k) + if q[0].id == k then 1 else 0
  }

  function CountPoison(q: seq<Job>): nat {
    if q == [] then 0 else CountPoison(q[1..]) + if q[0].isBreak then 1 else 0
  }

  function Holds(w: Worker, k: nat): nat {
    if (w.Checking? || w.Running? || w.Putting?) && w.job.id == k then 1 else 0
  }

  function CountHeld(ws: seq<Worker>, k: nat): nat {
    if ws == [] then 0 else CountHeld(ws[1..], k) + Holds(ws[0], k)
  }

  function CountExited(ws: seq<Worker>): nat {
    if ws == [] then 0 else CountExited(ws[1..]) + if ws[0].Exited? then 1 else 0
  }

  lemma QueueAppend(q: seq<Job>, job: Job, k: nat)
    ensures CountTests(q + [job], k) == CountTests(q, k) + if !job.isBreak && job.id == k then 1 else 0
    ensures CountIds(q + [job], k) == CountIds(q, k) + if job.id == k then 1 else 0
    ensures CountPoison(q + [job]) == CountPoison(q) + if job.isBreak then 1 else 0
  {
    if q != [] {
      QueueAppend(q[1..], job, k);
      assert (q + [job])[1..] == q[1..] + [job];
    }
  }

  lemma WorkerUpdate(ws: seq<Worker>, w: nat, next: Worker, k: nat)
    requires w < |ws|
    ensures CountHeld(ws[w := next], k) == CountHeld(ws, k) - Holds(ws[w], k) + Holds(next, k)
    ensures CountHeld(ws, k) >= Holds(ws[w], k)
    ensures CountExited(ws[w := next])
         == CountExited(ws) + (if next.Exited? then 1 else 0) - (if ws[w].Exited? then 1 else 0)
  {
    if w > 0 {
      WorkerUpdate(ws[1..], w - 1, next, k);
      assert ws[w := next][1..] == ws[1..][w - 1 := next];
    }
  }

  // ------------------------------------------------------------- invariant

  /** How many test jobs have been dispatched, and how many poison jobs. */
  function Dispatched(c: Config, s: State): nat {
    if s.main.Dispatching? then s.main.next else c.Jobs()
  }

  function Poisoned(c: Config, s: State): nat {
    match s.main
    case Dispatching(_) => 0
    case Poisoning(k) => k
    case _ => c.processors
  }

  /** In how many places the test job k is: the input queue, a worker, the output
      queue, or the collected list. */
  function Places(s: State, k: nat): nat {
    CountTests(s.inQ, k) + CountHeld(s.workers, k) + CountIds(s.outQ, k) + CountIds(s.collected, k)
  }

  /** Poison jobs stand behind all test jobs. */
  predicate PoisonLast(q: seq<Job>) {
    forall i, j | 0 <= i < j < |q| :: q[i].isBreak ==> q[j].isBreak
  }

  predicate Genuine(c: Config, job: Job) {
    job.id < c.Jobs() && job.isSkip == c.skips[job.id]
  }

  ghost predicate Inv(c: Config, s: State) {
    && |s.workers| == c.processors
    && (s.main.Dispatching? ==> s.main.next <= c.Jobs())
    && (s.main.Poisoning? ==> s.main.sent <= c.processors)
    && (forall k: nat :: Places(s, k) == if k < Dispatched(c, s) then 1 else 0)
    && CountPoison(s.inQ) + CountExited(s.workers) == Poisoned(c, s)
    && PoisonLast(s.inQ)
    && (CountExited(s.workers) > 0 ==> forall job | job in s.inQ :: job.isBreak)
    && AllGenuine(c, s)
    && Collected(c, s)
  }

  ghost predicate AllGenuine(c: Config, s: State) {
    && (forall job | job in s.inQ && !job.isBreak :: Genuine(c, job))
    && (forall w | w in s.workers && !w.Idle? && !w.Exited? :: Genuine(c, w.job))
    && (forall job | job in s.outQ + s.collected :: Genuine(c, job))
    && (forall w | w in s.workers && (w.Checking? || w.Running?) :: !w.job.isBreak)
  }

  ghost predicate Collected(c: Config, s: State) {
    && s.tally == TallyOf(s.collected)
    && match s.main
       case Dispatching(_) => s.collected == []
       case Poisoning(_) => s.collected == []
       case Collecting(got) => |s.collected| == got <= c.Jobs()
       case Joining(k) =>
         && |s.collected| == c.Jobs() && k <= c.processors == |s.workers|
         && forall w | 0 <= w < k :: s.workers[w].Exited?
       case Done(r) =>
         && |s.collected| == c.Jobs() && (forall w | w in s.workers :: w.Exited?)
         && r == if s.tally.passed + s.tally.skipped == c.Jobs() then 0 else 1
  }

  function TallyOf(collected: seq<Job>): Tally {
    if collected == [] then Tally(0, 0, 0, 0, 0)
    else Count(TallyOf(collected[..|collected| - 1]), collected[|collected| - 1])
  }

  lemma InitInv(c: Config)
    ensures Inv(c, Init(c))
  {
    NoneHeld(c.processors);
    forall k: nat
      ensures Places(Init(c), k) == 0
    {
      assert CountHeld(Init(c).workers, k) == 0;
    }
  }

  lemma NoneHeld(n: nat)
    ensures forall k: nat :: CountHeld(AllIdle(n), k) == 0
    ensures CountExited(AllIdle(n)) == 0
  {
    if n > 0 {
      NoneHeld(n - 1);
      assert AllIdle(n)[1..] == AllIdle(n - 1);
    }
  }

  lemma StepKeepsInv(c: Config, s: State, step: Step)
    requires Inv(c, s) && Enabled(c, s, step)
    ensures Inv(c, Next(c, s, step))
  {
    match step
    case Interrupt =>
      SamePlaces(s, Next(c, s, step));
    case MainStep => MainKeepsInv(c, s);
    case WorkerStep(w, code) => WorkerKeepsInv(c, s, w, code);
  }

  lemma MainKeepsInv(c: Config, s: State)
    requires Inv(c, s) && Enabled(c, s, MainStep)
    ensures Inv(c, MainNext(c, s))
  {
    match s.main {
      case Dispatching(_) => DispatchKeepsInv(c, s);
      case Poisoning(_) => PoisonKeepsInv(c, s);
      case Collecting(_) => CollectKeepsInv(c, s);
      case Joining(_) => JoinKeepsInv(c, s);
    }
  }

  lemma DispatchKeepsInv(c: Config, s: State)
    requires Inv(c, s) && s.main.Dispatching?
    ensures Inv(c, MainNext(c, s))
  {
    var s' := MainNext(c, s);
    var i := s.main.next;
    if i < c.Jobs() {
      forall k: nat
        ensures Places(s', k) == if k < i + 1 then 1 else 0
      {
        QueueAppend(s.inQ, c.TestJob(i), k);
        assert Places(s', k) == Places(s, k) + if k == i then 1 else 0;
      }
      QueueAppend(s.inQ, c.TestJob(i), 0);
      NoPoison(s.inQ);
    } else {
      SamePlaces(s, s');
    }
  }

  lemma PoisonKeepsInv(c: Config, s: State)
    requires Inv(c, s) && s.main.Poisoning?
    ensures Inv(c, MainNext(c, s))
  {
    var s' := MainNext(c, s);
    if s.main.sent < c.processors {
      forall k: nat
        ensures Places(s', k) == Places(s, k)
      {
        QueueAppend(s.inQ, POISON, k);
      }
      QueueAppend(s.inQ, POISON, 0);
    } else {
      SamePlaces(s, s');
    }
  }

  lemma CollectKeepsInv(c: Config, s: State)
    requires Inv(c, s) && s.main.Collecting? && Enabled(c, s, MainStep)
    ensures Inv(c, MainNext(c, s))
  {
    var s' := MainNext(c, s);
    if s.main.got < c.Jobs() {
      forall k: nat
        ensures Places(s', k) == Places(s, k)
      {
        QueueAppend(s.collected, s.outQ[0], k);
      }
      assert s'.collected[..|s.collected|] == s.collected;
      assert forall job | job in s'.outQ + s'.collected :: job in s.outQ + s.collected;
    } else {
      SamePlaces(s, s');
    }
  }

  lemma JoinKeepsInv(c: Config, s: State)
    requires Inv(c, s) && s.main.Joining? && Enabled(c, s, MainStep)
    ensures Inv(c, MainNext(c, s))
  {
    SamePlaces(s, MainNext(c, s));
  }

  lemma SamePlaces(s: State, s': State)
    requires s'.inQ == s.inQ && s'.workers == s.workers && s'.outQ == s.outQ && s'.collected == s.collected
    ensures forall k: nat :: Places(s', k) == Places(s, k)
  {}

  lemma NoPoison(q: seq<Job>)
    ensures CountPoison(q) == 0 <==> forall job | job in q :: !job.isBreak
  {}

  lemma WorkerKeepsPlaces(c: Config, s: State, w: nat, code: int)
    requires Enabled(c, s, WorkerStep(w, code))
    ensures var s' := WorkerNext(s, w, code);
      && (forall k: nat :: Places(s', k) == Places(s, k))
      && CountPoison(s'.inQ) + CountExited(s'.workers) == CountPoison(s.inQ) + CountExited(s.workers)
      && CountExited(s'.workers) == CountExited(s.workers) + if s'.workers[w].Exited? then 1 else 0
  {
    var s' := WorkerNext(s, w, code);
    forall k: nat
      ensures Places(s', k) == Places(s, k)
    {
      WorkerUpdate(s.workers, w, s'.workers[w], k);
      if s.workers[w].Putting? {
        QueueAppend(s.outQ, s.workers[w].job, k);
      }
    }
    WorkerUpdate(s.workers, w, s'.workers[w], 0);
  }

  lemma WorkerKeepsGenuine(c: Config, s: State, w: nat, code: int)
    requires Enabled(c, s, WorkerStep(w, code)) && AllGenuine(c, s)
    ensures AllGenuine(c, WorkerNext(s, w, code))
  {
    var s' := WorkerNext(s, w, code);
    assert s.workers[w] in s.workers;
    if s.workers[w].Idle? {
      assert s.inQ[0] in s.inQ;
    }
    forall v | v in s'.workers && !v.Idle? && !v.Exited?
      ensures Genuine(c, v.job) && ((v.Checking? || v.Running?) ==> !v.job.isBreak)
    {
      var i :| 0 <= i < |s'.workers| && s'.workers[i] == v;
      assert i != w ==> v in s.workers;
    }
  }

  /** Taking the head of the input queue keeps the poison jobs last, and a worker
      exits only when nothing but poison is left. */
  lemma WorkerKeepsPoisonLast(c: Config, s: State, w: nat, code: int)
    requires Inv(c, s) && Enabled(c, s, WorkerStep(w, code))
    ensures var s' := WorkerNext(s, w, code);
      && PoisonLast(s'.inQ)
      && (CountExited(s'.workers) > 0 ==> forall job | job in s'.inQ :: job.isBreak)
  {
    WorkerKeepsPlaces(c, s, w, code);
    if s.workers[w].Idle? {
      var rest := WorkerNext(s, w, code).inQ;
      assert forall i | 0 <= i < |rest| :: rest[i] == s.inQ[i + 1] && rest[i] in s.inQ;
    }
  }

  lemma WorkerKeepsCollected(c: Config, s: State, w: nat, code: int)
    requires |s.workers| == c.processors && Collected(c, s) && Enabled(c, s, WorkerStep(w, code))
    ensures Collected(c, WorkerNext(s, w, code))
  {
    assert s.workers[w] in s.workers;
  }

  lemma WorkerKeepsInv(c: Config, s: State, w: nat, code: int)
    requires Inv(c, s) && Enabled(c, s, WorkerStep(w, code))
    ensures Inv(c, WorkerNext(s, w, code))
  {
    WorkerKeepsPlaces(c, s, w, code);
    WorkerKeepsGenuine(c, s, w, code);
    WorkerKeepsPoisonLast(c, s, w, code);
    WorkerKeepsCollected(c, s, w, code);
  }

  lemma {:induction false} ReachableInv(c: Config, run: seq<Step>, s: State)
    requires Reaches(c, run, s)
    ensures Inv(c, s)
    decreases |run|
  {
    if run == [] {
      InitInv(c);
    } else {
      var before := After(c, run[..|run| - 1]).state;
      ReachableInv(c, run[..|run| - 1], before);
      StepKeepsInv(c, before, run[|run| - 1]);
    }
  }

  // ----------------------------------------------------------- termination

  function QueueWeight(q: seq<Job>): nat {
    if q == [] then 0 else QueueWeight(q[1..]) + if q[0].isBreak then 1 else 4
  }

  function Weight(w: Worker): nat {
    match w
    case Checking(_) => 3
    case Running(_) => 2
    case Putting(_) => 1
    case _ => 0
  }

  function WorkersWeight(ws: seq<Worker>): nat {
    if ws == [] then 0 else WorkersWeight(ws[1..]) + Weight(ws[0])
  }

  function MainWeight(c: Config, m: Main): int {
    match m
    case Dispatching(i) => 6 * c.Jobs() - 5 * i + 3 * c.processors + 4
    case Poisoning(k) => c.Jobs() + 3 * c.processors - 2 * k + 3
    case Collecting(got) => c.Jobs() - got + c.processors + 2
    case Joining(k) => c.processors - k + 1
    case Done(_) => 0
  }

  /** Bounds how many steps are still to come. */
  function StepsLeft(c: Config, s: State): int {
    QueueWeight(s.inQ) + WorkersWeight(s.workers) + MainWeight(c, s.main) + if s.interrupted then 0 else 1
  }

  lemma WeightAppend(q: seq<Job>, job: Job)
    ensures QueueWeight(q + [job]) == QueueWeight(q) + if job.isBreak then 1 else 4
  {
    if q != [] {
      WeightAppend(q[1..], job);
      assert (q + [job])[1..] == q[1..] + [job];
    }
  }

  lemma WeightUpdate(ws: seq<Worker>, w: nat, next: Worker)
    requires w < |ws|
    ensures WorkersWeight(ws[w := next]) == WorkersWeight(ws) - Weight(ws[w]) + Weight(next)
  {
    if w > 0 {
      WeightUpdate(ws[1..], w - 1, next);
      assert ws[w := next][1..] == ws[1..][w - 1 := next];
    }
  }

  lemma StepsLeftShrinks(c: Config, s: State, step: Step)
    requires Inv(c, s) && Enabled(c, s, step)
    ensures 0 <= StepsLeft(c, Next(c, s, step)) < StepsLeft(c, s)
  {
    MainHasWeight(c, s);
    match step {
      case Interrupt =>
      case MainStep => MainShrinks(c, s);
      case WorkerStep(w, code) =>
        WorkerShrinks(s, w, code);
        assert Next(c, s, step).main == s.main && Next(c, s, step).interrupted == s.interrupted;
    }
  }

  lemma MainHasWeight(c: Config, s: State)
    requires Inv(c, s)
    ensures MainWeight(c, s.main) >= 0
  {}

  lemma MainShrinks(c: Config, s: State)
    requires Inv(c, s) && Enabled(c, s, MainStep)
    ensures 0 <= StepsLeft(c, MainNext(c, s)) < StepsLeft(c, s)
  {
    if s.main.Dispatching? && s.main.next < c.Jobs() { WeightAppend(s.inQ, c.TestJob(s.main.next)); }
    if s.main.Poisoning? { WeightAppend(s.inQ, POISON); }
  }

  lemma WorkerShrinks(s: State, w: nat, code: int)
    requires w < |s.workers| && !s.workers[w].Exited? && (s.workers[w].Idle? ==> s.inQ != [])
    ensures var s' := WorkerNext(s, w, code);
      QueueWeight(s'.inQ) + WorkersWeight(s'.workers) < QueueWeight(s.inQ) + WorkersWeight(s.workers)
  {
    WeightUpdate(s.workers, w, WorkerNext(s, w, code).workers[w]);
  }

  lemma IdleWeight(n: nat)
    ensures WorkersWeight(AllIdle(n)) == 0
  {
    if n > 0 {
      IdleWeight(n - 1);
      assert AllIdle(n)[1..] == AllIdle(n - 1);
    }
  }

  /** No schedule runs forever: every run has at most this many steps. */
  lemma {:induction false} RunsAreBounded(c: Config, run: seq<Step>, s: State)
    requires Reaches(c, run, s)
    ensures |run| + StepsLeft(c, s) <= 6 * c.Jobs() + 3 * c.processors + 5
    ensures |run| <= 6 * c.Jobs() + 3 * c.processors + 5
    decreases |run|
  {
    if run == [] {
      IdleWeight(c.processors);
    } else {
      var last := run[|run| - 1];
      var before := After(c, run[..|run| - 1]).state;
      RunsAreBounded(c, run[..|run| - 1], before);
      ReachableInv(c, run[..|run| - 1], before);
      StepsLeftShrinks(c, before, last);
    }
  }

  // ------------------------------------------------------------ every job

  /** Jobs in q with identifiers below n, counted identifier by identifier. */
  function CountBelow(q: seq<Job>, n: nat): nat {
    if n == 0 then 0 else CountBelow(q, n - 1) + CountIds(q, n - 1)
  }

  lemma CountBelowHead(q: seq<Job>, n: nat)
    requires q != []
    ensures CountBelow(q, n) == CountBelow(q[1..], n) + if q[0].id < n then 1 else 0
  {}

  lemma CountBelowIsLength(q: seq<Job>, n: nat)
    requires forall job | job in q :: job.id < n
    ensures CountBelow(q, n) == |q|
  {
    if q == [] {
      NothingBelow(n);
    } else {
      CountBelowHead(q, n);
      CountBelowIsLength(q[1..], n);
    }
  }

  lemma NothingBelow(n: nat)
    ensures CountBelow([], n) == 0
  {}

  /** n identifiers, each at most once, fill n places only if each occurs. */
  lemma FullCount(q: seq<Job>, n: nat)
    requires forall k: nat | k < n :: CountIds(q, k) <= 1
    ensures CountBelow(q, n) <= n
    ensures CountBelow(q, n) == n ==> forall k: nat | k < n :: CountIds(q, k) == 1
    ensures (forall k: nat | k < n :: CountIds(q, k) == 1) ==> CountBelow(q, n) == n
  {
    if n > 0 {
      FullCount(q, n - 1);
    }
  }

  lemma EachCollectedOnce(c: Config, s: State)
    requires Inv(c, s) && |s.collected| == c.Jobs() && !s.main.Dispatching?
    ensures forall k: nat | k < c.Jobs() :: CountIds(s.collected, k) == 1
    ensures s.outQ == [] && forall job | job in s.inQ :: job.isBreak
    ensures forall w | w in s.workers :: w.Idle? || w.Exited?
  {
    forall k: nat | k < c.Jobs()
      ensures CountIds(s.collected, k) <= 1
    {
      assert Places(s, k) == 1;
    }
    FullCount(s.collected, c.Jobs());
    assert forall job | job in s.collected :: job in s.outQ + s.collected;
    CountBelowIsLength(s.collected, c.Jobs());
    NothingElsewhere(c, s);
  }

  lemma CountsAreSeen(q: seq<Job>, job: Job)
    requires job in q
    ensures CountIds(q, job.id) > 0
    ensures !job.isBreak ==> CountTests(q, job.id) > 0
    ensures job.isBreak ==> CountPoison(q) > 0
  {}

  lemma OnlyPoison(q: seq<Job>)
    requires forall job | job in q :: job.isBreak
    ensures CountPoison(q) == |q|
  {
    if q != [] {
      OnlyPoison(q[1..]);
    }
  }

  lemma HeldIsSeen(ws: seq<Worker>, w: Worker)
    requires w in ws && !w.Idle? && !w.Exited?
    ensures CountHeld(ws, w.job.id) > 0
  {
    if w != ws[0] {
      HeldIsSeen(ws[1..], w);
    }
  }

  lemma NothingElsewhere(c: Config, s: State)
    requires Inv(c, s) && !s.main.Dispatching?
    requires forall k: nat | k < c.Jobs() :: CountIds(s.collected, k) == 1
    ensures s.outQ == [] && forall job | job in s.inQ :: job.isBreak
    ensures forall w | w in s.workers :: w.Idle? || w.Exited?
  {
    forall k: nat
      ensures CountTests(s.inQ, k) == CountHeld(s.workers, k) == CountIds(s.outQ, k) == 0
    {
      assert Places(s, k) == if k < c.Jobs() then 1 else 0;
    }
    if s.outQ != [] {
      CountsAreSeen(s.outQ, s.outQ[0]);
    }
    forall job | job in s.inQ
      ensures job.isBreak
    {
      CountsAreSeen(s.inQ, job);
    }
    forall w | w in s.workers
      ensures w.Idle? || w.Exited?
    {
      if !w.Idle? && !w.Exited? {
        HeldIsSeen(s.workers, w);
      }
    }
  }

  lemma AllExited(ws: seq<Worker>)
    ensures CountExited(ws) <= |ws|
    ensures CountExited(ws) == |ws| <==> forall w | w in ws :: w.Exited?
  {
    if ws != [] {
      AllExited(ws[1..]);
      assert forall w :: w in ws <==> w == ws[0] || w in ws[1..];
    }
  }

  // -------------------------------------------------------------- progress

  /** Some thread can always go on until the driver is done, without an interrupt. */
  lemma AlwaysProgress(c: Config, run: seq<Step>, s: State) returns (step: Step)
    requires Reaches(c, run, s) && !s.main.Done?
    requires c.processors > 0 || c.Jobs() == 0
    ensures Enabled(c, s, step) && step != Interrupt
  {
    ReachableInv(c, run, s);
    step := MainStep;
    if !Enabled(c, s, MainStep) {
      if s.main.Joining? {
        var w := s.main.joined;
        JoinMoves(c, s, w);
        step := WorkerStep(w, 0);
      } else {
        var w := CollectMoves(c, s);
        step := WorkerStep(w, 0);
      }
    }
  }

  lemma JoinMoves(c: Config, s: State, w: nat)
    requires Inv(c, s) && s.main.Joining? && w < c.processors && !s.workers[w].Exited?
    ensures Enabled(c, s, WorkerStep(w, 0))
  {
    AllExited(s.workers);
    assert s.workers[w] in s.workers;
  }

  lemma CollectMoves(c: Config, s: State) returns (w: nat)
    requires Inv(c, s) && s.main.Collecting? && s.main.got < c.Jobs() && s.outQ == [] && c.processors > 0
    ensures Enabled(c, s, WorkerStep(w, 0))
  {
    if exists v: nat :: v < |s.workers| && Enabled(c, s, WorkerStep(v, 0)) {
      w :| w < |s.workers| && Enabled(c, s, WorkerStep(w, 0));
    } else {
      StuckIsFinished(c, s);
      assert false;
    }
  }

  /** When no worker can move, every job has been collected. */
  lemma StuckIsFinished(c: Config, s: State)
    requires Inv(c, s) && s.main.Collecting? && s.outQ == [] && c.processors > 0
    requires forall v: nat | v < |s.workers| :: !Enabled(c, s, WorkerStep(v, 0))
    ensures |s.collected| >= c.Jobs()
  {
    assert forall w | w in s.workers :: w.Exited? || (w.Idle? && s.inQ == []) by {
      forall w | w in s.workers
        ensures w.Exited? || (w.Idle? && s.inQ == [])
      {
        var v :| 0 <= v < |s.workers| && s.workers[v] == w;
        assert !Enabled(c, s, WorkerStep(v, 0));
      }
    }
    AllExited(s.workers);
    if s.inQ != [] {
      CountsAreSeen(s.inQ, s.inQ[0]);
    }
    assert s.inQ == [];
    forall k: nat | k < c.Jobs()
      ensures CountIds(s.collected, k) == 1
    {
      NoneHeldIdle(s.workers, k);
      assert Places(s, k) == 1;
    }
    FullCount(s.collected, c.Jobs());
    assert forall job | job in s.collected :: job in s.outQ + s.collected;
    CountBelowIsLength(s.collected, c.Jobs());
  }

  lemma NoneHeldIdle(ws: seq<Worker>, k: nat)
    requires forall w | w in ws :: w.Idle? || w.Exited?
    ensures CountHeld(ws, k) == 0
  {
    if ws != [] {
      NoneHeldIdle(ws[1..], k);
      assert ws[0] in ws;
    }
  }

  /** With no worker thread and something to run, the driver waits forever. */
  lemma {:induction false} NoWorkersNeverDone(c: Config, run: seq<Step>, s: State)
    requires Reaches(c, run, s) && c.processors == 0 && c.Jobs() > 0
    ensures !s.main.Done? && !s.main.Joining? && s.outQ == [] && s.collected == [] && s.workers == []
    decreases |run|
  {
    if run != [] {
      var last := run[|run| - 1];
      var before := After(c, run[..|run| - 1]).state;
      NoWorkersNeverDone(c, run[..|run| - 1], before);
      ReachableInv(c, run[..|run| - 1], before);
    }
  }

  // ---------------------------------------------------------------- result

  predicate Good(job: Job) {
    !job.isBreak && (job.isSkip || job.code == 0)
  }

  lemma CountGood(t: Tally, job: Job)
    ensures Count(t, job).passed + Count(t, job).skipped == t.passed + t.skipped + if Good(job) then 1 else 0
  {}

  lemma AllGoodAppend(front: seq<Job>, last: Job)
    ensures (forall job | job in front + [last] :: Good(job)) <==>
      (forall job | job in front :: Good(job)) && Good(last)
  {
    assert last in front + [last];
  }

  lemma TallyCountsGood(q: seq<Job>)
    ensures TallyOf(q).passed + TallyOf(q).skipped <= |q|
    ensures TallyOf(q).passed + TallyOf(q).skipped == |q| <==> forall job | job in q :: Good(job)
  {
    if q != [] {
      var front, last := q[..|q| - 1], q[|q| - 1];
      TallyCountsGood(front);
      CountGood(TallyOf(front), last);
      AllGoodAppend(front, last);
      assert q == front + [last];
    }
  }

  function CountWhere(q: seq<Job>, p: Job -> bool): nat {
    if q == [] then 0 else CountWhere(q[..|q| - 1], p) + if p(q[|q| - 1]) then 1 else 0
  }

  /** The tally counts every kind of outcome, and no broken job. */
  ghost predicate TallyTells(t: Tally, q: seq<Job>) {
    && t.skipped == CountWhere(q, (j: Job) => !j.isBreak && j.isSkip)
    && t.passed == CountWhere(q, (j: Job) => !j.isBreak && !j.isSkip && j.code == 0)
    && t.failed == CountWhere(q, (j: Job) => !j.isBreak && !j.isSkip && j.code == 1)
    && t.valgrind == CountWhere(q, (j: Job) => !j.isBreak && !j.isSkip && j.code == 2)
    && t.crashed == CountWhere(q, (j: Job) => !j.isBreak && !j.isSkip && j.code !in {0, 1, 2})
  }

  lemma {:induction false} TallyIsTold(q: seq<Job>)
    ensures TallyTells(TallyOf(q), q)
  {
    if q != [] {
      TallyIsTold(q[..|q| - 1]);
    }
  }

  // ---------------------------------------------------------- return codes

  /** What a job on its way back says is what happened: a skipped job was never
      launched, any other unbroken one was, and carries the code returned. */
  predicate Truthful(s: State, job: Job) {
    !job.isBreak ==> if job.isSkip then job.id !in s.launches
                     else job.id in s.launches && s.launches[job.id] == job.code
  }

  /** A job on its way out has not been launched yet. */
  predicate Fresh(s: State, job: Job) {
    !job.isBreak ==> job.id !in s.launches
  }

  predicate QueuesMatch(c: Config, s: State) {
    && (forall job | job in s.inQ :: Fresh(s, job))
    && (forall job | job in s.outQ :: Truthful(s, job))
    && (forall job | job in s.collected :: Truthful(s, job))
    && (forall id | id in s.launches :: id < Dispatched(c, s))
  }

  predicate WorkerMatches(s: State, w: Worker) {
    match w
    case Checking(job) => Fresh(s, job)
    case Running(job) => Fresh(s, job) && !job.isSkip
    case Putting(job) => Truthful(s, job)
    case _ => true
  }

  predicate CodesMatch(c: Config, s: State) {
    QueuesMatch(c, s) && forall w | w in s.workers :: WorkerMatches(s, w)
  }

  /** The job a worker holds is nowhere else. */
  lemma HeldAlone(c: Config, s: State, w: nat)
    requires Inv(c, s) && w < |s.workers| && !s.workers[w].Idle? && !s.workers[w].Exited?
    ensures forall job | job in s.inQ && !job.isBreak :: job.id != s.workers[w].job.id
    ensures forall job | job in s.outQ :: job.id != s.workers[w].job.id
    ensures forall job | job in s.collected :: job.id != s.workers[w].job.id
    ensures forall i | 0 <= i < |s.workers| && i != w && !s.workers[i].Idle? && !s.workers[i].Exited? ::
              s.workers[i].job.id != s.workers[w].job.id
  {
    var k := s.workers[w].job.id;
    assert Places(s, k) <= 1;
    WorkerUpdate(s.workers, w, Idle, k);
    forall job | job in s.inQ && !job.isBreak
      ensures job.id != k
    {
      CountsAreSeen(s.inQ, job);
    }
    forall job | job in s.outQ
      ensures job.id != k
    {
      CountsAreSeen(s.outQ, job);
    }
    forall job | job in s.collected
      ensures job.id != k
    {
      CountsAreSeen(s.collected, job);
    }
    forall i | 0 <= i < |s.workers| && i != w && !s.workers[i].Idle? && !s.workers[i].Exited?
      ensures s.workers[i].job.id != k
    {
      var rest := s.workers[w := Idle];
      assert rest[i] in rest;
      HeldIsSeen(rest, s.workers[i]);
    }
  }

  lemma WorkerKeepsQueues(c: Config, s: State, w: nat, code: int)
    requires Inv(c, s) && Enabled(c, s, WorkerStep(w, code)) && CodesMatch(c, s)
    ensures QueuesMatch(c, WorkerNext(s, w, code))
  {
    var s' := WorkerNext(s, w, code);
    assert WorkerMatches(s, s.workers[w]) by {
      assert s.workers[w] in s.workers;
    }
    if s.workers[w].Running? {
      HeldAlone(c, s, w);
      HeldIsDispatched(c, s, w);
    }
    forall job | job in s'.inQ
      ensures Fresh(s', job)
    {
      assert Fresh(s, job);
    }
    forall job | job in s'.outQ || job in s'.collected
      ensures Truthful(s', job)
    {
      if job in s.outQ || job in s.collected {
        assert Truthful(s, job);
      }
    }
  }

  lemma HeldIsDispatched(c: Config, s: State, w: nat)
    requires Inv(c, s) && w < |s.workers| && !s.workers[w].Idle? && !s.workers[w].Exited?
    ensures s.workers[w].job.id < Dispatched(c, s)
  {
    HeldIsSeen(s.workers, s.workers[w]);
    assert Places(s, s.workers[w].job.id) >= 1;
  }

  lemma WorkerKeepsWorkers(c: Config, s: State, w: nat, code: int)
    requires Inv(c, s) && Enabled(c, s, WorkerStep(w, code)) && CodesMatch(c, s)
    ensures forall v | v in WorkerNext(s, w, code).workers :: WorkerMatches(WorkerNext(s, w, code), v)
  {
    var s' := WorkerNext(s, w, code);
    if s.workers[w].Running? {
      HeldAlone(c, s, w);
      RunningIsUnbroken(c, s, w);
    }
    if s.workers[w].Idle? {
      assert Fresh(s, s.inQ[0]);
    }
    forall i | 0 <= i < |s'.workers|
      ensures WorkerMatches(s', s'.workers[i])
    {
      assert WorkerMatches(s, s.workers[i]) by {
        assert s.workers[i] in s.workers;
      }
    }
  }

  lemma RunningIsUnbroken(c: Config, s: State, w: nat)
    requires Inv(c, s) && w < |s.workers| && s.workers[w].Running?
    ensures !s.workers[w].job.isBreak
  {
    assert s.workers[w] in s.workers;
  }

  lemma MainKeepsCodes(c: Config, s: State)
    requires Inv(c, s) && Enabled(c, s, MainStep) && CodesMatch(c, s)
    ensures CodesMatch(c, MainNext(c, s))
  {
    var s' := MainNext(c, s);
    forall job | job in s'.inQ
      ensures Fresh(s', job)
    {
      if job in s.inQ {
        assert Fresh(s, job);
      } else {
        assert job == POISON || (s.main.Dispatching? && job.id == s.main.next == Dispatched(c, s));
      }
    }
    forall job | job in s'.collected || job in s'.outQ
      ensures Truthful(s', job)
    {
      assert Truthful(s, job) by {
        assert job in s.collected || job in s.outQ;
      }
    }
    forall w | w in s'.workers
      ensures WorkerMatches(s', w)
    {
      assert w in s.workers && WorkerMatches(s, w);
    }
  }

  /** On every run each test is launched at most once, and a collected job tells
      truly whether it was and what was returned. */
  lemma {:induction false} CodesAreTrue(c: Config, run: seq<Step>, s: State)
    requires Reaches(c, run, s)
    ensures CodesMatch(c, s)
    decreases |run|
  {
    if run != [] {
      var last := run[|run| - 1];
      var before := After(c, run[..|run| - 1]).state;
      CodesAreTrue(c, run[..|run| - 1], before);
      ReachableInv(c, run[..|run| - 1], before);
      match last {
        case Interrupt =>
        case MainStep => MainKeepsCodes(c, before);
        case WorkerStep(w, code) =>
          WorkerKeepsQueues(c, before, w, code);
          WorkerKeepsWorkers(c, before, w, code);
      }
    }
  }

  /** When the driver is done every test job has come back exactly once, every worker
      has taken its own poison job and left, nothing is queued, and the result is 0
      exactly when every job passed or was skipped without being interrupted. */
  lemma FinishedRun(c: Config, run: seq<Step>, s: State)
    requires Reaches(c, run, s) && s.main.Done?
    ensures |s.collected| == c.Jobs()
    ensures forall k: nat | k < c.Jobs() :: CountIds(s.collected, k) == 1
    ensures forall job | job in s.collected :: job.id < c.Jobs() && job.isSkip == c.skips[job.id]
    ensures s.inQ == [] && s.outQ == []
    ensures |s.workers| == c.processors && forall w | w in s.workers :: w.Exited?
    ensures forall job | job in s.collected :: Truthful(s, job)
    ensures s.main.result == 0 <==> forall job | job in s.collected :: Good(job)
    ensures TallyTells(s.tally, s.collected)
  {
    ReachableInv(c, run, s);
    TallyIsTold(s.collected);
    CodesAreTrue(c, run, s);
    EachCollectedOnce(c, s);
    AllExited(s.workers);
    OnlyPoison(s.inQ);
    assert forall job | job in s.collected :: job in s.outQ + s.collected;
    TallyCountsGood(s.collected);
  }

  predicate NoBreaks(s: State) {
    && !s.interrupted
    && (forall job | job in s.outQ :: !job.isBreak)
    && (forall job | job in s.collected :: !job.isBreak)
    && (forall w | w in s.workers && (w.Checking? || w.Running? || w.Putting?) :: !w.job.isBreak)
  }

  lemma WorkerKeepsNoBreaks(c: Config, s: State, w: nat, code: int)
    requires Enabled(c, s, WorkerStep(w, code)) && NoBreaks(s)
    ensures NoBreaks(WorkerNext(s, w, code))
  {
    assert s.workers[w] in s.workers;
    var s' := WorkerNext(s, w, code);
    forall v | v in s'.workers && (v.Checking? || v.Running? || v.Putting?)
      ensures !v.job.isBreak
    {
      var i :| 0 <= i < |s'.workers| && s'.workers[i] == v;
      assert i != w ==> v in s.workers;
    }
  }

  /** Only an interrupt turns a test job into a break. */
  lemma {:induction false} BreaksNeedInterrupt(c: Config, run: seq<Step>, s: State)
    requires Reaches(c, run, s) && Interrupt !in run
    ensures NoBreaks(s)
    decreases |run|
  {
    if run != [] {
      var last := run[|run| - 1];
      var before := After(c, run[..|run| - 1]).state;
      assert last in run;
      BreaksNeedInterrupt(c, run[..|run| - 1], before);
      if last.WorkerStep? {
        WorkerKeepsNoBreaks(c, before, last.w, last.code);
      }
    }
  }
}
