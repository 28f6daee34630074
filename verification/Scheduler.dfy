/** The bounded session queue: asynchronous workers draining one shared queue, with injected failures. */
module Scheduler {
  import opened Prelude

  /** A loaded session, named by its place in the manifest. */
  type Job = nat

  datatype Stat = Stat(job: Job, prepError: bool)

  datatype Worker =
    | Idle
    | Preparing(job: Job)
    | Replaying(job: Job)
    | Finalizing(job: Job, stat: bool)   // stat: the replay returned its statistics
    | Done
    | Crashed                            // finalizing raised: the worker itself ends with that error

  /** started and lost are history: sessions taken, and sessions that ended without statistics. */
  datatype State = State(
    queue: seq<Job>,
    workers: seq<Worker>,
    stats: seq<Stat>,
    prepared: seq<Job>,
    firstError: Option<Job>,
    started: seq<Job>,
    lost: seq<Job>)

  /** The stretches of a worker's code between two suspension points. */
  datatype Event =
    | Take | Leave
    | PrepOk | PrepFails | RecordFails
    | ReplayOk | ReplayFails
    | FinalizeOk | FinalizeFails

  datatype Move = Move(worker: nat, event: Event)

  function Initial(jobs: seq<Job>, concurrency: nat): State {
    State(jobs, seq(Min(concurrency, |jobs|), _ => Idle), [], [], None, [], [])
  }

  predicate Enabled(s: State, m: Move) {
    m.worker < |s.workers| &&
    var w := s.workers[m.worker];
    match m.event
    case Take => w.Idle? && s.firstError.None? && s.queue != []
    case Leave => w.Idle? && (s.firstError.Some? || s.queue == [])
    case PrepOk => w.Preparing?
    case PrepFails => w.Preparing?
    case RecordFails => w.Preparing?
    case ReplayOk => w.Replaying?
    case ReplayFails => w.Replaying?
    case FinalizeOk => w.Finalizing?
    case FinalizeFails => w.Finalizing?
  }

  /** Preparing, recording its failure, replaying and finalising can each go well or fail. */
  lemma AnyWorkCanFail(s: State, i: nat)
    requires i < |s.workers|
    ensures s.workers[i].Preparing? ==>
      forall e :: e in {PrepOk, PrepFails, RecordFails} ==> Enabled(s, Move(i, e))
    ensures s.workers[i].Replaying? ==> forall e :: e in {ReplayOk, ReplayFails} ==> Enabled(s, Move(i, e))
    ensures s.workers[i].Finalizing? ==> forall e :: e in {FinalizeOk, FinalizeFails} ==> Enabled(s, Move(i, e))
  {
  }

  function Become(s: State, i: nat, w: Worker): State
    requires i < |s.workers|
  {
    s.(workers := s.workers[i := w])
  }

  function NoteError(s: State, job: Job): State {
    s.(firstError := if s.firstError.None? then Some(job) else s.firstError)
  }

  function Next(s: State, m: Move): State
    requires Enabled(s, m)
  {
    var i := m.worker;
    match m.event
    case Take =>
      Become(s, i, Preparing(s.queue[0])).(queue := s.queue[1..], started := s.started + [s.queue[0]])
    case Leave => Become(s, i, Done)
    case PrepOk => Become(s, i, Replaying(s.workers[i].job))
    case PrepFails =>
      var job := s.workers[i].job;
      Become(s, i, Idle).(prepared := s.prepared + [job], stats := s.stats + [Stat(job, true)])
    case RecordFails =>
      var job := s.workers[i].job;
      NoteError(Become(s, i, Idle), job).(lost := s.lost + [job])
    case ReplayOk => Become(s, i, Finalizing(s.workers[i].job, true))
    case ReplayFails =>
      var job := s.workers[i].job;
      NoteError(Become(s, i, Finalizing(job, false)), job).(lost := s.lost + [job])
    case FinalizeOk =>
      var job := s.workers[i].job;
      Become(s, i, Idle).(
        prepared := s.prepared + [job],
        stats := s.stats + (if s.workers[i].stat then [Stat(job, false)] else []))
    case FinalizeFails =>
      var job := s.workers[i].job;
      Become(s, i, Crashed).(lost := s.lost + (if s.workers[i].stat then [job] else []))
  }

  predicate Over(w: Worker) {
    w.Done? || w.Crashed?
  }

  predicate Terminal(s: State) {
    forall i :: 0 <= i < |s.workers| ==> Over(s.workers[i])
  }

  /** What the call returns once every worker is over: the results, or an error. */
  predicate Raises(s: State) {
    s.firstError.Some? || Crashed in s.workers
  }

  // -------------------------------------------------------------- conservation

  function JobsOf(stats: seq<Stat>): seq<Job> {
    seq(|stats|, i requires 0 <= i < |stats| => stats[i].job)
  }

  /** Whether a worker holds job j with its statistics still open. */
  function Holds(w: Worker, j: Job): nat {
    if (w.Preparing? || w.Replaying? || (w.Finalizing? && w.stat)) && w.job == j then 1 else 0
  }

  function InHand(workers: seq<Worker>, j: Job): nat {
    if workers == [] then 0 else Holds(workers[0], j) + InHand(workers[1..], j)
  }

  function Count(jobs: seq<Job>, j: Job): nat {
    multiset(jobs)[j]
  }

  /** How often job j occurs in the queue, in hand, among the statistics and among the losses. */
  function Tally(s: State, j: Job): nat {
    Count(s.queue, j) + InHand(s.workers, j) + Count(JobsOf(s.stats), j) + Count(s.lost, j)
  }

  lemma {:induction false} InHandUpdate(workers: seq<Worker>, i: nat, w: Worker, j: Job)
    requires i < |workers|
    ensures InHand(workers[i := w], j) + Holds(workers[i], j) == InHand(workers, j) + Holds(w, j)
  {
    if i == 0 {
      assert workers[i := w][1..] == workers[1..];
    } else {
      assert workers[i := w][1..] == workers[1..][i - 1 := w];
      InHandUpdate(workers[1..], i - 1, w, j);
    }
  }

  lemma {:induction false} NothingInHand(workers: seq<Worker>, j: Job)
    requires forall i :: 0 <= i < |workers| ==> Holds(workers[i], j) == 0
    ensures InHand(workers, j) == 0
  {
    if workers == [] {
    } else {
      NothingInHand(workers[1..], j);
    }
  }

  lemma StatsAfter(s: State, m: Move, j: Job)
    requires Enabled(s, m) && !m.event.Take?
    ensures var settles := m.event.PrepFails? || (m.event.FinalizeOk? && s.workers[m.worker].stat);
            Count(JobsOf(Next(s, m).stats), j) ==
            Count(JobsOf(s.stats), j) + (if settles then Holds(s.workers[m.worker], j) else 0)
  {
    var stats := Next(s, m).stats;
    assert s.stats + [] == s.stats;
    if |stats| > |s.stats| {
      assert JobsOf(stats) == JobsOf(s.stats) + [s.workers[m.worker].job];
    }
  }

  /** No step makes, drops or doubles a session. */
  lemma StepConserves(s: State, m: Move, j: Job)
    requires Enabled(s, m)
    ensures Tally(Next(s, m), j) == Tally(s, j)
  {
    var s' := Next(s, m);
    InHandUpdate(s.workers, m.worker, s'.workers[m.worker], j);
    if m.event.Take? {
      assert s.queue == [s.queue[0]] + s'.queue;
    } else {
      StatsAfter(s, m, j);
    }
  }

  // ---------------------------------------------------------------- invariants

  /** Why workers leave, what an error means, and that results and sessions are recorded together. */
  ghost predicate Inv(s: State, jobs: seq<Job>) {
    && s.started + s.queue == jobs
    && (Done in s.workers && s.firstError.None? ==> s.queue == [])
    && (s.lost != [] <==> Raises(s))
    && (forall w :: w in s.workers && w.Finalizing? && !w.stat ==> s.lost != [])
    && (s.lost == [] ==> s.prepared == JobsOf(s.stats))
  }

  lemma InitialOk(jobs: seq<Job>, concurrency: nat)
    ensures Inv(Initial(jobs, concurrency), jobs)
    ensures forall j :: Tally(Initial(jobs, concurrency), j) == Count(jobs, j)
  {
    var s := Initial(jobs, concurrency);
    forall j
      ensures Tally(s, j) == Count(jobs, j)
    {
      NothingInHand(s.workers, j);
      assert JobsOf(s.stats) == [];
    }
  }

  lemma OnlyOneMoves(workers: seq<Worker>, i: nat, w: Worker)
    requires i < |workers|
    ensures w in workers[i := w] && workers[i] in workers
    ensures forall v :: v in workers[i := w] ==> v == w || v in workers
    ensures forall v :: v in workers && v != workers[i] ==> v in workers[i := w]
  {
    assert workers[i := w][i] == w;
    forall v | v in workers && v != workers[i]
      ensures v in workers[i := w]
    {
      var k :| 0 <= k < |workers| && workers[k] == v;
      assert workers[i := w][k] == v;
    }
  }

  lemma StepKeepsInv(s: State, m: Move, jobs: seq<Job>)
    requires Enabled(s, m) && Inv(s, jobs)
    ensures Inv(Next(s, m), jobs)
  {
    OnlyOneMoves(s.workers, m.worker, Next(s, m).workers[m.worker]);
    assert s.queue != [] ==> s.queue == [s.queue[0]] + s.queue[1..];
  }

  // ---------------------------------------------------------------------- runs

  ghost predicate IsRun(states: seq<State>, moves: seq<Move>, jobs: seq<Job>, concurrency: nat) {
    && |states| == |moves| + 1
    && states[0] == Initial(jobs, concurrency)
    && forall k :: 0 <= k < |moves| ==> Enabled(states[k], moves[k]) && states[k + 1] == Next(states[k], moves[k])
  }

  lemma {:induction false} RunKeepsInv(
      states: seq<State>, moves: seq<Move>, jobs: seq<Job>, concurrency: nat, k: nat)
    requires IsRun(states, moves, jobs, concurrency) && k < |states|
    ensures Inv(states[k], jobs) && |states[k].workers| == Min(concurrency, |jobs|)
    ensures forall j :: Tally(states[k], j) == Count(jobs, j)
  {
    if k == 0 {
      InitialOk(jobs, concurrency);
    } else {
      RunKeepsInv(states, moves, jobs, concurrency, k - 1);
      assert states[k - 1 + 1] == Next(states[k - 1], moves[k - 1]);
      StepKeepsInv(states[k - 1], moves[k - 1], jobs);
      forall j
        ensures Tally(states[k], j) == Count(jobs, j)
      {
        StepConserves(states[k - 1], moves[k - 1], j);
      }
    }
  }

  /** A run can go on exactly while some worker is not over. */
  lemma RunsToTheEnd(s: State)
    ensures Terminal(s) <==> !exists m :: Enabled(s, m)
  {
    if !Terminal(s) {
      var i :| 0 <= i < |s.workers| && !Over(s.workers[i]);
      var event :=
        match s.workers[i]
        case Idle => if s.firstError.None? && s.queue != [] then Take else Leave
        case Preparing(_) => PrepOk
        case Replaying(_) => ReplayOk
        case _ => FinalizeOk;
      assert Enabled(s, Move(i, event));
    }
  }

  /**
   * The call returns normally exactly when no session was lost, and then, in every interleaving, each
   * session of the manifest has exactly one statistic, recorded in step with its prepared session.
   */
  lemma EachSessionOnce(states: seq<State>, moves: seq<Move>, jobs: seq<Job>, concurrency: nat)
    requires concurrency > 0 && IsRun(states, moves, jobs, concurrency) && Terminal(states[|moves|])
    ensures var s := states[|moves|];
      && (Raises(s) <==> s.lost != [])
      && (!Raises(s) ==> multiset(JobsOf(s.stats)) == multiset(jobs) && s.prepared == JobsOf(s.stats) && s.started == jobs)
      && (forall j :: Count(s.queue, j) + Count(JobsOf(s.stats), j) + Count(s.lost, j) == Count(jobs, j))
  {
    var s := states[|moves|];
    RunKeepsInv(states, moves, jobs, concurrency, |moves|);
    forall j
      ensures Count(s.queue, j) + Count(JobsOf(s.stats), j) + Count(s.lost, j) == Count(jobs, j)
    {
      NothingInHand(s.workers, j);
      assert Tally(s, j) == Count(jobs, j);
    }
    if !Raises(s) {
      if jobs != [] {
        assert Over(s.workers[0]) && s.workers[0] in s.workers;
      }
      assert s.queue == [];
      forall j
        ensures multiset(JobsOf(s.stats))[j] == multiset(jobs)[j]
      {
        assert Count(s.queue, j) + Count(JobsOf(s.stats), j) + Count(s.lost, j) == Count(jobs, j);
      }
      assert s.started + s.queue == jobs;
    }
  }

  /** After the first replay error no further session is started, and that error is the one kept. */
  lemma {:induction false} NothingStartsAfterAnError(
      states: seq<State>, moves: seq<Move>, jobs: seq<Job>, concurrency: nat, k: nat, n: nat)
    requires IsRun(states, moves, jobs, concurrency) && k <= n < |states| && states[k].firstError.Some?
    ensures states[n].started == states[k].started && states[n].firstError == states[k].firstError
    decreases n
  {
    if k == n {
    } else {
      NothingStartsAfterAnError(states, moves, jobs, concurrency, k, n - 1);
      assert states[n - 1 + 1] == Next(states[n - 1], moves[n - 1]);
    }
  }

  // --------------------------------------------------------- what is recorded, and why

  /** Move k of a run prepares in vain, with the failure recorded as a statistic. */
  ghost predicate PrepFailed(states: seq<State>, moves: seq<Move>, k: nat, j: Job)
    requires k < |moves| && k < |states|
  {
    && moves[k].event.PrepFails? && moves[k].worker < |states[k].workers|
    && states[k].workers[moves[k].worker] == Preparing(j)
  }

  /** Move k of a run finishes a session whose replay returned its statistics. */
  ghost predicate Finished(states: seq<State>, moves: seq<Move>, k: nat, j: Job)
    requires k < |moves| && k < |states|
  {
    && moves[k].event.FinalizeOk? && moves[k].worker < |states[k].workers|
    && states[k].workers[moves[k].worker] == Finalizing(j, true)
  }

  /** Move k of a run raises for session j: its failure cannot be recorded, or its replay fails. */
  ghost predicate Raised(states: seq<State>, moves: seq<Move>, k: nat, j: Job)
    requires k < |moves| && k < |states|
  {
    && moves[k].worker < |states[k].workers|
    && ((moves[k].event.RecordFails? && states[k].workers[moves[k].worker] == Preparing(j))
        || (moves[k].event.ReplayFails? && states[k].workers[moves[k].worker] == Replaying(j)))
  }

  ghost predicate RaisedFirst(states: seq<State>, moves: seq<Move>, k: nat, j: Job)
    requires k < |moves| && k < |states|
  {
    Raised(states, moves, k, j) && forall h: nat, i :: h < k ==> !Raised(states, moves, h, i)
  }

  /** A statistic says that preparing failed exactly when it did, and otherwise that the session was finished. */
  lemma {:induction false} StatsTell(
      states: seq<State>, moves: seq<Move>, jobs: seq<Job>, concurrency: nat, k: nat, j: Job)
    requires IsRun(states, moves, jobs, concurrency) && k < |states|
    ensures Stat(j, true) in states[k].stats <==> exists i: nat :: i < k && PrepFailed(states, moves, i, j)
    ensures Stat(j, false) in states[k].stats <==> exists i: nat :: i < k && Finished(states, moves, i, j)
  {
    if k == 0 {
    } else {
      StatsTell(states, moves, jobs, concurrency, k - 1, j);
      assert states[k - 1 + 1] == Next(states[k - 1], moves[k - 1]);
      var added := Next(states[k - 1], moves[k - 1]).stats;
      assert Stat(j, true) in added <==> Stat(j, true) in states[k - 1].stats || PrepFailed(states, moves, k - 1, j);
      assert Stat(j, false) in added <==> Stat(j, false) in states[k - 1].stats || Finished(states, moves, k - 1, j);
    }
  }

  /** The error that is kept is that of the first session that raised. */
  lemma {:induction false} FirstErrorIsFirst(
      states: seq<State>, moves: seq<Move>, jobs: seq<Job>, concurrency: nat, k: nat)
    requires IsRun(states, moves, jobs, concurrency) && k < |states|
    ensures states[k].firstError.None? <==> forall i: nat, j :: i < k ==> !Raised(states, moves, i, j)
    ensures states[k].firstError.Some? ==>
      exists i: nat :: i < k && RaisedFirst(states, moves, i, states[k].firstError.value)
  {
    if k == 0 {
    } else {
      FirstErrorIsFirst(states, moves, jobs, concurrency, k - 1);
      assert states[k - 1 + 1] == Next(states[k - 1], moves[k - 1]);
      var m := moves[k - 1];
      if m.event.RecordFails? || m.event.ReplayFails? {
        var j := states[k - 1].workers[m.worker].job;
        assert Raised(states, moves, k - 1, j);
        if states[k - 1].firstError.None? {
          assert RaisedFirst(states, moves, k - 1, j);
        }
      }
    }
  }

  // ------------------------------------------------------------ runs in which nothing fails

  predicate Fails(e: Event) {
    e.PrepFails? || e.RecordFails? || e.ReplayFails? || e.FinalizeFails?
  }

  ghost predicate NothingFails(moves: seq<Move>) {
    forall k :: 0 <= k < |moves| ==> !Fails(moves[k].event)
  }

  ghost predicate Smooth(s: State) {
    && s.lost == []
    && (forall stat :: stat in s.stats ==> !stat.prepError)
    && forall w :: w in s.workers ==> !w.Crashed? && (w.Finalizing? ==> w.stat)
  }

  lemma {:induction false} StaysSmooth(states: seq<State>, moves: seq<Move>, jobs: seq<Job>, concurrency: nat, k: nat)
    requires IsRun(states, moves, jobs, concurrency) && NothingFails(moves) && k < |states|
    ensures Smooth(states[k])
  {
    if k == 0 {
    } else {
      StaysSmooth(states, moves, jobs, concurrency, k - 1);
      var s, m := states[k - 1], moves[k - 1];
      assert states[k - 1 + 1] == Next(s, m) && !Fails(m.event);
      assert s.workers[m.worker] in s.workers;
    }
  }

  /** A move that fails nothing is possible while some worker is not over. */
  lemma SmoothGoesOn(s: State) returns (m: Move)
    requires !Terminal(s)
    ensures Enabled(s, m) && !Fails(m.event)
  {
    var i :| 0 <= i < |s.workers| && !Over(s.workers[i]);
    m := Move(i,
      match s.workers[i]
      case Idle => if s.firstError.None? && s.queue != [] then Take else Leave
      case Preparing(_) => PrepOk
      case Replaying(_) => ReplayOk
      case _ => FinalizeOk);
  }

  /**
   * A queue in which nothing fails is served: at the end of every such run the call returns, with one
   * statistic for each session and none of a failed preparation.
   */
  lemma NothingFailsIsServed(states: seq<State>, moves: seq<Move>, jobs: seq<Job>, concurrency: nat)
    requires concurrency > 0 && IsRun(states, moves, jobs, concurrency) && NothingFails(moves)
    requires forall m :: Enabled(states[|moves|], m) ==> Fails(m.event)
    ensures var s := states[|moves|];
      && !Raises(s) && multiset(JobsOf(s.stats)) == multiset(jobs) && s.prepared == JobsOf(s.stats)
      && forall i :: 0 <= i < |s.stats| ==> !s.stats[i].prepError
  {
    var s := states[|moves|];
    StaysSmooth(states, moves, jobs, concurrency, |moves|);
    if !Terminal(s) {
      var m := SmoothGoesOn(s);
      assert false;
    }
    EachSessionOnce(states, moves, jobs, concurrency);
  }

  /** Such a run there is for every queue. */
  lemma SmoothRunExists(jobs: seq<Job>, concurrency: nat) returns (states: seq<State>, moves: seq<Move>)
    ensures IsRun(states, moves, jobs, concurrency) && NothingFails(moves)
    ensures forall m :: Enabled(states[|moves|], m) ==> Fails(m.event)
  {
    states, moves := SmoothRunFinishes([Initial(jobs, concurrency)], [], jobs, concurrency);
  }

  lemma {:induction false} SmoothRunFinishes(states: seq<State>, moves: seq<Move>, jobs: seq<Job>, concurrency: nat)
    returns (states': seq<State>, moves': seq<Move>)
    requires IsRun(states, moves, jobs, concurrency) && NothingFails(moves)
    ensures IsRun(states', moves', jobs, concurrency) && NothingFails(moves')
    ensures forall m :: Enabled(states'[|moves'|], m) ==> Fails(m.event)
    decreases 4 * |states[|moves|].queue| + Total(Left(states[|moves|].workers))
  {
    var s := states[|moves|];
    if Terminal(s) {
      states', moves' := states, moves;
    } else {
      var m := SmoothGoesOn(s);
      StepLowersTotal(s, m);
      OneMoreMove(states, moves, jobs, concurrency, m);
      states', moves' := SmoothRunFinishes(states + [Next(s, m)], moves + [m], jobs, concurrency);
    }
  }

  lemma OneMoreMove(states: seq<State>, moves: seq<Move>, jobs: seq<Job>, concurrency: nat, m: Move)
    requires IsRun(states, moves, jobs, concurrency) && Enabled(states[|moves|], m)
    ensures IsRun(states + [Next(states[|moves|], m)], moves + [m], jobs, concurrency)
  {
    var longer, ms := states + [Next(states[|moves|], m)], moves + [m];
    forall k | 0 <= k < |ms|
      ensures Enabled(longer[k], ms[k]) && longer[k + 1] == Next(longer[k], ms[k])
    {
      if k < |moves| {
        assert states[k + 1] == Next(states[k], moves[k]);
      }
    }
  }

  // --------------------------------------------------------------- termination

  function StepsLeft(w: Worker): nat {
    match w
    case Idle => 1
    case Preparing(_) => 4
    case Replaying(_) => 3
    case Finalizing(_, _) => 2
    case _ => 0
  }

  /** The steps left to each worker. */
  function Left(workers: seq<Worker>): seq<nat> {
    seq(|workers|, i requires 0 <= i < |workers| => StepsLeft(workers[i]))
  }

  lemma StepLowersTotal(s: State, m: Move)
    requires Enabled(s, m)
    ensures 4 * |Next(s, m).queue| + Total(Left(Next(s, m).workers)) < 4 * |s.queue| + Total(Left(s.workers))
  {
    var left := StepsLeft(Next(s, m).workers[m.worker]);
    assert Left(Next(s, m).workers) == Left(s.workers)[m.worker := left];
    TotalAfterUpdate(Left(s.workers), m.worker, left);
  }

  /** A run takes at most four steps a session and one more for each worker. */
  lemma {:induction false} RunsAreBounded(
      states: seq<State>, moves: seq<Move>, jobs: seq<Job>, concurrency: nat, k: nat)
    requires IsRun(states, moves, jobs, concurrency) && k < |states|
    ensures k + 4 * |states[k].queue| + Total(Left(states[k].workers)) <= 4 * |jobs| + Min(concurrency, |jobs|)
  {
    if k == 0 {
      TotalOfEqual(Left(states[0].workers), 1);
    } else {
      RunsAreBounded(states, moves, jobs, concurrency, k - 1);
      assert states[k - 1 + 1] == Next(states[k - 1], moves[k - 1]);
      StepLowersTotal(states[k - 1], moves[k - 1]);
    }
  }
}
