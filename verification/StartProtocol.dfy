/** The global replay start of one wave: a barrier, an event and a shared start time, with abort. */
module StartProtocol {
  import opened Prelude

  /** Where a worker of the wave stands. */
  datatype PC =
    | Loading                 // reading its inputs, not yet inside the guarded part
    | Lost                    // loading raised; nobody is told
    | Preparing
    | AtBarrier
    | Coordinating            // worker 0, past the barrier
    | Signalling              // worker 0, start time written
    | Awaiting                // other workers, past the barrier
    | ReadingTime
    | Started(zero: real)
    | Aborting                // raised before the start; barrier not yet aborted
    | Releasing               // barrier aborted, event not yet set
    | Failed

  datatype Barrier = Filling | Draining | Broken

  /** arrived is the set of workers that have entered the barrier. */
  datatype System = System(pcs: seq<PC>, barrier: Barrier, event: bool, wall: real, arrived: set<nat>)

  function UpTo(n: nat): (all: set<nat>)
    ensures forall i: nat :: i in all <==> i < n
  {
    if n == 0 then {} else UpTo(n - 1) + {n - 1}
  }

  function Everyone(s: System): set<nat> {
    UpTo(|s.pcs|)
  }

  function PastBarrier(i: nat): PC {
    if i == 0 then Coordinating else Awaiting
  }

  function Move(s: System, i: nat, pc: PC): System
    requires i < |s.pcs|
  {
    s.(pcs := s.pcs[i := pc])
  }

  /** Worker i enters the barrier; the last one to come releases it and passes at once. */
  function Arrive(s: System, i: nat): System
    requires i < |s.pcs|
  {
    var arrived := s.arrived + {i};
    if s.barrier.Broken? then Move(s, i, Aborting)
    else if arrived == Everyone(s) then
      Move(s, i, PastBarrier(i)).(arrived := arrived, barrier := Draining)
    else Move(s, i, AtBarrier).(arrived := arrived)
  }

  /** One atomic step of worker i; a step inside the guarded part may raise instead. */
  ghost predicate Step(s: System, i: nat, s': System) {
    i < |s.pcs| &&
    match s.pcs[i]
    case Loading => s' == Move(s, i, Preparing) || s' == Move(s, i, Lost)
    case Preparing => s' == Arrive(s, i) || s' == Move(s, i, Aborting)
    case AtBarrier =>
      match s.barrier {
        case Filling => false
        case Draining => s' == Move(s, i, PastBarrier(i))
        case Broken => s' == Move(s, i, Aborting)
      }
    case Coordinating =>
      (s'.wall > 0.0 && s' == Move(s, i, Signalling).(wall := s'.wall)) || s' == Move(s, i, Aborting)
    case Signalling => s' == Move(s, i, ReadingTime).(event := true) || s' == Move(s, i, Aborting)
    case Awaiting => s.event && s' == Move(s, i, ReadingTime)
    case ReadingTime =>
      if s.wall > 0.0 then s' == Move(s, i, Started(s.wall)) || s' == Move(s, i, Aborting)
      else s' == Move(s, i, Aborting)
    case Aborting => s' == Move(s, i, Releasing).(barrier := Broken)
    case Releasing => s' == Move(s, i, Failed).(event := true)
    case _ => false
  }

  predicate Enabled(s: System, i: nat)
    requires i < |s.pcs|
  {
    match s.pcs[i]
    case AtBarrier => !s.barrier.Filling?
    case Awaiting => s.event
    case Lost => false
    case Started(_) => false
    case Failed => false
    case _ => true
  }

  lemma EnabledCanStep(s: System, i: nat)
    requires i < |s.pcs|
    ensures Enabled(s, i) <==> exists s' :: Step(s, i, s')
  {
    if Enabled(s, i) {
      match s.pcs[i]
      case Loading => assert Step(s, i, Move(s, i, Preparing));
      case Preparing => assert Step(s, i, Arrive(s, i));
      case AtBarrier =>
        assert Step(s, i, Move(s, i, if s.barrier.Broken? then Aborting else PastBarrier(i)));
      case Coordinating => assert Step(s, i, Move(s, i, Aborting));
      case Signalling => assert Step(s, i, Move(s, i, Aborting));
      case Awaiting => assert Step(s, i, Move(s, i, ReadingTime));
      case ReadingTime => assert Step(s, i, Move(s, i, Aborting));
      case Aborting => assert Step(s, i, Move(s, i, Releasing).(barrier := Broken));
      case Releasing => assert Step(s, i, Move(s, i, Failed).(event := true));
    }
  }

  /** A worker that is not held up can raise in every part of its work: unnoticed while loading, guarded after that. */
  lemma AnyWorkCanRaise(s: System, i: nat)
    requires i < |s.pcs|
    ensures s.pcs[i].Loading? ==> Step(s, i, s.(pcs := s.pcs[i := Lost]))
    ensures s.pcs[i].Preparing? || s.pcs[i].Coordinating? || s.pcs[i].Signalling? || s.pcs[i].ReadingTime? ==>
      Step(s, i, s.(pcs := s.pcs[i := Aborting]))
    ensures s.pcs[i].AtBarrier? && s.barrier.Broken? ==> Step(s, i, s.(pcs := s.pcs[i := Aborting]))
  {
  }

  function Initial(workers: nat): System {
    System(seq(workers, _ => Loading), Filling, false, 0.0, {})
  }

  // ----------------------------------------------------------------- invariant

  predicate Passed(pc: PC) {
    pc.Coordinating? || pc.Signalling? || pc.Awaiting? || pc.ReadingTime? || pc.Started?
  }

  predicate Early(pc: PC) {
    pc.Loading? || pc.Lost? || pc.Preparing?
  }

  /** What holds of worker i, given the shared objects. */
  predicate WorkerOk(s: System, i: nat)
    requires i < |s.pcs|
  {
    var pc := s.pcs[i];
    && (Early(pc) ==> i !in s.arrived)
    && (pc.AtBarrier? ==> i in s.arrived)
    && (Passed(pc) ==> s.arrived == Everyone(s))
    && (pc.Coordinating? ==> i == 0)
    && (i == 0 && (Early(pc) || pc.AtBarrier? || pc.Coordinating?) ==> s.wall == 0.0)
    && (pc.Signalling? ==> i == 0 && s.wall > 0.0)
    && (pc.Awaiting? ==> i != 0)
    && (pc.ReadingTime? ==> s.event)
    && (pc.Started? ==> s.event && pc.zero == s.wall && s.wall > 0.0)
    && (pc.Releasing? ==> s.barrier.Broken?)
    && (pc.Failed? ==> s.barrier.Broken? && s.event)
  }

  /** Some worker has aborted the barrier. */
  ghost predicate SomeoneAborted(s: System) {
    exists j: nat :: j < |s.pcs| && (s.pcs[j].Releasing? || s.pcs[j].Failed?)
  }

  ghost predicate Inv(s: System) {
    && s.arrived <= Everyone(s)
    && (s.barrier.Filling? ==> s.arrived < Everyone(s) && !s.event)
    && (s.barrier.Draining? ==> s.arrived == Everyone(s))
    && (s.barrier.Broken? ==> SomeoneAborted(s))
    && s.wall >= 0.0
    && (forall i: nat :: i < |s.pcs| ==> WorkerOk(s, i))
  }

  lemma InitialOk(workers: nat)
    requires workers > 0
    ensures Inv(Initial(workers))
  {
    assert 0 in Everyone(Initial(workers));
  }

  /** The other workers stay as they were, and see only changes they can bear. */
  lemma OthersOk(s: System, i: nat, s': System, j: nat)
    requires Inv(s) && Step(s, i, s') && j < |s.pcs| && j != i
    ensures |s'.pcs| == |s.pcs| && s'.pcs[j] == s.pcs[j] && WorkerOk(s', j)
  {
    assert WorkerOk(s, j) && WorkerOk(s, i);
    assert Everyone(s') == Everyone(s);
    assert j in Everyone(s);
  }

  lemma SelfOk(s: System, i: nat, s': System)
    requires Inv(s) && Step(s, i, s')
    ensures |s'.pcs| == |s.pcs| && WorkerOk(s', i)
  {
    assert WorkerOk(s, i);
    assert Everyone(s') == Everyone(s);
  }

  lemma SharedOk(s: System, i: nat, s': System)
    requires Inv(s) && Step(s, i, s')
    ensures s'.arrived <= Everyone(s')
    ensures s'.barrier.Filling? ==> s'.arrived < Everyone(s') && !s'.event
    ensures s'.barrier.Draining? ==> s'.arrived == Everyone(s')
    ensures s'.wall >= 0.0
  {
    assert WorkerOk(s, i);
    assert Everyone(s') == Everyone(s);
    assert i in Everyone(s);
  }

  lemma AbortStays(s: System, i: nat, s': System)
    requires Inv(s) && Step(s, i, s') && s'.barrier.Broken?
    ensures SomeoneAborted(s')
  {
    if s.barrier.Broken? {
      var j: nat :| j < |s.pcs| && (s.pcs[j].Releasing? || s.pcs[j].Failed?);
      assert s'.pcs[j].Releasing? || s'.pcs[j].Failed?;
    } else {
      assert s'.pcs[i].Releasing?;
    }
  }

  lemma StepKeepsInv(s: System, i: nat, s': System)
    requires Inv(s) && Step(s, i, s')
    ensures Inv(s')
  {
    SharedOk(s, i, s');
    SelfOk(s, i, s');
    if s'.barrier.Broken? {
      AbortStays(s, i, s');
    }
    forall j: nat | j < |s'.pcs|
      ensures WorkerOk(s', j)
    {
      if j != i {
        OthersOk(s, i, s', j);
      }
    }
  }

  // ---------------------------------------------------------------------- runs

  /** A run of the wave under any interleaving: who steps, and the states passed. */
  ghost predicate IsRun(states: seq<System>, who: seq<nat>, workers: nat) {
    && |states| == |who| + 1
    && states[0] == Initial(workers)
    && forall k :: 0 <= k < |who| ==> Step(states[k], who[k], states[k + 1])
  }

  lemma {:induction false} RunKeepsInv(states: seq<System>, who: seq<nat>, workers: nat, k: nat)
    requires workers > 0 && IsRun(states, who, workers) && k < |states|
    ensures Inv(states[k]) && |states[k].pcs| == workers
  {
    if k == 0 {
      InitialOk(workers);
    } else {
      RunKeepsInv(states, who, workers, k - 1);
      assert Step(states[k - 1], who[k - 1], states[k - 1 + 1]);
      StepKeepsInv(states[k - 1], who[k - 1], states[k]);
    }
  }

  lemma StepKeepsZero(s: System, i: nat, s': System)
    requires Inv(s) && Step(s, i, s') && s.wall > 0.0
    ensures s'.wall == s.wall
  {
    assert WorkerOk(s, i);
  }

  lemma NextZero(states: seq<System>, who: seq<nat>, workers: nat, k: nat)
    requires workers > 0 && IsRun(states, who, workers) && k < |who| && states[k].wall > 0.0
    ensures states[k + 1].wall == states[k].wall
  {
    RunKeepsInv(states, who, workers, k);
    StepKeepsZero(states[k], who[k], states[k + 1]);
  }

  /** The start time is written at most once. */
  lemma {:induction false} ZeroIsStable(states: seq<System>, who: seq<nat>, workers: nat, k: nat, n: nat)
    requires workers > 0 && IsRun(states, who, workers) && k <= n < |states| && states[k].wall > 0.0
    ensures states[n].wall == states[k].wall
    decreases n
  {
    if k == n {
    } else {
      ZeroIsStable(states, who, workers, k, n - 1);
      NextZero(states, who, workers, n - 1);
    }
  }

  /**
   * In every interleaving no worker starts before all have arrived, and any two that start, at
   * whatever points of the run, start from the same positive time zero.
   */
  lemma StartIsGlobal(states: seq<System>, who: seq<nat>, workers: nat, k: nat, i: nat, n: nat, j: nat)
    requires workers > 0 && IsRun(states, who, workers) && k <= n < |states|
    requires i < |states[k].pcs| && states[k].pcs[i].Started?
    requires j < |states[n].pcs| && states[n].pcs[j].Started?
    ensures forall w: nat :: w < workers ==> w in states[k].arrived
    ensures states[k].pcs[i].zero == states[n].pcs[j].zero > 0.0
  {
    RunKeepsInv(states, who, workers, k);
    RunKeepsInv(states, who, workers, n);
    assert WorkerOk(states[k], i) && WorkerOk(states[n], j);
    ZeroIsStable(states, who, workers, k, n);
  }

  // ------------------------------------------------------------------ progress

  ghost predicate Terminal(s: System) {
    forall i: nat :: i < |s.pcs| ==> !Enabled(s, i)
  }

  predicate Waits(pc: PC) {
    pc.AtBarrier? || pc.Awaiting?
  }

  ghost predicate SomeWaits(s: System) {
    exists i: nat :: i < |s.pcs| && Waits(s.pcs[i])
  }

  ghost predicate SomeLost(s: System) {
    exists i: nat :: i < |s.pcs| && s.pcs[i].Lost?
  }

  ghost predicate SomeFailed(s: System) {
    exists i: nat :: i < |s.pcs| && s.pcs[i].Failed?
  }

  ghost predicate AllLost(s: System) {
    forall i: nat :: i < |s.pcs| ==> s.pcs[i].Lost?
  }

  /** In an end state nobody waits for the event. */
  lemma NobodyAwaitsEvent(s: System, i: nat)
    requires Inv(s) && Terminal(s) && i < |s.pcs|
    ensures !s.pcs[i].Awaiting?
  {
    assert 0 in Everyone(s);
    assert WorkerOk(s, i) && WorkerOk(s, 0);
    assert !Enabled(s, i) && !Enabled(s, 0);
  }

  /**
   * A wave that can move no more has a worker waiting exactly when some worker was lost while
   * loading, none failed inside its guarded part, and there is anyone else at all.
   */
  lemma WhoWaitsAtTheEnd(s: System)
    requires Inv(s) && Terminal(s)
    ensures SomeWaits(s) <==>
            SomeLost(s) && !SomeFailed(s) && !AllLost(s)
  {
    if SomeWaits(s) {
      var i: nat :| i < |s.pcs| && Waits(s.pcs[i]);
      NobodyAwaitsEvent(s, i);
      assert !Enabled(s, i);
      assert s.barrier.Filling?;
      var missing: nat :| missing in Everyone(s) && missing !in s.arrived;
      assert WorkerOk(s, missing) && !Enabled(s, missing);
      assert s.pcs[missing].Lost?;
      forall j: nat | j < |s.pcs|
        ensures !s.pcs[j].Failed?
      {
        assert WorkerOk(s, j);
      }
      assert !s.pcs[i].Lost?;
    }
    if SomeLost(s) && !SomeFailed(s) && !AllLost(s) {
      var lost: nat :| lost < |s.pcs| && s.pcs[lost].Lost?;
      var i: nat :| i < |s.pcs| && !s.pcs[i].Lost?;
      assert WorkerOk(s, lost) && lost in Everyone(s);
      assert WorkerOk(s, i) && !Enabled(s, i);
      assert Waits(s.pcs[i]);
    }
  }

  /** How many steps a worker can still take at most. */
  function StepsLeft(pc: PC): nat {
    match pc
    case Loading => 9
    case Preparing => 8
    case AtBarrier => 7
    case Coordinating => 6
    case Awaiting => 6
    case Signalling => 5
    case ReadingTime => 4
    case Aborting => 2
    case Releasing => 1
    case _ => 0
  }

  /** The steps left to each worker. */
  function Left(pcs: seq<PC>): seq<nat> {
    seq(|pcs|, i requires 0 <= i < |pcs| => StepsLeft(pcs[i]))
  }

  lemma StepLowersTotal(s: System, i: nat, s': System)
    requires Step(s, i, s')
    ensures Total(Left(s'.pcs)) < Total(Left(s.pcs))
  {
    assert s'.pcs == s.pcs[i := s'.pcs[i]];
    var left := StepsLeft(s'.pcs[i]);
    assert Left(s'.pcs) == Left(s.pcs)[i := left];
    TotalAfterUpdate(Left(s.pcs), i, left);
  }

  lemma {:induction false} TotalAlongRun(states: seq<System>, who: seq<nat>, workers: nat, k: nat)
    requires IsRun(states, who, workers) && k < |states|
    ensures Total(Left(states[k].pcs)) + k <= 9 * workers
  {
    if k == 0 {
      TotalOfEqual(Left(states[0].pcs), 9);
    } else {
      TotalAlongRun(states, who, workers, k - 1);
      assert Step(states[k - 1], who[k - 1], states[k - 1 + 1]);
      StepLowersTotal(states[k - 1], who[k - 1], states[k]);
    }
  }

  /**
   * Every run is finite; and once it can go on no more, if no worker was lost while loading, or some
   * worker raised inside its guarded part, every worker has started, failed or been lost.
   */
  lemma NobodyWaitsForever(states: seq<System>, who: seq<nat>, workers: nat)
    requires workers > 0 && IsRun(states, who, workers)
    ensures |who| <= 9 * workers
    ensures |states[|who|].pcs| == workers
    ensures
      Terminal(states[|who|]) && (SomeFailed(states[|who|]) || !SomeLost(states[|who|])) ==>
      forall pc :: pc in states[|who|].pcs ==> pc.Started? || pc.Failed? || pc.Lost?
  {
    var s := states[|who|];
    TotalAlongRun(states, who, workers, |who|);
    RunKeepsInv(states, who, workers, |who|);
    if Terminal(s) && (SomeFailed(s) || !SomeLost(s)) {
      WhoWaitsAtTheEnd(s);
      forall pc | pc in s.pcs
        ensures pc.Started? || pc.Failed? || pc.Lost?
      {
        var i: nat :| i < |s.pcs| && s.pcs[i] == pc;
        assert !Enabled(s, i);
        assert !Waits(s.pcs[i]);
      }
    }
  }

  /**
   * One worker of two is lost while loading: the other goes to the barrier, nothing can move any
   * more, and it waits.
   */
  lemma LostWorkerStrandsAnother()
    ensures exists states: seq<System>, who: seq<nat> ::
      && IsRun(states, who, 2) && Terminal(states[|who|])
      && states[|who|].pcs == [AtBarrier, Lost] && SomeWaits(states[|who|])
  {
    var start := Initial(2);
    var loaded := Move(start, 0, Preparing);
    var arrived := Arrive(loaded, 0);
    var stuck := Move(arrived, 1, Lost);
    assert 1 in Everyone(loaded) && arrived == Move(loaded, 0, AtBarrier).(arrived := {0});
    assert Step(start, 0, loaded) && Step(loaded, 0, arrived) && Step(arrived, 1, stuck);
    var states, who := [start, loaded, arrived, stuck], [0, 0, 1];
    assert IsRun(states, who, 2);
    assert stuck.pcs == [AtBarrier, Lost];
    assert Waits(stuck.pcs[0]);
    assert !Enabled(stuck, 0) && !Enabled(stuck, 1);
    assert Terminal(stuck);
  }

  // -------------------------------------------------------------- waves in which nothing raises

  /** No worker has raised so far. */
  ghost predicate Calm(s: System) {
    forall i: nat :: i < |s.pcs| ==> !s.pcs[i].Lost? && !s.pcs[i].Aborting?
  }

  ghost predicate CalmRun(states: seq<System>) {
    forall k :: 0 <= k < |states| ==> Calm(states[k])
  }

  /** Whatever worker i does next, it raises. */
  ghost predicate OnlyRaises(s: System, i: nat) {
    forall s' :: Step(s, i, s') ==> !Calm(s')
  }

  /** The wave can go on only by raising, if at all. */
  ghost predicate Exhausted(s: System) {
    forall i: nat :: i < |s.pcs| ==> OnlyRaises(s, i)
  }

  ghost predicate AllStarted(s: System, zero: real) {
    forall i: nat :: i < |s.pcs| ==> s.pcs[i] == Started(zero)
  }

  /** What holds while nothing raises: the barrier is whole, and the event is set after the start time. */
  ghost predicate Sound(s: System) {
    && Inv(s) && Calm(s) && !s.barrier.Broken? && (s.event ==> s.wall > 0.0)
    && forall i: nat :: i < |s.pcs| ==> !s.pcs[i].Releasing? && !s.pcs[i].Failed?
  }

  lemma StepKeepsSound(s: System, i: nat, s': System)
    requires Sound(s) && Step(s, i, s') && Calm(s')
    ensures Sound(s') && |s'.pcs| == |s.pcs|
  {
    StepKeepsInv(s, i, s');
    assert WorkerOk(s, i);
    assert forall j: nat :: j < |s.pcs| && j != i ==> s'.pcs[j] == s.pcs[j];
  }

  lemma {:induction false} CalmIsSound(states: seq<System>, who: seq<nat>, workers: nat, k: nat)
    requires workers > 0 && IsRun(states, who, workers) && CalmRun(states) && k < |states|
    ensures Sound(states[k]) && |states[k].pcs| == workers
  {
    if k == 0 {
      InitialOk(workers);
    } else {
      CalmIsSound(states, who, workers, k - 1);
      assert Step(states[k - 1], who[k - 1], states[k - 1 + 1]);
      StepKeepsSound(states[k - 1], who[k - 1], states[k]);
    }
  }

  /** A worker that is not held up and has not started can go on without raising. */
  lemma CanGoOn(s: System, i: nat) returns (s': System)
    requires Sound(s) && i < |s.pcs| && Enabled(s, i)
    ensures Step(s, i, s') && Calm(s')
  {
    assert WorkerOk(s, i);
    s' := match s.pcs[i]
      case Loading => Move(s, i, Preparing)
      case Preparing => Arrive(s, i)
      case AtBarrier => Move(s, i, PastBarrier(i))
      case Coordinating => Move(s, i, Signalling).(wall := 1.0)
      case Signalling => Move(s, i, ReadingTime).(event := true)
      case Awaiting => Move(s, i, ReadingTime)
      case ReadingTime => Move(s, i, Started(s.wall))
      case _ => s;
    assert Step(s, i, s');
    assert forall j: nat :: j < |s.pcs| && j != i ==> s'.pcs[j] == s.pcs[j];
  }

  /** While nothing raises, either all have started from one time, or some worker can go on. */
  lemma SoundGoesOn(s: System)
    requires Sound(s) && s.pcs != []
    ensures (AllStarted(s, s.wall) && s.wall > 0.0) || exists i: nat :: i < |s.pcs| && Enabled(s, i)
  {
    if Terminal(s) {
      WhoWaitsAtTheEnd(s);
      forall i: nat | i < |s.pcs|
        ensures s.pcs[i] == Started(s.wall) && s.wall > 0.0
      {
        assert WorkerOk(s, i) && !Enabled(s, i) && !Waits(s.pcs[i]);
      }
      assert s.pcs[0] == Started(s.wall);
    }
  }

  /**
   * A healthy wave starts: a run in which no worker raises, and which could go on only by raising,
   * has every worker started from one positive time.
   */
  lemma HealthyWaveStarts(states: seq<System>, who: seq<nat>, workers: nat) returns (zero: real)
    requires workers > 0 && IsRun(states, who, workers) && CalmRun(states) && Exhausted(states[|who|])
    ensures zero > 0.0 && |states[|who|].pcs| == workers && AllStarted(states[|who|], zero)
  {
    var s := states[|who|];
    CalmIsSound(states, who, workers, |who|);
    SoundGoesOn(s);
    zero := s.wall;
    if i: nat :| i < |s.pcs| && Enabled(s, i) {
      assert OnlyRaises(s, i);
      var s' := CanGoOn(s, i);
      assert false;
    }
  }

  /** Any wave in which nothing has raised so far can be brought to its start. */
  lemma {:induction false} CalmRunFinishes(states: seq<System>, who: seq<nat>, workers: nat)
    returns (states': seq<System>, who': seq<nat>)
    requires workers > 0 && IsRun(states, who, workers) && CalmRun(states)
    ensures IsRun(states', who', workers) && CalmRun(states') && states <= states'
    ensures states'[|who'|].wall > 0.0 && AllStarted(states'[|who'|], states'[|who'|].wall)
    decreases Total(Left(states[|who|].pcs))
  {
    var s := states[|who|];
    CalmIsSound(states, who, workers, |who|);
    SoundGoesOn(s);
    if i: nat :| i < |s.pcs| && Enabled(s, i) {
      var s' := CanGoOn(s, i);
      StepLowersTotal(s, i, s');
      ExtendRun(states, who, workers, i, s');
      states', who' := CalmRunFinishes(states + [s'], who + [i], workers);
    } else {
      states', who' := states, who;
    }
  }

  lemma ExtendRun(states: seq<System>, who: seq<nat>, workers: nat, i: nat, s': System)
    requires IsRun(states, who, workers) && Step(states[|who|], i, s')
    ensures IsRun(states + [s'], who + [i], workers)
  {
    var longer, w := states + [s'], who + [i];
    forall k | 0 <= k < |w|
      ensures Step(longer[k], w[k], longer[k + 1])
    {
      if k < |who| {
        assert Step(states[k], who[k], states[k + 1]);
      }
    }
  }

  /** Such a run there is for every number of workers. */
  lemma HealthyWaveExists(workers: nat) returns (states: seq<System>, who: seq<nat>)
    requires workers > 0
    ensures IsRun(states, who, workers) && CalmRun(states) && Exhausted(states[|who|])
    ensures exists zero :: zero > 0.0 && AllStarted(states[|who|], zero)
  {
    states, who := CalmRunFinishes([Initial(workers)], [], workers);
  }
}
