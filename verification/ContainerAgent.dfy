/** One request to the in-container agent: writes, restarts and replies under pipe and process faults. */
module ContainerAgent {

  const IDEMPOTENT_TOOLS := {"read_file", "list_dir"}
  const MAX_SKIPS := 50

  /** What reading a line can give; json: it starts with a brace, valid: it parses. */
  datatype Read = Line(json: bool, valid: bool) | Eof | Timeout | BrokenPipe | Reset | TooLong

  /** What the agent object does, in order, with the environment's answer. */
  datatype Event =
    | Check(alive: bool)
    | Restart(ok: bool)
    | Write(tool: string, ok: bool)
    | ReadLine(read: Read, skipping: bool)

  datatype Reply = Response | InvalidResponse | TimedOut | Crashed | Dead | NoJson | RestartFailed | Raised

  /** How the environment answers at each moment; moments are counted by the events so far. */
  datatype World = World(alive: nat -> bool, restartOk: nat -> bool, writeOk: nat -> bool, read: nat -> Read)

  /** The events that escape as exceptions: a reset is caught on the first line only. */
  predicate Escapes(e: Event) {
    (e.Restart? && !e.ok) || (e.ReadLine? && (e.read.TooLong? || (e.read.Reset? && e.skipping)))
  }

  /** How often one call may write its request. */
  function Allowed(tool: string): nat {
    if tool in IDEMPOTENT_TOOLS then 2 else 1
  }

  datatype Kind = IsCheck | IsRestart | IsWrite | IsFirstLine | IsNextLine | IsEnd

  function KindOf(e: Event): Kind {
    match e
    case Check(_) => IsCheck
    case Restart(_) => IsRestart
    case Write(_, _) => IsWrite
    case ReadLine(_, skipping) => if skipping then IsNextLine else IsFirstLine
  }

  /**
   * Where a call stands: what it does next, whether it holds a process, the requests and the stray lines
   * so far, whether this attempt has written, whether the process is still to be written to, whether one
   * was written to twice, and whether an exception has escaped.
   */
  datatype State = State(
    due: Kind, running: bool, writes: nat, skips: nat, sent: bool, renewed: bool, twice: bool, escaped: bool)

  /** What the first line leads to. */
  function AfterFirst(r: Read): Kind {
    match r
    case Line(json, _) => if json then IsEnd else IsNextLine
    case TooLong => IsEnd
    case _ => IsRestart
  }

  /** What a further line leads to, the skips-th that is read. */
  function AfterNext(r: Read, skips: nat): Kind {
    if skips < MAX_SKIPS && ((r.Line? && !r.json) || r.Eof?) then IsNextLine else IsEnd
  }

  function Add(tool: string, s: State, e: Event): State {
    match e
    case Check(alive) =>
      s.(sent := false, due := if alive then IsWrite else if s.writes == 0 then IsRestart else IsEnd)
    case Restart(false) => s.(running := false, escaped := true, due := IsEnd)
    case Restart(true) =>
      s.(running := true, renewed := true,
         due := if !s.sent then IsWrite else if s.writes < Allowed(tool) then IsCheck else IsEnd)
    case Write(_, ok) =>
      s.(writes := s.writes + 1, sent := true, renewed := false, twice := s.twice || !s.renewed,
         due := if ok then IsFirstLine else IsRestart)
    case ReadLine(r, false) => s.(escaped := s.escaped || Escapes(e), due := AfterFirst(r))
    case ReadLine(r, true) =>
      s.(skips := s.skips + 1, escaped := s.escaped || Escapes(e), due := AfterNext(r, s.skips + 1))
  }

  /** Where a call stands after a trace; was tells whether it found a process held. */
  function After(tool: string, was: bool, trace: seq<Event>): State
    decreases |trace|, 1
  {
    if trace == [] then State(IsCheck, was, 0, 0, false, true, false, false) else AfterLast(tool, was, trace)
  }

  function AfterLast(tool: string, was: bool, trace: seq<Event>): State
    requires trace != []
    decreases |trace|, 0
  {
    Add(tool, After(tool, was, trace[..|trace| - 1]), trace[|trace| - 1])
  }

  /** The answer in e is the world's at that moment; a process that is not held is not alive. */
  ghost predicate Answers(world: World, at: nat, running: bool, tool: string, e: Event) {
    match e
    case Check(alive) => alive == (running && world.alive(at))
    case Restart(ok) => ok == world.restartOk(at)
    case Write(t, ok) => t == tool && ok == world.writeOk(at)
    case ReadLine(r, _) => r == world.read(at)
  }

  /** e is what the call does next, with the world's answer. */
  ghost predicate Fits(world: World, at: nat, tool: string, s: State, e: Event) {
    KindOf(e) == s.due && Answers(world, at, s.running, tool, e)
  }

  /** Each event of a trace that begins at moment start is the one due, with the world's answer. */
  ghost predicate Answered(world: World, start: nat, was: bool, tool: string, trace: seq<Event>) {
    trace != [] ==>
      var before := trace[..|trace| - 1];
      Answered(world, start, was, tool, before) &&
      Fits(world, start + |before|, tool, After(tool, was, before), trace[|trace| - 1])
  }

  // ------------------------------------------------------------ what a call gives

  /** The last events that lead to each reply, and where the call stands then. */
  ghost predicate Explains(tool: string, s: State, trace: seq<Event>, reply: Reply)
    requires trace != []
  {
    var last := trace[|trace| - 1];
    match reply
    case Raised => Escapes(last)
    case Response => last.ReadLine? && last.read == Line(true, true) && s.skips < MAX_SKIPS
    case InvalidResponse => last.ReadLine? && last.read == Line(true, false) && s.skips < MAX_SKIPS
    case NoJson => last.ReadLine? && (last.read.Line? || last.read.Eof?) && s.skips == MAX_SKIPS
    case Dead => last == Check(false) && s.writes == 1
    case RestartFailed => last == Restart(true) && s.writes == 2
    case Crashed =>
      last == Restart(true) && tool !in IDEMPOTENT_TOOLS && |trace| > 1 && trace[|trace| - 2] == ReadLine(Eof, false)
    case TimedOut =>
      (last == Restart(true) && tool !in IDEMPOTENT_TOOLS && |trace| > 1 && trace[|trace| - 2] != ReadLine(Eof, false)) ||
      (last.ReadLine? && last.skipping && (last.read.Timeout? || last.read.BrokenPipe?))
  }

  /** What one call may do, and when it raises instead of replying. */
  ghost predicate IsCall(tool: string, was: bool, trace: seq<Event>, reply: Reply) {
    trace != [] &&
    var s := After(tool, was, trace);
    && s.due == IsEnd && s.writes <= Allowed(tool) && !s.twice && s.skips <= MAX_SKIPS
    && !After(tool, was, trace[..|trace| - 1]).escaped
    && (reply.Raised? <==> s.escaped)
    && (!reply.Raised? ==> s.writes >= 1)
    && Explains(tool, s, trace, reply)
  }

  /** What the last line that is read, the skips-th after the first, makes of the call. */
  predicate RepliesTo(line: Read, skips: nat, reply: Reply) {
    match line
    case Line(json, valid) =>
      if skips == MAX_SKIPS then reply == NoJson
      else json && reply == if valid then Response else InvalidResponse
    case Eof => skips == MAX_SKIPS && reply == NoJson
    case TooLong => reply == Raised
    case Reset => skips > 0 && reply == Raised
    case _ => skips > 0 && reply == TimedOut
  }

  /** base, was and trace are history: the log and whether a process was held when the call began, and its events. */
  class Agent {
    const world: World
    var running: bool
    var log: seq<Event>
    ghost var base: seq<Event>
    ghost var was: bool
    ghost var trace: seq<Event>

    constructor (world: World)
      ensures this.world == world && !running && log == []
    {
      this.world, running, log := world, false, [];
    }

    /** The log is that of a call in progress that found the process as was tells. */
    ghost predicate Doing(tool: string)
      reads this
    {
      && log == base + trace && running == After(tool, was, trace).running
      && Answered(world, |base|, was, tool, trace)
    }

    /** Where the call in progress stands. */
    ghost function Now(tool: string): State
      reads this
    {
      After(tool, was, trace)
    }

    /** No exception had escaped before the last event. */
    ghost predicate CalmBefore(tool: string)
      reads this
    {
      trace != [] && !After(tool, was, trace[..|trace| - 1]).escaped
    }

    ghost predicate EndsIn(e: Event)
      reads this
    {
      trace != [] && trace[|trace| - 1] == e
    }

    method IsAlive(tool: string) returns (alive: bool)
      requires Doing(tool) && Now(tool).due == IsCheck
      modifies this`log, this`trace
      ensures alive == (running && world.alive(|old(log)|))
      ensures Doing(tool) && trace == old(trace) + [Check(alive)]
      ensures trace[..|trace| - 1] == old(trace) && Now(tool) == Add(tool, old(Now(tool)), Check(alive))
    {
      alive := running && world.alive(|log|);
      Extend(world, |base|, was, tool, trace, Check(alive));
      log, trace := log + [Check(alive)], trace + [Check(alive)];
    }

    /** Stops the process if any and starts a new one. */
    method DoRestart(tool: string) returns (ok: bool)
      requires Doing(tool) && Now(tool).due == IsRestart
      modifies this`running, this`log, this`trace
      ensures ok == world.restartOk(|old(log)|) && running == ok
      ensures Doing(tool) && trace == old(trace) + [Restart(ok)]
      ensures trace[..|trace| - 1] == old(trace) && Now(tool) == Add(tool, old(Now(tool)), Restart(ok))
    {
      running := false;
      ok := world.restartOk(|log|);
      if ok {
        running := true;
      }
      Extend(world, |base|, was, tool, trace, Restart(ok));
      log, trace := log + [Restart(ok)], trace + [Restart(ok)];
    }

    method WriteRequest(tool: string) returns (ok: bool)
      requires running && Doing(tool) && Now(tool).due == IsWrite
      modifies this`log, this`trace
      ensures ok == world.writeOk(|old(log)|)
      ensures Doing(tool) && trace == old(trace) + [Write(tool, ok)]
      ensures trace[..|trace| - 1] == old(trace) && Now(tool) == Add(tool, old(Now(tool)), Write(tool, ok))
    {
      ok := world.writeOk(|log|);
      Extend(world, |base|, was, tool, trace, Write(tool, ok));
      log, trace := log + [Write(tool, ok)], trace + [Write(tool, ok)];
    }

    method NextLine(tool: string, skipping: bool) returns (r: Read)
      requires running && Doing(tool) && Now(tool).due == if skipping then IsNextLine else IsFirstLine
      modifies this`log, this`trace
      ensures r == world.read(|old(log)|)
      ensures Doing(tool) && trace == old(trace) + [ReadLine(r, skipping)]
      ensures trace[..|trace| - 1] == old(trace) && Now(tool) == Add(tool, old(Now(tool)), ReadLine(r, skipping))
    {
      r := world.read(|log|);
      Extend(world, |base|, was, tool, trace, ReadLine(r, skipping));
      log, trace := log + [ReadLine(r, skipping)], trace + [ReadLine(r, skipping)];
    }

    /** Passes over stray lines after the first line of an attempt, and replies from what it finds. */
    method ReplyFrom(tool: string, first: Read) returns (reply: Reply)
      requires running && first.Line? && Doing(tool) && EndsIn(ReadLine(first, false)) && CalmBefore(tool)
      requires var s := Now(tool);
        s.due == AfterFirst(first) && 1 <= s.writes <= Allowed(tool) && s.skips == 0 && !s.twice && !s.escaped
      modifies this`log, this`trace
      ensures Doing(tool) && IsCall(tool, was, trace, reply)
    {
      var line := first;
      for skip := 0 to MAX_SKIPS
        invariant Doing(tool) && EndsIn(ReadLine(line, skip > 0)) && CalmBefore(tool)
        invariant line.Line? || (line.Eof? && skip > 0)
        invariant var s := Now(tool);
          && s.due == (if skip == 0 then AfterFirst(line) else AfterNext(line, skip))
          && 1 <= s.writes <= Allowed(tool) && s.skips == skip && !s.twice && !s.escaped
      {
        if line.Line? && line.json {
          reply := if line.valid then Response else InvalidResponse;
          return;
        }
        line := NextLine(tool, true);
        if !line.Line? && !line.Eof? {
          reply := if line.Timeout? || line.BrokenPipe? then TimedOut else Raised;
          return;
        }
      }
      reply := NoJson;
    }

    /** Restarts a dead agent on the first attempt, and gives up on one that died on the second. */
    method MakeReady(tool: string, attempt: nat) returns (ready: bool, reply: Reply)
      requires Doing(tool) && attempt < Allowed(tool) && IsAttempt(Now(tool), attempt)
      modifies this`running, this`log, this`trace
      ensures Doing(tool)
      ensures ready ==> running && Now(tool) == State(IsWrite, true, attempt, 0, false, true, false, false)
      ensures !ready ==> IsCall(tool, was, trace, reply)
    {
      reply := Raised;
      ready := IsAlive(tool);
      if !ready && attempt > 0 {
        reply := Dead;
      } else if !ready {
        ready := DoRestart(tool);
      }
    }

    /** Writes the request and reads the first line; a failed write reads as a broken pipe. */
    method Send(tool: string, attempt: nat) returns (first: Read)
      requires running && Doing(tool) && Now(tool) == State(IsWrite, true, attempt, 0, false, true, false, false)
      modifies this`log, this`trace
      ensures Doing(tool) && CalmBefore(tool)
      ensures Now(tool) == State(AfterFirst(first), true, attempt + 1, 0, true, false, false, first.TooLong?)
      ensures EndsIn(ReadLine(first, false)) || (first.BrokenPipe? && EndsIn(Write(tool, false)))
    {
      var sent := WriteRequest(tool);
      if sent {
        first := NextLine(tool, false);
      } else {
        first := BrokenPipe;
      }
    }

    /** Restarts after a fault; then only an idempotent tool is tried again. */
    method GiveUpOrRetry(tool: string, first: Read, attempt: nat) returns (again: bool, reply: Reply)
      requires Doing(tool) && attempt < Allowed(tool) && !first.TooLong?
      requires Now(tool) == State(IsRestart, true, attempt + 1, 0, true, false, false, false)
      requires EndsIn(ReadLine(first, false)) || (first.BrokenPipe? && EndsIn(Write(tool, false)))
      modifies this`running, this`log, this`trace
      ensures Doing(tool)
      ensures again ==> EndsIn(Restart(true)) && CalmBefore(tool) && tool in IDEMPOTENT_TOOLS
      ensures again ==>
        (Now(tool) ==
         State(if attempt + 1 < Allowed(tool) then IsCheck else IsEnd, true, attempt + 1, 0, true, true, false, false))
      ensures !again ==> IsCall(tool, was, trace, reply)
    {
      reply := Raised;
      var ok := DoRestart(tool);
      again := ok && tool in IDEMPOTENT_TOOLS;
      if ok && !again {
        reply := if first.Eof? then Crashed else TimedOut;
      }
    }

    /** One turn of the loop; again asks for another. */
    method Attempt(tool: string, attempt: nat) returns (again: bool, reply: Reply)
      requires Doing(tool) && attempt < Allowed(tool) && IsAttempt(Now(tool), attempt)
      modifies this`running, this`log, this`trace
      ensures Doing(tool)
      ensures again ==> EndsIn(Restart(true)) && CalmBefore(tool) && tool in IDEMPOTENT_TOOLS
      ensures again ==>
        (Now(tool) ==
         State(if attempt + 1 < Allowed(tool) then IsCheck else IsEnd, true, attempt + 1, 0, true, true, false, false))
      ensures !again ==> IsCall(tool, was, trace, reply)
    {
      again, reply := MakeReady(tool, attempt);
      if !again {
        return;
      }
      var first := Send(tool, attempt);
      if first.TooLong? {
        again, reply := false, Raised;
      } else if first.Line? {
        again := false;
        reply := ReplyFrom(tool, first);
      } else {
        again, reply := GiveUpOrRetry(tool, first, attempt);
      }
    }

    /**
     * One request. In every environment a tool that is not idempotent is written at most once and any
     * other at most twice, each time to a process of its own; it does what is due with the answers the
     * environment gives, and raises exactly when its last event escapes.
     */
    method Execute(tool: string) returns (reply: Reply)
      modifies this
      ensures base == old(log) && was == old(running)
      ensures Doing(tool) && IsCall(tool, was, trace, reply)
    {
      base, was, trace := log, running, [];
      var attempt := 0;
      while attempt < 2
        invariant base == old(log) && was == old(running)
        invariant attempt <= 2 && Doing(tool)
        invariant attempt < 2 ==> IsAttempt(Now(tool), attempt)
        invariant attempt == 2 ==> Now(tool) == State(IsEnd, true, 2, 0, true, true, false, false)
        invariant attempt > 0 ==> tool in IDEMPOTENT_TOOLS && EndsIn(Restart(true)) && CalmBefore(tool)
        decreases 2 - attempt
      {
        var again;
        again, reply := Attempt(tool, attempt);
        if !again {
          return;
        }
        attempt := attempt + 1;
      }
      reply := RestartFailed;
    }
  }

  /** A call about to begin an attempt. */
  predicate IsAttempt(s: State, attempt: nat) {
    s == State(IsCheck, s.running, attempt, 0, s.sent, true, false, false)
  }

  // ------------------------------------------------------------------ the laws

  /** Two writes of a call have a restart between them: no process ever gets the request twice. */
  lemma {:induction false} NoProcessIsAskedTwice(tool: string, was: bool, trace: seq<Event>, i: nat, j: nat)
    requires !After(tool, was, trace).twice && i < j <= |trace| && trace[i].Write?
    requires if j < |trace| then trace[j].Write? else After(tool, was, trace).renewed
    ensures exists k :: i < k < j && trace[k] == Restart(true)
    decreases |trace|
  {
    var n := |trace| - 1;
    if j < n {
      NoProcessIsAskedTwice(tool, was, trace[..n], i, j);
    } else if j == n {
      NoProcessIsAskedTwice(tool, was, trace[..n], i, n);
    } else if trace[n] == Restart(true) {
      assert i < n;
    } else {
      NoProcessIsAskedTwice(tool, was, trace[..n], i, n);
    }
  }

  lemma {:induction false} EscapedMeansSome(tool: string, was: bool, trace: seq<Event>)
    ensures After(tool, was, trace).escaped <==> exists i :: 0 <= i < |trace| && Escapes(trace[i])
  {
    if trace == [] {
    } else {
      EscapedMeansSome(tool, was, trace[..|trace| - 1]);
    }
  }

  /** The environment's answer at this moment is one that a call does not survive. */
  predicate Fatal(world: World, at: nat, kind: Kind) {
    match kind
    case IsRestart => !world.restartOk(at)
    case IsFirstLine => world.read(at).TooLong?
    case IsNextLine => world.read(at).TooLong? || world.read(at).Reset?
    case _ => false
  }

  /** A call raises exactly when, at a moment it reaches, the environment's answer is fatal. */
  lemma RaisesExactly(world: World, start: nat, was: bool, tool: string, trace: seq<Event>, reply: Reply)
    requires Answered(world, start, was, tool, trace) && IsCall(tool, was, trace, reply)
    ensures reply.Raised? <==> exists i: nat :: i < |trace| && Fatal(world, start + i, KindOf(trace[i]))
  {
    EscapedMeansSome(tool, was, trace);
    forall i: nat | i < |trace|
      ensures Escapes(trace[i]) <==> Fatal(world, start + i, KindOf(trace[i]))
    {
      FitsAt(world, start, was, tool, trace, i);
    }
  }

  /** A line that is passed over. */
  predicate Stray(r: Read) {
    r.Eof? || (r.Line? && !r.json)
  }

  /**
   * In a world where restarts succeed, no line is too long, and the connection is not reset right after
   * a line that is passed over, every call returns, with its request written.
   */
  lemma ReturnsInAGoodWorld(world: World, start: nat, was: bool, tool: string, trace: seq<Event>, reply: Reply)
    requires Answered(world, start, was, tool, trace) && IsCall(tool, was, trace, reply)
    requires forall t: nat :: world.restartOk(t) && !world.read(t).TooLong?
    requires forall t: nat :: world.read(t + 1).Reset? ==> !Stray(world.read(t))
    ensures !reply.Raised? && After(tool, was, trace).writes >= 1
  {
    RaisesExactly(world, start, was, tool, trace, reply);
    forall i: nat | i < |trace|
      ensures !Fatal(world, start + i, KindOf(trace[i]))
    {
      if KindOf(trace[i]) == IsNextLine {
        NextLineFollowsStray(world, start, was, tool, trace, i);
        assert world.read((start + i - 1) + 1) == world.read(start + i);
      }
    }
  }

  /** What a call does is settled by the environment, the tool, and whether a process was held. */
  lemma TraceIsDetermined(world: World, start: nat, was: bool, tool: string, a: seq<Event>, b: seq<Event>)
    requires Answered(world, start, was, tool, a) && Answered(world, start, was, tool, b)
    requires After(tool, was, a).due == IsEnd && After(tool, was, b).due == IsEnd
    ensures a == b
  {
    if |a| <= |b| {
      EndIsEnd(world, start, was, tool, a, b);
    } else {
      EndIsEnd(world, start, was, tool, b, a);
    }
  }

  // ------------------------------------------------------------- calls that go well

  /** Only these two tools are ever written twice, and fifty stray lines are the most that are passed over. */
  lemma CallsAreBounded(tool: string, was: bool, trace: seq<Event>, reply: Reply)
    requires IsCall(tool, was, trace, reply)
    ensures After(tool, was, trace).writes <= if tool == "read_file" || tool == "list_dir" then 2 else 1
    ensures After(tool, was, trace).skips <= 50
    ensures reply == NoJson ==> After(tool, was, trace).skips == 50
  {
  }

  /** An attempt that goes well: the process is there, takes the request and answers with valid JSON. */
  function GoodAttempt(tool: string): seq<Event> {
    [Check(true), Write(tool, true), ReadLine(Line(true, true), false)]
  }

  lemma AttemptIsAnswered(world: World, start: nat, tool: string, before: seq<Event>)
    requires Answered(world, start, true, tool, before)
    requires IsAttempt(After(tool, true, before), After(tool, true, before).writes) && After(tool, true, before).running
    requires var at := start + |before|; world.alive(at) && world.writeOk(at + 1) && world.read(at + 2) == Line(true, true)
    ensures Answered(world, start, true, tool, before + GoodAttempt(tool))
    ensures After(tool, true, before + GoodAttempt(tool)) ==
      State(IsEnd, true, After(tool, true, before).writes + 1, 0, true, false, false, false)
  {
    var one := before + [Check(true)];
    var two := one + [Write(tool, true)];
    Extend(world, start, true, tool, before, Check(true));
    Extend(world, start, true, tool, one, Write(tool, true));
    Extend(world, start, true, tool, two, ReadLine(Line(true, true), false));
    assert two + [ReadLine(Line(true, true), false)] == before + GoodAttempt(tool);
  }

  /** A running process that answers every request with valid JSON. */
  function GoodWorld(): World {
    World(_ => true, _ => true, _ => true, _ => Line(true, true))
  }

  lemma GoodCallIsAnswered(start: nat, tool: string, trace: seq<Event>, reply: Reply)
    requires Answered(GoodWorld(), start, true, tool, trace) && IsCall(tool, true, trace, reply)
    ensures reply == Response && trace == GoodAttempt(tool)
  {
    AttemptIsAnswered(GoodWorld(), start, tool, []);
    assert [] + GoodAttempt(tool) == GoodAttempt(tool);
    TraceIsDetermined(GoodWorld(), start, true, tool, trace, GoodAttempt(tool));
  }

  /** A process that dies on its first request; the next one answers well. */
  function DyingWorld(at: nat): World {
    World(_ => true, _ => true, _ => true, t => if t == at then Eof else Line(true, true))
  }

  lemma CrashRestarts(start: nat, tool: string)
    ensures var dead := [Check(true), Write(tool, true), ReadLine(Eof, false), Restart(true)];
      && Answered(DyingWorld(start + 2), start, true, tool, dead)
      && After(tool, true, dead) ==
         State(if Allowed(tool) > 1 then IsCheck else IsEnd, true, 1, 0, true, true, false, false)
  {
    var w, two := DyingWorld(start + 2), [Check(true), Write(tool, true)];
    var three := two + [ReadLine(Eof, false)];
    TwoSteps(w, start, tool);
    Extend(w, start, true, tool, two, ReadLine(Eof, false));
    Extend(w, start, true, tool, three, Restart(true));
    assert three + [Restart(true)] == [Check(true), Write(tool, true), ReadLine(Eof, false), Restart(true)];
  }

  /** A crash is made good for the two tools that may be asked again, and reported for all others. */
  lemma CrashIsRetried(start: nat, tool: string, trace: seq<Event>, reply: Reply)
    requires Answered(DyingWorld(start + 2), start, true, tool, trace) && IsCall(tool, true, trace, reply)
    ensures var dead := [Check(true), Write(tool, true), ReadLine(Eof, false), Restart(true)];
      if tool == "read_file" || tool == "list_dir" then
        reply == Response && trace == dead + GoodAttempt(tool)
      else reply == Crashed && trace == dead
  {
    var dead := [Check(true), Write(tool, true), ReadLine(Eof, false), Restart(true)];
    CrashRestarts(start, tool);
    if tool == "read_file" || tool == "list_dir" {
      AttemptIsAnswered(DyingWorld(start + 2), start, tool, dead);
      TraceIsDetermined(DyingWorld(start + 2), start, true, tool, trace, dead + GoodAttempt(tool));
    } else {
      TraceIsDetermined(DyingWorld(start + 2), start, true, tool, trace, dead);
    }
  }

  // ------------------------------------------- raising though restarts succeed

  /** A process that answers every request with one line too long. */
  function OverlongWorld(): World {
    World(_ => true, _ => true, _ => true, _ => TooLong)
  }

  /** Every restart succeeds, and yet each call to a running agent raises. */
  lemma OverlongLineRaises(start: nat, tool: string, trace: seq<Event>, reply: Reply)
    requires Answered(OverlongWorld(), start, true, tool, trace) && IsCall(tool, true, trace, reply)
    ensures reply.Raised? && trace == [Check(true), Write(tool, true), ReadLine(TooLong, false)]
  {
    var w, two := OverlongWorld(), [Check(true), Write(tool, true)];
    TwoSteps(w, start, tool);
    Extend(w, start, true, tool, two, ReadLine(TooLong, false));
    TraceIsDetermined(w, start, true, tool, trace, two + [ReadLine(TooLong, false)]);
  }

  /** A process that prints one stray line at a moment, after which the connection is reset. */
  function ResetWorld(at: nat): World {
    World(_ => true, _ => true, _ => true, t => if t == at then Line(false, false) else Reset)
  }

  lemma ResetWhileSkippingRaises(start: nat, tool: string, trace: seq<Event>, reply: Reply)
    requires Answered(ResetWorld(start + 2), start, true, tool, trace) && IsCall(tool, true, trace, reply)
    ensures reply.Raised?
    ensures trace == [Check(true), Write(tool, true), ReadLine(Line(false, false), false), ReadLine(Reset, true)]
  {
    var w, two := ResetWorld(start + 2), [Check(true), Write(tool, true)];
    var three := two + [ReadLine(Line(false, false), false)];
    TwoSteps(w, start, tool);
    Extend(w, start, true, tool, two, ReadLine(Line(false, false), false));
    Extend(w, start, true, tool, three, ReadLine(Reset, true));
    TraceIsDetermined(w, start, true, tool, trace, three + [ReadLine(Reset, true)]);
  }

  // ------------------------------------------------------- one event at a time

  lemma Extend(world: World, start: nat, was: bool, tool: string, before: seq<Event>, e: Event)
    requires Answered(world, start, was, tool, before)
    requires Fits(world, start + |before|, tool, After(tool, was, before), e)
    ensures var trace := before + [e];
      && trace[..|trace| - 1] == before && trace[|trace| - 1] == e
      && Answered(world, start, was, tool, trace)
      && After(tool, was, trace) == Add(tool, After(tool, was, before), e)
  {
    var trace := before + [e];
    assert |trace| - 1 == |before| && trace[..|before|] == before && trace[|before|] == e;
  }

  /** Every event of a trace is the one due, and carries the world's answer. */
  lemma {:induction false} FitsAt(world: World, start: nat, was: bool, tool: string, trace: seq<Event>, i: nat)
    requires Answered(world, start, was, tool, trace) && i < |trace|
    ensures Fits(world, start + i, tool, After(tool, was, trace[..i]), trace[i])
    decreases |trace|
  {
    if i == |trace| - 1 {
    } else {
      var before := trace[..|trace| - 1];
      FitsAt(world, start, was, tool, before, i);
      assert before[..i] == trace[..i];
    }
  }

  lemma NextLineFollowsStray(world: World, start: nat, was: bool, tool: string, trace: seq<Event>, i: nat)
    requires Answered(world, start, was, tool, trace) && i < |trace| && KindOf(trace[i]) == IsNextLine
    ensures i > 0 && Stray(world.read(start + i - 1))
  {
    FitsAt(world, start, was, tool, trace, i);
    assert i > 0 by {
      assert trace[..0] == [];
    }
    var upTo := trace[..i];
    assert upTo[..|upTo| - 1] == trace[..i - 1] && upTo[|upTo| - 1] == trace[i - 1];
    assert After(tool, was, upTo) == AfterLast(tool, was, upTo);
    OnlyStrayIsPassed(tool, After(tool, was, trace[..i - 1]), trace[i - 1]);
  }

  /** A call that has ended goes no further. */
  lemma EndIsEnd(world: World, start: nat, was: bool, tool: string, a: seq<Event>, b: seq<Event>)
    requires Answered(world, start, was, tool, a) && Answered(world, start, was, tool, b)
    requires After(tool, was, a).due == IsEnd && |a| <= |b|
    ensures a == b
  {
    SamePrefix(world, start, was, tool, a, b, |a|);
    NoEndBefore(world, start, was, tool, b, |a|);
    assert a[..|a|] == a && b[..|b|] == b;
  }

  lemma {:induction false} SamePrefix(
      world: World, start: nat, was: bool, tool: string, a: seq<Event>, b: seq<Event>, k: nat)
    requires Answered(world, start, was, tool, a) && Answered(world, start, was, tool, b)
    requires k <= |a| && k <= |b|
    ensures a[..k] == b[..k]
  {
    if k == 0 {
    } else {
      SamePrefix(world, start, was, tool, a, b, k - 1);
      SameNext(world, start, was, tool, a, b, k - 1);
      assert a[..k] == a[..k - 1] + [a[k - 1]] && b[..k] == b[..k - 1] + [b[k - 1]];
    }
  }

  lemma SameNext(world: World, start: nat, was: bool, tool: string, a: seq<Event>, b: seq<Event>, k: nat)
    requires Answered(world, start, was, tool, a) && Answered(world, start, was, tool, b)
    requires k < |a| && k < |b| && a[..k] == b[..k]
    ensures a[k] == b[k]
  {
    FitsAt(world, start, was, tool, a, k);
    FitsAt(world, start, was, tool, b, k);
  }

  lemma NoEndBefore(world: World, start: nat, was: bool, tool: string, trace: seq<Event>, k: nat)
    requires Answered(world, start, was, tool, trace) && k <= |trace|
    ensures k < |trace| ==> After(tool, was, trace[..k]).due != IsEnd
  {
    if k < |trace| {
      FitsAt(world, start, was, tool, trace, k);
    }
  }

  lemma OnlyStrayIsPassed(tool: string, s: State, e: Event)
    requires Add(tool, s, e).due == IsNextLine
    ensures e.ReadLine? && Stray(e.read)
  {
  }

  /** A running agent is written to at once. */
  lemma TwoSteps(world: World, start: nat, tool: string)
    requires world.alive(start) && world.writeOk(start + 1)
    ensures var two := [Check(true), Write(tool, true)];
      Answered(world, start, true, tool, two) &&
      After(tool, true, two) == State(IsFirstLine, true, 1, 0, true, false, false, false)
  {
    Extend(world, start, true, tool, [], Check(true));
    assert [] + [Check(true)] == [Check(true)];
    Extend(world, start, true, tool, [Check(true)], Write(tool, true));
    assert [Check(true)] + [Write(tool, true)] == [Check(true), Write(tool, true)];
  }
}
