/** Splitting the worker inputs into waves and chunks, and the shared preparation limit. */
module WorkerWaves {
  import opened Prelude

  const DEFAULT_PREP_CONCURRENCY := 20

  /** The preparation limit: the smaller of the sessions and the request, or of the default when none is made. */
  function ResolvePrepConcurrency(requested: int, sessions: int): (r: Result<nat, string>)
    ensures r.Ok? <==> requested >= 0 && sessions >= 1
    ensures r.Ok? ==> 1 <= r.value <= sessions
    ensures r.Ok? && requested > 0 ==> r.value <= requested && (r.value == requested || r.value == sessions)
    ensures r.Ok? && requested == 0 ==> r.value <= 20 && (r.value == 20 || r.value == sessions)
  {
    if requested < 0 then Err("prep_concurrency must be >= 0")
    else if sessions < 1 then Err("num_sessions must be >= 1")
    else Ok(Min(if requested == 0 then DEFAULT_PREP_CONCURRENCY else requested, sessions))
  }

  function Flatten<T>(chunks: seq<seq<T>>): seq<T> {
    if chunks == [] then [] else chunks[0] + Flatten(chunks[1..])
  }

  lemma {:induction false} FlattenAppend<T>(chunks: seq<seq<T>>, last: seq<T>)
    ensures Flatten(chunks + [last]) == Flatten(chunks) + last
  {
    if chunks == [] {
      assert [last][1..] == [];
    } else {
      assert (chunks + [last])[1..] == chunks[1..] + [last];
      FlattenAppend(chunks[1..], last);
    }
  }

  /** Non-empty contiguous chunks in order, the longer ones first and by at most one. */
  ghost predicate IsFairSplit<T>(inputs: seq<T>, chunks: seq<seq<T>>) {
    && Flatten(chunks) == inputs
    && (forall i :: 0 <= i < |chunks| ==> chunks[i] != [])
    && (forall i, j :: 0 <= i < j < |chunks| ==> |chunks[j]| <= |chunks[i]| <= |chunks[j]| + 1)
  }

  method PartitionWorkerInputs<T>(inputs: seq<T>, workers: int) returns (r: Result<seq<seq<T>>, string>)
    ensures r.Ok? <==> workers >= 1 && inputs != []
    ensures r.Ok? ==> IsFairSplit(inputs, r.value) && |r.value| == Min(workers, |inputs|)
  {
    if workers < 1 {
      return Err("workers must be >= 1");
    }
    if inputs == [] {
      return Err("inputs must not be empty");
    }
    var count := Min(workers, |inputs|);
    var chunkSize, remainder := |inputs| / count, |inputs| % count;
    OffsetIsLinear(chunkSize, remainder, count);
    ChunkSizeIsPositive(|inputs|, count);
    var chunks: seq<seq<T>> := [];
    var start := 0;
    for worker := 0 to count
      invariant start == Offset(chunkSize, remainder, worker)
      invariant start <= |inputs| && |chunks| == worker && Flatten(chunks) == inputs[..start]
      invariant forall i :: 0 <= i < worker ==> |chunks[i]| == chunkSize + (if i < remainder then 1 else 0)
    {
      var size := chunkSize + (if worker < remainder then 1 else 0);
      var stop := start + size;
      OffsetGrows(chunkSize, remainder, worker + 1, count);
      FlattenAppend(chunks, inputs[start..stop]);
      assert inputs[..stop] == inputs[..start] + inputs[start..stop];
      chunks := chunks + [inputs[start..stop]];
      start := stop;
    }
    assert inputs[..start] == inputs;
    return Ok(chunks);
  }

  /** Where the chunk of a worker begins. */
  function Offset(chunkSize: nat, remainder: nat, worker: nat): nat {
    if worker == 0 then 0
    else Offset(chunkSize, remainder, worker - 1) + chunkSize + (if worker - 1 < remainder then 1 else 0)
  }

  lemma {:induction false} OffsetIsLinear(chunkSize: nat, remainder: nat, worker: nat)
    ensures Offset(chunkSize, remainder, worker) == worker * chunkSize + Min(worker, remainder)
  {
    if worker == 0 {
    } else {
      OffsetIsLinear(chunkSize, remainder, worker - 1);
      assert worker * chunkSize == (worker - 1) * chunkSize + chunkSize;
    }
  }

  lemma {:induction false} OffsetGrows(chunkSize: nat, remainder: nat, a: nat, b: nat)
    requires a <= b
    ensures Offset(chunkSize, remainder, a) <= Offset(chunkSize, remainder, b)
    decreases b
  {
    if a == b {
    } else {
      OffsetGrows(chunkSize, remainder, a, b - 1);
    }
  }

  lemma ChunkSizeIsPositive(n: nat, count: nat)
    requires 0 < count <= n
    ensures n / count >= 1 && n == count * (n / count) + n % count
  {
  }

  /** Waves of at most concurrency inputs. */
  function ChunkByConcurrency<T>(inputs: seq<T>, concurrency: nat): seq<seq<T>>
    requires concurrency >= 1
  {
    if inputs == [] then []
    else
      var n := Min(concurrency, |inputs|);
      [inputs[..n]] + ChunkByConcurrency(inputs[n..], concurrency)
  }

  /** Every wave but the last is full, none is empty, and together they are the inputs in order. */
  lemma {:induction false} WavesKeepOrder<T>(inputs: seq<T>, concurrency: nat)
    requires concurrency >= 1
    ensures var waves := ChunkByConcurrency(inputs, concurrency);
      && Flatten(waves) == inputs
      && (forall i :: 0 <= i < |waves| ==> 0 < |waves[i]| <= concurrency)
      && (forall i :: 0 <= i < |waves| - 1 ==> |waves[i]| == concurrency)
  {
    if inputs == [] {
    } else {
      var n := Min(concurrency, |inputs|);
      WavesKeepOrder(inputs[n..], concurrency);
      assert ChunkByConcurrency(inputs, concurrency)[1..] == ChunkByConcurrency(inputs[n..], concurrency);
      assert inputs == inputs[..n] + inputs[n..];
    }
  }

  ghost predicate IsPlan<T>(waves: seq<seq<T>>, plan: seq<seq<seq<T>>>) {
    |plan| == |waves| && forall w :: 0 <= w < |waves| ==> IsFairSplit(waves[w], plan[w])
  }

  lemma {:induction false} FlattenPlus<T>(a: seq<seq<T>>, b: seq<seq<T>>)
    ensures Flatten(a + b) == Flatten(a) + Flatten(b)
  {
    if a == [] {
      assert a + b == b;
    } else {
      assert (a + b)[1..] == a[1..] + b;
      FlattenPlus(a[1..], b);
    }
  }

  /** Running the chunks wave by wave and worker by worker visits every input once, in order. */
  lemma {:induction false} PlanKeepsOrder<T>(waves: seq<seq<T>>, plan: seq<seq<seq<T>>>)
    requires IsPlan(waves, plan)
    ensures Flatten(Flatten(plan)) == Flatten(waves)
  {
    if waves == [] {
    } else {
      assert IsFairSplit(waves[0], plan[0]);
      assert IsPlan(waves[1..], plan[1..]) by {
        forall w | 0 <= w < |waves| - 1
          ensures IsFairSplit(waves[1..][w], plan[1..][w])
        {
          assert IsFairSplit(waves[w + 1], plan[w + 1]);
        }
      }
      PlanKeepsOrder(waves[1..], plan[1..]);
      FlattenPlus(plan[0], Flatten(plan[1..]));
    }
  }

  // -------------------------------------------------- shared preparation limit

  datatype Session = Polling | Preparing | Prepared

  /** The semaphore shared by all workers, and the sessions that still need it. */
  datatype Limiter = Limiter(permits: nat, sessions: seq<Session>)

  predicate CanPoll(l: Limiter, i: nat) {
    i < |l.sessions| && l.sessions[i].Polling?
  }

  predicate CanFinish(l: Limiter, i: nat) {
    i < |l.sessions| && l.sessions[i].Preparing?
  }

  /** One try to acquire: it takes a permit if there is one and otherwise changes nothing. */
  function Poll(l: Limiter, i: nat): Limiter
    requires CanPoll(l, i)
  {
    if l.permits > 0 then Limiter(l.permits - 1, l.sessions[i := Preparing]) else l
  }

  /** Preparation ended, with a session or with an exception; the permit goes back either way. */
  function Finish(l: Limiter, i: nat): Limiter
    requires CanFinish(l, i)
  {
    Limiter(l.permits + 1, l.sessions[i := Prepared])
  }

  ghost predicate Step(l: Limiter, l': Limiter) {
    exists i: nat :: (CanPoll(l, i) && l' == Poll(l, i)) || (CanFinish(l, i) && l' == Finish(l, i))
  }

  function Holders(sessions: seq<Session>): nat {
    if sessions == [] then 0 else (if sessions[0].Preparing? then 1 else 0) + Holders(sessions[1..])
  }

  lemma {:induction false} HoldersAfter(sessions: seq<Session>, i: nat, s: Session)
    requires i < |sessions|
    ensures Holders(sessions[i := s]) + (if sessions[i].Preparing? then 1 else 0) ==
            Holders(sessions) + (if s.Preparing? then 1 else 0)
  {
    if i == 0 {
      assert sessions[i := s][1..] == sessions[1..];
    } else {
      assert sessions[i := s][1..] == sessions[1..][i - 1 := s];
      HoldersAfter(sessions[1..], i - 1, s);
    }
  }

  lemma {:induction false} NoHolders(sessions: seq<Session>)
    ensures Holders(sessions) == 0 <==> forall i :: 0 <= i < |sessions| ==> !sessions[i].Preparing?
  {
    if sessions == [] {
    } else {
      NoHolders(sessions[1..]);
      assert forall i :: 0 <= i < |sessions| ==> i == 0 || sessions[i] == sessions[1..][i - 1];
      assert forall i :: 0 <= i < |sessions[1..]| ==> sessions[1..][i] == sessions[i + 1];
    }
  }

  /** Permits and holders add up to the limit along every run, whatever the interleaving. */
  lemma {:induction false} PermitsAreConserved(run: seq<Limiter>, limit: nat, k: nat)
    requires run != [] && run[0].permits == limit && Holders(run[0].sessions) == 0 && k < |run|
    requires forall n :: 0 <= n < |run| - 1 ==> Step(run[n], run[n + 1])
    ensures run[k].permits + Holders(run[k].sessions) == limit
  {
    if k == 0 {
    } else {
      PermitsAreConserved(run, limit, k - 1);
      var l, l' := run[k - 1], run[k - 1 + 1];
      var i: nat :| (CanPoll(l, i) && l' == Poll(l, i)) || (CanFinish(l, i) && l' == Finish(l, i));
      HoldersAfter(l.sessions, i, Preparing);
      HoldersAfter(l.sessions, i, Prepared);
    }
  }

  /** A session never polls in vain for ever: a permit is free or some preparation can finish. */
  lemma LimiterNeverSticks(l: Limiter, limit: nat)
    requires limit >= 1 && l.permits + Holders(l.sessions) == limit
    ensures l.permits > 0 || exists i: nat :: CanFinish(l, i)
    ensures (forall i :: 0 <= i < |l.sessions| ==> !l.sessions[i].Preparing?) ==> l.permits == limit
  {
    NoHolders(l.sessions);
    if l.permits == 0 {
      var i :| 0 <= i < |l.sessions| && l.sessions[i].Preparing?;
      assert CanFinish(l, i);
    }
  }

  /** How much there is left to do: each session waits and prepares. */
  function Work(sessions: seq<Session>): seq<nat> {
    seq(|sessions|, i requires 0 <= i < |sessions| =>
      match sessions[i] case Polling => 2 case Preparing => 1 case Prepared => 0)
  }

  /** Every step that changes anything leaves less to do. */
  lemma StepsAreFew(l: Limiter, l': Limiter)
    requires Step(l, l') && l' != l
    ensures Total(Work(l'.sessions)) < Total(Work(l.sessions))
  {
    var i: nat :| (CanPoll(l, i) && l' == Poll(l, i)) || (CanFinish(l, i) && l' == Finish(l, i));
    var left := if CanPoll(l, i) then 1 else 0;
    assert Work(l'.sessions) == Work(l.sessions)[i := left];
    TotalAfterUpdate(Work(l.sessions), i, left);
  }

  /** Where no step changes anything any more, every session is prepared; never do more prepare than the limit. */
  lemma AllGetPrepared(l: Limiter, limit: nat)
    requires limit >= 1 && l.permits + Holders(l.sessions) == limit
    ensures Holders(l.sessions) <= limit
    ensures (forall l' :: Step(l, l') ==> l' == l) ==> forall s :: s in l.sessions ==> s == Prepared
  {
    if forall l' :: Step(l, l') ==> l' == l {
      forall i: nat | i < |l.sessions|
        ensures !l.sessions[i].Preparing?
      {
        if CanFinish(l, i) {
          assert Step(l, Finish(l, i));
        }
      }
      LimiterNeverSticks(l, limit);
      forall i: nat | i < |l.sessions|
        ensures l.sessions[i] == Prepared
      {
        if CanPoll(l, i) {
          assert Step(l, Poll(l, i));
        }
      }
    }
  }
}
