/** Every run of the watchdog ends, and how soon; and a replay that repeats the source keeps its time. */
module WatchdogTermination {
  import opened Prelude
  import opened ResourceTimeline
  import opened Watchdog
  import opened WatchdogRuns

  /** How many noticeable steps fit before the virtual timeout. */
  function ProgressLeft(timeout: real, v: real): nat {
    if v >= timeout then 0 else ((timeout - v) / PROGRESS_EPS).Floor + 1
  }

  /** The samples among the first n that end after v. */
  function SamplesLeft(samples: seq<Sample>, v: real, n: nat): nat
    requires n <= |samples|
  {
    if n == 0 then 0 else SamplesLeft(samples, v, n - 1) + if samples[n - 1].end > v then 1 else 0
  }

  /** The polls since the clock last moved noticeably. */
  function Idle(samples: seq<Sample>, rs: seq<Reading>, k: nat): nat
    requires k < |rs|
  {
    if k == 0 || Advance(samples, rs, k) > PROGRESS_EPS then 0 else Idle(samples, rs, k - 1) + 1
  }

  function StallsLeft(limit: nat, idle: nat): nat {
    if idle < limit then limit - idle else 0
  }

  /** A rank that every poll lowers; limit polls without progress fill the stall timeout. */
  function Rank(samples: seq<Sample>, timeout: real, rs: seq<Reading>, limit: nat, k: nat): nat
    requires k < |rs|
  {
    ProgressLeft(timeout, Clock(samples, rs, k)) * (limit + 1)
    + StallsLeft(limit, Idle(samples, rs, k))
    + SamplesLeft(samples, Clock(samples, rs, k), |samples|)
  }

  /** The number of polls after which a run has ended. */
  function Bound(timeout: real, limit: nat, samples: nat): nat {
    ProgressLeft(timeout, 0.0) * (limit + 1) + limit + samples + 1
  }

  lemma {:induction false} SamplesLeftMonotone(samples: seq<Sample>, v: real, w: real, n: nat)
    requires n <= |samples| && v <= w
    ensures SamplesLeft(samples, w, n) <= SamplesLeft(samples, v, n)
  {
    if n == 0 {
    } else {
      SamplesLeftMonotone(samples, v, w, n - 1);
    }
  }

  lemma {:induction false} SamplesLeftDrops(samples: seq<Sample>, v: real, w: real, n: nat, i: nat)
    requires i < n <= |samples| && v < samples[i].end <= w
    ensures SamplesLeft(samples, w, n) < SamplesLeft(samples, v, n)
  {
    SamplesLeftMonotone(samples, v, w, n - 1);
    if i == n - 1 {
    } else {
      SamplesLeftDrops(samples, v, w, n - 1, i);
    }
  }

  lemma {:induction false} SamplesLeftAtMost(samples: seq<Sample>, v: real, n: nat)
    requires n <= |samples|
    ensures SamplesLeft(samples, v, n) <= n
  {
    if n == 0 {
    } else {
      SamplesLeftAtMost(samples, v, n - 1);
    }
  }

  /** The length of n periods of delta. */
  function Periods(n: nat, delta: real): real {
    if n == 0 then 0.0 else Periods(n - 1, delta) + delta
  }

  lemma {:induction false} PeriodsIsProduct(n: nat, delta: real)
    ensures Periods(n, delta) == n as real * delta
  {
    if n == 0 {
    } else {
      PeriodsIsProduct(n - 1, delta);
      assert n as real * delta == (n - 1) as real * delta + delta;
    }
  }

  lemma {:induction false} PeriodsMonotone(m: nat, n: nat, delta: real)
    requires m <= n && delta > 0.0
    ensures Periods(m, delta) <= Periods(n, delta)
  {
    if m == n {
    } else {
      PeriodsMonotone(m, n - 1, delta);
    }
  }

  lemma {:induction false} IdleTime(samples: seq<Sample>, rs: seq<Reading>, delta: real, k: nat)
    requires k < |rs| && Paced(rs, delta)
    ensures rs[k].time - LastProgress(samples, rs, k) >= Periods(Idle(samples, rs, k), delta)
  {
    if k == 0 || Advance(samples, rs, k) > PROGRESS_EPS {
    } else {
      IdleTime(samples, rs, delta, k - 1);
      assert Passes(rs, k, delta);
    }
  }

  /** A poll that finds no active demand and no noticeable progress has reached the end of its sample. */
  lemma QuietPollCrosses(samples: seq<Sample>, v: real, dt: real, used: Usage)
    requires Contiguous(samples) && 0.0 <= v && dt > PROGRESS_EPS
    requires !ActiveDemand(samples, v) && Progress(samples, v, dt, used) <= PROGRESS_EPS
    ensures samples != [] && v < EndOf(samples)
    ensures v < samples[IndexAt(samples, v, 0)].end == v + Progress(samples, v, dt, used)
  {
    if samples != [] && v < EndOf(samples) {
      IndexHolds(samples, v, 0);
    }
  }

  lemma {:induction false} TimesAtLeast(a: nat, a': nat, m: nat)
    requires a' < a
    ensures a' * m + m <= a * m
  {
    assert a * m == (a - 1) * m + m;
    if a' == a - 1 {
    } else {
      TimesAtLeast(a - 1, a', m);
    }
  }

  lemma RankArithmetic(a: nat, a': nat, b: nat, b': nat, s: nat, s': nat, limit: nat)
    requires b' <= limit && s' <= s
    requires a' < a || (a' <= a && b' + s' < b + s)
    ensures a' * (limit + 1) + b' + s' < a * (limit + 1) + b + s
  {
    if a' < a {
      TimesAtLeast(a, a', limit + 1);
    }
  }

  /** Once limit polls went by without progress, a run that goes on faces no active demand. */
  lemma LongIdleIsQuiet(samples: seq<Sample>, timeout: real, rs: seq<Reading>, delta: real, limit: nat, k: nat)
    requires k < |rs| && Paced(rs, delta) && delta > 0.0 && Periods(limit, delta) >= StallTimeout(timeout)
    requires !Stops(samples, timeout, rs, k) && Idle(samples, rs, k) >= limit
    ensures !ActiveDemand(samples, Clock(samples, rs, k))
  {
    IdleTime(samples, rs, delta, k);
    PeriodsMonotone(limit, Idle(samples, rs, k), delta);
  }

  lemma IdlePollLowersRank(samples: seq<Sample>, rs: seq<Reading>, delta: real, limit: nat, k: nat)
    requires Contiguous(samples) && 0 < k < |rs| && Paced(rs, delta) && delta > PROGRESS_EPS
    requires Idle(samples, rs, k - 1) >= limit ==> !ActiveDemand(samples, Clock(samples, rs, k - 1))
    requires Advance(samples, rs, k) <= PROGRESS_EPS
    ensures StallsLeft(limit, Idle(samples, rs, k)) + SamplesLeft(samples, Clock(samples, rs, k), |samples|)
            < StallsLeft(limit, Idle(samples, rs, k - 1)) + SamplesLeft(samples, Clock(samples, rs, k - 1), |samples|)
  {
    var v, w := Clock(samples, rs, k - 1), Clock(samples, rs, k);
    var dt, used := WallStep(rs, k), UsageBetween(rs[k - 1], rs[k]);
    ClockNonnegative(samples, rs, k - 1);
    StepStaysInSample(samples, v, dt, used);
    assert Advance(samples, rs, k) == Progress(samples, v, dt, used);
    SamplesLeftMonotone(samples, v, w, |samples|);
    if Idle(samples, rs, k - 1) >= limit {
      assert Passes(rs, k, delta);
      QuietPollCrosses(samples, v, dt, used);
      SamplesLeftDrops(samples, v, w, |samples|, IndexAt(samples, v, 0));
    }
  }

  lemma PollLowersRank(samples: seq<Sample>, timeout: real, rs: seq<Reading>, delta: real, limit: nat, k: nat)
    requires Contiguous(samples) && 0 < k < |rs| && Paced(rs, delta)
    requires delta > PROGRESS_EPS && limit > 0 && Periods(limit, delta) >= StallTimeout(timeout)
    requires k > 1 ==> !Stops(samples, timeout, rs, k - 1)
    requires !Stops(samples, timeout, rs, k)
    ensures Rank(samples, timeout, rs, limit, k) < Rank(samples, timeout, rs, limit, k - 1)
  {
    var v, w := Clock(samples, rs, k - 1), Clock(samples, rs, k);
    ClockNonnegative(samples, rs, k - 1);
    StepStaysInSample(samples, v, WallStep(rs, k), UsageBetween(rs[k - 1], rs[k]));
    assert w == v + Advance(samples, rs, k) >= v && w < timeout;
    SamplesLeftMonotone(samples, v, w, |samples|);
    if Advance(samples, rs, k) > PROGRESS_EPS {
    } else {
      if Idle(samples, rs, k - 1) >= limit {
        LongIdleIsQuiet(samples, timeout, rs, delta, limit, k - 1);
      }
      IdlePollLowersRank(samples, rs, delta, limit, k);
    }
    RankArithmetic(ProgressLeft(timeout, v), ProgressLeft(timeout, w),
                   StallsLeft(limit, Idle(samples, rs, k - 1)), StallsLeft(limit, Idle(samples, rs, k)),
                   SamplesLeft(samples, v, |samples|), SamplesLeft(samples, w, |samples|), limit);
  }

  lemma {:induction false} RankAfter(samples: seq<Sample>, timeout: real, rs: seq<Reading>, delta: real, limit: nat, n: nat)
    requires Contiguous(samples) && n < |rs| && Paced(rs, delta)
    requires delta > PROGRESS_EPS && limit > 0 && Periods(limit, delta) >= StallTimeout(timeout)
    requires forall k :: 0 < k <= n ==> !Stops(samples, timeout, rs, k)
    ensures Rank(samples, timeout, rs, limit, n) + n <= Rank(samples, timeout, rs, limit, 0)
  {
    if n == 0 {
    } else {
      RankAfter(samples, timeout, rs, delta, limit, n - 1);
      PollLowersRank(samples, timeout, rs, delta, limit, n);
    }
  }

  lemma RankAtStart(samples: seq<Sample>, timeout: real, rs: seq<Reading>, limit: nat)
    requires rs != []
    ensures Rank(samples, timeout, rs, limit, 0) < Bound(timeout, limit, |samples|)
  {
    SamplesLeftAtMost(samples, 0.0, |samples|);
    assert Clock(samples, rs, 0) == 0.0;
  }

  /**
   * If every poll takes at least delta, more than the progress epsilon, and limit such polls fill the
   * stall timeout, then a command that does not exit is stopped within Bound polls.
   */
  lemma WatchdogStops(samples: seq<Sample>, timeout: real, rs: seq<Reading>, delta: real, limit: nat)
    requires Contiguous(samples) && Paced(rs, delta) && delta > PROGRESS_EPS
    requires limit as real * delta >= StallTimeout(timeout)
    requires Bound(timeout, limit, |samples|) < |rs|
    ensures exists k :: 0 < k <= Bound(timeout, limit, |samples|) && Stops(samples, timeout, rs, k)
  {
    var n := Bound(timeout, limit, |samples|);
    PeriodsIsProduct(limit, delta);
    assert limit > 0 by {
      assert Periods(0, delta) == 0.0;
    }
    if forall k :: 0 < k <= n ==> !Stops(samples, timeout, rs, k) {
      RankAfter(samples, timeout, rs, delta, limit, n);
      RankAtStart(samples, timeout, rs, limit);
    }
  }

  // ------------------------------------------------------- replaying the source itself

  /** The interval before reading k + 1 left a sample. */
  predicate Yields(rs: seq<Reading>, k: nat)
    requires k + 1 < |rs|
  {
    ResourceDelta(rs[k], rs[k + 1]).Some?
  }

  ghost predicate AllYield(rs: seq<Reading>, n: nat)
    requires n < |rs|
  {
    forall k :: 0 <= k < n ==> Yields(rs, k)
  }

  /** The source the watchdog rebuilds from what the recorder stored of readings 0 to n. */
  function Rebuilt(rs: seq<Reading>, n: nat): seq<Sample>
    requires n < |rs|
  {
    var stored := StoreAll(Recorded(rs, n));
    SourceSamples(stored, |stored|)
  }

  function StoredInterval(rs: seq<Reading>, k: nat): Stored
    requires k + 1 < |rs|
  {
    Stored(Some(rs[k + 1].time - rs[k].time), UsageBetween(rs[k], rs[k + 1]))
  }

  /** The sample that stands for the interval before reading k + 1. */
  function IntervalSample(rs: seq<Reading>, k: nat): Sample
    requires k + 1 < |rs| && rs[k].time < rs[k + 1].time
  {
    SampleFrom(rs[k].time - rs[0].time, StoredInterval(rs, k))
  }

  lemma {:induction false} StoredPrefix(xs: seq<Option<Stored>>, x: Option<Stored>, k: nat)
    requires k <= |xs|
    ensures SourceSamples(xs + [x], k) == SourceSamples(xs, k)
  {
    if k == 0 {
    } else {
      StoredPrefix(xs, x, k - 1);
    }
  }

  lemma {:induction false} StoreAllLength(samples: seq<Delta>)
    ensures |StoreAll(samples)| == |samples|
  {
    if samples == [] {
    } else {
      StoreAllLength(samples[..|samples| - 1]);
    }
  }

  lemma RebuiltGrows(rs: seq<Reading>, n: nat)
    requires 0 < n < |rs| && Yields(rs, n - 1)
    requires EndOf(Rebuilt(rs, n - 1)) == rs[n - 1].time - rs[0].time
    ensures Rebuilt(rs, n) == Rebuilt(rs, n - 1) + [IntervalSample(rs, n - 1)]
  {
    var stored, next := StoreAll(Recorded(rs, n - 1)), Some(StoredInterval(rs, n - 1));
    StoredPrefix(stored, next, |stored|);
    assert (stored + [next])[|stored|] == next && Counts(next);
  }

  /** Recorded and rebuilt, the intervals lie where they were. */
  lemma {:induction false} RebuiltIntervals(rs: seq<Reading>, n: nat)
    requires n < |rs| && AllYield(rs, n)
    ensures |Rebuilt(rs, n)| == n
    ensures EndOf(Rebuilt(rs, n)) == rs[n].time - rs[0].time
    ensures forall k :: 0 <= k < n ==> rs[k].time < rs[k + 1].time && Rebuilt(rs, n)[k] == IntervalSample(rs, k)
  {
    if n == 0 {
    } else {
      assert Yields(rs, n - 1);
      RebuiltIntervals(rs, n - 1);
      RebuiltGrows(rs, n);
    }
  }

  /** The offset stored with a sample is the end of the stretch the watchdog rebuilds from it. */
  lemma {:induction false} OffsetsAreEnds(rs: seq<Reading>, n: nat, k: nat)
    requires n < |rs| && AllYield(rs, n) && k < n
    ensures |Recorded(rs, n)| == n == |Rebuilt(rs, n)|
    ensures Recorded(rs, n)[k].offset == Rebuilt(rs, n)[k].end
  {
    RebuiltIntervals(rs, n);
    assert Yields(rs, n - 1);
    if k < n - 1 {
      OffsetsAreEnds(rs, n - 1, k);
      RebuiltIntervals(rs, n - 1);
    } else if n > 1 {
      OffsetsAreEnds(rs, n - 1, 0);
    }
  }

  lemma OwnPace(x: real, dt: real)
    requires dt > 0.0 && x / dt > 0.0
    ensures x / (x / dt) == dt
  {
    var rate := x / dt;
    assert rate * dt == x;
    assert (rate * dt) / rate == dt;
  }

  lemma OwnCandidate(rs: seq<Reading>, k: nat, r: Resource)
    requires k + 1 < |rs| && rs[k].time < rs[k + 1].time
    ensures var c := Candidate(IntervalSample(rs, k), UsageBetween(rs[k], rs[k + 1]), r);
      c.Some? ==> c.value == rs[k + 1].time - rs[k].time
  {
    var used := UsageBetween(rs[k], rs[k + 1]);
    if Demands(IntervalSample(rs, k), r) && used.Of(r).Some? {
      OwnPace(used.Of(r).value, rs[k + 1].time - rs[k].time);
    }
  }

  lemma OwnSlowest(rs: seq<Reading>, k: nat)
    requires k + 1 < |rs| && rs[k].time < rs[k + 1].time
    ensures var slowest := Slowest(IntervalSample(rs, k), UsageBetween(rs[k], rs[k + 1]));
      slowest.Some? ==> slowest.value == rs[k + 1].time - rs[k].time
  {
    OwnCandidate(rs, k, Cpu);
    OwnCandidate(rs, k, Rx);
    OwnCandidate(rs, k, Tx);
  }

  lemma StepIsOwnInterval(samples: seq<Sample>, rs: seq<Reading>, k: nat, v: real)
    requires Contiguous(samples) && k < |samples| && k + 1 < |rs| && rs[k].time < rs[k + 1].time
    requires samples[k] == IntervalSample(rs, k) && v == samples[k].start
    ensures Progress(samples, v, rs[k + 1].time - rs[k].time, UsageBetween(rs[k], rs[k + 1])) == rs[k + 1].time - rs[k].time
  {
    StartsNonnegative(samples, k);
    if k < |samples| - 1 {
      SamplesInOrder(samples, k, |samples| - 1);
      assert samples[|samples| - 1].start < samples[|samples| - 1].end;
    }
    IndexHolds(samples, v, 0);
    var i := IndexAt(samples, v, 0);
    if i < k {
      SamplesInOrder(samples, i, k);
    } else if k < i {
      SamplesInOrder(samples, k, i);
    }
    assert i == k;
    OwnSlowest(rs, k);
  }

  /** A replay that repeats the recorded readings keeps the source's time exactly. */
  lemma {:induction false} ExactReplay(rs: seq<Reading>, n: nat, k: nat)
    requires k <= n < |rs| && AllYield(rs, n)
    ensures Clock(Rebuilt(rs, n), rs, k) == rs[k].time - rs[0].time
  {
    if k == 0 {
    } else {
      ExactReplay(rs, n, k - 1);
      RebuiltIntervals(rs, n);
      var stored := StoreAll(Recorded(rs, n));
      SourceIsContiguous(stored, |stored|);
      assert Rebuilt(rs, n)[k - 1] == IntervalSample(rs, k - 1);
      StepIsOwnInterval(Rebuilt(rs, n), rs, k - 1, Clock(Rebuilt(rs, n), rs, k - 1));
    }
  }

  /** So a replay that uses at least as much in at least the time, poll by poll, is never behind the source. */
  lemma ReplayKeepsUp(rs: seq<Reading>, bs: seq<Reading>, n: nat)
    requires n < |rs| && n < |bs| && AllYield(rs, n) && Dominates(bs, rs, n)
    ensures Clock(Rebuilt(rs, n), bs, n) >= rs[n].time - rs[0].time
  {
    var stored := StoreAll(Recorded(rs, n));
    SourceIsContiguous(stored, |stored|);
    ExactReplay(rs, n, n);
    ClockMonotone(Rebuilt(rs, n), rs, bs, n);
  }
}
