/** What holds over whole runs of the watchdog: order, demand and termination. */
module WatchdogRuns {
  import opened Prelude
  import opened ResourceTimeline
  import opened Watchdog

  // ---------------------------------------------------------------- order of two runs

  predicate AtMost(a: Option<real>, b: Option<real>) {
    if a.None? then b.None? else b.Some? && a.value <= b.value
  }

  /** The same counters are readable, and b used at least as much of each as a. */
  predicate UsesAtMost(a: Usage, b: Usage) {
    AtMost(a.cpu, b.cpu) && AtMost(a.rx, b.rx) && AtMost(a.tx, b.tx)
  }

  lemma SlowestMonotone(s: Sample, a: Usage, b: Usage)
    requires UsesAtMost(a, b)
    ensures AtMost(Slowest(s, a), Slowest(s, b))
  {
    MinMonotone(Candidate(s, a, Rx), Candidate(s, b, Rx), Candidate(s, a, Tx), Candidate(s, b, Tx));
    MinMonotone(Candidate(s, a, Cpu), Candidate(s, b, Cpu),
                MinOf(Candidate(s, a, Rx), Candidate(s, a, Tx)), MinOf(Candidate(s, b, Rx), Candidate(s, b, Tx)));
  }

  lemma MinMonotone(a: Option<real>, a': Option<real>, b: Option<real>, b': Option<real>)
    requires AtMost(a, a') && AtMost(b, b')
    ensures AtMost(MinOf(a, b), MinOf(a', b'))
  {
  }

  /** One step never leaves the sample it starts in, nor moves back. */
  lemma StepStaysInSample(samples: seq<Sample>, v: real, dt: real, used: Usage)
    requires Contiguous(samples) && 0.0 <= v
    ensures Progress(samples, v, dt, used) >= 0.0
    ensures samples != [] && v < EndOf(samples) ==>
      var s := samples[IndexAt(samples, v, 0)];
      Holds(s, v) && v + Progress(samples, v, dt, used) <= s.end <= EndOf(samples)
  {
    if samples != [] && v < EndOf(samples) {
      IndexHolds(samples, v, 0);
      var i := IndexAt(samples, v, 0);
      if i < |samples| - 1 {
        SamplesInOrder(samples, i, |samples| - 1);
      }
    }
  }

  /** The run that is behind stays behind or level, whatever samples the two are in. */
  lemma StepMonotone(samples: seq<Sample>, va: real, vb: real, dta: real, dtb: real, a: Usage, b: Usage)
    requires Contiguous(samples) && 0.0 <= va <= vb && dta <= dtb && UsesAtMost(a, b)
    ensures va + Progress(samples, va, dta, a) <= vb + Progress(samples, vb, dtb, b)
  {
    StepStaysInSample(samples, va, dta, a);
    StepStaysInSample(samples, vb, dtb, b);
    if samples != [] && va < EndOf(samples) && dta > 0.0 && vb < EndOf(samples) {
      var i, j := IndexAt(samples, va, 0), IndexAt(samples, vb, 0);
      if i == j {
        SlowestMonotone(samples[i], a, b);
      } else if i < j {
        SamplesInOrder(samples, i, j);
      } else {
        SamplesInOrder(samples, j, i);
        assert false;
      }
    }
  }

  lemma {:induction false} ClockNonnegative(samples: seq<Sample>, rs: seq<Reading>, k: nat)
    requires Contiguous(samples) && k < |rs|
    ensures Clock(samples, rs, k) >= 0.0
  {
    if k == 0 {
    } else {
      ClockNonnegative(samples, rs, k - 1);
      StepStaysInSample(samples, Clock(samples, rs, k - 1), WallStep(rs, k), UsageBetween(rs[k - 1], rs[k]));
    }
  }

  /** Poll by poll, run b takes at least the wall time and uses at least the resources of run a. */
  ghost predicate Dominates(bs: seq<Reading>, as_: seq<Reading>, n: nat)
    requires n < |as_| && n < |bs|
  {
    forall k :: 0 < k <= n ==>
      WallStep(as_, k) <= WallStep(bs, k) && UsesAtMost(UsageBetween(as_[k - 1], as_[k]), UsageBetween(bs[k - 1], bs[k]))
  }

  /** A run that dominates another is never behind it on the virtual clock. */
  lemma {:induction false} ClockMonotone(samples: seq<Sample>, as_: seq<Reading>, bs: seq<Reading>, n: nat)
    requires Contiguous(samples) && n < |as_| && n < |bs| && Dominates(bs, as_, n)
    ensures Clock(samples, as_, n) <= Clock(samples, bs, n)
  {
    if n == 0 {
    } else {
      ClockMonotone(samples, as_, bs, n - 1);
      ClockNonnegative(samples, as_, n - 1);
      StepMonotone(samples, Clock(samples, as_, n - 1), Clock(samples, bs, n - 1), WallStep(as_, n), WallStep(bs, n),
                   UsageBetween(as_[n - 1], as_[n]), UsageBetween(bs[n - 1], bs[n]));
    }
  }

  /** The step without its clamp. */
  function Unclamped(samples: seq<Sample>, v: real, dt: real, used: Usage): real {
    if samples == [] || v >= EndOf(samples) then dt
    else
      var slowest := Slowest(samples[IndexAt(samples, v, 0)], used);
      if slowest.None? then dt else Max0(slowest.value)
  }

  /** Without the clamp a run that is ahead, in a hungrier sample, falls behind on the same usage. */
  lemma ClampIsNeeded()
    ensures exists samples: seq<Sample>, va, vb, used ::
      Contiguous(samples) && 0.0 <= va <= vb
      && va + Unclamped(samples, va, 1.0, used) > vb + Unclamped(samples, vb, 1.0, used)
  {
    var samples := [Sample(0.0, 1.0, 1.0, 0.0, 0.0), Sample(1.0, 9.0, 8.0, 0.0, 0.0)];
    var used := Usage(Some(4.0), None, None);
    assert IndexAt(samples, 1.0, 1) == 1;
    assert IndexAt(samples, 0.0, 0) == 0 && IndexAt(samples, 1.0, 0) == 1;
    assert Slowest(samples[0], used) == Some(4.0) && Slowest(samples[1], used) == Some(0.5);
    assert Contiguous(samples);
    assert 0.0 + Unclamped(samples, 0.0, 1.0, used) > 1.0 + Unclamped(samples, 1.0, 1.0, used);
  }

  // -------------------------------------------------------------------- demand

  function ActiveRate(s: Sample, r: Resource): real {
    if Demands(s, r) then s.Rate(r) else 0.0
  }

  /** How much of s lies before v. */
  function Overlap(s: Sample, v: real): real {
    if v <= s.start then 0.0 else if v < s.end then v - s.start else s.end - s.start
  }

  /** The active demand of each sample for r that lies before v. */
  function Shares(samples: seq<Sample>, r: Resource, v: real): (shares: seq<real>)
    ensures |shares| == |samples|
  {
    seq(|samples|, i requires 0 <= i < |samples| => ActiveRate(samples[i], r) * Overlap(samples[i], v))
  }

  /** The active demand of the source for r, integrated from zero to v. */
  function Demand(samples: seq<Sample>, r: Resource, v: real): real {
    Sum(Shares(samples, r, v))
  }

  /** What the replay has consumed of r by poll k. */
  function Consumed(rs: seq<Reading>, r: Resource, k: nat): real
    requires k < |rs|
  {
    if k == 0 then 0.0
    else
      var used := UsageBetween(rs[k - 1], rs[k]).Of(r);
      Consumed(rs, r, k - 1) + if used.Some? then used.value else 0.0
  }

  ghost predicate ReadableThrough(rs: seq<Reading>, r: Resource, k: nat)
    requires k < |rs|
  {
    forall i :: 0 <= i <= k ==> rs[i].Of(r).Some?
  }

  /** Two sums that differ in one place only. */
  lemma {:induction false} SumDiffersAt(xs: seq<real>, ys: seq<real>, i: nat, x: real)
    requires |xs| == |ys| && i < |xs| && ys[i] == xs[i] + x
    requires forall j :: 0 <= j < |xs| && j != i ==> xs[j] == ys[j]
    ensures Sum(ys) == Sum(xs) + x
  {
    var n := |xs| - 1;
    if i == n {
      assert xs[..n] == ys[..n];
    } else {
      SumDiffersAt(xs[..n], ys[..n], i, x);
    }
  }

  lemma DemandAfterEnd(samples: seq<Sample>, r: Resource, v: real, w: real)
    requires Contiguous(samples) && v <= w && (samples != [] ==> v >= EndOf(samples))
    ensures Demand(samples, r, w) == Demand(samples, r, v)
  {
    forall j | 0 <= j < |samples|
      ensures Overlap(samples[j], v) == Overlap(samples[j], w)
    {
      if j < |samples| - 1 {
        SamplesInOrder(samples, j, |samples| - 1);
        assert samples[|samples| - 1].start < samples[|samples| - 1].end;
      }
    }
    var xs, ys := Shares(samples, r, v), Shares(samples, r, w);
    assert forall j :: 0 <= j < |samples| ==> xs[j] == ys[j];
    assert xs == ys;
  }

  lemma DemandInSample(samples: seq<Sample>, r: Resource, i: nat, v: real, step: real)
    requires Contiguous(samples) && i < |samples| && step >= 0.0
    requires samples[i].start <= v && v + step <= samples[i].end
    ensures Demand(samples, r, v + step) == Demand(samples, r, v) + ActiveRate(samples[i], r) * step
  {
    var xs, ys := Shares(samples, r, v), Shares(samples, r, v + step);
    forall j | 0 <= j < |samples| && j != i
      ensures xs[j] == ys[j]
    {
      if j < i { SamplesInOrder(samples, j, i); } else { SamplesInOrder(samples, i, j); }
      assert samples[j].start < samples[j].end;
      assert Overlap(samples[j], v) == Overlap(samples[j], v + step);
    }
    assert Overlap(samples[i], v + step) == Overlap(samples[i], v) + step;
    SumDiffersAt(xs, ys, i, ActiveRate(samples[i], r) * step);
  }

  lemma DrawnAtMost(s: Sample, used: Usage, r: Resource, step: real)
    requires used.Of(r).Some? && used.Of(r).value >= 0.0
    requires Demands(s, r) ==> step <= Candidate(s, used, r).value
    ensures ActiveRate(s, r) * step <= used.Of(r).value
  {
  }

  lemma StepInSample(samples: seq<Sample>, i: nat, v: real, step: real, used: Usage, r: Resource)
    requires Contiguous(samples) && i < |samples| && step >= 0.0
    requires samples[i].start <= v && v + step <= samples[i].end
    requires used.Of(r).Some? && used.Of(r).value >= 0.0
    requires Demands(samples[i], r) ==> step <= Candidate(samples[i], used, r).value
    ensures Demand(samples, r, v + step) <= Demand(samples, r, v) + used.Of(r).value
  {
    DrawnAtMost(samples[i], used, r, step);
    DemandInSample(samples, r, i, v, step);
  }

  /** A step never asks more of an active, readable resource than the poll consumed. */
  lemma StepWithinUse(samples: seq<Sample>, v: real, dt: real, used: Usage, r: Resource)
    requires Contiguous(samples) && 0.0 <= v
    requires used.Of(r).Some? && used.Of(r).value >= 0.0
    ensures Demand(samples, r, v + Progress(samples, v, dt, used)) <= Demand(samples, r, v) + used.Of(r).value
  {
    var step := Progress(samples, v, dt, used);
    StepStaysInSample(samples, v, dt, used);
    if samples == [] || v >= EndOf(samples) {
      DemandAfterEnd(samples, r, v, v + step);
    } else {
      var i := IndexAt(samples, v, 0);
      StepInSample(samples, i, v, step, used, r);
    }
  }

  /** Over any run, the source demand up to the virtual time is at most what the replay consumed. */
  lemma {:induction false} DemandBound(samples: seq<Sample>, rs: seq<Reading>, r: Resource, k: nat)
    requires Contiguous(samples) && k < |rs| && ReadableThrough(rs, r, k)
    ensures Demand(samples, r, Clock(samples, rs, k)) <= Consumed(rs, r, k)
  {
    if k == 0 {
      DemandAtZero(samples, r);
    } else {
      DemandBound(samples, rs, r, k - 1);
      ClockNonnegative(samples, rs, k - 1);
      assert rs[k - 1].Of(r).Some? && rs[k].Of(r).Some?;
      StepWithinUse(samples, Clock(samples, rs, k - 1), WallStep(rs, k), UsageBetween(rs[k - 1], rs[k]), r);
    }
  }

  lemma DemandAtZero(samples: seq<Sample>, r: Resource)
    requires Contiguous(samples)
    ensures Demand(samples, r, 0.0) == 0.0
  {
    forall j | 0 <= j < |samples|
      ensures Shares(samples, r, 0.0)[j] == 0.0
    {
      StartsNonnegative(samples, j);
    }
    SumOfZeros(Shares(samples, r, 0.0));
  }

  lemma {:induction false} SumOfZeros(xs: seq<real>)
    requires forall j :: 0 <= j < |xs| ==> xs[j] == 0.0
    ensures Sum(xs) == 0.0
  {
    if xs == [] {
    } else {
      SumOfZeros(xs[..|xs| - 1]);
    }
  }

  /** On counters that only grow, consumption is the difference of the end readings. */
  lemma {:induction false} ConsumedIsDifference(rs: seq<Reading>, r: Resource, k: nat)
    requires k < |rs| && ReadableThrough(rs, r, k)
    requires forall i :: 0 < i <= k ==> rs[i - 1].Of(r).value <= rs[i].Of(r).value
    ensures Consumed(rs, r, k) == rs[k].Of(r).value - rs[0].Of(r).value
  {
    if k == 0 {
    } else {
      ConsumedIsDifference(rs, r, k - 1);
      assert rs[k - 1].Of(r).value <= rs[k].Of(r).value;
    }
  }
}
