/** The watchdog that times a command out by the resources it has used, not by the clock alone. */
module Watchdog {
  import opened Prelude
  import opened ResourceTimeline

  const CPU_EPS: real := 0.05
  const NET_EPS: real := 1024.0
  const PROGRESS_EPS: real := 0.000001
  const STALL_MIN: real := 5.0
  const STALL_MAX: real := 60.0

  /** A stretch of the source's virtual time with constant demand. */
  datatype Sample = Sample(start: real, end: real, cpu: real, rx: real, tx: real)
  {
    function Rate(r: Resource): real {
      match r case Cpu => cpu case Rx => rx case Tx => tx
    }
  }

  function Eps(r: Resource): real {
    if r == Cpu then CPU_EPS else NET_EPS
  }

  /** The demand of a sample for r is large enough to count. */
  predicate Demands(s: Sample, r: Resource) {
    s.Rate(r) >= Eps(r)
  }

  predicate HasDemand(s: Sample) {
    Demands(s, Cpu) || Demands(s, Rx) || Demands(s, Tx)
  }

  // -------------------------------------------------------------- source samples

  function NonnegativeOr0(v: Option<real>): real {
    if v.None? || v.value < 0.0 then 0.0 else v.value
  }

  predicate Counts(raw: Option<Stored>) {
    raw.Some? && NonnegativeOr0(raw.value.dt) > 0.0
  }

  function EndOf(samples: seq<Sample>): real {
    if samples == [] then 0.0 else samples[|samples| - 1].end
  }

  function SampleFrom(start: real, raw: Stored): Sample
    requires Counts(Some(raw))
  {
    var dt := NonnegativeOr0(raw.dt);
    Sample(start, start + dt,
           NonnegativeOr0(raw.used.cpu) / dt, NonnegativeOr0(raw.used.rx) / dt, NonnegativeOr0(raw.used.tx) / dt)
  }

  /** A sample is as long as its interval, and its rates over that length make up what was recorded, or nothing. */
  lemma SampleIsItsInterval(start: real, raw: Stored, r: Resource)
    requires raw.dt.Some? && raw.dt.value > 0.0
    ensures var s := SampleFrom(start, raw);
      && s.start == start && s.end - s.start == raw.dt.value
      && s.Rate(r) * raw.dt.value == if raw.used.Of(r).Some? && raw.used.Of(r).value > 0.0 then raw.used.Of(r).value else 0.0
  {
  }

  /** The samples of the first k stored intervals, laid end to end from zero. */
  function SourceSamples(raws: seq<Option<Stored>>, k: nat): seq<Sample>
    requires k <= |raws|
  {
    if k == 0 then []
    else
      var before := SourceSamples(raws, k - 1);
      if Counts(raws[k - 1]) then before + [SampleFrom(EndOf(before), raws[k - 1].value)] else before
  }

  method BuildSamples(raws: seq<Option<Stored>>) returns (samples: seq<Sample>)
    ensures samples == SourceSamples(raws, |raws|)
  {
    samples := [];
    var offset := 0.0;
    var i := 0;
    while i < |raws|
      invariant 0 <= i <= |raws|
      invariant samples == SourceSamples(raws, i) && offset == EndOf(samples)
    {
      if Counts(raws[i]) {
        var sample := SampleFrom(offset, raws[i].value);
        samples := samples + [sample];
        offset := sample.end;
      }
      i := i + 1;
    }
  }

  /** Samples that cover the time from zero to their end without a gap or an overlap. */
  ghost predicate Contiguous(samples: seq<Sample>) {
    && (samples != [] ==> samples[0].start == 0.0)
    && (forall i :: 0 <= i < |samples| ==> samples[i].start < samples[i].end)
    && (forall i :: 0 < i < |samples| ==> samples[i].start == samples[i - 1].end)
  }

  lemma {:induction false} SourceIsContiguous(raws: seq<Option<Stored>>, k: nat)
    requires k <= |raws|
    ensures Contiguous(SourceSamples(raws, k))
  {
    if k == 0 {
    } else {
      SourceIsContiguous(raws, k - 1);
    }
  }

  lemma {:induction false} SamplesInOrder(samples: seq<Sample>, i: nat, j: nat)
    requires Contiguous(samples) && i < j < |samples|
    ensures samples[i].end <= samples[j].start
  {
    if i == j - 1 {
    } else {
      SamplesInOrder(samples, i, j - 1);
      assert samples[j - 1].start < samples[j - 1].end;
    }
  }

  lemma {:induction false} StartsNonnegative(samples: seq<Sample>, i: nat)
    requires Contiguous(samples) && i < |samples|
    ensures samples[i].start >= 0.0
  {
    if i == 0 {
    } else {
      StartsNonnegative(samples, i - 1);
      assert samples[i - 1].start < samples[i - 1].end;
    }
  }

  predicate Holds(s: Sample, v: real) {
    s.start <= v < s.end
  }

  /** The first sample from i on that holds v, or the last one. */
  function IndexAt(samples: seq<Sample>, v: real, i: nat): (found: nat)
    requires i < |samples|
    ensures i <= found < |samples|
    decreases |samples| - i
  {
    if Holds(samples[i], v) || i == |samples| - 1 then i else IndexAt(samples, v, i + 1)
  }

  method SampleAt(samples: seq<Sample>, v: real) returns (found: Option<Sample>)
    ensures found == if samples == [] then None else Some(samples[IndexAt(samples, v, 0)])
  {
    if samples == [] {
      return None;
    }
    var i := 0;
    while i < |samples|
      invariant 0 <= i <= |samples|
      invariant i < |samples| ==> IndexAt(samples, v, 0) == IndexAt(samples, v, i)
      invariant i == |samples| ==> IndexAt(samples, v, 0) == |samples| - 1
    {
      if Holds(samples[i], v) {
        return Some(samples[i]);
      }
      i := i + 1;
    }
    found := Some(samples[|samples| - 1]);
  }

  /** Before the end of the source, the sample found holds the time. */
  lemma {:induction false} IndexHolds(samples: seq<Sample>, v: real, i: nat)
    requires Contiguous(samples) && i < |samples|
    requires samples[i].start <= v
    ensures v < EndOf(samples) ==> Holds(samples[IndexAt(samples, v, i)], v)
    decreases |samples| - i
  {
    if Holds(samples[i], v) || i == |samples| - 1 {
    } else {
      assert samples[i + 1].start == samples[i].end;
      IndexHolds(samples, v, i + 1);
    }
  }

  // -------------------------------------------------------------- one step of the clock

  function MinOf(a: Option<real>, b: Option<real>): Option<real> {
    if a.None? then b else if b.None? || a.value <= b.value then a else b
  }

  /** How far the use of r would carry the virtual clock. */
  function Candidate(s: Sample, used: Usage, r: Resource): Option<real> {
    if Demands(s, r) && used.Of(r).Some? then Some(used.Of(r).value / s.Rate(r)) else None
  }

  function Slowest(s: Sample, used: Usage): Option<real> {
    MinOf(Candidate(s, used, Cpu), MinOf(Candidate(s, used, Rx), Candidate(s, used, Tx)))
  }

  function Max0(x: real): real {
    if x > 0.0 then x else 0.0
  }

  /** The step of the virtual clock, clamped to the end of the current sample. */
  function Progress(samples: seq<Sample>, v: real, dt: real, used: Usage): real {
    if dt <= 0.0 then 0.0
    else if samples == [] || v >= EndOf(samples) then dt
    else
      var s := samples[IndexAt(samples, v, 0)];
      var slowest := Slowest(s, used);
      var step := if slowest.None? then dt else Max0(slowest.value);
      var room := Max0(s.end - v);
      if step < room then step else room
  }

  predicate ActiveDemand(samples: seq<Sample>, v: real) {
    samples != [] && HasDemand(samples[IndexAt(samples, v, 0)])
  }

  // -------------------------------------------------------------- the polling loop

  function WallStep(rs: seq<Reading>, k: nat): real
    requires 0 < k < |rs|
  {
    Max0(rs[k].time - rs[k - 1].time)
  }

  /** The virtual time after k polls; reading 0 precedes the first. */
  function Clock(samples: seq<Sample>, rs: seq<Reading>, k: nat): real
    requires k < |rs|
    decreases k, 0
  {
    if k == 0 then 0.0 else Clock(samples, rs, k - 1) + Advance(samples, rs, k)
  }

  function Advance(samples: seq<Sample>, rs: seq<Reading>, k: nat): real
    requires 0 < k < |rs|
    decreases k - 1, 1
  {
    Progress(samples, Clock(samples, rs, k - 1), WallStep(rs, k), UsageBetween(rs[k - 1], rs[k]))
  }

  /** When the clock last moved noticeably. */
  function LastProgress(samples: seq<Sample>, rs: seq<Reading>, k: nat): real
    requires k < |rs|
  {
    if k == 0 then rs[0].time
    else if Advance(samples, rs, k) > PROGRESS_EPS then rs[k].time
    else LastProgress(samples, rs, k - 1)
  }

  function StallTimeout(timeout: real): real {
    var capped := if STALL_MAX < timeout then STALL_MAX else timeout;
    if STALL_MIN < capped then capped else STALL_MIN
  }

  predicate TimesOut(samples: seq<Sample>, timeout: real, rs: seq<Reading>, k: nat)
    requires k < |rs|
  {
    Clock(samples, rs, k) >= timeout
  }

  predicate Stalls(samples: seq<Sample>, timeout: real, rs: seq<Reading>, k: nat)
    requires k < |rs|
  {
    && rs[k].time - LastProgress(samples, rs, k) >= StallTimeout(timeout)
    && ActiveDemand(samples, Clock(samples, rs, k))
  }

  predicate Stops(samples: seq<Sample>, timeout: real, rs: seq<Reading>, k: nat)
    requires k < |rs|
  {
    TimesOut(samples, timeout, rs, k) || Stalls(samples, timeout, rs, k)
  }

  /** Poll j is the last of the first k in which the clock moved by more than a microsecond, or the start. */
  ghost predicate LastMoved(samples: seq<Sample>, rs: seq<Reading>, k: nat, j: nat)
    requires k < |rs|
  {
    && j <= k && (j > 0 ==> Advance(samples, rs, j) > 0.000001)
    && forall i :: j < i <= k ==> Advance(samples, rs, i) <= 0.000001
  }

  /**
   * After k polls the clock has stood for five seconds at least, and for the whole timeout or a minute,
   * while the source used a twentieth of a core or a kilobyte a second.
   */
  ghost predicate StandsStill(samples: seq<Sample>, timeout: real, rs: seq<Reading>, k: nat)
    requires k < |rs|
  {
    && (exists j: nat :: LastMoved(samples, rs, k, j) && rs[k].time - rs[j].time >= 5.0
          && (rs[k].time - rs[j].time >= timeout || rs[k].time - rs[j].time >= 60.0))
    && samples != []
    && var s := samples[IndexAt(samples, Clock(samples, rs, k), 0)];
       s.cpu >= 0.05 || s.rx >= 1024.0 || s.tx >= 1024.0
  }

  lemma {:induction false} LastProgressIsLastMove(samples: seq<Sample>, rs: seq<Reading>, k: nat) returns (j: nat)
    requires k < |rs|
    ensures LastMoved(samples, rs, k, j) && LastProgress(samples, rs, k) == rs[j].time
  {
    if k == 0 || Advance(samples, rs, k) > PROGRESS_EPS {
      j := k;
    } else {
      j := LastProgressIsLastMove(samples, rs, k - 1);
    }
  }

  lemma OneLastMove(samples: seq<Sample>, rs: seq<Reading>, k: nat, i: nat, j: nat)
    requires k < |rs| && LastMoved(samples, rs, k, i) && LastMoved(samples, rs, k, j)
    ensures i == j
  {
  }

  /** What a stall is, in numbers. */
  lemma StallsMeans(samples: seq<Sample>, timeout: real, rs: seq<Reading>, k: nat)
    requires 0 < k < |rs|
    ensures Stalls(samples, timeout, rs, k) <==> StandsStill(samples, timeout, rs, k)
  {
    var j := LastProgressIsLastMove(samples, rs, k);
    if i: nat :| LastMoved(samples, rs, k, i) && i != j {
      OneLastMove(samples, rs, k, i, j);
    }
  }

  /** The clock has not reached the timeout and does not stand still. */
  ghost predicate GoesOn(samples: seq<Sample>, timeout: real, rs: seq<Reading>, k: nat)
    requires k < |rs|
  {
    Clock(samples, rs, k) < timeout && !StandsStill(samples, timeout, rs, k)
  }

  lemma StopsMeans(samples: seq<Sample>, timeout: real, rs: seq<Reading>, k: nat)
    requires 0 < k < |rs|
    ensures Stalls(samples, timeout, rs, k) <==> StandsStill(samples, timeout, rs, k)
    ensures Stops(samples, timeout, rs, k) <==> !GoesOn(samples, timeout, rs, k)
  {
    StallsMeans(samples, timeout, rs, k);
  }

  datatype End = Exited | VirtualTimeout | StallTimeoutEnd

  /** The step of the clock for one poll. */
  method ProgressIncrement(samples: seq<Sample>, v: real, dt: real, used: Usage) returns (step: real)
    ensures step == Progress(samples, v, dt, used)
  {
    if dt <= 0.0 {
      return 0.0;
    }
    if samples == [] || v >= EndOf(samples) {
      return dt;
    }
    var found := SampleAt(samples, v);
    var slowest := Slowest(found.value, used);
    step := if slowest.None? then dt else Max0(slowest.value);
    var room := Max0(found.value.end - v);
    if room <= step {
      step := room;
    }
  }

  method HasActiveDemand(samples: seq<Sample>, v: real) returns (active: bool)
    ensures active <==> ActiveDemand(samples, v)
  {
    var found := SampleAt(samples, v);
    active := found.Some? && HasDemand(found.value);
  }

  /** The process exits by itself after exitAfter polls, unless the loop kills it first. */
  method Watch(samples: seq<Sample>, timeout: real, rs: seq<Reading>, exitAfter: nat)
    returns (end: End, polls: nat, virtual: real)
    requires exitAfter < |rs|
    ensures polls <= exitAfter && virtual == Clock(samples, rs, polls)
    ensures forall k :: 0 < k < polls ==> !Stops(samples, timeout, rs, k)
    ensures end.Exited? ==> polls == exitAfter && (polls > 0 ==> !Stops(samples, timeout, rs, polls))
    ensures end.VirtualTimeout? ==> polls > 0 && TimesOut(samples, timeout, rs, polls)
    ensures end.StallTimeoutEnd? ==> polls > 0 && Stalls(samples, timeout, rs, polls) && !TimesOut(samples, timeout, rs, polls)
    ensures end.VirtualTimeout? ==> virtual >= timeout
    ensures end.StallTimeoutEnd? ==> virtual < timeout && StandsStill(samples, timeout, rs, polls)
    ensures forall k :: 0 < k < polls ==> GoesOn(samples, timeout, rs, k)
    ensures end.Exited? && polls > 0 ==> GoesOn(samples, timeout, rs, polls)
  {
    virtual := 0.0;
    polls := 0;
    var last := rs[0];
    var lastProgress := last.time;
    while polls < exitAfter
      invariant 0 <= polls <= exitAfter
      invariant virtual == Clock(samples, rs, polls) && last == rs[polls]
      invariant lastProgress == LastProgress(samples, rs, polls)
      invariant forall k :: 0 < k <= polls ==> !Stops(samples, timeout, rs, k)
      invariant forall k :: 0 < k <= polls ==> GoesOn(samples, timeout, rs, k)
    {
      polls := polls + 1;
      StopsMeans(samples, timeout, rs, polls);
      var current := rs[polls];
      var dt := Max0(current.time - last.time);
      var step := ProgressIncrement(samples, virtual, dt, UsageBetween(last, current));
      virtual := virtual + step;
      if step > PROGRESS_EPS {
        lastProgress := current.time;
      }
      if virtual >= timeout {
        return VirtualTimeout, polls, virtual;
      }
      var active := HasActiveDemand(samples, virtual);
      if current.time - lastProgress >= StallTimeout(timeout) && active {
        return StallTimeoutEnd, polls, virtual;
      }
      last := current;
    }
    end := Exited;
  }
}
