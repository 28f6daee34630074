/** Cumulative resource counters, and the per-interval timeline recorded from them. */
module ResourceTimeline {
  import opened Prelude

  datatype Resource = Cpu | Rx | Tx

  /** One reading of the clock and of the cumulative counters; a counter may be unreadable. */
  datatype Reading = Reading(time: real, cpu: Option<real>, rx: Option<real>, tx: Option<real>)
  {
    function Of(r: Resource): Option<real> {
      match r case Cpu => cpu case Rx => rx case Tx => tx
    }
  }

  /** The increase of one counter, never negative. */
  function CounterDelta(previous: Option<real>, current: Option<real>): Option<real> {
    if previous.None? || current.None? then None
    else if current.value > previous.value then Some(current.value - previous.value)
    else Some(0.0)
  }

  /** What one interval used. */
  datatype Usage = Usage(cpu: Option<real>, rx: Option<real>, tx: Option<real>)
  {
    function Of(r: Resource): Option<real> {
      match r case Cpu => cpu case Rx => rx case Tx => tx
    }
  }

  function UsageBetween(previous: Reading, current: Reading): Usage {
    Usage(CounterDelta(previous.cpu, current.cpu),
          CounterDelta(previous.rx, current.rx),
          CounterDelta(previous.tx, current.tx))
  }

  datatype Delta = Delta(offset: real, dt: real, used: Usage)

  /** The delta between two readings; none when no time passed or nothing could be read. */
  function ResourceDelta(previous: Reading, current: Reading): Option<Delta> {
    var used := UsageBetween(previous, current);
    if current.time - previous.time <= 0.0 || (used.cpu.None? && used.rx.None? && used.tx.None?) then None
    else Some(Delta(current.time, current.time - previous.time, used))
  }

  /**
   * A delta there is exactly when time has passed and some counter can be read twice; it holds that time
   * and, for each counter read twice, the increase, or zero when the counter has gone back.
   */
  lemma DeltaMeans(previous: Reading, current: Reading, r: Resource)
    ensures var delta := ResourceDelta(previous, current);
      && (delta.Some? <==>
            current.time > previous.time && exists q: Resource :: previous.Of(q).Some? && current.Of(q).Some?)
      && (delta.Some? ==> delta.value.dt == current.time - previous.time)
      && (delta.Some? ==> (delta.value.used.Of(r).Some? <==> previous.Of(r).Some? && current.Of(r).Some?))
      && (delta.Some? && delta.value.used.Of(r).Some? ==>
            var increase := current.Of(r).value - previous.Of(r).value;
            delta.value.used.Of(r).value == if increase > 0.0 then increase else 0.0)
  {
    var delta := ResourceDelta(previous, current);
    if delta.Some? {
      var q := if delta.value.used.cpu.Some? then Cpu else if delta.value.used.rx.Some? then Rx else Tx;
      assert previous.Of(q).Some? && current.Of(q).Some?;
    }
    if q: Resource :| previous.Of(q).Some? && current.Of(q).Some? {
      assert UsageBetween(previous, current).Of(q).Some?;
    }
  }

  // ------------------------------------------------------------------ recorder

  /** The samples after readings 0 to k, offsets counted from the first. */
  function Recorded(rs: seq<Reading>, k: nat): seq<Delta>
    requires k < |rs|
  {
    if k == 0 then []
    else
      var delta := ResourceDelta(rs[k - 1], rs[k]);
      Recorded(rs, k - 1)
      + if delta.Some? then [delta.value.(offset := rs[k].time - rs[0].time)] else []
  }

  class Recorder {
    var startedAt: Option<real>
    var last: Option<Reading>
    var samples: seq<Delta>

    constructor ()
      ensures startedAt.None? && last.None? && samples == []
    {
      startedAt, last, samples := None, None, [];
    }

    /** The recorder has taken the readings rs. */
    ghost predicate Holds(rs: seq<Reading>)
      reads this
    {
      rs != [] && startedAt == Some(rs[0].time) && last == Some(rs[|rs| - 1]) && samples == Recorded(rs, |rs| - 1)
    }

    method Enter(initial: Reading)
      requires samples == []
      modifies this
      ensures Holds([initial])
    {
      startedAt := Some(initial.time);
      last := Some(initial);
    }

    method AppendCurrentDelta(current: Reading, ghost rs: seq<Reading>)
      requires Holds(rs)
      modifies this
      ensures Holds(rs + [current])
    {
      var delta := ResourceDelta(last.value, current);
      last := Some(current);
      if delta.Some? {
        samples := samples + [delta.value.(offset := current.time - startedAt.value)];
      }
      RecordedPrefix(rs, current, |rs| - 1);
    }
  }

  lemma {:induction false} RecordedPrefix(rs: seq<Reading>, next: Reading, k: nat)
    requires k < |rs|
    ensures Recorded(rs + [next], k) == Recorded(rs, k)
  {
    if k == 0 {
    } else {
      RecordedPrefix(rs, next, k - 1);
    }
  }

  function TotalTime(samples: seq<Delta>): real {
    if samples == [] then 0.0 else TotalTime(samples[..|samples| - 1]) + samples[|samples| - 1].dt
  }

  /** The time of interval k that no sample accounts for. */
  function Lost(rs: seq<Reading>, k: nat): real
    requires k + 1 < |rs|
  {
    if ResourceDelta(rs[k], rs[k + 1]).Some? then 0.0 else rs[k + 1].time - rs[k].time
  }

  function TotalLost(rs: seq<Reading>, k: nat): real
    requires k < |rs|
  {
    if k == 0 then 0.0 else TotalLost(rs, k - 1) + Lost(rs, k - 1)
  }

  /** At least delta passes before reading k. */
  predicate Passes(rs: seq<Reading>, k: nat, delta: real)
    requires 0 < k < |rs|
  {
    rs[k].time - rs[k - 1].time >= delta
  }

  ghost predicate Paced(rs: seq<Reading>, delta: real) {
    forall k {:trigger Passes(rs, k, delta)} :: 0 < k < |rs| ==> Passes(rs, k, delta)
  }

  /** The recorded intervals and the lost ones together fill the elapsed time. */
  lemma {:induction false} TimeIsConserved(rs: seq<Reading>, k: nat)
    requires k < |rs|
    ensures TotalTime(Recorded(rs, k)) + TotalLost(rs, k) == rs[k].time - rs[0].time
  {
    if k == 0 {
    } else {
      TimeIsConserved(rs, k - 1);
      var delta := ResourceDelta(rs[k - 1], rs[k]);
      var before, now := Recorded(rs, k - 1), Recorded(rs, k);
      if delta.Some? {
        assert now[..|now| - 1] == before;
        assert delta.value.dt == rs[k].time - rs[k - 1].time;
      } else {
        assert now == before;
      }
    }
  }

  lemma {:induction false} LostIsZero(rs: seq<Reading>, k: nat)
    requires k < |rs| && Paced(rs, 0.0)
    ensures TotalLost(rs, k) >= 0.0
    ensures TotalLost(rs, k) == 0.0 <==> forall i :: 0 <= i < k ==> Lost(rs, i) == 0.0
  {
    if k == 0 {
    } else {
      LostIsZero(rs, k - 1);
      assert Passes(rs, k, 0.0);
      assert Lost(rs, k - 1) >= 0.0;
    }
  }

  /** On a clock that never runs back, the recording fills the elapsed time exactly when no interval was lost. */
  lemma RecordedTime(rs: seq<Reading>, k: nat)
    requires k < |rs| && Paced(rs, 0.0)
    ensures TotalTime(Recorded(rs, k)) == rs[k].time - rs[0].time <==>
            forall i :: 0 <= i < k ==> Lost(rs, i) == 0.0
  {
    TimeIsConserved(rs, k);
    LostIsZero(rs, k);
  }

  // ----------------------------------------------------------------- validation

  /** One sample of a stored timeline; None stands for a field that is absent or no number. */
  datatype Stored = Stored(dt: Option<real>, used: Usage)

  predicate Nonnegative(v: Option<real>) {
    v.Some? && v.value >= 0.0
  }

  predicate IsValidSample(s: Stored) {
    && s.dt.Some? && s.dt.value > 0.0
    && (Nonnegative(s.used.cpu) || Nonnegative(s.used.rx) || Nonnegative(s.used.tx))
  }

  /** A sample is usable when it has a positive length and some counter that is not negative. */
  lemma ValidSampleMeans(s: Stored)
    ensures IsValidSample(s) <==>
      s.dt.Some? && s.dt.value > 0.0 && exists r: Resource :: s.used.Of(r).Some? && s.used.Of(r).value >= 0.0
  {
    assert s.used.Of(Cpu) == s.used.cpu && s.used.Of(Rx) == s.used.rx && s.used.Of(Tx) == s.used.tx;
  }

  /**
   * A stored value before any check: version is None when it is missing or no number, samples None when
   * they are no list, and a sample None when it is no object.
   */
  datatype RawTimeline =
    | NotAnObject
    | Timeline(version: Option<int>, samples: Option<seq<Option<Stored>>>)

  const TIMELINE_VERSION := 1

  method ValidTimeline(value: RawTimeline) returns (valid: bool)
    ensures valid <==>
      && value.Timeline? && value.version == Some(1) && value.samples.Some?
      && exists s :: Some(s) in value.samples.value && IsValidSample(s)
  {
    valid := false;
    if value.NotAnObject? || value.version != Some(TIMELINE_VERSION) || value.samples.None? {
      return;
    }
    var samples := value.samples.value;
    var i := 0;
    while i < |samples| && !valid
      invariant 0 <= i <= |samples|
      invariant valid ==> exists s :: Some(s) in samples && IsValidSample(s)
      invariant !valid ==> forall j :: 0 <= j < i ==> !(samples[j].Some? && IsValidSample(samples[j].value))
    {
      if samples[i].Some? && IsValidSample(samples[i].value) {
        valid := true;
      }
      i := i + 1;
    }
  }

  /** A recorded delta as the trace stores it. */
  function Store(d: Delta): Option<Stored> {
    Some(Stored(Some(d.dt), d.used))
  }

  function StoreAll(samples: seq<Delta>): seq<Option<Stored>> {
    if samples == [] then [] else StoreAll(samples[..|samples| - 1]) + [Store(samples[|samples| - 1])]
  }
}
