/** The idle time of a source trace: the gap slept before each replayed action. */
module SourceGaps {
  import opened Prelude

  /** What an action's checkpoint note says; elapsedMs is None when it is no number. */
  datatype Note = NoNote | Note(overheadExcluded: bool, elapsedMs: Option<real>)

  datatype Action = Action(start: real, end: real, after: Note, afterError: Note)

  function Max(a: real, b: real): real {
    if a >= b then a else b
  }

  /** Checkpoint overhead that follows the action and is not part of the source's idle time. */
  function ExcludedOverhead(a: Action): real {
    var note := if a.after.Note? then a.after else a.afterError;
    if note.Note? && note.overheadExcluded && note.elapsedMs.Some? then Max(0.0, note.elapsedMs.value / 1000.0)
    else 0.0
  }

  function EffectiveEnd(a: Action): real {
    a.end + ExcludedOverhead(a)
  }

  /**
   * An action ends later than recorded exactly by the milliseconds its checkpoint took, when its note
   * says they are left out of the trace; the note of a failed checkpoint counts when there is no other.
   */
  lemma OverheadMeans(a: Action, excluded: bool, ms: Option<real>)
    ensures a.after == Note(excluded, ms) || (a.after == NoNote && a.afterError == Note(excluded, ms)) ==>
      EffectiveEnd(a) - a.end == if excluded && ms.Some? && ms.value > 0.0 then ms.value / 1000.0 else 0.0
    ensures a.after == NoNote && a.afterError == NoNote ==> EffectiveEnd(a) == a.end
  {
  }

  /** Loading sorts the actions by start; validation refuses an action that ends before it starts. */
  ghost predicate Loaded(actions: seq<Action>) {
    && (forall i, j :: 0 <= i < j < |actions| ==> actions[i].start <= actions[j].start)
    && (forall i :: 0 <= i < |actions| ==> actions[i].start <= actions[i].end)
  }

  /** The latest effective end among the first n actions. */
  function Frontier(actions: seq<Action>, n: nat): real
    requires 0 < n <= |actions|
  {
    if n == 1 then EffectiveEnd(actions[0])
    else Max(EffectiveEnd(actions[n - 1]), Frontier(actions, n - 1))
  }

  function Gap(actions: seq<Action>, i: nat): real
    requires i < |actions|
  {
    if i == 0 then 0.0 else Max(0.0, actions[i].start - Frontier(actions, i))
  }

  /** The sleep requested before each action; none is requested before the first. */
  method RequestSleeps(actions: seq<Action>, speed: real) returns (sleeps: seq<real>)
    requires speed > 0.0
    ensures |sleeps| == |actions|
    ensures forall i :: 0 <= i < |actions| ==> sleeps[i] * speed == Gap(actions, i)
  {
    sleeps := [];
    var previousSourceEnd: Option<real> := None;
    for i := 0 to |actions|
      invariant |sleeps| == i
      invariant previousSourceEnd == if i == 0 then None else Some(Frontier(actions, i))
      invariant forall k :: 0 <= k < i ==> sleeps[k] * speed == Gap(actions, k)
    {
      var gap := if previousSourceEnd.None? then 0.0 else Max(0.0, actions[i].start - previousSourceEnd.value);
      DivideAndMultiply(gap, speed);
      sleeps := sleeps + [gap / speed];
      var end := EffectiveEnd(actions[i]);
      previousSourceEnd := Some(Max(end, if previousSourceEnd.Some? then previousSourceEnd.value else end));
    }
  }

  lemma DivideAndMultiply(x: real, y: real)
    requires y != 0.0
    ensures (x / y) * y == x
  {
  }

  // -------------------------------------------------------- gaps are idle time

  ghost predicate InGap(actions: seq<Action>, i: nat, t: real) {
    0 < i < |actions| && Frontier(actions, i) <= t < actions[i].start
  }

  ghost predicate Covers(a: Action, t: real) {
    a.start <= t < EffectiveEnd(a)
  }

  ghost predicate Busy(actions: seq<Action>, n: nat, t: real)
    requires n <= |actions|
  {
    exists i :: 0 <= i < n && Covers(actions[i], t)
  }

  lemma {:induction false} FrontierDominates(actions: seq<Action>, i: nat, n: nat)
    requires i < n <= |actions|
    ensures EffectiveEnd(actions[i]) <= Frontier(actions, n)
    decreases n
  {
    if i == n - 1 {
    } else {
      FrontierDominates(actions, i, n - 1);
    }
  }

  lemma {:induction false} FrontierIsReached(actions: seq<Action>, n: nat) returns (i: nat)
    requires 0 < n <= |actions|
    ensures i < n && EffectiveEnd(actions[i]) == Frontier(actions, n)
  {
    if n == 1 || EffectiveEnd(actions[n - 1]) >= Frontier(actions, n - 1) {
      i := n - 1;
    } else {
      i := FrontierIsReached(actions, n - 1);
    }
  }

  /** Each gap ends before the next begins: no idle moment is slept twice. */
  lemma GapsAreDisjoint(actions: seq<Action>, i: nat, j: nat, t: real)
    requires Loaded(actions) && i < j < |actions|
    ensures !(InGap(actions, i, t) && InGap(actions, j, t))
    ensures i > 0 ==> actions[i].start <= Frontier(actions, j)
  {
    FrontierDominates(actions, i, j);
  }

  /** No gap meets an action, whichever lane it belongs to, before or after the gap. */
  lemma GapIsIdle(actions: seq<Action>, i: nat, t: real)
    requires Loaded(actions) && InGap(actions, i, t)
    ensures actions[0].start <= t < Frontier(actions, |actions|) && !Busy(actions, |actions|, t)
  {
    FrontierDominates(actions, 0, i);
    FrontierDominates(actions, i, |actions|);
    forall k | 0 <= k < |actions|
      ensures !Covers(actions[k], t)
    {
      if k < i {
        FrontierDominates(actions, k, i);
      }
    }
  }

  /** A moment before the n-th start that no action covers lies in one of the first n gaps. */
  lemma {:induction false} IdleIsInGap(actions: seq<Action>, n: nat, t: real) returns (i: nat)
    requires Loaded(actions) && 0 < n <= |actions|
    requires actions[0].start <= t < Frontier(actions, n) && !Busy(actions, |actions|, t)
    ensures i < n && InGap(actions, i, t)
  {
    var k := FrontierIsReached(actions, n);
    assert !Covers(actions[k], t);
    assert t < actions[k].start;
    if t < Frontier(actions, k) {
      i := IdleIsInGap(actions, k, t);
    } else {
      i := k;
    }
  }

  /** The gaps are exactly the moments of the source's span that no action covers. */
  lemma GapsAreTheIdleTime(actions: seq<Action>, t: real)
    requires Loaded(actions) && actions != []
    ensures (exists i :: InGap(actions, i, t)) <==>
            actions[0].start <= t < Frontier(actions, |actions|) && !Busy(actions, |actions|, t)
  {
    if i :| InGap(actions, i, t) {
      GapIsIdle(actions, i, t);
    } else if actions[0].start <= t < Frontier(actions, |actions|) && !Busy(actions, |actions|, t) {
      var i := IdleIsInGap(actions, |actions|, t);
      assert InGap(actions, i, t);
    }
  }

  // ------------------------------------------------------------- and add up

  function SumGaps(actions: seq<Action>, n: nat): real
    requires n <= |actions|
  {
    if n == 0 then 0.0 else SumGaps(actions, n - 1) + Gap(actions, n - 1)
  }

  /** By how much action i moves the frontier on from its own start or from the old frontier. */
  function Advance(actions: seq<Action>, i: nat): real
    requires i < |actions|
  {
    var base := if i == 0 then actions[0].start else Max(actions[i].start, Frontier(actions, i));
    Max(0.0, EffectiveEnd(actions[i]) - base)
  }

  function SumAdvances(actions: seq<Action>, n: nat): real
    requires n <= |actions|
  {
    if n == 0 then 0.0 else SumAdvances(actions, n - 1) + Advance(actions, n - 1)
  }

  /** The span splits into the gaps and the time some action is under way. */
  lemma {:induction false} SpanSplits(actions: seq<Action>, n: nat)
    requires Loaded(actions) && 0 < n <= |actions|
    ensures Frontier(actions, n) - actions[0].start == SumGaps(actions, n) + SumAdvances(actions, n)
  {
    if n > 1 {
      SpanSplits(actions, n - 1);
    } else {
      assert SumGaps(actions, 1) == SumGaps(actions, 0) + Gap(actions, 0);
      assert SumAdvances(actions, 1) == SumAdvances(actions, 0) + Advance(actions, 0);
    }
  }

  /** Whatever the speed, the requested sleeps times the speed are the idle time. */
  lemma {:induction false} SleepsAddUp(actions: seq<Action>, sleeps: seq<real>, speed: real, n: nat)
    requires n <= |sleeps| == |actions|
    requires forall i :: 0 <= i < |sleeps| ==> sleeps[i] * speed == Gap(actions, i)
    ensures Sum(sleeps[..n]) * speed == SumGaps(actions, n)
  {
    if n == 0 {
    } else {
      SleepsAddUp(actions, sleeps, speed, n - 1);
      assert sleeps[..n][..n - 1] == sleeps[..n - 1];
    }
  }
}
