/** The chain of manifests a forced sync restores, against the fold over all actions. */
module CheckpointChain {
  import opened Prelude
  import opened FileTree
  import opened Manifest
  import opened Restore
  import opened RestoreFold

  /** A manifest file as read from disk; one that lacks "entries" can be folded but not restored. */
  datatype ManifestFile =
    | Unreadable
    | WithoutEntries(deleted: seq<Path>)
    | Parsed(manifest: Manifest)

  datatype Kind = FullKind | IncrementalKind | OtherKind

  datatype CheckpointSpec = CheckpointSpec(file: ManifestFile, kind: Kind, flag: bool)

  /** The checkpoint after each action, where there is a usable one. */
  type Actions = seq<Option<CheckpointSpec>>

  predicate IsIncremental(spec: CheckpointSpec) {
    spec.flag || spec.kind.IncrementalKind?
  }

  // ------------------------------------------------------------- folding specs

  function FoldSpec(prev: Entries, spec: CheckpointSpec): Result<Entries, FoldError> {
    match spec.file
    case Unreadable => Ok(prev)
    case WithoutEntries(deleted) => Fold(prev, Manifest([], deleted), IsIncremental(spec))
    case Parsed(m) => Fold(prev, m, IsIncremental(spec))
  }

  /**
   * A checkpoint of another kind than incremental and without the flag says all: where it can be read,
   * the state is made of its own entries, whatever came before.
   */
  lemma UnmarkedReplaces(prev: Entries, spec: CheckpointSpec)
    requires !spec.flag && spec.kind != IncrementalKind
    ensures spec.file.Parsed? ==>
      FoldSpec(prev, spec) == ReadEntries(spec.file.manifest.entries, |spec.file.manifest.entries|)
    ensures spec.file.WithoutEntries? ==> FoldSpec(prev, spec) == Ok(map[])
    ensures spec.file.Unreadable? ==> FoldSpec(prev, spec) == Ok(prev)
  {
    if spec.file.WithoutEntries? {
      assert ReadEntries([], 0) == FoldSpec(prev, spec);
    }
  }

  /** One with the flag or of that kind changes what it names: its entries, less its deletions, over the rest. */
  lemma MarkedUpdates(prev: Entries, spec: CheckpointSpec, p: Path)
    requires spec.flag || spec.kind == IncrementalKind
    requires spec.file.Parsed? && FoldSpec(prev, spec).Ok?
    ensures var m := spec.file.manifest;
      var read, folded := ReadEntries(m.entries, |m.entries|), FoldSpec(prev, spec).value;
      && read.Ok?
      && (p in folded <==> (p in read.value || p in prev) && (p !in m.deleted || GIT in p))
      && (p in folded ==> folded[p] == if p in read.value then read.value[p] else prev[p])
  {
  }

  /** The state after the first k actions, or the first exception. */
  function FoldActions(actions: Actions, k: nat): Result<Entries, FoldError>
    requires k <= |actions|
  {
    if k == 0 then Ok(map[])
    else
      var before := FoldActions(actions, k - 1);
      if before.Err? || actions[k - 1].None? then before
      else FoldSpec(before.value, actions[k - 1].value)
  }

  method FoldThroughAction(actions: Actions, target: int) returns (folded: Result<Entries, FoldError>)
    ensures target < 0 ==> folded == Ok(map[])
    ensures 0 <= target < |actions| ==> folded == FoldActions(actions, target + 1)
    ensures target >= |actions| ==> folded == FoldActions(actions, |actions|)
  {
    folded := Ok(map[]);
    if target < 0 {
      return;
    }
    var stop := if target < |actions| then target + 1 else |actions|;
    var i := 0;
    while i < stop
      invariant 0 <= i <= stop
      invariant folded.Ok? && folded == FoldActions(actions, i)
    {
      if actions[i].Some? {
        var spec := actions[i].value;
        match spec.file {
          case Unreadable =>
          case WithoutEntries(deleted) =>
            folded := FoldManifest(folded.value, Manifest([], deleted), IsIncremental(spec));
          case Parsed(m) =>
            folded := FoldManifest(folded.value, m, IsIncremental(spec));
        }
      }
      i := i + 1;
      if folded.Err? {
        FoldErrorsStick(actions, i, stop);
        return;
      }
    }
  }

  lemma {:induction false} FoldErrorsStick(actions: Actions, k: nat, n: nat)
    requires k <= n <= |actions| && FoldActions(actions, k).Err?
    ensures FoldActions(actions, n) == FoldActions(actions, k)
    decreases n
  {
    if k == n {
    } else {
      FoldErrorsStick(actions, k, n - 1);
    }
  }

  // ------------------------------------------------------------------- chains

  /** The checkpoints among actions lo up to hi, in order. */
  function Between(actions: Actions, lo: nat, hi: nat): seq<CheckpointSpec>
    requires lo <= hi <= |actions|
    decreases hi
  {
    if lo == hi then []
    else if actions[hi - 1].None? then Between(actions, lo, hi - 1)
    else Between(actions, lo, hi - 1) + [actions[hi - 1].value]
  }

  /** Action i carries a full checkpoint and no later action up to target does. */
  ghost predicate IsLastFull(actions: Actions, i: int, target: int) {
    && 0 <= i <= target < |actions|
    && actions[i].Some? && !IsIncremental(actions[i].value)
    && forall j :: i < j <= target && actions[j].Some? ==> IsIncremental(actions[j].value)
  }

  /** Walks back from target, collecting checkpoints until a full one. */
  method ChainForAction(actions: Actions, target: int) returns (chain: Option<seq<CheckpointSpec>>, ghost full: int)
    ensures chain.Some? <==>
      0 <= target < |actions| && actions[target].Some? && exists i :: IsLastFull(actions, i, target)
    ensures chain.Some? ==> IsLastFull(actions, full, target) && chain.value == Between(actions, full, target + 1)
    ensures chain.Some? <==>
      0 <= target < |actions| && actions[target].Some? &&
      exists i :: 0 <= i <= target && actions[i].Some? && !actions[i].value.flag && actions[i].value.kind != IncrementalKind
    ensures chain.Some? ==> chain.value != [] && !chain.value[0].flag && chain.value[0].kind != IncrementalKind
    ensures chain.Some? ==>
      forall i :: 0 < i < |chain.value| ==> chain.value[i].flag || chain.value[i].kind == IncrementalKind
    ensures 0 <= target < |actions| && actions[target].Some? ==>
      var spec := actions[target].value;
      spec.flag || spec.kind == IncrementalKind || chain == Some([spec])
  {
    full := -1;
    if target < 0 || target >= |actions| || actions[target].None? {
      return None, full;
    }
    if !IsIncremental(actions[target].value) {
      assert IsLastFull(actions, target, target);
      assert Between(actions, target, target) == [];
      return Some([actions[target].value]), target;
    }
    var collected: seq<CheckpointSpec> := [];
    var i := target;
    while i >= 0
      invariant -1 <= i <= target
      invariant forall j :: i < j <= target && actions[j].Some? ==> IsIncremental(actions[j].value)
      invariant collected == Between(actions, i + 1, target + 1)
      invariant forall j :: 0 <= j < |collected| ==> collected[j].flag || collected[j].kind == IncrementalKind
    {
      if actions[i].Some? {
        collected := [actions[i].value] + collected;
        BetweenFromFront(actions, i, target + 1);
        if !IsIncremental(actions[i].value) {
          assert IsLastFull(actions, i, target);
          return Some(collected), i;
        }
      } else {
        BetweenFromFront(actions, i, target + 1);
      }
      i := i - 1;
    }
    chain := None;
  }

  lemma {:induction false} BetweenFromFront(actions: Actions, lo: nat, hi: nat)
    requires lo < hi <= |actions|
    ensures Between(actions, lo, hi) ==
            (if actions[lo].Some? then [actions[lo].value] else []) + Between(actions, lo + 1, hi)
    decreases hi
  {
    if lo + 1 < hi {
      BetweenFromFront(actions, lo, hi - 1);
    } else {
      assert Between(actions, lo, lo) == [];
      assert Between(actions, hi, hi) == [];
    }
  }

  function FoldSpecs(prev: Entries, chain: seq<CheckpointSpec>, k: nat): Result<Entries, FoldError>
    requires k <= |chain|
  {
    if k == 0 then Ok(prev)
    else
      var before := FoldSpecs(prev, chain, k - 1);
      if before.Err? then before else FoldSpec(before.value, chain[k - 1])
  }

  lemma {:induction false} FoldSkipsGaps(actions: Actions, lo: nat, hi: nat)
    requires lo <= hi <= |actions| && FoldActions(actions, lo).Ok?
    ensures FoldActions(actions, hi) ==
            FoldSpecs(FoldActions(actions, lo).value, Between(actions, lo, hi), |Between(actions, lo, hi)|)
    decreases hi
  {
    if lo == hi {
    } else {
      FoldSkipsGaps(actions, lo, hi - 1);
      if actions[hi - 1].Some? {
        FoldSpecsPrefix(FoldActions(actions, lo).value, Between(actions, lo, hi - 1), [actions[hi - 1].value],
                        |Between(actions, lo, hi - 1)|);
      }
    }
  }

  lemma {:induction false} FoldSpecsPrefix(prev: Entries, a: seq<CheckpointSpec>, b: seq<CheckpointSpec>, k: nat)
    requires k <= |a|
    ensures FoldSpecs(prev, a + b, k) == FoldSpecs(prev, a, k)
  {
    if k == 0 {
    } else {
      FoldSpecsPrefix(prev, a, b, k - 1);
      assert (a + b)[k - 1] == a[k - 1];
    }
  }

  lemma {:induction false} FullForgets(p: Entries, q: Entries, chain: seq<CheckpointSpec>, k: nat)
    requires 1 <= k <= |chain| && !IsIncremental(chain[0]) && !chain[0].file.Unreadable?
    ensures FoldSpecs(p, chain, k) == FoldSpecs(q, chain, k)
  {
    assert FoldSpecs(p, chain, 0) == Ok(p) && FoldSpecs(q, chain, 0) == Ok(q);
    if k <= 1 {
    } else {
      FullForgets(p, q, chain, k - 1);
    }
  }

  /** Between is never empty when its first action has a checkpoint, and starts with it. */
  lemma BetweenHead(actions: Actions, lo: nat, hi: nat)
    requires lo < hi <= |actions| && actions[lo].Some?
    ensures Between(actions, lo, hi) != [] && Between(actions, lo, hi)[0] == actions[lo].value
  {
    BetweenFromFront(actions, lo, hi);
  }

  /**
   * When the head of the chain can be read, folding every action up to the target is folding
   * the chain alone from nothing; only an exception raised before the head is felt.
   */
  lemma ChainDecidesFold(actions: Actions, full: nat, target: nat)
    requires IsLastFull(actions, full, target)
    requires !actions[full].value.file.Unreadable?
    ensures var chain := Between(actions, full, target + 1);
      FoldActions(actions, target + 1) ==
      if FoldActions(actions, full).Err? then FoldActions(actions, full)
      else FoldSpecs(map[], chain, |chain|)
  {
    if FoldActions(actions, full).Err? {
      FoldErrorsStick(actions, full, target + 1);
    } else {
      BetweenHead(actions, full, target + 1);
      FoldSkipsGaps(actions, full, target + 1);
      var chain := Between(actions, full, target + 1);
      FullForgets(FoldActions(actions, full).value, map[], chain, |chain|);
    }
  }

  /** Actions without a checkpoint change nothing, so the fallback search folds to the same state. */
  lemma {:induction false} FallbackFoldsSame(actions: Actions, lo: nat, hi: nat)
    requires lo <= hi <= |actions|
    requires forall i :: lo <= i < hi ==> actions[i].None?
    ensures FoldActions(actions, lo) == FoldActions(actions, hi)
    decreases hi
  {
    if lo == hi {
    } else {
      FallbackFoldsSame(actions, lo, hi - 1);
    }
  }

  // ------------------------------------------------------------ restoring specs

  function RestoreSpec(t: Tree, spec: CheckpointSpec, clear: bool, store: Store, now: int): Outcome {
    if spec.kind.OtherKind? || !spec.file.Parsed? then Outcome(t, false)
    else Script(t, spec.file.manifest, clear, store, now)
  }

  /** The outcome of restoring the first k manifests in order, up to the first failure. */
  function RestoreChain(t: Tree, chain: seq<CheckpointSpec>, k: nat, store: Store, now: int): Outcome
    requires k <= |chain|
    decreases k, 0
  {
    if k == 0 then Outcome(t, true) else RestoreNth(t, chain, k - 1, store, now)
  }

  /** Manifest i, after those before it; the root is cleared for the first one only. */
  function RestoreNth(t: Tree, chain: seq<CheckpointSpec>, i: nat, store: Store, now: int): Outcome
    requires i < |chain|
    decreases i, 1
  {
    var before := RestoreChain(t, chain, i, store, now);
    if before.ok then RestoreSpec(before.tree, chain[i], i == 0, store, now) else before
  }

  ghost predicate TidySpec(spec: CheckpointSpec) {
    spec.file.Parsed? ==> Tidy(spec.file.manifest)
  }

  ghost predicate TidyChain(chain: seq<CheckpointSpec>) {
    forall i {:trigger TidySpec(chain[i])} :: 0 <= i < |chain| ==> TidySpec(chain[i])
  }

  method RestoreCheckpoint(live: LiveTree, spec: CheckpointSpec, clear: bool, store: Store, now: int) returns (ok: bool)
    requires WellFormed(live.nodes)
    requires TidySpec(spec)
    modifies live
    ensures Outcome(live.nodes, ok) == RestoreSpec(old(live.nodes), spec, clear, store, now)
    ensures ok ==> WellFormed(live.nodes)
  {
    if spec.kind.OtherKind? || !spec.file.Parsed? {
      return false;
    }
    ghost var before := live.nodes;
    ok := live.RestoreManifest(spec.file.manifest, clear, store, now);
    if ok {
      ScriptView(before, spec.file.manifest, clear, store, now);
    }
  }

  /** The next manifest of a chain that has been restored up to i. */
  method RestoreNext(live: LiveTree, ghost start: Tree, chain: seq<CheckpointSpec>, i: nat, store: Store, now: int)
    returns (ok: bool)
    requires WellFormed(live.nodes) && TidyChain(chain) && i < |chain|
    requires RestoreChain(start, chain, i, store, now) == Outcome(live.nodes, true)
    modifies live
    ensures Outcome(live.nodes, ok) == RestoreChain(start, chain, i + 1, store, now)
    ensures ok ==> WellFormed(live.nodes)
  {
    assert TidySpec(chain[i]);
    ok := RestoreCheckpoint(live, chain[i], i == 0, store, now);
  }

  /** Restores the manifests in order and stops at the first failure. */
  method RestoreChainInto(live: LiveTree, chain: seq<CheckpointSpec>, store: Store, now: int) returns (ok: bool)
    requires WellFormed(live.nodes) && TidyChain(chain)
    modifies live
    ensures chain == [] ==> !ok && live.nodes == old(live.nodes)
    ensures chain != [] ==> Outcome(live.nodes, ok) == RestoreChain(old(live.nodes), chain, |chain|, store, now)
  {
    if chain == [] {
      return false;
    }
    ghost var start := live.nodes;
    var i := 0;
    ok := true;
    while i < |chain| && ok
      invariant 0 <= i <= |chain|
      invariant ok ==> WellFormed(live.nodes)
      invariant RestoreChain(start, chain, i, store, now) == Outcome(live.nodes, ok)
    {
      ok := RestoreNext(live, start, chain, i, store, now);
      i := i + 1;
    }
    RestoreFailureSticks(start, chain, i, |chain|, store, now);
  }

  lemma {:induction false} RestoreFailureSticks(t: Tree, chain: seq<CheckpointSpec>, k: nat, n: nat, store: Store, now: int)
    requires k <= n <= |chain|
    ensures !RestoreChain(t, chain, k, store, now).ok ==>
            RestoreChain(t, chain, n, store, now) == RestoreChain(t, chain, k, store, now)
    decreases n
  {
    if k == n {
    } else {
      RestoreFailureSticks(t, chain, k, n - 1, store, now);
      assert RestoreChain(t, chain, n, store, now) == RestoreNth(t, chain, n - 1, store, now);
    }
  }
}
