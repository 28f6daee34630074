/** Restoring a chain of manifests against folding it: when the two arrive at the same state. */
module ChainRefinement {
  import opened Prelude
  import opened FileTree
  import opened LinkWalk
  import opened Manifest
  import opened Restore
  import opened RestoreFold
  import opened CheckpointChain
  import PosixPath

  // ----------------------------------------------------------- restore and fold

  /** State that folding produces: no empty path, no .git component. */
  ghost predicate Foldable(f: Entries) {
    forall p :: p in f ==> p != [] && !Skipped(p)
  }

  /** No recorded path lies below another one. */
  ghost predicate PrefixFree(m: Manifest) {
    forall p :: p in EntryPaths(m) ==> !Shadowed(EntryPaths(m), p)
  }

  /** What an incremental manifest must meet at p, when its deletions really remove gone. */
  ghost predicate CompatibleAt(f: Entries, m: Manifest, gone: set<Path>, p: Path) {
    var es, ds := EntryPaths(m), DeletedPaths(m);
    if p in es then p in ds <==> Shadowed(es, p)
    else p in f ==> (p in ds <==> Covered(gone, p) || Shadowed(es, p))
  }

  /**
   * When an incremental manifest restores to the state it folds to, given the state folded before and
   * what its deletions really remove: a path is recorded and deleted at once just when another recorded
   * path hides it, and a path that only the earlier state holds is named as deleted just when it is
   * removed or hidden.
   */
  ghost predicate Compatible(f: Entries, m: Manifest, gone: set<Path>) {
    forall p :: p in EntryPaths(m) || p in f ==> CompatibleAt(f, m, gone, p)
  }

  /** Source and tree agree at x. */
  ghost predicate AgreeAt(f: Entries, t: Tree, x: Path) {
    if x in f then EntryAt(t, x).Some? && Accepts(f[x], EntryAt(t, x).value) else EntryAt(t, x) == None
  }

  lemma MatchIsAgreement(f: Entries, t: Tree)
    requires WellFormed(t) && Foldable(f)
    ensures Matches(f, View(t)) <==> forall x :: x != [] && !Skipped(x) ==> AgreeAt(f, t, x)
  {
    var v := View(t);
    if Matches(f, v) {
      forall x | x != [] && !Skipped(x)
        ensures AgreeAt(f, t, x)
      {
        assert x in f.Keys <==> x in v.Keys;
      }
    }
    if forall x :: x != [] && !Skipped(x) ==> AgreeAt(f, t, x) {
      forall x
        ensures x in f.Keys <==> x in v.Keys
      {
        if x != [] && !Skipped(x) { assert AgreeAt(f, t, x); }
      }
      assert f.Keys == v.Keys;
      forall p | p in f
        ensures Accepts(f[p], v[p])
      {
        assert AgreeAt(f, t, p);
      }
    }
  }

  /** One full manifest: cleared and restored, it is the fold exactly when it is prefix-free. */
  lemma FullStageExact(t: Tree, f: Entries, m: Manifest, store: Store, now: int)
    requires WellFormed(t) && Tidy(m) && Foldable(f)
    requires Script(t, m, true, store, now).ok
    ensures Fold(f, m, false).Ok? && Foldable(Fold(f, m, false).value)
    ensures Matches(Fold(f, m, false).value, View(Script(t, m, true, store, now).tree)) <==> PrefixFree(m)
  {
    ScriptView(t, m, true, store, now);
    var after, folded := Script(t, m, true, store, now).tree, Fold(f, m, false).value;
    MatchIsAgreement(folded, after);
    var es := EntryPaths(m);
    if PrefixFree(m) {
      forall x | x != [] && !Skipped(x)
        ensures AgreeAt(folded, after, x)
      {
        assert LeavesAt(m, folded, true, GoneBy(t, m), x, EntryAt(t, x), EntryAt(after, x));
      }
    }
    if !PrefixFree(m) {
      var p :| p in es && Shadowed(es, p);
      assert LeavesAt(m, folded, true, GoneBy(t, m), p, EntryAt(t, p), EntryAt(after, p));
      assert !AgreeAt(folded, after, p);
    }
  }

  lemma FoldAt(f: Entries, m: Manifest, x: Path)
    requires !Skipped(x) && ReadEntries(m.entries, |m.entries|).Ok?
    ensures var read, folded := ReadEntries(m.entries, |m.entries|).value, Fold(f, m, true).value;
      && (x in folded <==> (x in read || x in f) && x !in m.deleted)
      && (x in folded ==> folded[x] == if x in read then read[x] else f[x])
  {
  }

  /** One incremental manifest, from states that agree: they agree again exactly when it is compatible. */
  lemma IncrementalStageExact(t: Tree, f: Entries, m: Manifest, store: Store, now: int)
    requires WellFormed(t) && Tidy(m) && Foldable(f)
    requires Matches(f, View(t)) && Script(t, m, false, store, now).ok
    ensures Fold(f, m, true).Ok? && Foldable(Fold(f, m, true).value)
    ensures Matches(Fold(f, m, true).value, View(Script(t, m, false, store, now).tree)) <==> Compatible(f, m, GoneBy(t, m))
  {
    ScriptView(t, m, false, store, now);
    var read := ReadEntries(m.entries, |m.entries|).value;
    var after, folded := Script(t, m, false, store, now).tree, Fold(f, m, true).value;
    forall p | p in EntryPaths(m)
      ensures p != []
    {
      assert p in read.Keys;
    }
    StagePointwise(t, after, f, m, read, folded);
  }

  lemma StagePointwise(t: Tree, after: Tree, f: Entries, m: Manifest, read: Entries, folded: Entries)
    requires WellFormed(t) && WellFormed(after) && Foldable(f) && Foldable(folded)
    requires Matches(f, View(t))
    requires ReadEntries(m.entries, |m.entries|) == Ok(read) && read.Keys == EntryPaths(m)
    requires Fold(f, m, true) == Ok(folded)
    requires forall x :: x != [] && !Skipped(x) ==> LeavesAt(m, read, false, GoneBy(t, m), x, EntryAt(t, x), EntryAt(after, x))
    requires forall p :: p in EntryPaths(m) ==> p != []
    ensures Matches(folded, View(after)) <==> Compatible(f, m, GoneBy(t, m))
  {
    MatchIsAgreement(f, t);
    MatchIsAgreement(folded, after);
    forall x | x != [] && !Skipped(x)
      ensures AgreeAt(folded, after, x) <==> CompatibleAt(f, m, GoneBy(t, m), x)
    {
      FoldAt(f, m, x);
    }
    CompatibleEverywhere(f, m, GoneBy(t, m));
  }

  lemma CompatibleEverywhere(f: Entries, m: Manifest, gone: set<Path>)
    requires Foldable(f)
    requires forall p :: p in EntryPaths(m) ==> p != []
    ensures Compatible(f, m, gone) <==> forall x :: x != [] && !Skipped(x) ==> CompatibleAt(f, m, gone, x)
  {
  }

  // -------------------------------------------------- conditions on manifests alone

  /** No deleted path lies below a link the earlier state holds, or below a .git directory that is cleared. */
  ghost predicate Plain(f: Entries, m: Manifest) {
    forall d :: d in m.deleted && !Preserved(d) ==>
      !Skipped(Parent(d)) && forall q :: q in f && Above(q, d) ==> !f[q].LinkEntry?
  }

  /** On a tree that agrees with the earlier state, such deletions meet no link. */
  lemma PlainMeetsNoLink(t: Tree, f: Entries, m: Manifest, d: Path)
    requires Tidy(m) && Matches(f, View(t)) && Plain(f, m) && d in m.deleted && !Preserved(d)
    ensures !ThroughLink(t, d)
  {
    forall i | 0 < i < |d| && d[..i] in t
      ensures !t[d[..i]].Link?
    {
      var q := d[..i];
      assert Above(q, d) && q == Parent(d)[..i];
      assert GIT !in q;
      assert q in f.Keys <==> q in View(t).Keys;
      if q in f {
        assert Accepts(f[q], View(t)[q]);
      }
    }
  }

  /** They then all succeed, and remove just what they name, so that the condition is one on manifests. */
  lemma PlainManifestDecides(t: Tree, f: Entries, m: Manifest)
    requires WellFormed(t) && Tidy(m) && Foldable(f) && Matches(f, View(t)) && Plain(f, m)
    ensures Delete(t, ByDepth(m.deleted, |m.deleted|), |ByDepth(m.deleted, |m.deleted|)|).ok
    ensures Compatible(f, m, GoneBy(t, m)) <==> Compatible(f, m, DeletedPaths(m))
  {
    forall d | d in m.deleted && !Preserved(d)
      ensures !ThroughLink(t, d)
    {
      PlainMeetsNoLink(t, f, m, d);
    }
    PlainlyGone(t, m, []);
    forall p | p in f
      ensures Covered(GoneBy(t, m), p) <==> Covered(DeletedPaths(m), p)
    {
      assert p in View(t).Keys;
      PlainlyGone(t, m, p);
    }
    assert forall p :: CompatibleAt(f, m, GoneBy(t, m), p) <==> CompatibleAt(f, m, DeletedPaths(m), p);
  }

  /** Deleting what the earlier state holds is plain. */
  lemma RecordedDeletionsArePlain(t: Tree, f: Entries, m: Manifest)
    requires WellFormed(t) && Foldable(f) && Matches(f, View(t))
    requires forall d :: d in m.deleted && !Preserved(d) ==> d in f
    ensures Plain(f, m)
  {
    forall d | d in m.deleted && !Preserved(d)
      ensures !Skipped(Parent(d)) && forall q :: Above(q, d) ==> q !in f
    {
      assert d in View(t).Keys && !Skipped(d);
      forall q | Above(q, d)
        ensures q !in f
      {
        assert q in t && t[q].Dir?;
        assert q in f.Keys <==> q in View(t).Keys;
      }
    }
  }

  /** What an ordinary incremental capture writes: a clean split, no nesting, and whole directories deleted. */
  ghost predicate Ordinary(f: Entries, m: Manifest) {
    && EntryPaths(m) !! DeletedPaths(m)
    && (forall p, q :: p in EntryPaths(m) && (q in EntryPaths(m) || (q in f && q !in DeletedPaths(m))) ==> !Above(p, q))
    && (forall d, p :: d in DeletedPaths(m) && p in f && Above(d, p) ==> p in DeletedPaths(m) || p in EntryPaths(m))
  }

  lemma OrdinaryIsCompatible(f: Entries, m: Manifest)
    requires Ordinary(f, m)
    ensures Compatible(f, m, DeletedPaths(m))
  {
    forall p | p in EntryPaths(m) || p in f
      ensures CompatibleAt(f, m, DeletedPaths(m), p)
    {
      if Shadowed(EntryPaths(m), p) {
        var q :| q in EntryPaths(m) && Above(q, p);
      }
      if p in DeletedPaths(m) {
        assert AtOrAbove(p, p);
      }
      if Covered(DeletedPaths(m), p) {
        var d :| d in DeletedPaths(m) && AtOrAbove(d, p);
      }
    }
  }

  // ------------------------------------------------------------------ main results

  /** A chain as ChainForAction builds it: one full manifest, then incremental ones. */
  ghost predicate IsChain(chain: seq<CheckpointSpec>) {
    && chain != [] && !IsIncremental(chain[0])
    && forall i :: 0 < i < |chain| ==> IsIncremental(chain[i])
  }

  /** The condition on stage k of a chain, when its deletions really remove gone. */
  ghost predicate StageCompatible(chain: seq<CheckpointSpec>, k: nat, gone: set<Path>)
    requires k < |chain|
  {
    && chain[k].file.Parsed?
    && FoldSpecs(map[], chain, k).Ok?
    && if k == 0 then PrefixFree(chain[0].file.manifest)
       else Compatible(FoldSpecs(map[], chain, k).value, chain[k].file.manifest, gone)
  }

  /** What stage k really deletes from tree t; the first stage clears the tree instead. */
  function GoneAt(t: Tree, chain: seq<CheckpointSpec>, k: nat): set<Path>
    requires k < |chain|
  {
    if k > 0 && chain[k].file.Parsed? then GoneBy(t, chain[k].file.manifest) else {}
  }

  /** The condition on stage k, met by the tree it starts from. */
  ghost predicate CompatibleOn(ts: seq<Tree>, chain: seq<CheckpointSpec>, k: nat)
    requires k < |chain| && k < |ts|
  {
    StageCompatible(chain, k, GoneAt(ts[k], chain, k))
  }

  /** The condition on stage k that can be read off the manifests. */
  ghost predicate CompatibleAlone(chain: seq<CheckpointSpec>, k: nat)
    requires k < |chain|
  {
    chain[k].file.Parsed? && StageCompatible(chain, k, DeletedPaths(chain[k].file.manifest))
  }

  ghost predicate PlainStage(chain: seq<CheckpointSpec>, k: nat)
    requires k < |chain|
  {
    && chain[k].file.Parsed?
    && FoldSpecs(map[], chain, k).Ok?
    && (k > 0 ==> Plain(FoldSpecs(map[], chain, k).value, chain[k].file.manifest))
  }

  ghost predicate PlainChain(chain: seq<CheckpointSpec>) {
    forall k :: 0 <= k < |chain| ==> PlainStage(chain, k)
  }

  /** Restoring manifest k of the chain takes tree k to tree k + 1. */
  ghost predicate RestoresTo(ts: seq<Tree>, chain: seq<CheckpointSpec>, k: nat, store: Store, now: int)
    requires k < |chain| && k + 1 < |ts|
  {
    RestoreSpec(ts[k], chain[k], k == 0, store, now) == Outcome(ts[k + 1], true)
  }

  /** The trees a successful restore of the first n manifests goes through. */
  ghost predicate RestoreRun(ts: seq<Tree>, chain: seq<CheckpointSpec>, n: nat, store: Store, now: int) {
    && n <= |chain| && |ts| == n + 1
    && forall k {:trigger RestoresTo(ts, chain, k, store, now)} :: 0 <= k < n ==> RestoresTo(ts, chain, k, store, now)
  }

  /** After k manifests, source and tree hold the same. */
  ghost predicate StageMatches(ts: seq<Tree>, chain: seq<CheckpointSpec>, k: nat)
    requires |ts| == |chain| + 1 && k <= |chain|
  {
    && FoldSpecs(map[], chain, k).Ok?
    && Matches(FoldSpecs(map[], chain, k).value, View(ts[k]))
  }

  lemma RunFoldsNext(ts: seq<Tree>, chain: seq<CheckpointSpec>, k: nat, store: Store, now: int)
    requires RestoreRun(ts, chain, |chain|, store, now) && TidyChain(chain) && k < |chain|
    requires WellFormed(ts[k]) && FoldSpecs(map[], chain, k).Ok? && Foldable(FoldSpecs(map[], chain, k).value)
    ensures WellFormed(ts[k + 1])
    ensures FoldSpecs(map[], chain, k + 1).Ok? && Foldable(FoldSpecs(map[], chain, k + 1).value)
  {
    assert TidySpec(chain[k]) && RestoresTo(ts, chain, k, store, now);
    RestoreFolds(ts, chain, k, store, now, FoldSpecs(map[], chain, k).value);
  }

  /** A run of restores is also one of folds, and its trees stay well formed. */
  lemma {:induction false} RunFolds(ts: seq<Tree>, chain: seq<CheckpointSpec>, k: nat, store: Store, now: int)
    requires RestoreRun(ts, chain, |chain|, store, now) && WellFormed(ts[0])
    requires TidyChain(chain) && k <= |chain|
    ensures WellFormed(ts[k])
    ensures FoldSpecs(map[], chain, k).Ok? && Foldable(FoldSpecs(map[], chain, k).value)
  {
    if k == 0 {
      assert FoldSpecs(map[], chain, 0) == Ok(map[]);
    } else {
      RunFolds(ts, chain, k - 1, store, now);
      RunFoldsNext(ts, chain, k - 1, store, now);
    }
  }

  lemma RestoreFolds(ts: seq<Tree>, chain: seq<CheckpointSpec>, k: nat, store: Store, now: int, f: Entries)
    requires k < |chain| && k + 1 < |ts| && RestoresTo(ts, chain, k, store, now)
    requires WellFormed(ts[k]) && TidySpec(chain[k]) && Foldable(f)
    ensures WellFormed(ts[k + 1])
    ensures FoldSpec(f, chain[k]).Ok? && Foldable(FoldSpec(f, chain[k]).value)
  {
    var m := chain[k].file.manifest;
    ScriptView(ts[k], m, k == 0, store, now);
  }

  /** One stage of a run, from a tree that agrees with the fold so far (any tree, for the first). */
  lemma StageExact(ts: seq<Tree>, chain: seq<CheckpointSpec>, k: nat, store: Store, now: int)
    requires RestoreRun(ts, chain, |chain|, store, now) && WellFormed(ts[0])
    requires IsChain(chain) && TidyChain(chain) && k < |chain|
    requires k > 0 ==> StageMatches(ts, chain, k)
    ensures StageMatches(ts, chain, k + 1) <==> CompatibleOn(ts, chain, k)
  {
    RunFolds(ts, chain, k, store, now);
    var f := FoldSpecs(map[], chain, k).value;
    assert TidySpec(chain[k]);
    assert RestoresTo(ts, chain, k, store, now);
    assert FoldSpecs(map[], chain, k + 1) == FoldSpec(f, chain[k]);
    if k == 0 {
      FullStageExact(ts[0], f, chain[0].file.manifest, store, now);
    } else {
      IncrementalStageExact(ts[k], f, chain[k].file.manifest, store, now);
    }
  }

  /**
   * Restore refines fold. Whatever the tree held before, a chain that restores reaches the folded
   * state after every one of its manifests exactly when every stage is compatible with what it
   * really deletes.
   */
  lemma {:induction false} RestoreRefinesFold(ts: seq<Tree>, chain: seq<CheckpointSpec>, k: nat, store: Store, now: int)
    requires RestoreRun(ts, chain, |chain|, store, now) && WellFormed(ts[0])
    requires IsChain(chain) && TidyChain(chain) && k <= |chain|
    ensures (forall j :: 0 < j <= k ==> StageMatches(ts, chain, j)) <==>
            (forall j :: 0 <= j < k ==> CompatibleOn(ts, chain, j))
  {
    if k == 0 {
    } else {
      RestoreRefinesFold(ts, chain, k - 1, store, now);
      if forall j :: 0 < j <= k - 1 ==> StageMatches(ts, chain, j) {
        StageExact(ts, chain, k - 1, store, now);
        assert StageMatches(ts, chain, k) <==> CompatibleOn(ts, chain, k - 1);
      } else {
        var j :| 0 < j <= k - 1 && !StageMatches(ts, chain, j);
        var i :| 0 <= i < k - 1 && !CompatibleOn(ts, chain, i);
      }
    }
  }

  /** From a tree that agrees with the fold, a plain stage meets one condition exactly when it meets the other. */
  lemma PlainStageDecides(ts: seq<Tree>, chain: seq<CheckpointSpec>, k: nat, store: Store, now: int)
    requires RestoreRun(ts, chain, |chain|, store, now) && WellFormed(ts[0])
    requires TidyChain(chain) && k < |chain| && PlainStage(chain, k)
    requires k > 0 ==> StageMatches(ts, chain, k)
    ensures CompatibleOn(ts, chain, k) <==> CompatibleAlone(chain, k)
  {
    RunFolds(ts, chain, k, store, now);
    assert TidySpec(chain[k]);
    if k > 0 {
      PlainManifestDecides(ts[k], FoldSpecs(map[], chain, k).value, chain[k].file.manifest);
    }
  }

  lemma PlainStageExact(ts: seq<Tree>, chain: seq<CheckpointSpec>, k: nat, store: Store, now: int)
    requires RestoreRun(ts, chain, |chain|, store, now) && WellFormed(ts[0])
    requires IsChain(chain) && TidyChain(chain) && PlainChain(chain) && k < |chain|
    requires k > 0 ==> StageMatches(ts, chain, k)
    ensures StageMatches(ts, chain, k + 1) <==> CompatibleAlone(chain, k)
  {
    assert PlainStage(chain, k);
    StageExact(ts, chain, k, store, now);
    PlainStageDecides(ts, chain, k, store, now);
  }

  /**
   * Where no deleted path runs below a link of the state folded before it, the manifests alone decide:
   * a chain that restores reaches the folded state at every stage exactly when they are compatible.
   */
  lemma {:induction false} ManifestsDecide(ts: seq<Tree>, chain: seq<CheckpointSpec>, k: nat, store: Store, now: int)
    requires RestoreRun(ts, chain, |chain|, store, now) && WellFormed(ts[0])
    requires IsChain(chain) && TidyChain(chain) && PlainChain(chain) && k <= |chain|
    ensures (forall j :: 0 < j <= k ==> StageMatches(ts, chain, j)) <==>
            (forall j :: 0 <= j < k ==> CompatibleAlone(chain, j))
  {
    if k == 0 {
    } else {
      ManifestsDecide(ts, chain, k - 1, store, now);
      if forall j :: 0 < j <= k - 1 ==> StageMatches(ts, chain, j) {
        PlainStageExact(ts, chain, k - 1, store, now);
      } else {
        var j :| 0 < j <= k - 1 && !StageMatches(ts, chain, j);
        var i :| 0 <= i < k - 1 && !CompatibleAlone(chain, i);
      }
    }
  }

  // ----------------------------------------------------------------- the final tree

  /** Whether the tree after k manifests holds an entry at x: recorded since, and neither removed nor hidden. */
  ghost predicate Kept(ts: seq<Tree>, chain: seq<CheckpointSpec>, k: nat, x: Path)
    requires k <= |chain| && |ts| == |chain| + 1
  {
    k > 0 && chain[k - 1].file.Parsed? &&
    var m := chain[k - 1].file.manifest;
    if x in EntryPaths(m) then !Shadowed(EntryPaths(m), x)
    else k > 1 && Kept(ts, chain, k - 1, x) && !Shadowed(EntryPaths(m), x) && !Covered(GoneBy(ts[k - 1], m), x)
  }

  /** The tree holds what is kept; and where the fold holds it too, both hold the same. */
  ghost predicate Holds(ts: seq<Tree>, chain: seq<CheckpointSpec>, k: nat, x: Path)
    requires k <= |chain| && |ts| == |chain| + 1
  {
    && FoldSpecs(map[], chain, k).Ok?
    && (EntryAt(ts[k], x).Some? <==> Kept(ts, chain, k, x))
    && (x in FoldSpecs(map[], chain, k).value && Kept(ts, chain, k, x) ==>
          Accepts(FoldSpecs(map[], chain, k).value[x], EntryAt(ts[k], x).value))
  }

  lemma HoldsNext(ts: seq<Tree>, chain: seq<CheckpointSpec>, k: nat, store: Store, now: int, x: Path)
    requires RestoreRun(ts, chain, |chain|, store, now) && WellFormed(ts[0])
    requires IsChain(chain) && TidyChain(chain) && k < |chain| && x != [] && !Skipped(x)
    requires k > 0 ==> Holds(ts, chain, k, x)
    ensures Holds(ts, chain, k + 1, x)
  {
    RunFolds(ts, chain, k, store, now);
    RunFolds(ts, chain, k + 1, store, now);
    assert TidySpec(chain[k]) && RestoresTo(ts, chain, k, store, now);
    var m, f := chain[k].file.manifest, FoldSpecs(map[], chain, k).value;
    ScriptView(ts[k], m, k == 0, store, now);
    var read := ReadEntries(m.entries, |m.entries|).value;
    assert LeavesAt(m, read, k == 0, GoneBy(ts[k], m), x, EntryAt(ts[k], x), EntryAt(ts[k + 1], x));
    assert FoldSpecs(map[], chain, k + 1) == FoldSpec(f, chain[k]);
    if k > 0 {
      FoldAt(f, m, x);
    }
    KeptNext(ts, chain, k, x, m, read, f, FoldSpec(f, chain[k]).value);
  }

  lemma KeptNext(ts: seq<Tree>, chain: seq<CheckpointSpec>, k: nat, x: Path,
                 m: Manifest, read: Entries, f: Entries, folded: Entries)
    requires k < |chain| && |ts| == |chain| + 1 && chain[k].file == Parsed(m) && read.Keys == EntryPaths(m) && !Skipped(x)
    requires FoldSpecs(map[], chain, k) == Ok(f) && FoldSpecs(map[], chain, k + 1) == Ok(folded)
    requires LeavesAt(m, read, k == 0, GoneBy(ts[k], m), x, EntryAt(ts[k], x), EntryAt(ts[k + 1], x))
    requires k > 0 ==> Holds(ts, chain, k, x)
    requires if k == 0 then folded == read
             else (x in folded <==> (x in read || x in f) && x !in m.deleted)
                  && (x in folded ==> folded[x] == if x in read then read[x] else f[x])
    ensures Holds(ts, chain, k + 1, x)
  {
  }

  lemma {:induction false} HoldsThroughout(ts: seq<Tree>, chain: seq<CheckpointSpec>, k: nat, store: Store, now: int, x: Path)
    requires RestoreRun(ts, chain, |chain|, store, now) && WellFormed(ts[0])
    requires IsChain(chain) && TidyChain(chain) && 0 < k <= |chain| && x != [] && !Skipped(x)
    ensures Holds(ts, chain, k, x)
  {
    if k <= 1 {
    } else {
      HoldsThroughout(ts, chain, k - 1, store, now, x);
    }
    HoldsNext(ts, chain, k - 1, store, now, x);
  }

  /**
   * The final tree, path by path: a chain that restores ends in the folded state exactly when the fold
   * and the tree keep the same paths, whatever went wrong and was put right on the way.
   */
  lemma FinalTreeExact(ts: seq<Tree>, chain: seq<CheckpointSpec>, store: Store, now: int)
    requires RestoreRun(ts, chain, |chain|, store, now) && WellFormed(ts[0])
    requires IsChain(chain) && TidyChain(chain)
    ensures FoldSpecs(map[], chain, |chain|).Ok?
    ensures Matches(FoldSpecs(map[], chain, |chain|).value, View(ts[|chain|])) <==>
      forall x :: x != [] && !Skipped(x) ==>
        (x in FoldSpecs(map[], chain, |chain|).value <==> Kept(ts, chain, |chain|, x))
  {
    var n := |chain|;
    RunFolds(ts, chain, n, store, now);
    var f := FoldSpecs(map[], chain, n).value;
    MatchIsAgreement(f, ts[n]);
    forall x | x != [] && !Skipped(x)
      ensures AgreeAt(f, ts[n], x) <==> (x in f <==> Kept(ts, chain, n, x))
    {
      HoldsThroughout(ts, chain, n, store, now, x);
    }
  }

  /** The run of the first k - 1 manifests, extended by the next one. */
  lemma ExtendRun(before: seq<Tree>, chain: seq<CheckpointSpec>, k: nat, store: Store, now: int, after: Tree)
    requires 0 < k <= |chain| && RestoreRun(before, chain, k - 1, store, now)
    requires RestoreSpec(before[k - 1], chain[k - 1], k == 1, store, now) == Outcome(after, true)
    ensures RestoreRun(before + [after], chain, k, store, now)
  {
    var ts := before + [after];
    forall i | 0 <= i < k
      ensures RestoresTo(ts, chain, i, store, now)
    {
      if i < k - 1 {
        assert RestoresTo(before, chain, i, store, now);
      }
    }
  }

  /** What the restore loop computes is the end of such a run. */
  lemma {:induction false} RunOf(t: Tree, chain: seq<CheckpointSpec>, k: nat, store: Store, now: int, after: Tree)
    returns (ts: seq<Tree>)
    requires k <= |chain| && RestoreChain(t, chain, k, store, now) == Outcome(after, true)
    ensures RestoreRun(ts, chain, k, store, now) && ts[0] == t && ts[k] == after
  {
    if k == 0 {
      ts := [t];
    } else {
      ts := RunOf(t, chain, k - 1, store, now, RestoreChain(t, chain, k - 1, store, now).tree);
      ExtendRun(ts, chain, k, store, now, after);
      ts := ts + [after];
    }
  }

  // --------------------------------------------------------------------- forced sync

  ghost predicate GitCleanSpec(spec: CheckpointSpec) {
    spec.file.Parsed? ==> GitClean(spec.file.manifest)
  }

  ghost predicate GitCleanChain(chain: seq<CheckpointSpec>) {
    forall i {:trigger GitCleanSpec(chain[i])} :: 0 <= i < |chain| ==> GitCleanSpec(chain[i])
  }

  /** After its first manifest, which clears the tree, a chain leaves no file or link called .git. */
  lemma {:induction false} RunKeepsNoGit(ts: seq<Tree>, chain: seq<CheckpointSpec>, k: nat, store: Store, now: int)
    requires RestoreRun(ts, chain, |chain|, store, now) && WellFormed(ts[0]) && TopGitOk(ts[0])
    requires TidyChain(chain) && GitCleanChain(chain) && 0 < k <= |chain|
    ensures NoGitLeaf(ts[k])
  {
    if k <= 1 {
    } else {
      RunKeepsNoGit(ts, chain, k - 1, store, now);
    }
    RunFolds(ts, chain, k - 1, store, now);
    assert TidySpec(chain[k - 1]) && GitCleanSpec(chain[k - 1]) && RestoresTo(ts, chain, k - 1, store, now);
    ScriptKeepsNoGit(ts[k - 1], chain[k - 1].file.manifest, k == 1, store, now);
  }

  /** A chain that restores leaves a tree that is well formed and has no file or link called .git. */
  lemma RestoredTree(t: Tree, chain: seq<CheckpointSpec>, store: Store, now: int)
    requires WellFormed(t) && TopGitOk(t) && chain != [] && TidyChain(chain) && GitCleanChain(chain)
    requires RestoreChain(t, chain, |chain|, store, now).ok
    ensures WellFormed(RestoreChain(t, chain, |chain|, store, now).tree)
    ensures NoGitLeaf(RestoreChain(t, chain, |chain|, store, now).tree)
  {
    var n := |chain|;
    var ts := RunOf(t, chain, n, store, now, RestoreChain(t, chain, n, store, now).tree);
    RunFolds(ts, chain, n, store, now);
    RunKeepsNoGit(ts, chain, n, store, now);
  }

  /** A capture compares as a match exactly when the tree holds the state. */
  lemma CaptureMatches(f: Entries, t: Tree)
    requires WellFormed(t) && NoGitLeaf(t)
    ensures Compare(f, Capture(t)).IsMatch() <==> Matches(f, View(t))
  {
    CaptureIsView(t);
    CompareIsMatch(f, Capture(t));
  }

  /** What a chain that restores folds to is what all actions up to its target fold to. */
  lemma ForcedSyncFolds(actions: Actions, full: nat, target: nat, chain: seq<CheckpointSpec>,
                        ts: seq<Tree>, store: Store, now: int)
    requires IsLastFull(actions, full, target) && chain == Between(actions, full, target + 1)
    requires FoldActions(actions, full).Ok?
    requires RestoreRun(ts, chain, |chain|, store, now)
    ensures IsChain(chain)
    ensures FoldActions(actions, target + 1) == FoldSpecs(map[], chain, |chain|)
  {
    BetweenHead(actions, full, target + 1);
    BetweenIsChain(actions, full, target);
    assert RestoresTo(ts, chain, 0, store, now);
    ChainDecidesFold(actions, full, target);
  }

  /**
   * A forced sync to an action with a checkpoint: if its chain restores and the folds before it raise
   * nothing, the full capture that follows compares as a match with the fold over all actions up to the
   * target exactly when that fold and the restored tree keep the same paths.
   */
  lemma ForcedSyncExact(actions: Actions, full: nat, target: nat, chain: seq<CheckpointSpec>,
                        ts: seq<Tree>, store: Store, now: int)
    requires IsLastFull(actions, full, target) && chain == Between(actions, full, target + 1)
    requires FoldActions(actions, full).Ok?
    requires RestoreRun(ts, chain, |chain|, store, now) && WellFormed(ts[0]) && TopGitOk(ts[0])
    requires TidyChain(chain) && GitCleanChain(chain)
    ensures FoldActions(actions, target + 1).Ok?
    ensures Compare(FoldActions(actions, target + 1).value, Capture(ts[|chain|])).IsMatch() <==>
      forall x :: x != [] && !Skipped(x) ==>
        (x in FoldActions(actions, target + 1).value <==> Kept(ts, chain, |chain|, x))
  {
    ForcedSyncFolds(actions, full, target, chain, ts, store, now);
    FinalTreeExact(ts, chain, store, now);
    RunFolds(ts, chain, |chain|, store, now);
    RunKeepsNoGit(ts, chain, |chain|, store, now);
    CaptureMatches(FoldActions(actions, target + 1).value, ts[|chain|]);
  }

  lemma LastStageMatches(ts: seq<Tree>, chain: seq<CheckpointSpec>, store: Store, now: int)
    requires RestoreRun(ts, chain, |chain|, store, now) && WellFormed(ts[0])
    requires IsChain(chain) && TidyChain(chain) && PlainChain(chain)
    requires forall j :: 0 <= j < |chain| ==> CompatibleAlone(chain, j)
    ensures StageMatches(ts, chain, |chain|)
  {
    ManifestsDecide(ts, chain, |chain|, store, now);
  }

  /** In particular it does so when the manifests of the chain are plain and compatible among themselves. */
  lemma ForcedSyncVerified(actions: Actions, full: nat, target: nat, chain: seq<CheckpointSpec>,
                           t: Tree, store: Store, now: int)
    requires IsLastFull(actions, full, target) && chain == Between(actions, full, target + 1)
    requires FoldActions(actions, full).Ok?
    requires WellFormed(t) && TopGitOk(t) && TidyChain(chain) && GitCleanChain(chain)
    requires RestoreChain(t, chain, |chain|, store, now).ok
    requires PlainChain(chain) && forall j :: 0 <= j < |chain| ==> CompatibleAlone(chain, j)
    ensures FoldActions(actions, target + 1).Ok?
    ensures Compare(FoldActions(actions, target + 1).value,
                    Capture(RestoreChain(t, chain, |chain|, store, now).tree)).IsMatch()
  {
    var n := |chain|;
    var ts := RunOf(t, chain, n, store, now, RestoreChain(t, chain, n, store, now).tree);
    ForcedSyncFolds(actions, full, target, chain, ts, store, now);
    LastStageMatches(ts, chain, store, now);
    RunFolds(ts, chain, n, store, now);
    RunKeepsNoGit(ts, chain, n, store, now);
    CaptureMatches(FoldActions(actions, target + 1).value, ts[n]);
  }

  lemma BetweenIsChain(actions: Actions, full: nat, target: nat)
    requires IsLastFull(actions, full, target)
    ensures IsChain(Between(actions, full, target + 1))
  {
    BetweenHead(actions, full, target + 1);
    BetweenFromFront(actions, full, target + 1);
    BetweenIncremental(actions, full + 1, target + 1);
  }

  lemma {:induction false} BetweenIncremental(actions: Actions, lo: nat, hi: nat)
    requires lo <= hi <= |actions|
    requires forall j :: lo <= j < hi && actions[j].Some? ==> IsIncremental(actions[j].value)
    ensures forall i :: 0 <= i < |Between(actions, lo, hi)| ==> IsIncremental(Between(actions, lo, hi)[i])
    decreases hi
  {
    if lo == hi {
    } else {
      BetweenIncremental(actions, lo, hi - 1);
    }
  }

  // --------------------------------------------------------------- failing inputs

  /** A manifest without entries deletes one path. */
  lemma OneDeletion(t: Tree, d: Path, p: Path, store: Store, now: int)
    requires Canonical(d) && !Preserved(d) && p != [] && Locate(t, d) == Inside(p)
    ensures Script(t, Manifest([], [d]), false, store, now) == Outcome(RemoveTree(t, p), true)
  {
    var m := Manifest([], [d]);
    CanonicalIsClean(d);
    assert ByDepth(m.deleted, 0) == [] && ByDepth(m.deleted, 1) == [d];
    assert SafeDeletions(m.deleted, 0) && SafeItems(m.entries, 0);
    assert d[0] in d;
    assert Delete(t, [d], 0) == Outcome(t, true);
    assert Delete(t, [d], 1) == Outcome(RemoveTree(t, p), true);
    assert Plan(m) == [];
  }

  /** It folds to the same state when that does not hold the path. */
  lemma OneDeletionFolds(f: Entries, d: Path)
    requires d !in f
    ensures Fold(f, Manifest([], [d]), true) == Ok(f)
  {
    var none: Entries := map[];
    assert ReadEntries([], 0) == Ok(none);
    assert f + none == f;
    assert (map p | p in f && (p !in [d] || Skipped(p)) :: f[p]) == f;
  }

  function NestedTree(h: Digest): Tree {
    map[["d"] := Dir, ["d", "f"] := File(h, 0, 0)]
  }

  function NestedState(h: Digest): Entries {
    map[["d", "f"] := FileEntry(h, Some(0))]
  }

  /**
   * Why the conditions are needed: a manifest that deletes a directory and says nothing of the file
   * in it restores without error, but the fold still holds the file.
   */
  lemma DeletedDirectoryDiverges(h: Digest, store: Store, now: int)
    ensures var t, f, m := NestedTree(h), NestedState(h), Manifest([], [["d"]]);
      && Matches(f, View(t))
      && Script(t, m, false, store, now).ok
      && Fold(f, m, true) == Ok(f)
      && !Matches(f, View(Script(t, m, false, store, now).tree))
  {
    NestedTreeAgrees(h);
    LocateWithoutLinks(NestedTree(h), ["d"]);
    OneDeletion(NestedTree(h), ["d"], ["d"], store, now);
    OneDeletionFolds(NestedState(h), ["d"]);
  }

  lemma NestedTreeAgrees(h: Digest)
    ensures Matches(NestedState(h), View(NestedTree(h)))
    ensures !Matches(NestedState(h), View(RemoveTree(NestedTree(h), ["d"])))
  {
    var x: Path := ["d", "f"];
    assert GIT !in x by { assert "d" != GIT && "f" != GIT; }
    assert View(NestedTree(h)) == NestedState(h);
    assert ["d"] == x[..1] && Above(["d"], x);
    assert x in NestedState(h).Keys && x !in View(RemoveTree(NestedTree(h), ["d"])).Keys;
  }

  function LinkedTree(h: Digest): Tree {
    map[["a"] := Link("b"), ["b"] := Dir, ["b", "x"] := File(h, 0, 0)]
  }

  function LinkedState(h: Digest): Entries {
    map[["a"] := LinkEntry("b"), ["b", "x"] := FileEntry(h, Some(0))]
  }

  /**
   * A manifest that deletes a path below a link meets every condition on what it names, yet what goes is
   * the file the link leads to, and the fold still holds that.
   */
  lemma LinkedDeletionDiverges(h: Digest, store: Store, now: int)
    ensures var t, f, m := LinkedTree(h), LinkedState(h), Manifest([], [["a", "x"]]);
      && WellFormed(t) && Tidy(m) && Matches(f, View(t))
      && Ordinary(f, m) && Compatible(f, m, DeletedPaths(m)) && !Plain(f, m)
      && Fold(f, m, true) == Ok(f)
      && Script(t, m, false, store, now) == Outcome(map[["a"] := Link("b"), ["b"] := Dir], true)
      && !Matches(f, View(Script(t, m, false, store, now).tree))
  {
    LinkedTreeAgrees(h);
    LinkedDeletionIsOrdinary(h);
    LinkedFileGoes(h, store, now);
    OrdinaryIsCompatible(LinkedState(h), Manifest([], [["a", "x"]]));
    OneDeletionFolds(LinkedState(h), ["a", "x"]);
  }

  lemma LinkedTreeAgrees(h: Digest)
    ensures WellFormed(LinkedTree(h)) && Matches(LinkedState(h), View(LinkedTree(h)))
  {
    var t := LinkedTree(h);
    forall p, q | p in t && Above(q, p)
      ensures q in t && t[q].Dir?
    {
      assert q == p[..|q|] && |q| == 1 && p == ["b", "x"];
      assert q == [p[0]] == ["b"];
    }
    assert GIT !in ["a"] && GIT !in ["b", "x"] by { assert "a" != GIT && "b" != GIT && "x" != GIT; }
    assert View(t) == LinkedState(h);
  }

  lemma LinkedDeletionIsOrdinary(h: Digest)
    ensures var f, m := LinkedState(h), Manifest([], [["a", "x"]]);
      Tidy(m) && Ordinary(f, m) && !Plain(f, m)
  {
    var m := Manifest([], [["a", "x"]]);
    assert ["a", "x"][..1] == ["a"] && Above(["a"], ["a", "x"]);
    assert EntryPaths(m) == {};
    assert ["a", "x"] in m.deleted && !Preserved(["a", "x"]) && ["a"] in LinkedState(h);
    assert !Above(["a", "x"], ["a"]) && !Above(["a", "x"], ["b", "x"]);
  }

  lemma LinkedFileGoes(h: Digest, store: Store, now: int)
    ensures var after: Tree := map[["a"] := Link("b"), ["b"] := Dir];
      && Script(LinkedTree(h), Manifest([], [["a", "x"]]), false, store, now) == Outcome(after, true)
      && !Matches(LinkedState(h), View(after))
  {
    var t, x: Path := LinkedTree(h), ["b", "x"];
    var after: Tree := map[["a"] := Link("b"), ["b"] := Dir];
    LinkLeadsAside(t);
    OneDeletion(t, ["a", "x"], x, store, now);
    assert RemoveTree(t, x) == after;
    assert x in LinkedState(h).Keys && x !in View(after).Keys;
  }

  lemma LinkLeadsAside(t: Tree)
    requires ["a"] in t && t[["a"]] == Link("b") && ["b"] in t && t[["b"]].Dir?
    ensures Locate(t, ["a", "x"]) == Inside(["b", "x"])
  {
    var d: Path := ["a", "x"];
    assert d[..1] == ["a"] && ROOT + ["a"] == ["testbed", "a"] && ["testbed", "a"][1..] == ["a"];
    PosixPath.SplitPart("b");
    assert ["b"] + ["a"][1..] == ["b"] && ROOT + ["b"] == ["testbed", "b"] && ["testbed", "b"][1..] == ["b"];
    assert ["b"][1..] == [];
    assert Walk(t, ["testbed", "b"], [], MAX_LINKS - 1) == Some(["testbed", "b"]);
    assert Walk(t, ROOT, ["b"], MAX_LINKS - 1) == Some(["testbed", "b"]);
    assert Walk(t, ROOT, ["a"], MAX_LINKS) == Some(["testbed", "b"]);
    assert (["testbed", "b"] + ["x"])[1..] == ["b", "x"];
  }
}
