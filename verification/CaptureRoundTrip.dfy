/** Capturing one tree, writing the capture down as a manifest, and restoring that into another tree. */
module CaptureRoundTrip {
  import opened Prelude
  import opened FileTree
  import opened Manifest
  import opened Restore
  import opened RestoreFold
  import opened RestoreSuccess
  import opened CheckpointChain

  /** The entry a capture writes for a node; files may be recorded with any mtime or none. */
  predicate Records(e: RawEntry, n: Node) {
    match n
    case File(digest, mode, _) => e.RawFile? && e.hash == Some(digest) && e.mode == Bits(mode)
    case Link(target) => e.RawLink? && e.target == Some(target)
    case _ => false
  }

  /** A manifest with one entry for each file and link of the tree outside .git, in any order. */
  ghost predicate IsManifestOf(m: Manifest, t: Tree) {
    && Tidy(m) && m.deleted == []
    && (forall p :: p in View(t) <==> exists i :: 0 <= i < |m.entries| && m.entries[i].path == p)
    && (forall i :: 0 <= i < |m.entries| ==> m.entries[i].path in t && Records(m.entries[i].entry, t[m.entries[i].path]))
  }

  /** What any tree on disk and its blob store meet: modes have twelve bits, links a target, blobs are stored. */
  ghost predicate IsStored(t: Tree, store: Store) {
    forall p :: p in View(t) ==>
      match t[p]
      case File(digest, mode, _) =>
        && 0 <= mode < 4096 && |digest| > 2
        && Place([digest[..2], digest[2..]]) in store && store[Place([digest[..2], digest[2..]])].digest == digest
      case Link(target) => target != ""
      case _ => true
  }

  lemma EntryIsSound(m: Manifest, t: Tree, store: Store, item: Item)
    requires IsManifestOf(m, t) && IsStored(t, store) && item in m.entries
    ensures item.path in View(t) && Records(item.entry, t[item.path])
    ensures EntryOk(item.entry, store)
  {
    var i :| 0 <= i < |m.entries| && m.entries[i] == item;
    assert m.entries[i].path == item.path;
  }

  lemma NoneBelowAnother(m: Manifest, t: Tree, x: Item, y: Item)
    requires WellFormed(t) && IsManifestOf(m, t) && x in m.entries && y in m.entries
    ensures !Above(x.path, y.path)
  {
    var i :| 0 <= i < |m.entries| && m.entries[i] == x;
    var j :| 0 <= j < |m.entries| && m.entries[j] == y;
    assert x.path in View(t) by { assert m.entries[i].path == x.path; }
    assert y.path in View(t) by { assert m.entries[j].path == y.path; }
  }

  lemma SameViews(a: Tree, b: Tree)
    requires WellFormed(a) && WellFormed(b)
    requires forall x :: x != [] && GIT !in x ==> EntryAt(a, x) == EntryAt(b, x)
    ensures View(a) == View(b)
  {
    forall x
      ensures x in View(a) <==> x in View(b)
      ensures x in View(a) ==> View(a)[x] == View(b)[x]
    {
      if x != [] && GIT !in x {
        assert EntryAt(a, x) == EntryAt(b, x);
      }
    }
  }

  lemma ManifestTakesAnywhere(t: Tree, m: Manifest, other: Tree, store: Store, now: int)
    requires WellFormed(t) && WellFormed(other) && IsManifestOf(m, t) && IsStored(t, store)
    ensures Script(other, m, true, store, now).ok
  {
    forall item | item in m.entries
      ensures EntryOk(item.entry, store)
    {
      EntryIsSound(m, t, store, item);
    }
    forall x, y | x in m.entries && y in m.entries
      ensures !Above(x.path, y.path)
    {
      NoneBelowAnother(m, t, x, y);
    }
    ClearedRootTakesAny(other, m, store, now);
  }

  /**
   * The capture of a tree, written as a manifest and restored into any other tree, restores without
   * error, and the other tree then shows what the first one did.
   */
  lemma CaptureRestores(t: Tree, m: Manifest, other: Tree, store: Store, now: int)
    requires WellFormed(t) && WellFormed(other) && IsManifestOf(m, t) && IsStored(t, store)
    ensures Script(other, m, true, store, now).ok
    ensures View(Script(other, m, true, store, now).tree) == View(t)
  {
    ManifestTakesAnywhere(t, m, other, store, now);
    ScriptSucceeds(other, m, true, store, now);
    forall x | x != [] && GIT !in x
      ensures EntryAt(Script(other, m, true, store, now).tree, x) == EntryAt(t, x)
    {
      if i :| 0 <= i < |m.entries| && m.entries[i].path == x {
        RecordedShows(t, m, other, store, now, m.entries[i]);
      } else {
        OthersAreGone(t, m, other, store, now, x);
      }
    }
    SameViews(Script(other, m, true, store, now).tree, t);
  }

  lemma RecordedShows(t: Tree, m: Manifest, other: Tree, store: Store, now: int, item: Item)
    requires WellFormed(t) && WellFormed(other) && IsManifestOf(m, t) && IsStored(t, store)
    requires Script(other, m, true, store, now).ok && item in m.entries
    ensures EntryAt(Script(other, m, true, store, now).tree, item.path) == EntryAt(t, item.path)
  {
    EntryIsSound(m, t, store, item);
    assert item.path[0] in item.path;
    forall q | q in WrittenTo(m)
      ensures !Above(q, item.path)
    {
      var j :| 0 <= j < |m.entries| && m.entries[j].path == q;
      NoneBelowAnother(m, t, m.entries[j], item);
    }
    RestoredFile(other, m, true, store, now, item);
    ShowsNode(Script(other, m, true, store, now).tree, t, item);
  }

  lemma ShowsNode(after: Tree, t: Tree, item: Item)
    requires item.path in t && IsRecorded(t[item.path]) && Records(item.entry, t[item.path])
    requires t[item.path].File? ==> 0 <= t[item.path].mode < 4096
    requires LeafAt(after, item.path).Some? && IsRecorded(LeafAt(after, item.path).value)
    requires var n := LeafAt(after, item.path).value;
      match item.entry
      case RawFile(h, mode, _) => n.File? && h == Some(n.digest) && (mode.Bits? ==> n.mode == mode.bits % 4096)
      case RawLink(target, _) => n.Link? && target == Some(n.target)
      case _ => true
    ensures EntryAt(after, item.path) == EntryAt(t, item.path)
  {
  }

  lemma OthersAreGone(t: Tree, m: Manifest, other: Tree, store: Store, now: int, x: Path)
    requires WellFormed(other) && IsManifestOf(m, t) && Script(other, m, true, store, now).ok
    requires x != [] && GIT !in x && forall i :: 0 <= i < |m.entries| ==> m.entries[i].path != x
    ensures EntryAt(Script(other, m, true, store, now).tree, x) == EntryAt(t, x) == None
  {
    assert x !in View(t);
    ScriptView(other, m, true, store, now);
  }

  // ---------------------------------------------------------------------- chains

  /** Manifest i of a chain can be restored from the tree the ones before it leave. */
  ghost predicate StageRestores(t: Tree, chain: seq<CheckpointSpec>, i: nat, store: Store, now: int)
    requires i < |chain|
  {
    CanRestore(RestoreChain(t, chain, i, store, now).tree, chain[i], i == 0, store)
  }

  ghost predicate CanRestore(t: Tree, spec: CheckpointSpec, clear: bool, store: Store) {
    spec.kind != OtherKind && spec.file.Parsed? && Restorable(t, spec.file.manifest, clear, store)
  }

  lemma SpecSucceeds(t: Tree, spec: CheckpointSpec, clear: bool, store: Store, now: int)
    requires WellFormed(t)
    ensures RestoreSpec(t, spec, clear, store, now).ok <==> CanRestore(t, spec, clear, store)
    ensures RestoreSpec(t, spec, clear, store, now).ok ==> WellFormed(RestoreSpec(t, spec, clear, store, now).tree)
  {
    if spec.file.Parsed? {
      ScriptSucceeds(t, spec.file.manifest, clear, store, now);
    }
  }

  ghost predicate StagesRestore(t: Tree, chain: seq<CheckpointSpec>, k: nat, store: Store, now: int)
    requires k <= |chain|
  {
    forall i: nat :: i < k ==> StageRestores(t, chain, i, store, now)
  }

  /** The outcome is a success just when it should be, and then leaves a well-formed tree. */
  ghost predicate Restored(o: Outcome, due: bool) {
    (o.ok <==> due) && (o.ok ==> WellFormed(o.tree))
  }

  /** A chain restores exactly when each of its manifests can be, on the tree it comes upon. */
  lemma {:induction false} ChainSucceeds(t: Tree, chain: seq<CheckpointSpec>, k: nat, store: Store, now: int)
    requires WellFormed(t) && k <= |chain|
    ensures Restored(RestoreChain(t, chain, k, store, now), StagesRestore(t, chain, k, store, now))
  {
    if k == 0 {
      assert RestoreChain(t, chain, 0, store, now) == Outcome(t, true);
    } else {
      ChainSucceeds(t, chain, k - 1, store, now);
      ChainNext(t, chain, k, store, now);
    }
  }

  lemma ChainNext(t: Tree, chain: seq<CheckpointSpec>, k: nat, store: Store, now: int)
    requires 0 < k <= |chain|
    requires Restored(RestoreChain(t, chain, k - 1, store, now), StagesRestore(t, chain, k - 1, store, now))
    ensures Restored(RestoreChain(t, chain, k, store, now), StagesRestore(t, chain, k, store, now))
  {
    var before := RestoreChain(t, chain, k - 1, store, now);
    assert RestoreChain(t, chain, k, store, now) ==
      if before.ok then RestoreSpec(before.tree, chain[k - 1], k == 1, store, now) else before;
    OneMoreStage(t, chain, k, store, now);
    if before.ok {
      SpecSucceeds(before.tree, chain[k - 1], k == 1, store, now);
    }
  }

  lemma OneMoreStage(t: Tree, chain: seq<CheckpointSpec>, k: nat, store: Store, now: int)
    requires 0 < k <= |chain|
    ensures StagesRestore(t, chain, k, store, now) <==>
      StagesRestore(t, chain, k - 1, store, now) &&
      CanRestore(RestoreChain(t, chain, k - 1, store, now).tree, chain[k - 1], k == 1, store)
  {
    assert StageRestores(t, chain, k - 1, store, now) <==>
      CanRestore(RestoreChain(t, chain, k - 1, store, now).tree, chain[k - 1], k == 1, store);
  }
}
