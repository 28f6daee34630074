/** Incremental snapshots of the live tree, and the cache one replay session keeps for them. */
module Snapshot {
  import opened Prelude
  import opened FileTree
  import opened Manifest
  import opened Restore
  import opened RestoreFold
  import opened CheckpointChain
  import opened ChainRefinement
  import opened Listing
  import opened LinkWalk
  import PosixPath

  // ------------------------------------------------------------------ captures

  /** The files `find -newer` prints, in the order it comes upon them. */
  ghost predicate Lists(order: seq<Path>, t: Tree, marker: int) {
    && (forall p :: p in order <==> p in t && t[p].File? && t[p].mtime > marker)
    && (forall i, j :: 0 <= i < j < |order| ==> order[i] != order[j])
    && (forall p :: p in order ==> IsReal(p))
  }

  /** The files a capture should hash again. */
  function Changed(t: Tree, marker: int): set<Path> {
    set p | p in t && t[p].File? && t[p].mtime > marker && GIT !in p
  }

  /** A capture that hashes the listed files only and takes the rest from the last manifest. */
  function Incremental(previous: Entries, t: Tree, listed: set<Path>): Entries {
    map p | p in t && Walked(t, p) && (t[p].Link? || p in listed || p in previous) ::
      if t[p].Link? || p in listed then EntryOf(t[p]) else previous[p]
  }

  /** A walked path the script reads anew; without a list of changed files it reads all of them. */
  predicate ReadAnew(t: Tree, listed: Option<set<Path>>, p: Path) {
    p in t && (t[p].Link? || listed.None? || p in listed.value)
  }

  /** The walk inside the container. */
  method WalkTree(t: Tree, listed: Option<set<Path>>) returns (delta: Entries, allPaths: set<Path>)
    ensures allPaths == Capture(t).Keys
    ensures delta == map p | p in t && Walked(t, p) && ReadAnew(t, listed, p) :: EntryOf(t[p])
    ensures listed.None? ==> delta == Capture(t)
  {
    delta := map[];
    allPaths := {};
    var toVisit := set p | p in t && Walked(t, p);
    while toVisit != {}
      invariant allPaths + toVisit == (set p | p in t && Walked(t, p)) && allPaths !! toVisit
      invariant delta == map p | p in allPaths && ReadAnew(t, listed, p) :: EntryOf(t[p])
      decreases toVisit
    {
      var p :| p in toVisit;
      assert Walked(t, p);
      allPaths := allPaths + {p};
      if ReadAnew(t, listed, p) {
        delta := delta[p := EntryOf(t[p])];
      }
      toVisit := toVisit - {p};
    }
  }

  /** The merge on the host: updates, then drops the paths the walk did not list. */
  method MergeDelta(previous: Entries, delta: Entries, allPaths: set<Path>) returns (merged: Entries)
    ensures merged == map p | p in previous + delta && p in allPaths :: (previous + delta)[p]
  {
    merged := previous + delta;
    var toCheck := merged.Keys;
    while toCheck != {}
      invariant toCheck <= merged.Keys
      invariant merged == map p | p in previous + delta && (p in toCheck || p in allPaths) :: (previous + delta)[p]
      decreases toCheck
    {
      var p :| p in toCheck;
      if p !in allPaths {
        merged := merged - {p};
      }
      toCheck := toCheck - {p};
    }
  }

  /** What find printed, and the directory it ran in. */
  datatype Printed = Printed(cwd: string, order: seq<Path>)

  function ListedBy(printed: Printed): set<Path> {
    Listed(printed.cwd, printed.order)
  }

  /** printed is None when find failed. */
  method CaptureIncremental(previous: Entries, t: Tree, printed: Option<Printed>) returns (merged: Entries)
    ensures merged == if printed.Some? then Incremental(previous, t, ListedBy(printed.value)) else Capture(t)
  {
    var listed := None;
    if printed.Some? {
      var changed := ReadListing(printed.value.cwd, Print(printed.value.order));
      listed := Some(changed);
    }
    var delta, allPaths := WalkTree(t, listed);
    merged := MergeDelta(previous, delta, allPaths);
  }

  /** The cache is right about every file that is not read anew. */
  ghost predicate Coherent(cache: Entries, t: Tree, listed: set<Path>) {
    forall p :: Walked(t, p) && t[p].File? && p !in listed ==> p in cache && cache[p] == EntryOf(t[p])
  }

  /** An incremental capture is a full one exactly when the cache is right about what was not listed. */
  lemma CaptureExact(cache: Entries, t: Tree, listed: set<Path>)
    ensures Incremental(cache, t, listed) == Capture(t) <==> Coherent(cache, t, listed)
  {
    var inc, full := Incremental(cache, t, listed), Capture(t);
    if inc == full {
      forall p | Walked(t, p) && t[p].File? && p !in listed
        ensures p in cache && cache[p] == EntryOf(t[p])
      {
        assert p in full.Keys;
        assert p in inc.Keys && inc[p] == full[p];
      }
    }
    if Coherent(cache, t, listed) {
      forall p
        ensures p in inc <==> p in full
        ensures p in full ==> inc[p] == full[p]
      {
      }
    }
  }

  /** A legible list names exactly the changed files. */
  lemma LegibleListsChanges(t: Tree, marker: int, printed: Printed)
    requires Lists(printed.order, t, marker) && Legible(printed.order)
    ensures ListedBy(printed) == Changed(t, marker)
  {
    LegibleIsRead(printed.cwd, printed.order);
  }

  /** Any list falls short of them exactly when it is not legible; names below .git set aside. */
  lemma IllegibleMissesChanges(t: Tree, marker: int, printed: Printed)
    requires Lists(printed.order, t, marker) && Unbroken(printed.cwd)
    requires forall p :: p in printed.order && GIT in p ==> Unbroken(Line(p)) && !EndsInSpace(Line(p))
    ensures Changed(t, marker) <= ListedBy(printed) <==> Legible(printed.order)
  {
    ListingExact(printed.cwd, printed.order);
    assert forall p :: p in Changed(t, marker) <==> p in printed.order && GIT !in p;
  }

  // ------------------------------------------------------------------- session

  datatype Session = Session(tree: Tree, marker: Option<int>, cache: Option<Entries>)

  /** One forced sync; reapply holds the trees after each re-applied action, when it is a fallback. */
  datatype Resync = Resync(
    chain: Option<seq<CheckpointSpec>>, store: Store, now: int,
    reapply: Option<seq<Tree>>, reapplyFailed: bool,
    preVerified: bool, preTime: int,
    verified: bool, time: int)

  datatype Event =
    | ToolRuns(after: Tree)
    | Boundary(time: int, printed: Option<Printed>, captured: bool)
    | ForcedSync(resync: Resync)

  /** What the capture at a boundary returns; printed is what find put out, if it got that far. */
  function Snapshot(s: Session, printed: Option<Printed>): Entries {
    if s.cache.Some? && printed.Some? then Incremental(s.cache.value, s.tree, ListedBy(printed.value))
    else Capture(s.tree)
  }

  function AfterVerification(s: Session, r: Resync): Session {
    if r.verified then Session(s.tree, Some(r.time), Some(Capture(s.tree)))
    else s.(cache := None)
  }

  /** What follows a restore that reports success; s has its cache dropped. */
  function AfterRestore(s: Session, r: Resync): Session {
    if r.reapply.None? then AfterVerification(s, r)
    else
      var s' := if r.preVerified then s.(marker := Some(r.preTime)) else s;
      var trees := r.reapply.value;
      if trees != [] then s'.(tree := trees[|trees| - 1])
      else if r.reapplyFailed then s'
      else AfterVerification(s', r)
  }

  function AfterResync(s: Session, r: Resync): Session {
    if r.chain.None? || r.chain.value == [] then s
    else
      var restored := RestoreChain(s.tree, r.chain.value, |r.chain.value|, r.store, r.now);
      if restored.ok then AfterRestore(s.(tree := restored.tree, cache := None), r)
      else s.(tree := restored.tree)
  }

  function Step(s: Session, e: Event): Session {
    match e
    case ToolRuns(after) => s.(tree := after)
    case Boundary(time, printed, captured) =>
      if captured then Session(s.tree, Some(time), Some(Snapshot(s, printed))) else s
    case ForcedSync(r) => AfterResync(s, r)
  }

  /**
   * A change of the tree that mtimes tell: a file that ends up not newer than the marker
   * was not newer before and recorded the same.
   */
  ghost predicate ToldByMtime(before: Tree, after: Tree, marker: int) {
    forall p :: Walked(after, p) && after[p].File? && after[p].mtime <= marker ==>
      && Walked(before, p) && before[p].File? && before[p].mtime <= marker
      && EntryOf(before[p]) == EntryOf(after[p])
  }

  ghost predicate TreeOk(t: Tree) {
    WellFormed(t) && NoGitLeaf(t)
  }

  /** find listed the files newer than the marker, and their names come through. */
  ghost predicate PrintedOk(s: Session, printed: Printed) {
    s.marker.Some? && Lists(printed.order, s.tree, s.marker.value) && Legible(printed.order)
  }

  /**
   * What the environment must keep to: tools leave no file or link called .git, and while the cache is
   * in use they, and restores that fail, change nothing the mtimes do not tell; find lists names that
   * come through; manifests that are restored are tidy and record nothing called .git.
   */
  ghost predicate Allowed(s: Session, e: Event) {
    match e
    case ToolRuns(after) =>
      TreeOk(after) && (s.cache.Some? && s.marker.Some? ==> ToldByMtime(s.tree, after, s.marker.value))
    case Boundary(_, printed, _) =>
      s.cache.Some? && printed.Some? ==> PrintedOk(s, printed.value)
    case ForcedSync(r) =>
      r.chain.Some? && r.chain.value != [] ==>
        var restored := RestoreChain(s.tree, r.chain.value, |r.chain.value|, r.store, r.now);
        if restored.ok then TidyChain(r.chain.value) && GitCleanChain(r.chain.value) && ReapplyOk(r)
        else TreeOk(restored.tree) &&
             (s.cache.Some? && s.marker.Some? ==> ToldByMtime(s.tree, restored.tree, s.marker.value))
  }

  ghost predicate ReapplyOk(r: Resync) {
    r.reapply.Some? && r.reapply.value != [] ==> TreeOk(r.reapply.value[|r.reapply.value| - 1])
  }

  ghost predicate SessionOk(s: Session) {
    && TreeOk(s.tree)
    && (s.cache.Some? ==> s.marker.Some? && Coherent(s.cache.value, s.tree, Changed(s.tree, s.marker.value)))
  }

  /** A capture of the session is a full one exactly when each changed file the list misses is cached as it is. */
  lemma BoundaryExact(s: Session, printed: Option<Printed>)
    requires SessionOk(s)
    ensures Snapshot(s, printed) == Capture(s.tree) <==>
      (s.cache.Some? && printed.Some? ==>
         forall p :: Walked(s.tree, p) && p in Changed(s.tree, s.marker.value) && p !in ListedBy(printed.value) ==>
           p in s.cache.value && s.cache.value[p] == EntryOf(s.tree[p]))
  {
    if s.cache.Some? && printed.Some? {
      CaptureExact(s.cache.value, s.tree, ListedBy(printed.value));
    }
  }

  lemma SnapshotIsCapture(s: Session, printed: Option<Printed>)
    requires SessionOk(s) && Allowed(s, Boundary(0, printed, true))
    ensures Snapshot(s, printed) == Capture(s.tree)
  {
    BoundaryExact(s, printed);
    if s.cache.Some? && printed.Some? {
      LegibleListsChanges(s.tree, s.marker.value, printed.value);
    }
  }

  lemma StepKeepsSession(s: Session, e: Event)
    requires SessionOk(s) && Allowed(s, e)
    ensures SessionOk(Step(s, e))
  {
    match e
    case ToolRuns(_) =>
    case Boundary(_, printed, _) =>
      SnapshotIsCapture(s, printed);
    case ForcedSync(r) =>
      if r.chain.Some? && r.chain.value != [] {
        ResyncKeepsSession(s, r);
      }
  }

  lemma ResyncKeepsSession(s: Session, r: Resync)
    requires SessionOk(s) && Allowed(s, ForcedSync(r))
    requires r.chain.Some? && r.chain.value != []
    ensures SessionOk(AfterResync(s, r))
  {
    var restored := RestoreChain(s.tree, r.chain.value, |r.chain.value|, r.store, r.now);
    if restored.ok {
      NoGitLeafMeans(s.tree);
      RestoredTree(s.tree, r.chain.value, r.store, r.now);
    }
  }

  // ---------------------------------------------------------------------- runs

  function RunEvents(s: Session, events: seq<Event>, k: nat): Session
    requires k <= |events|
  {
    if k == 0 then s else Step(RunEvents(s, events, k - 1), events[k - 1])
  }

  ghost predicate RunAllowed(s: Session, events: seq<Event>) {
    forall i {:trigger events[i]} :: 0 <= i < |events| ==> Allowed(RunEvents(s, events, i), events[i])
  }

  lemma {:induction false} RunKeepsSession(start: Tree, marker: Option<int>, events: seq<Event>, k: nat)
    requires TreeOk(start) && k <= |events|
    requires RunAllowed(Session(start, marker, None), events)
    ensures SessionOk(RunEvents(Session(start, marker, None), events, k))
  {
    var s0 := Session(start, marker, None);
    if k == 0 {
    } else {
      RunKeepsSession(start, marker, events, k - 1);
      StepKeepsSession(RunEvents(s0, events, k - 1), events[k - 1]);
    }
  }

  /**
   * Over a whole session, from an empty cache and through any tool steps, captures, restores,
   * re-applied actions and verifications, every capture returns what a full walk would.
   */
  lemma SessionIsCoherent(
      start: Tree, marker: Option<int>, events: seq<Event>, k: nat, printed: Option<Printed>)
    requires TreeOk(start) && k <= |events|
    requires RunAllowed(Session(start, marker, None), events)
    requires Allowed(RunEvents(Session(start, marker, None), events, k), Boundary(0, printed, true))
    ensures var s := RunEvents(Session(start, marker, None), events, k);
      Snapshot(s, printed) == Capture(s.tree)
  {
    RunKeepsSession(start, marker, events, k);
    SnapshotIsCapture(RunEvents(Session(start, marker, None), events, k), printed);
  }

  /** So a boundary reports a mismatch exactly when the live tree does not hold the source's state. */
  lemma BoundaryTellsTheTruth(
      start: Tree, marker: Option<int>, events: seq<Event>, k: nat, printed: Option<Printed>, folded: Entries)
    requires TreeOk(start) && k <= |events|
    requires RunAllowed(Session(start, marker, None), events)
    requires Allowed(RunEvents(Session(start, marker, None), events, k), Boundary(0, printed, true))
    ensures var s := RunEvents(Session(start, marker, None), events, k);
      Compare(folded, Snapshot(s, printed)).IsMatch() <==> Matches(folded, View(s.tree))
  {
    var s := RunEvents(Session(start, marker, None), events, k);
    RunKeepsSession(start, marker, events, k);
    SessionIsCoherent(start, marker, events, k, printed);
    CaptureMatches(folded, s.tree);
  }

  /** The session as the replay loop keeps it: a live tree, the marker in the container, the cached manifest. */
  class ReplaySession {
    const live: LiveTree
    var marker: Option<int>
    var cache: Option<Entries>

    ghost function State(): Session
      reads this, live
    {
      Session(live.nodes, marker, cache)
    }

    constructor (tree: LiveTree)
      ensures live == tree && marker == None && cache == None
    {
      live, marker, cache := tree, None, None;
    }

    /** The capture at a checkpoint boundary; captured tells whether the container delivered one. */
    method CaptureBoundary(time: int, printed: Option<Printed>, captured: bool) returns (entries: Option<Entries>)
      modifies this
      ensures State() == Step(old(State()), Boundary(time, printed, captured))
      ensures entries == if captured then cache else None
      ensures live.nodes == old(live.nodes)
      ensures !captured ==> marker == old(marker) && cache == old(cache)
      ensures captured ==> marker == Some(time)
      ensures captured && old(cache).Some? && printed.Some? ==>
        cache == Some(Incremental(old(cache).value, live.nodes, ListedBy(printed.value)))
      ensures captured && (old(cache).None? || printed.None?) ==> cache == Some(Capture(live.nodes))
      ensures captured && SessionOk(old(State())) && Allowed(old(State()), Boundary(time, printed, captured)) ==>
        entries == Some(Capture(live.nodes))
    {
      ghost var before := State();
      if SessionOk(before) && Allowed(before, Boundary(time, printed, captured)) {
        SnapshotIsCapture(before, printed);
      }
      if !captured {
        return None;
      }
      var taken: Entries;
      if cache.Some? {
        taken := CaptureIncremental(cache.value, live.nodes, printed);
      } else {
        var paths;
        taken, paths := WalkTree(live.nodes, None);
      }
      marker, cache := Some(time), Some(taken);
      entries := cache;
    }

    method Verify(r: Resync)
      modifies this
      ensures State() == AfterVerification(old(State()), r)
      ensures r.verified ==> marker == Some(r.time) && cache == Some(Capture(live.nodes))
      ensures !r.verified ==> marker == old(marker) && cache == None
    {
      if r.verified {
        var entries, paths := WalkTree(live.nodes, None);
        marker, cache := Some(r.time), Some(entries);
      } else {
        cache := None;
      }
    }

    /** Re-applies the actions of a fallback, and verifies when there were none. */
    method Continue(r: Resync)
      modifies this, live
      ensures State() == AfterRestore(old(State()), r)
    {
      var count := 0;
      if r.reapply.Some? {
        if r.preVerified {
          marker := Some(r.preTime);
        }
        var trees := r.reapply.value;
        ghost var s := State();
        while count < |trees|
          invariant 0 <= count <= |trees|
          invariant State() == if count == 0 then s else s.(tree := trees[count - 1])
        {
          live.nodes := trees[count];
          count := count + 1;
        }
      }
      if count == 0 && !(r.reapply.Some? && r.reapplyFailed) {
        Verify(r);
      }
    }

    /** One forced sync. */
    method ForceSync(r: Resync)
      requires WellFormed(live.nodes)
      requires r.chain.Some? ==> TidyChain(r.chain.value)
      modifies this, live
      ensures State() == AfterResync(old(State()), r)
      ensures r.chain.None? || r.chain.value == [] ==>
        live.nodes == old(live.nodes) && marker == old(marker) && cache == old(cache)
      ensures r.chain.Some? && r.chain.value != [] ==>
        var restored := RestoreChain(old(live.nodes), r.chain.value, |r.chain.value|, r.store, r.now);
        && (!restored.ok ==> live.nodes == restored.tree && marker == old(marker) && cache == old(cache))
        && (restored.ok && r.reapply.Some? && r.reapply.value != [] ==>
              && live.nodes == r.reapply.value[|r.reapply.value| - 1] && cache == None
              && marker == if r.preVerified then Some(r.preTime) else old(marker))
        && (restored.ok && r.reapply.None? ==>
              && live.nodes == restored.tree && cache == (if r.verified then Some(Capture(restored.tree)) else None)
              && marker == if r.verified then Some(r.time) else old(marker))
    {
      if r.chain.Some? {
        var ok := RestoreChainInto(live, r.chain.value, r.store, r.now);
        if ok {
          cache := None;
          Continue(r);
        }
      }
    }
  }

  // ------------------------------------------------------- what the cache cannot see

  /**
   * Right after a capture, one step of a tool is seen in full by the next incremental capture exactly
   * when every file that is not listed after it was captured with the same record.
   */
  lemma OneStepExact(before: Tree, after: Tree, listed: set<Path>)
    ensures Incremental(Capture(before), after, listed) == Capture(after) <==>
      forall p :: Walked(after, p) && after[p].File? && p !in listed ==>
        Walked(before, p) && EntryOf(before[p]) == EntryOf(after[p])
  {
    CaptureExact(Capture(before), after, listed);
    if Coherent(Capture(before), after, listed) {
      forall p | Walked(after, p) && after[p].File? && p !in listed
        ensures Walked(before, p) && EntryOf(before[p]) == EntryOf(after[p])
      {
        assert p in Capture(before);
      }
    }
  }

  /** A change of mode alone keeps the mtime: whatever the tree and the file, the next capture misses it. */
  lemma ModeChangeIsMissed(before: Tree, p: Path, mode: int, marker: int, printed: Printed)
    requires Walked(before, p) && before[p].File? && before[p].mtime <= marker && before[p].mode != mode
    requires var after := before[p := File(before[p].digest, mode, before[p].mtime)];
      Lists(printed.order, after, marker) && Legible(printed.order)
    ensures var after := before[p := File(before[p].digest, mode, before[p].mtime)];
      Incremental(Capture(before), after, ListedBy(printed)) != Capture(after)
  {
    var after := before[p := File(before[p].digest, mode, before[p].mtime)];
    LegibleListsChanges(after, marker, printed);
    assert Walked(after, p);
    OneStepExact(before, after, ListedBy(printed));
  }

  /** A new file with a line boundary in its path is missed by the next capture, whatever else is listed. */
  lemma BrokenNameIsMissed(before: Tree, p: Path, i: nat, n: Node, printed: Printed)
    requires p !in before && p != [] && n.File? && GIT !in p && i < |p| && !Unbroken(p[i]) && Unbroken(printed.cwd)
    ensures Incremental(Capture(before), before[p := n], ListedBy(printed)) != Capture(before[p := n])
  {
    BrokenIsMissed(printed.cwd, printed.order, p, i);
    assert Walked(before[p := n], p) by {
      assert forall x :: x in p[..|p| - 1] ==> x in p;
    }
    OneStepExact(before, before[p := n], ListedBy(printed));
  }

  /** So is a new file whose name ends in white space, when it is the only one listed. */
  lemma TrailingNameIsMissed(before: Tree, p: Path, n: Node, marker: int, printed: Printed)
    requires IsReal(p) && p !in before && n.File? && GIT !in p && printed.order == [p]
    requires Unbroken(Line(p)) && EndsInSpace(Line(p))
    ensures Incremental(Capture(before), before[p := n], ListedBy(printed)) != Capture(before[p := n])
  {
    TrailingSpaceIsMissed(printed.cwd, [p]);
    assert Walked(before[p := n], p) by {
      assert forall x :: x in p[..|p| - 1] ==> x in p;
    }
    OneStepExact(before, before[p := n], ListedBy(printed));
  }

  /** Such names there are. */
  lemma GarbledNames()
    ensures IsReal(["a\nb"]) && !Unbroken("a\nb") && GIT !in ["a\nb"]
    ensures IsReal(["a "]) && Unbroken(Line(["a "])) && EndsInSpace(Line(["a "])) && GIT !in ["a "]
  {
    assert Breaks("a\nb"[1]) && "a\nb" != GIT && "a " != GIT;
    assert ROOT + ["a "] == ["testbed", "a "] && ["testbed", "a "][1..] == ["a "];
    assert PosixPath.Join(["a "]) == "a ";
    assert Line(["a "]) == "/testbed/a ";
  }

  /**
   * A chain whose second manifest cannot be read fails after the first one has rewritten the tree
   * with old mtimes. The cache stays, and the next incremental capture misses the change.
   */
  lemma FailedRestoreIsMissed(old_: Digest, new_: Digest, mode: int, mtime: int, marker: int, time: int)
    requires |new_| > 2 && old_ != new_ && mtime <= marker
    ensures var before: Tree := map[["f"] := File(old_, mode, marker)];
      var s := Session(before, Some(marker), Some(Capture(before)));
      var full := Manifest([Item(["f"], RawFile(Some(new_), Bits(mode), Some(mtime)))], []);
      var chain := [CheckpointSpec(Parsed(full), FullKind, false), CheckpointSpec(Unreadable, IncrementalKind, true)];
      var store: Store := map[BlobPath(new_) := Blob(new_, 0)];
      var after := AfterResync(s, Resync(Some(chain), store, time, None, false, false, 0, false, 0));
      var printed := Printed("/", []);
      && SessionOk(s) && TreeOk(after.tree) && PrintedOk(after, printed)
      && Snapshot(after, Some(printed)) != Capture(after.tree)
  {
    var before: Tree := map[["f"] := File(old_, mode, marker)];
    var item := Item(["f"], RawFile(Some(new_), Bits(mode), Some(mtime)));
    var full := Manifest([item], []);
    var store: Store := map[BlobPath(new_) := Blob(new_, 0)];
    var after: Tree := map[["f"] := File(new_, IMode(mode), mtime)];
    OneFileScript(before, item, store, time, after);
    FailsAtSecond(before, full, store, time, after);
    OldFileIsMissed(before, after, marker);
  }

  lemma FailsAtSecond(before: Tree, full: Manifest, store: Store, now: int, after: Tree)
    requires Script(before, full, true, store, now) == Outcome(after, true)
    ensures var chain := [CheckpointSpec(Parsed(full), FullKind, false), CheckpointSpec(Unreadable, IncrementalKind, true)];
      RestoreChain(before, chain, 2, store, now) == Outcome(after, false)
  {
    var chain := [CheckpointSpec(Parsed(full), FullKind, false), CheckpointSpec(Unreadable, IncrementalKind, true)];
    assert RestoreChain(before, chain, 0, store, now) == Outcome(before, true);
    assert RestoreChain(before, chain, 1, store, now) == Outcome(after, true);
  }

  lemma OldFileIsMissed(before: Tree, after: Tree, marker: int)
    requires before.Keys == after.Keys == {["f"]} && before[["f"]].File? && after[["f"]].File?
    requires after[["f"]].mtime <= marker && EntryOf(before[["f"]]) != EntryOf(after[["f"]])
    ensures TreeOk(before) && TreeOk(after) && Lists([], after, marker)
    ensures Incremental(Capture(before), after, ListedBy(Printed("/", []))) != Capture(after)
  {
    assert Walked(before, ["f"]) && Walked(after, ["f"]);
    LegibleListsChanges(after, marker, Printed("/", []));
    OneStepExact(before, after, ListedBy(Printed("/", [])));
  }

  lemma OneFileScript(before: Tree, item: Item, store: Store, now: int, after: Tree)
    requires item.path == ["f"] && item.entry.RawFile? && item.entry.hash.Some? && item.entry.mode.Bits? && item.entry.mtime.Some?
    requires Readable(store, item.entry.hash.value) && before.Keys == {["f"]}
    requires after == map[["f"] := NodeOf(item.entry, now)]
    ensures Script(before, Manifest([item], []), true, store, now) == Outcome(after, true)
  {
    var m := Manifest([item], []);
    assert Clean([]) == [] && Clean(["f"]) == ["f"];
    assert SafeItems(m.entries, 0) && SafeItems(m.entries, 1) && SafeDeletions(m.deleted, 0);
    var none: Tree := map[];
    assert Clear(before) == none;
    assert Pick(m.entries, 0, false) == [] && Pick(m.entries, 0, true) == [];
    assert Pick(m.entries, 1, false) == [item] && Pick(m.entries, 1, true) == [];
    assert Plan(m) == [item];
    assert EnsureParents(none, ["f"], 1) == Outcome(none, true);
    assert WriteItem(none, item, store, now) == Outcome(none[["f"] := NodeOf(item.entry, now)], true);
    assert WriteItems(none, [item], 0, store, now) == Outcome(none, true);
    assert WriteItems(none, [item], 1, store, now) == Outcome(after, true);
  }
}
