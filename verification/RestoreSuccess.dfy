/** Exactly when the restore script runs to its end, and what it is sure to leave alone. */
module RestoreSuccess {
  import opened Prelude
  import opened FileTree
  import opened LinkWalk
  import opened Manifest
  import opened Restore
  import opened RestoreFold

  // ------------------------------------------------------------- when one write succeeds

  /** Nothing but directories stands above p, and a file comes only where a file or nothing is. */
  ghost predicate Writable(t: Tree, p: Path, file: bool) {
    && (forall q :: Above(q, p) ==> LeafAt(t, q) == None)
    && (file ==> LeafAt(t, p) == None || LeafAt(t, p).value.File?)
  }

  lemma {:induction false} ParentsSucceed(t: Tree, p: Path, i: nat)
    requires WellFormed(t) && 1 <= i && p != []
    requires forall q :: Above(q, p) && |q| < i ==> q in t && t[q].Dir?
    ensures EnsureParents(t, p, i).ok <==> forall q :: Above(q, p) ==> LeafAt(t, q) == None
    decreases |p| - i
  {
    if i >= |p| {
    } else {
      var current := p[..i];
      assert Above(current, p);
      var t' := if current in t then t else t[current := Dir];
      forall q | Above(q, p) && |q| <= i
        ensures current !in t || t[current].Dir? ==> q in t' && t'[q].Dir?
      {
        assert |q| == i ==> q == current;
      }
      if current !in t || t[current].Dir? {
        forall a, b | a in t' && Above(b, a)
          ensures b in t' && t'[b].Dir?
        {
          assert a == current ==> Above(b, p) && |b| < i;
        }
        ParentsSucceed(t', p, i + 1);
        assert forall q :: LeafAt(t', q) == LeafAt(t, q);
      }
    }
  }

  /** A write succeeds exactly when its place is free; missing directories are made. */
  lemma PutSucceeds(t: Tree, p: Path, n: Node)
    requires WellFormed(t) && p != [] && IsRecorded(n)
    ensures Put(t, p, n).ok <==> Writable(t, p, n.File?)
  {
    ParentsSucceed(t, p, 1);
    ParentsMade(t, p, 1);
    var s := EnsureParents(t, p, 1);
    if s.ok {
      assert LeafAt(s.tree, p) == LeafAt(t, p);
    }
  }

  /** A file entry has a blob that reads as its digest and no null mode; a link entry has a target. */
  predicate EntryOk(e: RawEntry, store: Store) {
    match e
    case RawFile(Some(h), mode, _) =>
      && |h| > 2 && Place([h[..2], h[2..]]) in store && store[Place([h[..2], h[2..]])].digest == h
      && mode != NullMode
    case RawLink(Some(target), _) => target != ""
    case _ => false
  }

  lemma ItemSucceeds(t: Tree, item: Item, store: Store, now: int)
    requires WellFormed(t) && Clean(item.path) != [] && WellTyped(item.entry)
    ensures WriteItem(t, item, store, now).ok <==>
      EntryOk(item.entry, store) && Writable(t, Clean(item.path), item.entry.RawFile?)
  {
    if EntryOk(item.entry, store) {
      PutSucceeds(t, Clean(item.path), NodeOf(item.entry, now));
    }
  }

  // --------------------------------------------------------- when a sequence of writes does

  function Target(item: Item): Path {
    Clean(item.path)
  }

  /** Every item has a place and a type, and files come before links. */
  ghost predicate Ordered(plan: seq<Item>) {
    && (forall i :: 0 <= i < |plan| ==> Target(plan[i]) != [] && WellTyped(plan[i].entry))
    && (forall j, i :: 0 <= j < i < |plan| && plan[i].entry.RawFile? ==> plan[j].entry.RawFile?)
  }

  ghost function Targets(plan: seq<Item>, k: nat): set<Path>
    requires k <= |plan|
  {
    set j | 0 <= j < k :: Target(plan[j])
  }

  /** The leaf at x after k writes over t: one of them, hidden by one, or the one before. */
  ghost predicate LeafFits(t: Tree, s: Tree, plan: seq<Item>, k: nat, x: Path)
    requires k <= |plan|
  {
    if Shadowed(Targets(plan, k), x) then LeafAt(s, x) == None
    else if x in Targets(plan, k) then
      LeafAt(s, x).Some? && (k > 0 && plan[k - 1].entry.RawFile? ==> LeafAt(s, x).value.File?)
    else LeafAt(s, x) == LeafAt(t, x)
  }

  ghost predicate AllFit(t: Tree, s: Tree, plan: seq<Item>, k: nat)
    requires k <= |plan|
  {
    WellFormed(s) && forall x :: LeafFits(t, s, plan, k, x)
  }

  /** Item i finds its place free: nothing before the first write stands in the way, and no earlier write. */
  ghost predicate Free(t: Tree, plan: seq<Item>, i: nat)
    requires i < |plan|
  {
    && Writable(t, Target(plan[i]), plan[i].entry.RawFile?)
    && forall j :: 0 <= j < i ==> !Above(Target(plan[j]), Target(plan[i]))
  }

  lemma FreeIsWritable(t: Tree, s: Tree, plan: seq<Item>, k: nat)
    requires Ordered(plan) && k < |plan| && AllFit(t, s, plan, k)
    requires forall j :: 0 <= j < k ==> Free(t, plan, j)
    ensures Writable(s, Target(plan[k]), plan[k].entry.RawFile?) <==> Free(t, plan, k)
  {
    var p, ts := Target(plan[k]), Targets(plan, k);
    if Shadowed(ts, p) {
      var q :| q in ts && Above(q, p);
      var top := TopmostAbove(ts, q);
      assert LeafFits(t, s, plan, k, top) && Above(top, p);
    } else {
      forall j | 0 <= j < k
        ensures !Above(Target(plan[j]), p)
      {
        assert Target(plan[j]) in ts;
      }
      forall q | Above(q, p)
        ensures LeafAt(s, q) == LeafAt(t, q)
      {
        assert LeafFits(t, s, plan, k, q);
      }
      assert LeafFits(t, s, plan, k, p);
      if p in ts {
        var j :| 0 <= j < k && Target(plan[j]) == p;
        assert Free(t, plan, j);
      }
    }
  }

  lemma FitsAfterWrite(t: Tree, s: Tree, s': Tree, plan: seq<Item>, k: nat, n: Node)
    requires Ordered(plan) && k < |plan| && AllFit(t, s, plan, k) && WellFormed(s')
    requires Free(t, plan, k) && n.File? == plan[k].entry.RawFile?
    requires var p := Target(plan[k]);
      forall x :: LeafAt(s', x) == (if x == p then Some(n) else if Above(p, x) then None else LeafAt(s, x))
    ensures AllFit(t, s', plan, k + 1)
  {
    var p, k' := Target(plan[k]), k + 1;
    assert Targets(plan, k') == Targets(plan, k) + {p};
    forall x
      ensures LeafFits(t, s', plan, k', x)
    {
      assert LeafFits(t, s, plan, k, x);
      assert Shadowed(Targets(plan, k'), x) <==> Shadowed(Targets(plan, k), x) || Above(p, x);
    }
  }

  /** Each of the first k items is sound and finds its place free. */
  ghost predicate PlanOk(t: Tree, plan: seq<Item>, k: nat, store: Store)
    requires k <= |plan|
  {
    forall i :: 0 <= i < k ==> EntryOk(plan[i].entry, store) && Free(t, plan, i)
  }

  lemma PlanOkNext(t: Tree, plan: seq<Item>, k: nat, store: Store)
    requires 0 < k <= |plan|
    ensures PlanOk(t, plan, k, store) <==>
      PlanOk(t, plan, k - 1, store) && EntryOk(plan[k - 1].entry, store) && Free(t, plan, k - 1)
  {
  }

  lemma NextSucceeds(t: Tree, s: Tree, plan: seq<Item>, k: nat, store: Store, now: int)
    requires Ordered(plan) && k < |plan| && AllFit(t, s, plan, k) && PlanOk(t, plan, k, store)
    ensures var next := WriteItem(s, plan[k], store, now);
      && (next.ok <==> EntryOk(plan[k].entry, store) && Free(t, plan, k))
      && (next.ok ==> AllFit(t, next.tree, plan, k + 1))
  {
    ItemSucceeds(s, plan[k], store, now);
    FreeIsWritable(t, s, plan, k);
    if EntryOk(plan[k].entry, store) && Free(t, plan, k) {
      var n := NodeOf(plan[k].entry, now);
      PutLeaves(s, Target(plan[k]), n);
      FitsAfterWrite(t, s, WriteItem(s, plan[k], store, now).tree, plan, k, n);
    }
  }

  /** The first k writes succeed exactly when each is of a sound entry to a place that is free. */
  lemma {:induction false} PlanSucceeds(t: Tree, plan: seq<Item>, k: nat, store: Store, now: int)
    requires WellFormed(t) && Ordered(plan) && k <= |plan|
    ensures var s := WriteItems(t, plan, k, store, now);
      && (s.ok <==> PlanOk(t, plan, k, store))
      && (s.ok ==> AllFit(t, s.tree, plan, k))
  {
    if k == 0 {
    } else {
      PlanSucceeds(t, plan, k - 1, store, now);
      PlanOkNext(t, plan, k, store);
      var before := WriteItems(t, plan, k - 1, store, now);
      if before.ok {
        NextSucceeds(t, before.tree, plan, k - 1, store, now);
      }
    }
  }

  // ------------------------------------------------------------- the plan of a manifest

  lemma PlanItems(m: Manifest)
    requires AllTyped(m)
    ensures forall item :: item in Plan(m) <==> item in m.entries && !Preserved(item.path)
  {
    var n := |m.entries|;
    PickMembers(m.entries, n, false);
    PickMembers(m.entries, n, true);
    assert m.entries[..n] == m.entries;
  }

  lemma PlanIsOrdered(m: Manifest)
    requires AllTyped(m) && AllSafe(m)
    ensures Ordered(Plan(m))
  {
    var n := |m.entries|;
    var files, links := Pick(m.entries, n, false), Pick(m.entries, n, true);
    PickMembers(m.entries, n, false);
    PickMembers(m.entries, n, true);
    PlanItems(m);
    SafePaths(m);
    assert forall i :: 0 <= i < |files| ==> files[i] in files;
    assert forall i :: 0 <= i < |links| ==> links[i] in links;
    forall i | 0 <= i < |Plan(m)|
      ensures Target(Plan(m)[i]) != [] && WellTyped(Plan(m)[i].entry)
    {
      assert Plan(m)[i] in Plan(m);
    }
  }

  /** A relative path without a parent part that names something below the root. */
  ghost predicate IsSafe(p: Path) {
    p != [] && p[0] != "" && ".." !in p && exists n :: n in p && n != "" && n != "."
  }

  lemma {:induction false} CleanIsEmpty(p: Path)
    ensures Clean(p) != [] <==> exists n :: n in p && n != "" && n != "."
  {
    if p == [] {
    } else {
      CleanIsEmpty(p[1..]);
      assert p[0] in p && forall n :: n in p <==> n == p[0] || n in p[1..];
    }
  }

  lemma {:induction false} SafeUpTo(items: seq<Item>, k: nat)
    requires k <= |items|
    ensures SafeItems(items, k) <==> forall i :: 0 <= i < k ==> IsSafe(items[i].path)
  {
    if k == 0 {
    } else {
      SafeUpTo(items, k - 1);
      CleanIsEmpty(items[k - 1].path);
    }
  }

  lemma {:induction false} DeletionsSafeUpTo(deleted: seq<Path>, k: nat)
    requires k <= |deleted|
    ensures SafeDeletions(deleted, k) <==> forall i :: 0 <= i < k ==> IsSafe(deleted[i])
  {
    if k == 0 {
    } else {
      DeletionsSafeUpTo(deleted, k - 1);
      CleanIsEmpty(deleted[k - 1]);
    }
  }

  lemma SafePaths(m: Manifest)
    ensures AllSafe(m) <==>
      (forall item :: item in m.entries ==> IsSafe(item.path)) && (forall d :: d in m.deleted ==> IsSafe(d))
    ensures AllSafe(m) ==> forall item :: item in m.entries ==> Target(item) != []
  {
    SafeUpTo(m.entries, |m.entries|);
    DeletionsSafeUpTo(m.deleted, |m.deleted|);
    forall item | item in m.entries
      ensures IsSafe(item.path) ==> Target(item) != []
    {
      CleanIsEmpty(item.path);
    }
  }

  /** No item of a sequence lies below the place of an earlier one. */
  ghost predicate NoneBelowEarlier(items: seq<Item>) {
    forall j, i :: 0 <= j < i < |items| ==> !Above(Target(items[j]), Target(items[i]))
  }

  /** The same of the entries of one kind among the first k. */
  ghost predicate KindInOrder(items: seq<Item>, k: nat, links: bool)
    requires k <= |items|
  {
    forall j, i :: 0 <= j < i < k && Selected(items[j], links) && Selected(items[i], links) ==>
      !Above(Target(items[j]), Target(items[i]))
  }

  lemma {:induction false} PickInOrder(items: seq<Item>, k: nat, links: bool)
    requires k <= |items|
    ensures NoneBelowEarlier(Pick(items, k, links)) <==> KindInOrder(items, k, links)
  {
    if k == 0 {
    } else {
      PickInOrder(items, k - 1, links);
      if Selected(items[k - 1], links) {
        BelowAppended(Pick(items, k - 1, links), items[k - 1]);
        PickedAbove(items, k - 1, links, Target(items[k - 1]));
      }
    }
  }

  lemma PickedAbove(items: seq<Item>, k: nat, links: bool, p: Path)
    requires k <= |items|
    ensures (forall x :: x in Pick(items, k, links) ==> !Above(Target(x), p)) <==>
            (forall j :: 0 <= j < k && Selected(items[j], links) ==> !Above(Target(items[j]), p))
  {
    PickMembers(items, k, links);
    assert forall j :: 0 <= j < k ==> items[..k][j] == items[j];
  }

  lemma BelowAppended(items: seq<Item>, x: Item)
    ensures NoneBelowEarlier(items + [x]) <==>
      NoneBelowEarlier(items) && forall y :: y in items ==> !Above(Target(y), Target(x))
  {
    var all := items + [x];
    if NoneBelowEarlier(all) {
      forall j, i | 0 <= j < i < |items|
        ensures !Above(Target(items[j]), Target(items[i]))
      {
        assert all[j] == items[j] && all[i] == items[i];
      }
      forall y | y in items
        ensures !Above(Target(y), Target(x))
      {
        var j :| 0 <= j < |items| && items[j] == y;
        assert all[j] == y && all[|items|] == x;
      }
    }
  }

  /** Entry j is written before entry i: files come first, and each kind in the order of the manifest. */
  predicate WrittenBefore(m: Manifest, j: nat, i: nat)
    requires j < |m.entries| && i < |m.entries|
  {
    if m.entries[i].entry.RawLink? == m.entries[j].entry.RawLink? then j < i else m.entries[i].entry.RawLink?
  }

  /** No entry is written below one written before it. */
  ghost predicate NoneHidden(m: Manifest) {
    forall j: nat, i: nat :: j < |m.entries| && i < |m.entries| && WrittenBefore(m, j, i) ==>
      Preserved(m.entries[j].path) || Preserved(m.entries[i].path) || !Above(Target(m.entries[j]), Target(m.entries[i]))
  }

  lemma BelowConcat(a: seq<Item>, b: seq<Item>)
    ensures NoneBelowEarlier(a + b) <==>
      && NoneBelowEarlier(a) && NoneBelowEarlier(b)
      && forall x, y :: x in a && y in b ==> !Above(Target(x), Target(y))
  {
    var all := a + b;
    if NoneBelowEarlier(all) {
      assert forall i :: 0 <= i < |a| ==> all[i] == a[i];
      forall j, i | 0 <= j < i < |b|
        ensures !Above(Target(b[j]), Target(b[i]))
      {
        assert all[|a| + j] == b[j] && all[|a| + i] == b[i];
      }
      forall x, y | x in a && y in b
        ensures !Above(Target(x), Target(y))
      {
        var j :| 0 <= j < |a| && a[j] == x;
        var i :| 0 <= i < |b| && b[i] == y;
        assert all[j] == x && all[|a| + i] == y;
      }
    }
  }

  lemma PlanInOrder(m: Manifest)
    requires AllTyped(m)
    ensures NoneBelowEarlier(Plan(m)) <==> NoneHidden(m)
  {
    var n := |m.entries|;
    var files, links := Pick(m.entries, n, false), Pick(m.entries, n, true);
    PickInOrder(m.entries, n, false);
    PickInOrder(m.entries, n, true);
    BelowConcat(files, links);
    PickMembers(m.entries, n, false);
    PickMembers(m.entries, n, true);
    assert m.entries[..n] == m.entries;
    KindsDecide(m, files, links);
  }

  lemma KindsDecide(m: Manifest, files: seq<Item>, links: seq<Item>)
    requires AllTyped(m)
    requires forall x :: x in files <==> x in m.entries && Selected(x, false)
    requires forall x :: x in links <==> x in m.entries && Selected(x, true)
    ensures NoneHidden(m) <==>
      KindInOrder(m.entries, |m.entries|, false) && KindInOrder(m.entries, |m.entries|, true)
      && forall x, y :: x in files && y in links ==> !Above(Target(x), Target(y))
  {
    if NoneHidden(m) {
      forall x, y | x in files && y in links
        ensures !Above(Target(x), Target(y))
      {
        var j :| 0 <= j < |m.entries| && m.entries[j] == x;
        var i :| 0 <= i < |m.entries| && m.entries[i] == y;
        assert WrittenBefore(m, j, i);
      }
      forall j, i | 0 <= j < i < |m.entries| && m.entries[j].entry.RawLink? == m.entries[i].entry.RawLink?
        ensures WrittenBefore(m, j, i)
      {
      }
    } else {
      var j: nat, i: nat :| j < |m.entries| && i < |m.entries| && WrittenBefore(m, j, i)
        && !Preserved(m.entries[j].path) && !Preserved(m.entries[i].path) && Above(Target(m.entries[j]), Target(m.entries[i]));
      assert m.entries[j] in m.entries && m.entries[i] in m.entries;
    }
  }

  // ------------------------------------------------------------------ the whole script

  /** The leaf at x that is still there when the script begins to write. */
  ghost function Standing(t: Tree, m: Manifest, clear: bool, x: Path): Option<Node> {
    if (if clear then x != [] && x[0] == GIT else !Covered(GoneBy(t, m), x)) then LeafAt(t, x) else None
  }

  /** Entry i finds nothing but directories above its place, and a file no link or special node at it. */
  ghost predicate PlaceIsFree(t: Tree, m: Manifest, clear: bool, item: Item) {
    var p := Target(item);
    && (forall q :: Above(q, p) ==> Standing(t, m, clear, q) == None)
    && (item.entry.RawFile? && Standing(t, m, clear, p).Some? ==> Standing(t, m, clear, p).value.File?)
  }

  /** Some deletion of the script leads to the sandbox root itself. */
  ghost predicate DeletesRoot(t: Tree, m: Manifest) {
    var order := ByDepth(m.deleted, |m.deleted|);
    exists k: nat :: k < |order| && RootAt(t, order, k)
  }

  ghost predicate RootAt(t: Tree, order: seq<Path>, k: nat)
    requires k < |order|
  {
    Delete(t, order, k).ok && !Preserved(order[k]) && Locate(Delete(t, order, k).tree, Clean(order[k])) == Inside([])
  }

  lemma {:induction false} DeletionsSucceed(t: Tree, order: seq<Path>, k: nat)
    requires k <= |order|
    ensures Delete(t, order, k).ok <==> forall i: nat :: i < k ==> !RootAt(t, order, i)
  {
    if k == 0 {
    } else {
      DeletionsSucceed(t, order, k - 1);
      if Delete(t, order, k - 1).ok {
        assert Delete(t, order, k).ok <==> !RootAt(t, order, k - 1);
      }
    }
  }

  /** What the script must find to run to its end. */
  ghost predicate Restorable(t: Tree, m: Manifest, clear: bool, store: Store) {
    && (forall item :: item in m.entries ==> IsSafe(item.path))
    && (forall d :: d in m.deleted ==> IsSafe(d))
    && (clear || !DeletesRoot(t, m))
    && (forall item :: item in m.entries && item.path[0] != GIT ==>
          EntryOk(item.entry, store) && PlaceIsFree(t, m, clear, item))
    && NoneHidden(m)
  }

  /**
   * A manifest restores without error exactly when its paths are safe, no deletion leads to the root,
   * every entry outside .git is sound, and no leaf that stands or is written earlier is in an entry's way.
   */
  lemma ScriptSucceeds(t: Tree, m: Manifest, clear: bool, store: Store, now: int)
    requires WellFormed(t)
    ensures Script(t, m, clear, store, now).ok <==> Restorable(t, m, clear, store)
    ensures Script(t, m, clear, store, now).ok ==> WellFormed(Script(t, m, clear, store, now).tree)
  {
    SafePaths(m);
    var order := ByDepth(m.deleted, |m.deleted|);
    DeletionsSucceed(t, order, |order|);
    var s := if clear then Outcome(Clear(t), true) else Delete(t, order, |order|);
    if AllSafe(m) && s.ok {
      TypedAreSound(m, store);
      if AllTyped(m) {
        StandingIsLeaf(t, m, clear);
        PlanIsOrdered(m);
        PlanSucceeds(s.tree, Plan(m), |Plan(m)|, store, now);
        PlanDecides(t, m, clear, s.tree, store);
      }
    }
  }

  lemma TypedAreSound(m: Manifest, store: Store)
    requires AllSafe(m)
    ensures (forall item :: item in m.entries && !Preserved(item.path) ==> EntryOk(item.entry, store)) ==> AllTyped(m)
  {
    if forall item :: item in m.entries && !Preserved(item.path) ==> EntryOk(item.entry, store) {
      forall i | 0 <= i < |m.entries| && !Preserved(m.entries[i].path)
        ensures WellTyped(m.entries[i].entry)
      {
        assert m.entries[i] in m.entries;
      }
    }
  }

  /** The tree the writes start from holds just the leaves that stand. */
  lemma StandingIsLeaf(t: Tree, m: Manifest, clear: bool)
    requires WellFormed(t)
    requires var order := ByDepth(m.deleted, |m.deleted|); clear || Delete(t, order, |order|).ok
    ensures WellFormed(Emptied(t, m, clear))
    ensures forall x :: LeafAt(Emptied(t, m, clear), x) == Standing(t, m, clear, x)
  {
    var order := ByDepth(m.deleted, |m.deleted|);
    if clear {
      ClearLeaves(t);
    } else {
      DeleteLeaves(t, order, |order|);
    }
  }

  lemma PlanDecides(t: Tree, m: Manifest, clear: bool, s: Tree, store: Store)
    requires AllTyped(m) && AllSafe(m) && forall x :: LeafAt(s, x) == Standing(t, m, clear, x)
    ensures PlanOk(s, Plan(m), |Plan(m)|, store) <==>
      && NoneHidden(m)
      && forall item :: item in m.entries && !Preserved(item.path) ==>
           EntryOk(item.entry, store) && PlaceIsFree(t, m, clear, item)
  {
    var plan := Plan(m);
    PlanItems(m);
    PlanInOrder(m);
    forall item | item in plan
      ensures Writable(s, Target(item), item.entry.RawFile?) <==> PlaceIsFree(t, m, clear, item)
    {
    }
    if PlanOk(s, plan, |plan|, store) {
      forall item | item in m.entries && !Preserved(item.path)
        ensures EntryOk(item.entry, store) && PlaceIsFree(t, m, clear, item)
      {
        assert item in plan;
        var i :| 0 <= i < |plan| && plan[i] == item;
        assert Free(s, plan, i);
      }
      assert NoneBelowEarlier(plan) by {
        assert forall i :: 0 <= i < |plan| ==> Free(s, plan, i);
      }
    } else {
      var i: nat :| i < |plan| && !(EntryOk(plan[i].entry, store) && Free(s, plan, i));
      assert plan[i] in plan;
    }
  }

  /**
   * In particular a root that is cleared, whatever it held, takes any manifest of sound entries in
   * which no entry lies below another.
   */
  lemma ClearedRootTakesAny(t: Tree, m: Manifest, store: Store, now: int)
    requires WellFormed(t) && Tidy(m)
    requires forall item :: item in m.entries && item.path[0] != GIT ==> EntryOk(item.entry, store)
    requires forall x, y :: x in m.entries && y in m.entries && y.path[0] != GIT ==> !Above(x.path, y.path)
    ensures Script(t, m, true, store, now).ok
  {
    TidyIsSafe(m);
    forall item | item in m.entries && item.path[0] != GIT
      ensures PlaceIsFree(t, m, true, item)
    {
      assert Target(item) == item.path;
    }
    forall j: nat, i: nat | j < |m.entries| && i < |m.entries| && !Preserved(m.entries[i].path)
      ensures !Above(Target(m.entries[j]), Target(m.entries[i]))
    {
      assert m.entries[j] in m.entries && m.entries[i] in m.entries;
    }
    ScriptSucceeds(t, m, true, store, now);
  }

  lemma TidyIsSafe(m: Manifest)
    requires Tidy(m)
    ensures forall item :: item in m.entries ==> IsSafe(item.path) && Target(item) == item.path
    ensures forall d :: d in m.deleted ==> IsSafe(d) && Clean(d) == d
  {
    forall p | Canonical(p)
      ensures IsSafe(p) && Clean(p) == p
    {
      CanonicalIsClean(p);
      assert p[0] in p;
    }
  }

  // ------------------------------------------------------------- what is left where

  /** The file a script leaves for an entry: the blob, the bits of its mode or 0644, its mtime or now. */
  lemma RestoredFile(t: Tree, m: Manifest, clear: bool, store: Store, now: int, item: Item)
    requires WellFormed(t) && Tidy(m) && Script(t, m, clear, store, now).ok
    requires item in m.entries && item.path[0] != GIT && !Shadowed(WrittenTo(m), item.path)
    ensures EntryOk(item.entry, store)
    ensures LeafAt(Script(t, m, clear, store, now).tree, item.path) ==
      match item.entry
      case RawFile(h, mode, mtime) =>
        Some(File(h.value, if mode.Bits? then mode.bits % 4096 else 420, if mtime.Some? then mtime.value else now))
      case RawLink(target, _) => Some(Link(target.value))
      case _ => None
  {
    ScriptSucceeds(t, m, clear, store, now);
    EmptiedView(t, m, clear);
    PlanCovers(m);
    PlanLeaves(Emptied(t, m, clear), Plan(m), |Plan(m)|, store, now);
    WrittenPaths(Plan(m), |Plan(m)|, now);
    assert item in Plan(m);
    var i :| 0 <= i < |Plan(m)| && Plan(m)[i] == item;
    WrittenAt(Plan(m), |Plan(m)|, now, i);
    ShadowsAreEntries(m, now, item.path);
  }

  /** The places outside the top-level .git that a manifest writes to. */
  ghost function WrittenTo(m: Manifest): set<Path> {
    set i | 0 <= i < |m.entries| && !Preserved(m.entries[i].path) :: m.entries[i].path
  }

  lemma ShadowsAreEntries(m: Manifest, now: int, x: Path)
    requires Tidy(m) && AllTyped(m) && forall i :: 0 <= i < |Plan(m)| ==> !Raises(Plan(m)[i].entry) && !Ignored(Plan(m)[i].entry)
    ensures Shadowed(Written(Plan(m), |Plan(m)|, now).Keys, x) <==> Shadowed(WrittenTo(m), x)
    ensures x in Written(Plan(m), |Plan(m)|, now) <==> x in WrittenTo(m)
  {
    PlanCovers(m);
    WrittenPaths(Plan(m), |Plan(m)|, now);
    forall q
      ensures q in Written(Plan(m), |Plan(m)|, now) <==> q in WrittenTo(m)
    {
      if q in Written(Plan(m), |Plan(m)|, now) {
        var j :| 0 <= j < |Plan(m)| && Plan(m)[j].path == q;
        assert Plan(m)[j] in Plan(m);
      }
      if q in WrittenTo(m) {
        var i :| 0 <= i < |m.entries| && m.entries[i].path == q && !Preserved(q);
        assert m.entries[i] in Plan(m);
      }
    }
    assert Written(Plan(m), |Plan(m)|, now).Keys == WrittenTo(m);
  }

  /**
   * The top-level .git is left alone: a script that clears the root, or one whose deletions meet no
   * link, neither changes nor adds nor removes a leaf below it.
   */
  lemma GitIsLeftAlone(t: Tree, m: Manifest, clear: bool, store: Store, now: int, x: Path)
    requires WellFormed(t) && Tidy(m) && Script(t, m, clear, store, now).ok
    requires clear || forall d :: d in m.deleted && d[0] != GIT ==> !ThroughLink(t, d)
    requires x != [] && x[0] == GIT
    ensures LeafAt(Script(t, m, clear, store, now).tree, x) == LeafAt(t, x)
  {
    StandingIsLeaf(t, m, clear);
    PlanCovers(m);
    PlanLeaves(Emptied(t, m, clear), Plan(m), |Plan(m)|, store, now);
    ShadowsAreEntries(m, now, x);
    assert !Shadowed(WrittenTo(m), x) && x !in WrittenTo(m);
    if !clear && x in t {
      PlainlyGone(t, m, x);
      GitIsNotGone(t, m, x);
    }
  }

  lemma GitIsNotGone(t: Tree, m: Manifest, x: Path)
    requires WellFormed(t) && Tidy(m) && x in t && x[0] == GIT
    requires forall d :: d in m.deleted && !Preserved(d) ==> !ThroughLink(t, d)
    ensures !Covered(GoneBy(t, m), x)
  {
    var order := ByDepth(m.deleted, |m.deleted|);
    ByDepthKeeps(m.deleted, |m.deleted|);
    assert m.deleted[..|m.deleted|] == m.deleted && order[..|order|] == order;
    PlainDeletions(t, order, |order|, x);
    assert !Covered(Named(order), x);
  }

  // ----------------------------------------------------------------- order of deletions

  function OfDepth(paths: seq<Path>, n: nat): seq<Path> {
    if paths == [] then []
    else (if |paths[0]| == n then [paths[0]] else []) + OfDepth(paths[1..], n)
  }

  ghost predicate DeepestFirst(paths: seq<Path>) {
    forall i, j :: 0 <= i < j < |paths| ==> |paths[i]| >= |paths[j]|
  }

  lemma {:induction false} DeepestInserts(d: Path, sorted: seq<Path>, n: nat)
    requires DeepestFirst(sorted)
    ensures OfDepth(Deepest(d, sorted), n) == OfDepth(sorted, n) + if |d| == n then [d] else []
  {
    if sorted == [] {
    } else if |d| > |sorted[0]| {
      if |d| == n {
        NoneOfDepth(sorted, n);
      }
    } else {
      DeepestInserts(d, sorted[1..], n);
      assert Deepest(d, sorted)[1..] == Deepest(d, sorted[1..]);
    }
  }

  lemma {:induction false} DeepestStaysFirst(d: Path, sorted: seq<Path>)
    requires DeepestFirst(sorted)
    ensures DeepestFirst(Deepest(d, sorted))
  {
    if sorted == [] || |d| > |sorted[0]| {
    } else {
      DeepestStaysFirst(d, sorted[1..]);
      DeepestKeeps(d, sorted[1..]);
      var rest := Deepest(d, sorted[1..]);
      assert forall i :: 0 <= i < |rest| ==> rest[i] in rest;
    }
  }

  lemma {:induction false} NoneOfDepth(paths: seq<Path>, n: nat)
    requires forall i :: 0 <= i < |paths| ==> |paths[i]| < n
    ensures OfDepth(paths, n) == []
  {
    if paths == [] {
    } else {
      NoneOfDepth(paths[1..], n);
    }
  }

  /** Deletions go deepest first, and those of one depth in the order of the manifest. */
  lemma {:induction false} DeletesDeepestFirst(deleted: seq<Path>, k: nat, n: nat)
    requires k <= |deleted|
    ensures DeepestFirst(ByDepth(deleted, k))
    ensures OfDepth(ByDepth(deleted, k), n) == OfDepth(deleted[..k], n)
  {
    if k == 0 {
    } else {
      assert deleted[..k] == deleted[..k - 1] + [deleted[k - 1]];
      DeletesDeepestFirst(deleted, k - 1, n);
      DeepestInserts(deleted[k - 1], ByDepth(deleted, k - 1), n);
      DeepestStaysFirst(deleted[k - 1], ByDepth(deleted, k - 1));
      OfDepthAppend(deleted[..k - 1], deleted[k - 1], n);
    }
  }

  lemma {:induction false} OfDepthAppend(paths: seq<Path>, d: Path, n: nat)
    ensures OfDepth(paths + [d], n) == OfDepth(paths, n) + if |d| == n then [d] else []
  {
    if paths == [] {
    } else {
      assert (paths + [d])[1..] == paths[1..] + [d];
      OfDepthAppend(paths[1..], d, n);
    }
  }
}
