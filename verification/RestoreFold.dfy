/** What restoring one manifest leaves at every path, and how that compares with its fold. */
module RestoreFold {
  import opened Prelude
  import opened FileTree
  import opened LinkWalk
  import opened Manifest
  import opened Restore

  // ------------------------------------------------- what one write does to leaves

  lemma {:induction false} ParentsMade(t: Tree, p: Path, i: nat)
    requires WellFormed(t) && 1 <= i && p != []
    requires forall q :: Above(q, p) && |q| < i ==> q in t && t[q].Dir?
    ensures var s := EnsureParents(t, p, i);
      && (s.ok ==>
            && WellFormed(s.tree)
            && (forall q :: Above(q, p) ==> q in s.tree && s.tree[q].Dir? && LeafAt(t, q) == None)
            && (forall x :: LeafAt(s.tree, x) == LeafAt(t, x))
            && (forall x :: x in t ==> x in s.tree && s.tree[x] == t[x])
            && (forall x :: x in s.tree && x !in t ==> Above(x, p)))
    decreases |p| - i
  {
    if i >= |p| {
    } else {
      var current := p[..i];
      assert Above(current, p);
      var t' := if current in t then t else t[current := Dir];
      assert WellFormed(t') by {
        forall a, b | a in t' && Above(b, a)
          ensures b in t' && t'[b].Dir?
        {
          if a == current {
            assert Above(b, p) && |b| < i;
          }
        }
      }
      if current !in t || t[current].Dir? {
        forall q | Above(q, p) && |q| < i + 1
          ensures q in t' && t'[q].Dir?
        {
          if |q| == i {
            assert q == current;
          }
        }
        ParentsMade(t', p, i + 1);
      }
    }
  }

  /** A successful write leaves its node at p, nothing below p, and every other leaf alone. */
  lemma PutLeaves(t: Tree, p: Path, n: Node)
    requires WellFormed(t) && p != [] && IsRecorded(n)
    requires Put(t, p, n).ok
    ensures WellFormed(Put(t, p, n).tree)
    ensures forall q :: Above(q, p) ==> LeafAt(t, q) == None
    ensures forall x :: LeafAt(Put(t, p, n).tree, x) ==
                        if x == p then Some(n) else if Above(p, x) then None else LeafAt(t, x)
  {
    ParentsMade(t, p, 1);
    var t1 := EnsureParents(t, p, 1).tree;
    var t2 := Put(t, p, n).tree;
    forall a, b | a in t2 && Above(b, a)
      ensures b in t2 && t2[b].Dir?
    {
      assert a != p ==> a in t1;
      assert b != p ==> b in t1 && t1[b].Dir?;
    }
    forall x
      ensures LeafAt(t2, x) == if x == p then Some(n) else if Above(p, x) then None else LeafAt(t, x)
    {
      assert LeafAt(t1, x) == LeafAt(t, x);
      if Above(p, x) {
        assert x in t1 ==> p in t1 && t1[p].Dir?;
      }
    }
  }

  // --------------------------------------------------- what a whole plan leaves

  /** The nodes the first k items of a plan write. */
  function Written(plan: seq<Item>, k: nat, now: int): map<Path, Node>
    requires k <= |plan|
  {
    if k == 0 then map[]
    else
      var e := plan[k - 1].entry;
      var before := Written(plan, k - 1, now);
      if Raises(e) || Ignored(e) then before else before[plan[k - 1].path := NodeOf(e, now)]
  }

  ghost predicate TidyPlan(plan: seq<Item>) {
    && Distinct(plan)
    && (forall i :: 0 <= i < |plan| ==> Canonical(plan[i].path) && WellTyped(plan[i].entry))
  }

  ghost predicate Distinct(items: seq<Item>) {
    forall i, j :: 0 <= i < j < |items| ==> items[i].path != items[j].path
  }

  /** The leaf at x when the nodes of w have been written over the leaves of t. */
  ghost function Overlaid(t: Tree, w: map<Path, Node>, x: Path): Option<Node> {
    if Shadowed(w.Keys, x) then None
    else if x in w then Some(w[x])
    else LeafAt(t, x)
  }

  lemma {:induction false} PlanLeaves(t: Tree, plan: seq<Item>, k: nat, store: Store, now: int)
    requires WellFormed(t) && TidyPlan(plan) && k <= |plan|
    requires WriteItems(t, plan, k, store, now).ok
    ensures var s := WriteItems(t, plan, k, store, now); var w := Written(plan, k, now);
      && WellFormed(s.tree)
      && (forall x :: LeafAt(s.tree, x) == Overlaid(t, w, x))
      && (forall i :: 0 <= i < k ==> !Raises(plan[i].entry) && !Ignored(plan[i].entry))
  {
    if k == 0 {
    } else {
      PlanLeaves(t, plan, k - 1, store, now);
      var before := WriteItems(t, plan, k - 1, store, now).tree;
      var w := Written(plan, k - 1, now);
      var p, e := plan[k - 1].path, plan[k - 1].entry;
      CanonicalIsClean(p);
      var n := NodeOf(e, now);
      PutLeaves(before, p, n);
      WrittenPaths(plan, k - 1, now);
      OverlayOneMore(t, w, before, p, n, WriteItems(t, plan, k, store, now).tree);
    }
  }

  /** Writing one more node over an overlay overlays one more node. */
  lemma OverlayOneMore(t: Tree, w: map<Path, Node>, before: Tree, p: Path, n: Node, after: Tree)
    requires p !in w
    requires forall x :: LeafAt(before, x) == Overlaid(t, w, x)
    requires forall q :: Above(q, p) ==> LeafAt(before, q) == None
    requires forall x :: LeafAt(after, x) == if x == p then Some(n) else if Above(p, x) then None else LeafAt(before, x)
    ensures forall x :: LeafAt(after, x) == Overlaid(t, w[p := n], x)
  {
    NotUnderWritten(t, w, before, p);
    assert w[p := n].Keys == w.Keys + {p};
    forall x
      ensures LeafAt(after, x) == Overlaid(t, w[p := n], x)
    {
    }
  }

  lemma {:induction false} WrittenPaths(plan: seq<Item>, k: nat, now: int)
    requires TidyPlan(plan) && k <= |plan|
    requires forall i :: 0 <= i < k ==> !Raises(plan[i].entry) && !Ignored(plan[i].entry)
    ensures forall x :: x in Written(plan, k, now) <==> exists i :: 0 <= i < k && plan[i].path == x
  {
    if k == 0 {
    } else {
      WrittenPaths(plan, k - 1, now);
      var before := Written(plan, k - 1, now);
      forall x
        ensures x in Written(plan, k, now) <==> exists i :: 0 <= i < k && plan[i].path == x
      {
        assert x in before <==> exists i :: 0 <= i < k - 1 && plan[i].path == x;
        if x == plan[k - 1].path { assert plan[k - 1].path == x; }
      }
    }
  }

  /** A path that can still be written has no written path above it. */
  lemma NotUnderWritten(t: Tree, w: map<Path, Node>, now: Tree, p: Path)
    requires forall x :: LeafAt(now, x) == Overlaid(t, w, x)
    requires forall q :: Above(q, p) ==> LeafAt(now, q) == None
    ensures !Shadowed(w.Keys, p)
  {
    if Shadowed(w.Keys, p) {
      var q :| q in w.Keys && Above(q, p);
      var top := TopmostAbove(w.Keys, q);
      assert Above(top, p);
    }
  }

  // --------------------------------------------------------- the script as a whole

  lemma {:induction false} DeepestKeeps(d: Path, sorted: seq<Path>)
    ensures forall x :: x in Deepest(d, sorted) <==> x == d || x in sorted
  {
    if sorted == [] || |d| > |sorted[0]| {
    } else {
      DeepestKeeps(d, sorted[1..]);
      assert sorted == [sorted[0]] + sorted[1..];
    }
  }

  lemma {:induction false} ByDepthKeeps(deleted: seq<Path>, k: nat)
    requires k <= |deleted|
    ensures forall x :: x in ByDepth(deleted, k) <==> x in deleted[..k]
  {
    if k == 0 {
    } else {
      ByDepthKeeps(deleted, k - 1);
      DeepestKeeps(deleted[k - 1], ByDepth(deleted, k - 1));
      assert deleted[..k] == deleted[..k - 1] + [deleted[k - 1]];
    }
  }

  /** The paths that deleting the first k of an order really removes, each with all below it. */
  function Gone(t: Tree, order: seq<Path>, k: nat): set<Path>
    requires k <= |order|
  {
    if k == 0 then {}
    else
      var before := Gone(t, order, k - 1);
      var target := Locate(Delete(t, order, k - 1).tree, Clean(order[k - 1]));
      if Preserved(order[k - 1]) || !target.Inside? then before else before + {target.path}
  }

  /** The deletion loop removes just the paths at or below one of these. */
  lemma {:induction false} DeleteRemovesGone(t: Tree, order: seq<Path>, k: nat)
    requires k <= |order| && Delete(t, order, k).ok
    ensures Delete(t, order, k).tree == map p | p in t && !Covered(Gone(t, order, k), p) :: t[p]
  {
    if k == 0 {
    } else {
      DeleteRemovesGone(t, order, k - 1);
      var before := Gone(t, order, k - 1);
      var target := Locate(Delete(t, order, k - 1).tree, Clean(order[k - 1]));
      if !Preserved(order[k - 1]) && target.Inside? {
        forall p
          ensures Covered(before + {target.path}, p) <==> Covered(before, p) || AtOrAbove(target.path, p)
        {
        }
      }
    }
  }

  lemma CoveredByOneMore(qs: set<Path>, q: Path, p: Path)
    ensures Covered(qs + {q}, p) <==> Covered(qs, p) || AtOrAbove(q, p)
  {
    assert q in qs + {q};
  }

  lemma DeleteLeaves(t: Tree, order: seq<Path>, k: nat)
    requires WellFormed(t) && k <= |order| && Delete(t, order, k).ok
    ensures WellFormed(Delete(t, order, k).tree)
    ensures forall x :: LeafAt(Delete(t, order, k).tree, x) ==
                        if Covered(Gone(t, order, k), x) then None else LeafAt(t, x)
  {
    var after := Delete(t, order, k).tree;
    DeleteRemovesGone(t, order, k);
    forall a, b | a in after && Above(b, a)
      ensures b in after && after[b].Dir?
    {
      assert !Covered(Gone(t, order, k), b);
    }
  }

  lemma ClearLeaves(t: Tree)
    requires WellFormed(t)
    ensures WellFormed(Clear(t))
    ensures forall x :: LeafAt(Clear(t), x) == if Preserved(x) then LeafAt(t, x) else None
  {
    forall a, b | a in Clear(t) && Above(b, a)
      ensures b in Clear(t) && t[b].Dir?
    {
      assert a[0] == b[0];
    }
  }

  lemma {:induction false} PickMembers(items: seq<Item>, k: nat, links: bool)
    requires k <= |items|
    ensures forall item :: item in Pick(items, k, links) <==> item in items[..k] && Selected(item, links)
  {
    if k == 0 {
    } else {
      PickMembers(items, k - 1, links);
      assert items[..k] == items[..k - 1] + [items[k - 1]];
    }
  }

  lemma {:induction false} PickDistinct(items: seq<Item>, k: nat, links: bool)
    requires k <= |items| && Distinct(items)
    ensures Distinct(Pick(items, k, links))
  {
    if k == 0 {
    } else {
      PickDistinct(items, k - 1, links);
      PickMembers(items, k - 1, links);
      forall x | x in Pick(items, k - 1, links)
        ensures x.path != items[k - 1].path
      {
        var j :| 0 <= j < k - 1 && items[..k - 1][j] == x;
        assert items[j] == x;
      }
    }
  }

  lemma PlanCovers(m: Manifest)
    requires Tidy(m) && AllTyped(m)
    ensures TidyPlan(Plan(m))
    ensures forall item :: item in Plan(m) <==> item in m.entries && !Preserved(item.path)
  {
    var n := |m.entries|;
    var files, links := Pick(m.entries, n, false), Pick(m.entries, n, true);
    PickMembers(m.entries, n, false);
    PickMembers(m.entries, n, true);
    PickDistinct(m.entries, n, false);
    PickDistinct(m.entries, n, true);
    assert m.entries[..n] == m.entries;
    forall x, y | x in files && y in links
      ensures x.path != y.path
    {
      assert Selected(x, false) && Selected(y, true);
      var i :| 0 <= i < n && m.entries[i] == x;
      var j :| 0 <= j < n && m.entries[j] == y;
    }
    forall i | 0 <= i < |Plan(m)|
      ensures Canonical(Plan(m)[i].path) && WellTyped(Plan(m)[i].entry)
    {
      assert Plan(m)[i] in files || Plan(m)[i] in links;
    }
  }

  lemma {:induction false} WrittenAt(plan: seq<Item>, k: nat, now: int, i: nat)
    requires TidyPlan(plan) && i < k <= |plan|
    requires !Raises(plan[i].entry) && !Ignored(plan[i].entry)
    ensures plan[i].path in Written(plan, k, now)
    ensures Written(plan, k, now)[plan[i].path] == NodeOf(plan[i].entry, now)
  {
    if i == k - 1 {
    } else {
      WrittenAt(plan, k - 1, now, i);
    }
  }

  /** An entry the reader takes in. */
  ghost predicate Sound(item: Item) {
    !Raises(item.entry) && !Ignored(item.entry)
  }

  /** No entry outside .git stops the reader. */
  ghost predicate AllSound(items: seq<Item>) {
    forall i :: 0 <= i < |items| && !Skipped(items[i].path) ==> Sound(items[i])
  }

  lemma {:induction false} ReadKeys(items: seq<Item>, k: nat)
    requires k <= |items| && AllSound(items)
    ensures ReadEntries(items, k).Ok?
    ensures ReadEntries(items, k).value.Keys == set i | 0 <= i < k && !Skipped(items[i].path) :: items[i].path
  {
    if k == 0 {
    } else {
      ReadKeys(items, k - 1);
    }
  }

  lemma {:induction false} ReadValue(items: seq<Item>, k: nat, i: nat)
    requires i < k <= |items| && AllSound(items) && Distinct(items)
    requires !Skipped(items[i].path)
    ensures ReadEntries(items, k).Ok? && Sound(items[i])
    ensures items[i].path in ReadEntries(items, k).value
    ensures ReadEntries(items, k).value[items[i].path] == Normalize(items[i].entry)
  {
    ReadKeys(items, k);
    ReadKeys(items, k - 1);
    if i == k - 1 {
    } else {
      ReadValue(items, k - 1, i);
    }
  }

  /** An entry outside .git that no reader accepts: of an unknown type, or a link without a target. */
  predicate IsBad(item: Item) {
    GIT !in item.path && match item.entry
      case UnknownType(_) => true
      case RawLink(None, _) => true
      case _ => false
  }

  /** What is read for an item, if anything: files with a hash, and links. */
  function Recorded(item: Item): Option<Entry> {
    match item.entry
    case RawFile(Some(h), Bits(bits), _) => Some(FileEntry(h, Some(bits % 4096)))
    case RawFile(Some(h), _, _) => Some(FileEntry(h, None))
    case RawLink(Some(target), _) => Some(LinkEntry(target))
    case _ => None
  }

  /** Reading fails exactly on a bad entry, and otherwise yields just the records of the items outside .git. */
  lemma {:induction false} ReadsTheRecords(items: seq<Item>, k: nat)
    requires k <= |items| && Distinct(items)
    ensures ReadEntries(items, k).Err? <==> exists i :: 0 <= i < k && IsBad(items[i])
    ensures ReadEntries(items, k).Ok? ==>
      forall i :: 0 <= i < k && GIT !in items[i].path ==>
        if Recorded(items[i]).None? then items[i].path !in ReadEntries(items, k).value
        else items[i].path in ReadEntries(items, k).value
             && ReadEntries(items, k).value[items[i].path] == Recorded(items[i]).value
    ensures ReadEntries(items, k).Ok? ==>
      forall p :: p in ReadEntries(items, k).value ==> exists i :: 0 <= i < k && items[i].path == p && GIT !in p
  {
    if k == 0 {
    } else {
      ReadsTheRecords(items, k - 1);
    }
  }

  /** The recorded paths of a manifest, and the deleted ones, without the skipped. */
  ghost function EntryPaths(m: Manifest): set<Path> {
    set i | 0 <= i < |m.entries| && !Skipped(m.entries[i].path) :: m.entries[i].path
  }

  ghost function DeletedPaths(m: Manifest): set<Path> {
    set d | d in m.deleted && !Skipped(d)
  }

  function EntryAt(t: Tree, x: Path): Option<Entry> {
    if x in t && IsRecorded(t[x]) then Some(EntryOf(t[x])) else None
  }

  /** What the deletions of a manifest really remove from a tree. */
  function GoneBy(t: Tree, m: Manifest): set<Path> {
    var order := ByDepth(m.deleted, |m.deleted|);
    Gone(t, order, |order|)
  }

  /** The entry the script leaves at x, given what it removes and the entry it finds there. */
  ghost predicate LeavesAt(
      m: Manifest, read: Entries, clear: bool, gone: set<Path>, x: Path, found: Option<Entry>, left: Option<Entry>)
  {
    if Shadowed(EntryPaths(m), x) then left == None
    else if x in read then left.Some? && Accepts(read[x], left.value)
    else if clear || Covered(gone, x) then left == None
    else left == found
  }

  /** The tree the plan starts from. */
  ghost function Emptied(t: Tree, m: Manifest, clear: bool): Tree {
    var order := ByDepth(m.deleted, |m.deleted|);
    if clear then Clear(t) else Delete(t, order, |order|).tree
  }

  lemma EmptiedView(t: Tree, m: Manifest, clear: bool)
    requires WellFormed(t)
    requires var order := ByDepth(m.deleted, |m.deleted|); clear || Delete(t, order, |order|).ok
    ensures WellFormed(Emptied(t, m, clear))
    ensures forall x :: x != [] && !Skipped(x) ==>
      EntryAt(Emptied(t, m, clear), x) == if clear || Covered(GoneBy(t, m), x) then None else EntryAt(t, x)
  {
    var order := ByDepth(m.deleted, |m.deleted|);
    if clear {
      ClearLeaves(t);
    } else {
      DeleteLeaves(t, order, |order|);
    }
    forall x | x != [] && !Skipped(x)
      ensures EntryAt(Emptied(t, m, clear), x) == if clear || Covered(GoneBy(t, m), x) then None else EntryAt(t, x)
    {
      assert x[0] in x;
      assert LeafAt(Emptied(t, m, clear), x) == if clear || Covered(GoneBy(t, m), x) then None else LeafAt(t, x);
    }
  }

  lemma PlanIndex(m: Manifest, i: nat) returns (j: nat)
    requires Tidy(m) && AllTyped(m) && i < |m.entries| && !Skipped(m.entries[i].path)
    ensures j < |Plan(m)| && Plan(m)[j] == m.entries[i]
  {
    PlanCovers(m);
    assert m.entries[i] in Plan(m);
    j :| 0 <= j < |Plan(m)| && Plan(m)[j] == m.entries[i];
  }

  ghost predicate PlanSound(m: Manifest) {
    && Tidy(m) && AllTyped(m)
    && forall i :: 0 <= i < |Plan(m)| ==> Sound(Plan(m)[i])
  }

  lemma PlanSoundsEntries(m: Manifest)
    requires PlanSound(m)
    ensures AllSound(m.entries)
  {
    forall i | 0 <= i < |m.entries| && !Skipped(m.entries[i].path)
      ensures Sound(m.entries[i])
    {
      var j := PlanIndex(m, i);
    }
  }

  /** The reader takes in a path of the manifest with the contents a successful plan writes there. */
  lemma ReadIsWritten(m: Manifest, now: int, i: nat)
    requires PlanSound(m) && i < |m.entries| && !Skipped(m.entries[i].path)
    requires ReadEntries(m.entries, |m.entries|).Ok? && m.entries[i].path in ReadEntries(m.entries, |m.entries|).value
    ensures var x := m.entries[i].path;
      var read, w := ReadEntries(m.entries, |m.entries|).value, Written(Plan(m), |Plan(m)|, now);
      x in w && IsRecorded(w[x]) && Accepts(read[x], EntryOf(w[x]))
  {
    PlanSoundsEntries(m);
    ReadValue(m.entries, |m.entries|, i);
    PlanCovers(m);
    var j := PlanIndex(m, i);
    WrittenAt(Plan(m), |Plan(m)|, now, j);
  }

  /** On every path without a .git component, what a successful script leaves there. */
  lemma ScriptView(t: Tree, m: Manifest, clear: bool, store: Store, now: int)
    requires WellFormed(t) && Tidy(m) && Script(t, m, clear, store, now).ok
    ensures WellFormed(Script(t, m, clear, store, now).tree)
    ensures ReadEntries(m.entries, |m.entries|).Ok?
    ensures ReadEntries(m.entries, |m.entries|).value.Keys == EntryPaths(m)
    ensures forall x :: x != [] && !Skipped(x) ==>
      LeavesAt(m, ReadEntries(m.entries, |m.entries|).value, clear, GoneBy(t, m), x,
               EntryAt(t, x), EntryAt(Script(t, m, clear, store, now).tree, x))
  {
    var emptied := Emptied(t, m, clear);
    EmptiedView(t, m, clear);
    PlanCovers(m);
    PlanLeaves(emptied, Plan(m), |Plan(m)|, store, now);
    WrittenPaths(Plan(m), |Plan(m)|, now);
    PlanSoundsEntries(m);
    ReadKeys(m.entries, |m.entries|);
    var read, w := ReadEntries(m.entries, |m.entries|).value, Written(Plan(m), |Plan(m)|, now);
    var after := Script(t, m, clear, store, now).tree;
    forall x | x != [] && !Skipped(x)
      ensures LeavesAt(m, read, clear, GoneBy(t, m), x, EntryAt(t, x), EntryAt(after, x))
    {
      PathView(t, m, clear, now, after, x);
    }
  }

  lemma PathView(t: Tree, m: Manifest, clear: bool, now: int, after: Tree, x: Path)
    requires PlanSound(m) && x != [] && !Skipped(x)
    requires ReadEntries(m.entries, |m.entries|).Ok?
    requires ReadEntries(m.entries, |m.entries|).value.Keys == EntryPaths(m)
    requires var w := Written(Plan(m), |Plan(m)|, now);
      && (forall q :: q in w <==> exists j :: 0 <= j < |Plan(m)| && Plan(m)[j].path == q)
      && LeafAt(after, x) == Overlaid(Emptied(t, m, clear), w, x)
    requires EntryAt(Emptied(t, m, clear), x) == if clear || Covered(GoneBy(t, m), x) then None else EntryAt(t, x)
    ensures LeavesAt(m, ReadEntries(m.entries, |m.entries|).value, clear, GoneBy(t, m), x, EntryAt(t, x), EntryAt(after, x))
  {
    var read, w := ReadEntries(m.entries, |m.entries|).value, Written(Plan(m), |Plan(m)|, now);
    ShadowedByEntries(m, w.Keys, x);
    WrittenAreEntries(m, w.Keys, x);
    if x in read {
      var i :| 0 <= i < |m.entries| && m.entries[i].path == x;
      ReadIsWritten(m, now, i);
    }
  }

  /** A written path outside .git is one of the manifest's, and the other way round. */
  lemma WrittenAreEntries(m: Manifest, ws: set<Path>, q: Path)
    requires Tidy(m) && AllTyped(m) && !Skipped(q)
    requires forall p :: p in ws <==> exists j :: 0 <= j < |Plan(m)| && Plan(m)[j].path == p
    ensures q in ws <==> q in EntryPaths(m)
  {
    PlanCovers(m);
    if q in ws {
      var j :| 0 <= j < |Plan(m)| && Plan(m)[j].path == q;
      assert Plan(m)[j] in Plan(m);
      var i :| 0 <= i < |m.entries| && m.entries[i] == Plan(m)[j];
    }
    if q in EntryPaths(m) {
      var i :| 0 <= i < |m.entries| && m.entries[i].path == q;
      assert m.entries[i] in Plan(m);
    }
  }

  lemma ShadowedByEntries(m: Manifest, ws: set<Path>, x: Path)
    requires Tidy(m) && AllTyped(m) && !Skipped(x)
    requires forall q :: q in ws <==> exists j :: 0 <= j < |Plan(m)| && Plan(m)[j].path == q
    ensures Shadowed(ws, x) <==> Shadowed(EntryPaths(m), x)
  {
    forall q | Above(q, x)
      ensures q in ws <==> q in EntryPaths(m)
    {
      assert q == x[..|q|];
      WrittenAreEntries(m, ws, q);
    }
  }

  // ------------------------------------------------------------ leaves called .git

  /** The walk would reach a leaf at p, and record it under the name .git. */
  predicate NamedGit(p: Path) {
    p != [] && p[|p| - 1] == GIT && GIT !in p[..|p| - 1]
  }

  /** Apart from the top-level one, which is preserved, no entry is called .git. */
  ghost predicate GitClean(m: Manifest) {
    forall i :: 0 <= i < |m.entries| && NamedGit(m.entries[i].path) ==> Preserved(m.entries[i].path)
  }

  /** What is called .git at the top of the tree is no file and no link. */
  predicate TopGitOk(t: Tree) {
    [GIT] in t ==> !IsRecorded(t[[GIT]])
  }

  lemma NoGitLeafMeans(t: Tree)
    ensures NoGitLeaf(t) <==> forall p :: p in t && IsRecorded(t[p]) ==> !NamedGit(p)
  {
    forall p | p in t && p != []
      ensures GIT in p <==> GIT in p[..|p| - 1] || p[|p| - 1] == GIT
    {
      assert p == p[..|p| - 1] + [p[|p| - 1]];
    }
  }

  /** A script leaves no file or link called .git that the walk reaches, if it finds none and writes none. */
  lemma ScriptKeepsNoGit(t: Tree, m: Manifest, clear: bool, store: Store, now: int)
    requires WellFormed(t) && Tidy(m) && Script(t, m, clear, store, now).ok
    requires GitClean(m) && if clear then TopGitOk(t) else NoGitLeaf(t)
    ensures NoGitLeaf(Script(t, m, clear, store, now).tree)
  {
    var emptied, after := Emptied(t, m, clear), Script(t, m, clear, store, now).tree;
    EmptiedView(t, m, clear);
    PlanCovers(m);
    PlanLeaves(emptied, Plan(m), |Plan(m)|, store, now);
    WrittenPaths(Plan(m), |Plan(m)|, now);
    NoGitLeafMeans(t);
    NoGitLeafMeans(after);
    forall p | p in after && IsRecorded(after[p])
      ensures !NamedGit(p)
    {
      if NamedGit(p) {
        GitNotWritten(m, p);
        assert LeafAt(emptied, p) == LeafAt(after, p) == Some(after[p]);
        LeafFromBefore(t, m, clear, p);
      }
    }
  }

  lemma GitNotWritten(m: Manifest, p: Path)
    requires Tidy(m) && AllTyped(m) && GitClean(m) && NamedGit(p)
    ensures forall j :: 0 <= j < |Plan(m)| ==> Plan(m)[j].path != p
  {
    PlanCovers(m);
    forall j | 0 <= j < |Plan(m)|
      ensures !NamedGit(Plan(m)[j].path)
    {
      assert Plan(m)[j] in Plan(m);
      var i :| 0 <= i < |m.entries| && m.entries[i] == Plan(m)[j];
    }
  }

  lemma LeafFromBefore(t: Tree, m: Manifest, clear: bool, p: Path)
    requires WellFormed(t) && NamedGit(p) && LeafAt(Emptied(t, m, clear), p).Some?
    requires var order := ByDepth(m.deleted, |m.deleted|); clear || Delete(t, order, |order|).ok
    ensures LeafAt(t, p) == LeafAt(Emptied(t, m, clear), p)
    ensures clear ==> p == [GIT]
  {
    var order := ByDepth(m.deleted, |m.deleted|);
    assert |p| > 1 ==> p[0] in p[..|p| - 1];
    assert |p| == 1 ==> p == [p[0]];
    if clear {
      ClearLeaves(t);
    } else {
      DeleteLeaves(t, order, |order|);
    }
  }

  // ------------------------------------------------------ deletions without links

  /** The paths the deletion loop is asked to remove. */
  ghost function Named(deleted: seq<Path>): set<Path> {
    set d | d in deleted && !Preserved(d)
  }

  lemma CanonicalNames(d: Path)
    requires Canonical(d)
    ensures Clean(d) == d && forall n :: n in d ==> IsPlainName(n)
  {
    CanonicalIsClean(d);
  }

  lemma DeleteShrinks(t: Tree, order: seq<Path>, k: nat, d: Path)
    requires k <= |order| && Delete(t, order, k).ok && !ThroughLink(t, d)
    ensures !ThroughLink(Delete(t, order, k).tree, d)
  {
    DeleteRemovesGone(t, order, k);
  }

  /** A deletion that leads nowhere finds nothing at or below its path that is not gone already. */
  lemma NowhereIsGone(t: Tree, order: seq<Path>, k: nat, d: Path, x: Path)
    requires WellFormed(t) && k <= |order| && Delete(t, order, k).ok
    requires Canonical(d) && !ThroughLink(t, d) && !Locate(Delete(t, order, k).tree, d).Inside?
    requires x in t && AtOrAbove(d, x)
    ensures Covered(Gone(t, order, k), x)
  {
    var s := Delete(t, order, k).tree;
    CanonicalNames(d);
    DeleteShrinks(t, order, k, d);
    LocateWithoutLinks(s, d);
    DeleteRemovesGone(t, order, k);
    var up := d[..|d| - 1];
    var i :| 0 < i <= |up| && !(up[..i] in s && s[up[..i]].Dir?);
    assert Above(up[..i], x);
  }

  /** Where no deleted path runs through a link, the loop ends well and removes just what it is asked to. */
  lemma {:induction false} PlainDeletions(t: Tree, order: seq<Path>, k: nat, x: Path)
    requires WellFormed(t) && k <= |order|
    requires forall d :: d in order && !Preserved(d) ==> Canonical(d) && !ThroughLink(t, d)
    ensures Delete(t, order, k).ok
    ensures x in t ==> (Covered(Gone(t, order, k), x) <==> Covered(Named(order[..k]), x))
  {
    if k == 0 {
    } else {
      PlainDeletions(t, order, k - 1, x);
      var d := order[k - 1];
      assert order[..k] == order[..k - 1] + [d] && d in order;
      if Preserved(d) {
        assert Named(order[..k]) == Named(order[..k - 1]);
      } else {
        assert Named(order[..k]) == Named(order[..k - 1]) + {d};
        CoveredByOneMore(Named(order[..k - 1]), d, x);
        CoveredByOneMore(Gone(t, order, k - 1), d, x);
        CanonicalNames(d);
        DeleteShrinks(t, order, k - 1, d);
        LocateWithoutLinks(Delete(t, order, k - 1).tree, d);
        if x in t && AtOrAbove(d, x) && !Locate(Delete(t, order, k - 1).tree, d).Inside? {
          NowhereIsGone(t, order, k - 1, d, x);
        }
      }
    }
  }

  /** The same of a manifest's deletions, on the paths the fold looks at. */
  lemma PlainlyGone(t: Tree, m: Manifest, x: Path)
    requires WellFormed(t) && Tidy(m)
    requires forall d :: d in m.deleted && !Preserved(d) ==> !ThroughLink(t, d)
    ensures Delete(t, ByDepth(m.deleted, |m.deleted|), |ByDepth(m.deleted, |m.deleted|)|).ok
    ensures x in t && !Skipped(x) ==> (Covered(GoneBy(t, m), x) <==> Covered(DeletedPaths(m), x))
  {
    var order := ByDepth(m.deleted, |m.deleted|);
    ByDepthKeeps(m.deleted, |m.deleted|);
    assert m.deleted[..|m.deleted|] == m.deleted && order[..|order|] == order;
    PlainDeletions(t, order, |order|, x);
  }
}
