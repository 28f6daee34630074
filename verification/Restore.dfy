/** The script that writes one manifest into the live tree. */
module Restore {
  import opened Prelude
  import opened FileTree
  import opened LinkWalk
  import opened Manifest

  const DEFAULT_MODE: int := 0x1A4

  /** A blob file: the digest of its bytes and their number. */
  datatype Blob = Blob(digest: Digest, size: nat)

  /** The place of a blob file below "blobs", as the names on the way to it. */
  datatype Place = Place(parts: seq<string>)

  /** The blob files of the store. */
  type Store = map<Place, Blob>

  /** The tree a step leaves behind, and whether it ran to its end. */
  datatype Outcome = Outcome(tree: Tree, ok: bool)

  function BlobPath(h: Digest): Place {
    if |h| <= 2 then Place([h]) else Place([h[..2], h[2..]])
  }

  /** The blob file for h can be opened and holds bytes with digest h. */
  predicate Readable(store: Store, h: Digest) {
    |h| > 2 && BlobPath(h) in store && store[BlobPath(h)].digest == h
  }

  predicate Preserved(p: Path) {
    p != [] && p[0] == GIT
  }

  /** The target a path names below the root, when it is a safe one. */
  function Clean(p: Path): Path {
    if p == [] then []
    else if p[0] == "" || p[0] == "." then Clean(p[1..])
    else [p[0]] + Clean(p[1..])
  }

  predicate SafeTarget(p: Path) {
    p != [] && p[0] != "" && ".." !in p && Clean(p) != []
  }

  lemma {:induction false} CanonicalIsClean(p: Path)
    requires "" !in p && "." !in p
    ensures Clean(p) == p
  {
    if p == [] {
    } else {
      assert p[0] in p;
      CanonicalIsClean(p[1..]);
    }
  }

  // ------------------------------------------------------- parents and writes

  /** Makes the missing directories on the way to p, from its first i components on. */
  function EnsureParents(t: Tree, p: Path, i: nat): Outcome
    decreases |p| - i
  {
    if i >= |p| then Outcome(t, true)
    else
      var current := p[..i];
      if current !in t then EnsureParents(t[current := Dir], p, i + 1)
      else if t[current].Dir? then EnsureParents(t, p, i + 1)
      else Outcome(t, false)
  }

  /** Puts a file or a link at p, in place of what the script lets it replace. */
  function Put(t: Tree, p: Path, n: Node): Outcome
    requires IsRecorded(n)
  {
    var s := EnsureParents(t, p, 1);
    if !s.ok then s
    else if p !in s.tree then Outcome(s.tree[p := n], true)
    else if s.tree[p].Dir? then Outcome(RemoveTree(s.tree, p)[p := n], true)
    else if n.File? && !s.tree[p].File? then Outcome(s.tree, false)
    else Outcome(s.tree[p := n], true)
  }

  /** The node a well-formed entry describes. */
  function NodeOf(e: RawEntry, now: int): Node
    requires !Raises(e) && !Ignored(e)
  {
    match e
    case RawFile(hash, mode, mtime) =>
      File(hash.value,
           if mode.Bits? then IMode(mode.bits) else DEFAULT_MODE,
           if mtime.Some? then mtime.value else now)
    case RawLink(target, _) => Link(target.value)
  }

  /** One turn of the loop over file entries, or of the loop over links. */
  function WriteItem(t: Tree, item: Item, store: Store, now: int): Outcome {
    var target := Clean(item.path);
    match item.entry
    case RawFile(hash, mode, _) =>
      if hash.None? || !Readable(store, hash.value) then Outcome(t, false)
      else
        var s := Put(t, target, NodeOf(item.entry, now));
        Outcome(s.tree, s.ok && !mode.NullMode?)
    case RawLink(link, _) =>
      if link.None? || link.value == "" then Outcome(t, false)
      else Put(t, target, NodeOf(item.entry, now))
    case _ => Outcome(t, false)
  }

  // -------------------------------------------------------------- whole script

  predicate WellTyped(e: RawEntry) {
    e.RawFile? || e.RawLink?
  }

  predicate Selected(item: Item, links: bool) {
    !Preserved(item.path) && WellTyped(item.entry) && item.entry.RawLink? == links
  }

  /** The entries of one kind among the first k, in manifest order. */
  function Pick(items: seq<Item>, k: nat, links: bool): seq<Item>
    requires k <= |items|
  {
    if k == 0 then []
    else if Selected(items[k - 1], links) then Pick(items, k - 1, links) + [items[k - 1]]
    else Pick(items, k - 1, links)
  }

  /** Files first, then links. */
  function Plan(m: Manifest): seq<Item> {
    Pick(m.entries, |m.entries|, false) + Pick(m.entries, |m.entries|, true)
  }

  function WriteItems(t: Tree, plan: seq<Item>, k: nat, store: Store, now: int): Outcome
    requires k <= |plan|
  {
    if k == 0 then Outcome(t, true)
    else
      var s := WriteItems(t, plan, k - 1, store, now);
      if s.ok then WriteItem(s.tree, plan[k - 1], store, now) else s
  }

  /** The tree without its top-level names, except .git. */
  function Clear(t: Tree): Tree {
    map p | p in t && Preserved(p) :: t[p]
  }

  /**
   * Removes what each deleted path leads to, with all below it. A link on the way is followed, so that
   * may be another path, something outside the root, or the root itself, without which nothing goes on.
   */
  function Delete(t: Tree, deleted: seq<Path>, k: nat): Outcome
    requires k <= |deleted|
  {
    if k == 0 then Outcome(t, true)
    else
      var s := Delete(t, deleted, k - 1);
      var d := deleted[k - 1];
      if !s.ok || Preserved(d) then s
      else
        match Locate(s.tree, Clean(d))
        case Inside(p) => if p == [] then Outcome(map[], false) else Outcome(RemoveTree(s.tree, p), true)
        case _ => s
  }

  predicate SafeItems(items: seq<Item>, k: nat)
    requires k <= |items|
  {
    k == 0 || (SafeItems(items, k - 1) && SafeTarget(items[k - 1].path))
  }

  predicate SafeDeletions(deleted: seq<Path>, k: nat)
    requires k <= |deleted|
  {
    k == 0 || (SafeDeletions(deleted, k - 1) && SafeTarget(deleted[k - 1]))
  }

  predicate AllSafe(m: Manifest) {
    SafeItems(m.entries, |m.entries|) && SafeDeletions(m.deleted, |m.deleted|)
  }

  predicate AllTyped(m: Manifest) {
    forall i :: 0 <= i < |m.entries| && !Preserved(m.entries[i].path) ==> WellTyped(m.entries[i].entry)
  }

  /** The longest paths first; equal lengths keep their order. */
  function Deepest(d: Path, sorted: seq<Path>): seq<Path> {
    if sorted == [] || |d| > |sorted[0]| then [d] + sorted
    else [sorted[0]] + Deepest(d, sorted[1..])
  }

  function ByDepth(deleted: seq<Path>, k: nat): seq<Path>
    requires k <= |deleted|
  {
    if k == 0 then [] else Deepest(deleted[k - 1], ByDepth(deleted, k - 1))
  }

  function Script(t: Tree, m: Manifest, clear: bool, store: Store, now: int): Outcome {
    if !AllSafe(m) then Outcome(t, false)
    else
      var order := ByDepth(m.deleted, |m.deleted|);
      var s := if clear then Outcome(Clear(t), true) else Delete(t, order, |order|);
      if !s.ok || !AllTyped(m) then Outcome(s.tree, false)
      else WriteItems(s.tree, Plan(m), |Plan(m)|, store, now)
  }

  // ------------------------------------------------------------ the live tree

  /** The tree of one container, changed in place. */
  class LiveTree {
    var nodes: Tree

    constructor (t: Tree)
      ensures nodes == t
    {
      nodes := t;
    }

    method EnsureParentDir(p: Path) returns (ok: bool)
      modifies this
      ensures Outcome(nodes, ok) == EnsureParents(old(nodes), p, 1)
    {
      var i := 1;
      while i < |p|
        invariant EnsureParents(nodes, p, i) == EnsureParents(old(nodes), p, 1)
        decreases |p| - i
      {
        var current := p[..i];
        if current in nodes {
          if !nodes[current].Dir? {
            return false;
          }
        } else {
          nodes := nodes[current := Dir];
        }
        i := i + 1;
      }
      ok := true;
    }

    method WriteEntry(item: Item, store: Store, now: int) returns (ok: bool)
      modifies this
      ensures Outcome(nodes, ok) == WriteItem(old(nodes), item, store, now)
    {
      var e := item.entry;
      if !WellTyped(e) {
        return false;
      }
      if e.RawFile? {
        if e.hash.None? || !Readable(store, e.hash.value) {
          return false;
        }
      } else if e.target.None? || e.target.value == "" {
        return false;
      }
      var target := Clean(item.path);
      ok := EnsureParentDir(target);
      if !ok {
        return;
      }
      if target in nodes {
        if nodes[target].Dir? {
          nodes := RemoveTree(nodes, target);
        } else if e.RawFile? && !nodes[target].File? {
          return false;
        }
      }
      nodes := nodes[target := NodeOf(e, now)];
      ok := !(e.RawFile? && e.mode.NullMode?);
    }

    method ClearRoot()
      requires WellFormed(nodes)
      modifies this
      ensures nodes == Clear(old(nodes))
    {
      var names := set p | p in nodes && |p| == 1 :: p[0];
      forall p | p in nodes
        ensures p != [] && p[0] in names
      {
        assert p[..1] == p || Above(p[..1], p);
        assert p[..1][0] in names;
      }
      while names != {}
        invariant nodes == map p | p in old(nodes) && p != [] && (Preserved(p) || p[0] in names) :: old(nodes)[p]
        decreases names
      {
        var name :| name in names;
        if name != GIT {
          nodes := RemoveTree(nodes, [name]);
        }
        names := names - {name};
      }
    }

    method DeletePaths(deleted: seq<Path>) returns (ok: bool)
      modifies this
      ensures Outcome(nodes, ok) == Delete(old(nodes), deleted, |deleted|)
    {
      var i := 0;
      while i < |deleted|
        invariant 0 <= i <= |deleted|
        invariant Delete(old(nodes), deleted, i) == Outcome(nodes, true)
      {
        var d := deleted[i];
        i := i + 1;
        if !Preserved(d) {
          var target := Locate(nodes, Clean(d));
          if target == Inside([]) {
            nodes := map[];
            DeleteFailureSticks(old(nodes), deleted, i, |deleted|);
            return false;
          }
          if target.Inside? {
            nodes := RemoveTree(nodes, target.path);
          }
        }
      }
      ok := true;
    }

    /** The file loop and the link loop, one after the other. */
    method WriteAll(plan: seq<Item>, store: Store, now: int) returns (ok: bool)
      modifies this
      ensures Outcome(nodes, ok) == WriteItems(old(nodes), plan, |plan|, store, now)
    {
      var i := 0;
      while i < |plan|
        invariant 0 <= i <= |plan|
        invariant WriteItems(old(nodes), plan, i, store, now) == Outcome(nodes, true)
      {
        ok := WriteEntry(plan[i], store, now);
        i := i + 1;
        if !ok {
          WriteFailureSticks(old(nodes), plan, i, |plan|, store, now);
          return;
        }
      }
      ok := true;
    }

    /** The restore script from its checks to its last link. */
    method RestoreManifest(m: Manifest, clear: bool, store: Store, now: int) returns (ok: bool)
      requires WellFormed(nodes)
      modifies this
      ensures Outcome(nodes, ok) == Script(old(nodes), m, clear, store, now)
    {
      if !AllSafe(m) {
        return false;
      }
      if clear {
        ClearRoot();
      } else {
        var order := ByDepth(m.deleted, |m.deleted|);
        ok := DeletePaths(order);
        if !ok {
          return;
        }
      }
      if !AllTyped(m) {
        return false;
      }
      ok := WriteAll(Plan(m), store, now);
    }
  }

  lemma {:induction false} DeleteFailureSticks(t: Tree, deleted: seq<Path>, k: nat, n: nat)
    requires k <= n <= |deleted| && !Delete(t, deleted, k).ok
    ensures Delete(t, deleted, n) == Delete(t, deleted, k)
    decreases n
  {
    if k == n {
    } else {
      DeleteFailureSticks(t, deleted, k, n - 1);
    }
  }

  lemma {:induction false} WriteFailureSticks(t: Tree, plan: seq<Item>, k: nat, n: nat, store: Store, now: int)
    requires k <= n <= |plan|
    requires !WriteItems(t, plan, k, store, now).ok
    ensures WriteItems(t, plan, n, store, now) == WriteItems(t, plan, k, store, now)
    decreases n
  {
    if k == n {
    } else {
      WriteFailureSticks(t, plan, k, n - 1, store, now);
    }
  }
}
