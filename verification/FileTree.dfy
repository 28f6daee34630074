/** The file tree below the sandbox root, and the part of it a snapshot sees. */
module FileTree {
  import opened Prelude

  type Name = string
  type Digest = string

  /** A path relative to the root, as the components between its separators. */
  type Path = seq<Name>

  /** The one directory name that checkpoints skip. */
  const GIT: Name := ".git"

  datatype Node =
    | Dir
    | File(digest: Digest, mode: int, mtime: int)
    | Link(target: string)
    | Special

  type Tree = map<Path, Node>

  /** What a manifest records for one path; a file recorded without a mode matches any mode. */
  datatype Entry = FileEntry(digest: Digest, mode: Option<int>) | LinkEntry(target: string)

  type Entries = map<Path, Entry>

  /** q is a directory on the way to p. */
  predicate Above(q: Path, p: Path) {
    q != [] && q < p
  }

  predicate AtOrAbove(q: Path, p: Path) {
    q == p || Above(q, p)
  }

  ghost predicate Shadowed(qs: set<Path>, p: Path) {
    exists q :: q in qs && Above(q, p)
  }

  ghost predicate Covered(qs: set<Path>, p: Path) {
    exists q :: q in qs && AtOrAbove(q, p)
  }

  /** Everything on the way to a node is a directory of the tree. */
  ghost predicate WellFormed(t: Tree) {
    && [] !in t
    && forall p, q :: p in t && Above(q, p) ==> q in t && t[q].Dir?
  }

  function LeafAt(t: Tree, p: Path): Option<Node> {
    if p in t && !t[p].Dir? then Some(t[p]) else None
  }

  function RemoveTree(t: Tree, d: Path): Tree {
    map p | p in t && !AtOrAbove(d, p) :: t[p]
  }

  predicate IsRecorded(n: Node) {
    n.File? || n.Link?
  }

  function EntryOf(n: Node): Entry
    requires IsRecorded(n)
  {
    match n
    case File(digest, mode, _) => FileEntry(digest, Some(mode))
    case Link(target) => LinkEntry(target)
  }

  /** The walk prunes .git directories, and records the files and links it reaches. */
  predicate Walked(t: Tree, p: Path) {
    p in t && p != [] && IsRecorded(t[p]) && GIT !in p[..|p| - 1]
  }

  /** A full capture of the tree. */
  function Capture(t: Tree): Entries {
    map p | p in t && Walked(t, p) :: EntryOf(t[p])
  }

  /** The recorded leaves on paths without a .git component. */
  function View(t: Tree): Entries {
    map p | p in t && IsRecorded(t[p]) && GIT !in p :: EntryOf(t[p])
  }

  /** No file or link the walk reaches is itself called .git. */
  ghost predicate NoGitLeaf(t: Tree) {
    forall p :: Walked(t, p) ==> GIT !in p
  }

  lemma CaptureIsView(t: Tree)
    requires WellFormed(t) && NoGitLeaf(t)
    ensures Capture(t) == View(t)
  {
    forall p
      ensures Walked(t, p) <==> p in t && IsRecorded(t[p]) && GIT !in p
    {
      if p in t {
        assert p != [];
        assert p == p[..|p| - 1] + [p[|p| - 1]];
      }
    }
  }

  /** Among the paths above and at q, some written one has no written path above it. */
  lemma {:induction false} TopmostAbove(qs: set<Path>, q: Path) returns (top: Path)
    requires q in qs
    ensures top in qs && AtOrAbove(top, q) && !Shadowed(qs, top)
    decreases |q|
  {
    if Shadowed(qs, q) {
      var r :| r in qs && Above(r, q);
      top := TopmostAbove(qs, r);
    } else {
      top := q;
    }
  }
}
