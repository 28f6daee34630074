/** Where a path below the sandbox root leads once the links on the way to it are followed. */
module LinkWalk {
  import opened Prelude
  import opened FileTree
  import PosixPath

  /** The sandbox root, from the root of the file system. */
  const ROOT: Path := ["testbed"]

  /** How many links the operating system follows on the way to one path. */
  const MAX_LINKS := 40

  predicate InRoot(p: Path) {
    ROOT <= p
  }

  function Parent(p: Path): Path {
    if p == [] then [] else p[..|p| - 1]
  }

  /**
   * The directory that rest names from the directory here. Outside the sandbox every name is taken
   * for a directory.
   */
  function Walk(t: Tree, here: Path, rest: seq<Name>, links: nat): Option<Path>
    decreases links, |rest|
  {
    if rest == [] then Some(here)
    else if rest[0] == "" || rest[0] == "." then Walk(t, here, rest[1..], links)
    else if rest[0] == ".." then Walk(t, Parent(here), rest[1..], links)
    else
      var next := here + [rest[0]];
      if !InRoot(next) || next == ROOT then Walk(t, next, rest[1..], links)
      else
        var p := next[|ROOT|..];
        if p in t && t[p].Dir? then Walk(t, next, rest[1..], links)
        else if p in t && t[p].Link? && t[p].target != "" && links > 0 then
          var start := if t[p].target[0] == '/' then [] else here;
          Walk(t, start, PosixPath.Split(t[p].target) + rest[1..], links - 1)
        else None
  }

  /** Inside([]) is the root itself. */
  datatype Where = Nowhere | Outside | Inside(path: Path)

  /** What a system call on d acts on: links on the way are followed, the last name is not. */
  function Locate(t: Tree, d: Path): Where {
    if d == [] then Inside([])
    else
      match Walk(t, ROOT, d[..|d| - 1], MAX_LINKS)
      case None => Nowhere
      case Some(dir) =>
        var target := dir + [d[|d| - 1]];
        if InRoot(target) then Inside(target[|ROOT|..]) else Outside
  }

  /** A link stands for its target: from the root of the file system, or from the directory the link is in. */
  lemma LinkIsItsTarget(t: Tree, up: Path, name: Name, rest: seq<Name>, links: nat)
    requires IsPlainName(name) && up + [name] in t && t[up + [name]].Link? && links > 0
    ensures var target := t[up + [name]].target;
      Walk(t, ROOT + up, [name] + rest, links) ==
      if target == "" then None
      else Walk(t, if target[0] == '/' then [] else ROOT + up, PosixPath.Split(target) + rest, links - 1)
  {
    assert ([name] + rest)[1..] == rest;
    assert ROOT + up + [name] == ROOT + (up + [name]);
    assert (ROOT + (up + [name]))[|ROOT|..] == up + [name];
  }

  /** Without links a walk that arrives goes where normalising the path leads. */
  lemma {:induction false} WalkIsLexical(t: Tree, here: Path, rest: seq<Name>, links: nat)
    requires forall p :: p in t ==> !t[p].Link?
    requires forall n :: n in here ==> IsPlainName(n)
    ensures Walk(t, here, rest, links).Some? ==> Walk(t, here, rest, links).value == PosixPath.Resolve(rest, true, here)
    decreases |rest|
  {
    if rest == [] {
    } else if rest[0] == "" || rest[0] == "." {
      WalkIsLexical(t, here, rest[1..], links);
    } else if rest[0] == ".." {
      assert here != [] ==> here[|here| - 1] in here;
      WalkIsLexical(t, Parent(here), rest[1..], links);
    } else {
      WalkIsLexical(t, here + [rest[0]], rest[1..], links);
    }
  }

  predicate IsPlainName(n: Name) {
    n != "" && n != "." && n != ".."
  }

  /** Some directory on the way to d is really a link. */
  predicate ThroughLink(t: Tree, d: Path) {
    exists i :: 0 < i < |d| && d[..i] in t && t[d[..i]].Link?
  }

  predicate AllDirs(t: Tree, d: Path, lo: nat) {
    forall i :: lo < i <= |d| ==> d[..i] in t && t[d[..i]].Dir?
  }

  lemma {:induction false} WalkWithoutLinks(t: Tree, d: Path, i: nat, links: nat)
    requires i <= |d| && (forall n :: n in d ==> IsPlainName(n))
    requires forall k :: i < k <= |d| && d[..k] in t ==> !t[d[..k]].Link?
    ensures Walk(t, ROOT + d[..i], d[i..], links) == if AllDirs(t, d, i) then Some(ROOT + d) else None
    decreases |d| - i
  {
    if i == |d| {
      assert d[..i] == d;
    } else {
      var next := ROOT + d[..i] + [d[i]];
      assert d[i] in d && d[i..][0] == d[i] && d[i..][1..] == d[i + 1..];
      assert d[..i + 1] == d[..i] + [d[i]] && next == ROOT + d[..i + 1] && next[|ROOT|..] == d[..i + 1];
      if d[..i + 1] in t && t[d[..i + 1]].Dir? {
        WalkWithoutLinks(t, d, i + 1, links);
        assert AllDirs(t, d, i) <==> AllDirs(t, d, i + 1);
      }
    }
  }

  /** Without a link above it a path leads to itself, or nowhere when a directory on the way is missing. */
  lemma LocateWithoutLinks(t: Tree, d: Path)
    requires d != [] && (forall n :: n in d ==> IsPlainName(n)) && !ThroughLink(t, d)
    ensures Locate(t, d) == if AllDirs(t, d[..|d| - 1], 0) then Inside(d) else Nowhere
  {
    var up := d[..|d| - 1];
    forall k | 0 < k <= |up|
      ensures up[..k] == d[..k]
    {
    }
    assert up[..0] == [] && up[0..] == up && ROOT + [] == ROOT;
    WalkWithoutLinks(t, up, 0, MAX_LINKS);
    assert (ROOT + up) + [d[|d| - 1]] == ROOT + d;
    assert (ROOT + d)[|ROOT|..] == d;
  }
}
