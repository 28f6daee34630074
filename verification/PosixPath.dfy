/** Lexical path normalisation as in the POSIX flavour of the standard library. */
module PosixPath {

  /** The parts between slashes; a text with n slashes has n + 1 of them. */
  function Split(s: string): (parts: seq<string>)
    ensures parts != []
  {
    if s == "" then [""]
    else if s[0] == '/' then [""] + Split(s[1..])
    else
      var rest := Split(s[1..]);
      [[s[0]] + rest[0]] + rest[1..]
  }

  function Join(parts: seq<string>): string {
    if parts == [] then ""
    else if |parts| == 1 then parts[0]
    else parts[0] + "/" + Join(parts[1..])
  }

  predicate IsSlash(s: string, i: nat) {
    i < |s| && s[i] == '/'
  }

  /** A leading double slash is kept; three or more count as one. */
  function LeadingSlashes(s: string): nat {
    if !IsSlash(s, 0) then 0 else if IsSlash(s, 1) && !IsSlash(s, 2) then 2 else 1
  }

  function Slashes(n: nat): string {
    seq(n, _ => '/')
  }

  predicate Keeps(absolute: bool, kept: seq<string>, part: string) {
    part != ".." || (!absolute && kept == []) || (kept != [] && kept[|kept| - 1] == "..")
  }

  /** Drop empty and dot parts, and let a parent part undo the one before it. */
  function Resolve(parts: seq<string>, absolute: bool, kept: seq<string>): seq<string> {
    if parts == [] then kept
    else
      var part := parts[0];
      if part == "" || part == "." then Resolve(parts[1..], absolute, kept)
      else if Keeps(absolute, kept, part) then Resolve(parts[1..], absolute, kept + [part])
      else if kept != [] then Resolve(parts[1..], absolute, kept[..|kept| - 1])
      else Resolve(parts[1..], absolute, kept)
  }

  function Render(slashes: nat, parts: seq<string>): string {
    var body := Slashes(slashes) + Join(parts);
    if body == "" then "." else body
  }

  function NormPath(s: string): string {
    Render(LeadingSlashes(s), Resolve(Split(s), LeadingSlashes(s) > 0, []))
  }

  // ------------------------------------------------------------- normal parts

  predicate IsPart(p: string) {
    p != "" && p != "." && '/' !in p
  }

  /** What a resolved path looks like: proper parts, with parent parts only in front and not after a root. */
  predicate Resolved(parts: seq<string>, absolute: bool) {
    && (forall i :: 0 <= i < |parts| ==> IsPart(parts[i]))
    && (forall i :: 0 <= i < |parts| && parts[i] == ".." ==> !absolute && (i > 0 ==> parts[i - 1] == ".."))
  }

  lemma {:induction false} SplitHasNoSlash(s: string)
    ensures forall i :: 0 <= i < |Split(s)| ==> '/' !in Split(s)[i]
  {
    if s == "" {
    } else {
      SplitHasNoSlash(s[1..]);
    }
  }

  lemma {:induction false} ResolveResolves(parts: seq<string>, absolute: bool, kept: seq<string>)
    requires Resolved(kept, absolute)
    requires forall i :: 0 <= i < |parts| ==> '/' !in parts[i]
    ensures Resolved(Resolve(parts, absolute, kept), absolute)
  {
    if parts == [] {
    } else {
      var part := parts[0];
      if part == "" || part == "." {
        ResolveResolves(parts[1..], absolute, kept);
      } else if Keeps(absolute, kept, part) {
        ResolveResolves(parts[1..], absolute, kept + [part]);
      } else {
        ResolveResolves(parts[1..], absolute, if kept != [] then kept[..|kept| - 1] else kept);
      }
    }
  }

  lemma {:induction false} ResolveKeepsResolved(parts: seq<string>, absolute: bool, kept: seq<string>)
    requires Resolved(kept + parts, absolute)
    ensures Resolve(parts, absolute, kept) == kept + parts
  {
    if parts == [] {
      assert kept + parts == kept;
    } else {
      assert (kept + parts)[|kept|] == parts[0];
      assert kept != [] ==> (kept + parts)[|kept| - 1] == kept[|kept| - 1];
      assert kept + parts == (kept + [parts[0]]) + parts[1..];
      ResolveKeepsResolved(parts[1..], absolute, kept + [parts[0]]);
    }
  }

  lemma {:induction false} SplitConcat(a: string, b: string)
    ensures Split(a + "/" + b) == Split(a) + Split(b)
  {
    var s := a + "/" + b;
    if a == "" {
      assert s[1..] == b;
    } else {
      assert s[1..] == a[1..] + "/" + b;
      SplitConcat(a[1..], b);
    }
  }

  lemma {:induction false} SplitPart(p: string)
    requires '/' !in p
    ensures Split(p) == [p]
  {
    if p == "" {
    } else {
      assert p[0] in p && p == [p[0]] + p[1..];
      SplitPart(p[1..]);
    }
  }

  lemma {:induction false} SplitJoin(parts: seq<string>)
    requires parts != [] && forall i :: 0 <= i < |parts| ==> '/' !in parts[i]
    ensures Split(Join(parts)) == parts
  {
    SplitPart(parts[0]);
    if |parts| <= 1 {
    } else {
      SplitJoin(parts[1..]);
      SplitConcat(parts[0], Join(parts[1..]));
    }
  }

  lemma {:induction false} ResolveSkipsEmpty(n: nat, parts: seq<string>, absolute: bool)
    ensures Resolve(seq(n, _ => "") + parts, absolute, []) == Resolve(parts, absolute, [])
  {
    if n == 0 {
      assert seq(n, _ => "") + parts == parts;
    } else {
      assert (seq(n, _ => "") + parts)[1..] == seq(n - 1, _ => "") + parts;
      ResolveSkipsEmpty(n - 1, parts, absolute);
    }
  }

  lemma {:induction false} SplitSlashes(n: nat, body: string)
    ensures Split(Slashes(n) + body) == seq(n, _ => "") + Split(body)
  {
    if n == 0 {
      assert Slashes(n) + body == body;
    } else {
      assert (Slashes(n) + body)[1..] == Slashes(n - 1) + body;
      SplitSlashes(n - 1, body);
    }
  }

  /** Rendering resolved parts and resolving them again changes nothing. */
  lemma NormPathOfRendered(slashes: nat, parts: seq<string>)
    requires slashes <= 2 && Resolved(parts, slashes > 0)
    ensures NormPath(Render(slashes, parts)) == Render(slashes, parts)
  {
    if slashes == 0 && parts == [] {
      assert Render(slashes, parts) == ".";
      SplitPart(".");
      assert Resolve(["."], false, []) == Resolve([], false, []);
    } else {
      if parts == [] {
        assert Resolve([""], slashes > 0, []) == Resolve([], slashes > 0, []);
      } else {
        SplitJoin(parts);
        assert [] + parts == parts;
        ResolveKeepsResolved(parts, slashes > 0, []);
      }
      SplitSlashes(slashes, Join(parts));
      ResolveSkipsEmpty(slashes, Split(Join(parts)), slashes > 0);
    }
  }

  lemma PartsOf(s: string)
    ensures LeadingSlashes(s) <= 2 && Resolved(Resolve(Split(s), LeadingSlashes(s) > 0, []), LeadingSlashes(s) > 0)
  {
    SplitHasNoSlash(s);
    ResolveResolves(Split(s), LeadingSlashes(s) > 0, []);
  }

  lemma NormPathIsIdempotent(s: string)
    ensures NormPath(NormPath(s)) == NormPath(s)
  {
    PartsOf(s);
    NormPathOfRendered(LeadingSlashes(s), Resolve(Split(s), LeadingSlashes(s) > 0, []));
  }

  // ------------------------------------------------------- paths under a root

  /** In a normal path slashes stand alone and never at the end, but for the leading ones. */
  lemma {:induction false} JoinedSlashes(parts: seq<string>, i: nat)
    requires forall k :: 0 <= k < |parts| ==> IsPart(parts[k])
    requires IsSlash(Join(parts), i)
    ensures i + 1 < |Join(parts)| && Join(parts)[i + 1] != '/'
  {
    var first, rest := parts[0], Join(parts[1..]);
    assert forall k :: 0 <= k < |first| ==> first[k] in first;
    if |parts| <= 1 {
    } else {
      var s := first + "/" + rest;
      assert IsPart(parts[1]) && rest[0] == parts[1][0] && parts[1][0] in parts[1];
      if i > |first| {
        assert s[i] == rest[i - |first| - 1];
        JoinedSlashes(parts[1..], i - |first| - 1);
        assert s[i + 1] == rest[i - |first|];
      }
    }
  }

  lemma NormalSlashes(p: string, i: nat)
    requires NormPath(p) == p && i > 0 && IsSlash(p, i)
    ensures p == "//" || (i + 1 < |p| && p[i + 1] != '/')
  {
    var slashes, parts := LeadingSlashes(p), Resolve(Split(p), LeadingSlashes(p) > 0, []);
    PartsOf(p);
    if parts != [] {
      if i >= slashes {
        JoinedSlashes(parts, i - slashes);
      }
    }
  }

  lemma {:induction false} ResolveIgnoresDot(parts: seq<string>, absolute: bool, kept: seq<string>)
    ensures Resolve(parts + ["."], absolute, kept) == Resolve(parts, absolute, kept)
  {
    if parts == [] {
      assert parts + ["."] == ["."];
    } else {
      assert (parts + ["."])[1..] == parts[1..] + ["."];
      var part := parts[0];
      if part == "" || part == "." {
        ResolveIgnoresDot(parts[1..], absolute, kept);
      } else if Keeps(absolute, kept, part) {
        ResolveIgnoresDot(parts[1..], absolute, kept + [part]);
      } else {
        ResolveIgnoresDot(parts[1..], absolute, if kept != [] then kept[..|kept| - 1] else kept);
      }
    }
  }

  // --------------------------------------------------------- what normalising means

  lemma {:induction false} ResolveConcat(a: seq<string>, b: seq<string>, absolute: bool, kept: seq<string>)
    ensures Resolve(a + b, absolute, kept) == Resolve(b, absolute, Resolve(a, absolute, kept))
  {
    if a == [] {
      assert a + b == b;
    } else {
      assert (a + b)[1..] == a[1..] + b;
      var part := a[0];
      if part == "" || part == "." {
        ResolveConcat(a[1..], b, absolute, kept);
      } else if Keeps(absolute, kept, part) {
        ResolveConcat(a[1..], b, absolute, kept + [part]);
      } else {
        ResolveConcat(a[1..], b, absolute, if kept != [] then kept[..|kept| - 1] else kept);
      }
    }
  }

  /**
   * What one more part does: empty and dot parts nothing, a parent part takes the last name away, and
   * where there is none it is dropped after a root and kept in front otherwise.
   */
  lemma OneMorePart(parts: seq<string>, part: string, absolute: bool)
    ensures var before := Resolve(parts, absolute, []);
      Resolve(parts + [part], absolute, []) ==
      if part == "" || part == "." then before
      else if part != ".." then before + [part]
      else if before != [] && before[|before| - 1] != ".." then before[..|before| - 1]
      else if before == [] && absolute then []
      else before + [".."]
  {
    ResolveConcat(parts, [part], absolute, []);
  }

  /** A name and the parent part after it cancel out. */
  lemma ParentUndoes(p: string, name: string)
    requires p != "" && !OnlySlashes(p) && IsPart(name) && name != ".."
    ensures NormPath(p + "/" + name + "/" + "..") == NormPath(p)
  {
    var s := p + "/" + name;
    assert LeadingSlashes(s) == LeadingSlashes(p) == LeadingSlashes(s + "/" + "..");
    SplitConcat(p, name);
    SplitConcat(s, "..");
    SplitPart(name);
    SplitPart("..");
    OneMorePart(Split(p), name, LeadingSlashes(p) > 0);
    OneMorePart(Split(p) + [name], "..", LeadingSlashes(p) > 0);
  }

  predicate OnlySlashes(p: string) {
    p == "/" || p == "//"
  }

  /** A dot below a normal root is the root itself, unless the root is nothing but slashes. */
  lemma DotBelow(root: string)
    requires NormPath(root) == root && !OnlySlashes(root)
    ensures NormPath(root + "/.") == root
  {
    assert root != "";
    if IsSlash(root, 1) {
      NormalSlashes(root, 1);
    }
    assert LeadingSlashes(root + "/.") == LeadingSlashes(root);
    assert root + "/" + "." == root + "/.";
    SplitConcat(root, ".");
    SplitPart(".");
    ResolveIgnoresDot(Split(root), LeadingSlashes(root) > 0, []);
  }
}
