/** The list of changed files as text: how find prints it and how the snapshot script reads it back. */
module Listing {
  import opened Prelude
  import opened FileTree
  import opened LinkWalk
  import opened PosixPath

  /** Where the script takes a line to end. */
  predicate Breaks(c: char) {
    || c == '\n' || c == '\r' || c == '\U{000B}' || c == '\U{000C}'
    || '\U{001C}' <= c <= '\U{001E}' || c == '\U{0085}' || c == '\U{2028}' || c == '\U{2029}'
  }

  predicate IsSpace(c: char) {
    || Breaks(c) || c == '\t' || c == ' ' || c == '\U{001F}' || c == '\U{00A0}' || c == '\U{1680}'
    || '\U{2000}' <= c <= '\U{200A}' || c == '\U{202F}' || c == '\U{205F}' || c == '\U{3000}'
  }

  /** Line boundaries and white space by their code points. */
  lemma CharactersInNumbers(c: char)
    ensures Breaks(c) <==> c as int in {10, 11, 12, 13, 28, 29, 30, 0x85, 0x2028, 0x2029}
    ensures IsSpace(c) <==>
      9 <= c as int <= 13 || 28 <= c as int <= 32 || 0x2000 <= c as int <= 0x200A ||
      c as int in {0x85, 0xA0, 0x1680, 0x2028, 0x2029, 0x202F, 0x205F, 0x3000}
  {
  }

  // ------------------------------------------------------------------ printing

  /** The line for one path. */
  function Line(p: Path): string {
    "/" + Join(ROOT + p)
  }

  function LinesOf(order: seq<Path>): (lines: seq<string>)
    ensures |lines| == |order| && forall i :: 0 <= i < |order| ==> lines[i] == Line(order[i])
  {
    seq(|order|, i requires 0 <= i < |order| => Line(order[i]))
  }

  function Text(lines: seq<string>): string {
    if lines == [] then "" else Text(lines[..|lines| - 1]) + (lines[|lines| - 1] + "\n")
  }

  function Print(order: seq<Path>): string {
    Text(LinesOf(order))
  }

  // ------------------------------------------------------------------- reading

  function StripStart(s: string): string {
    if s != "" && IsSpace(s[0]) then StripStart(s[1..]) else s
  }

  function StripEnd(s: string): string {
    if s != "" && IsSpace(s[|s| - 1]) then StripEnd(s[..|s| - 1]) else s
  }

  function Lines(s: string): (lines: seq<string>)
    ensures lines != []
  {
    if s == "" then [""]
    else if Breaks(s[0]) then [""] + Lines(s[1..])
    else
      var rest := Lines(s[1..]);
      [[s[0]] + rest[0]] + rest[1..]
  }

  /** The path below the root that a line names, if any; a relative one starts from the working directory. */
  function ReadLine(cwd: string, line: string): Option<Path> {
    if line == "" || GIT in Split(line) then None
    else
      var parts := Resolve(Split(if IsSlash(line, 0) then line else cwd + "/" + line), true, []);
      if ROOT < parts then Some(parts[|ROOT|..]) else None
  }

  function ReadLines(cwd: string, lines: seq<string>): set<Path> {
    set line | line in lines && ReadLine(cwd, line).Some? :: ReadLine(cwd, line).value
  }

  /** What the script makes of the printed list. */
  function Listed(cwd: string, order: seq<Path>): set<Path> {
    ReadLines(cwd, Lines(StripEnd(StripStart(Print(order)))))
  }

  /** The loop of the script over the lines of the text it got. */
  method ReadListing(cwd: string, text: string) returns (changed: set<Path>)
    ensures changed == ReadLines(cwd, Lines(StripEnd(StripStart(text))))
  {
    var lines := Lines(StripEnd(StripStart(text)));
    changed := {};
    for i := 0 to |lines|
      invariant changed == ReadLines(cwd, lines[..i])
    {
      assert lines[..i + 1] == lines[..i] + [lines[i]];
      var read := ReadLine(cwd, lines[i]);
      if read.Some? {
        changed := changed + {read.value};
      }
    }
    assert lines[..|lines|] == lines;
  }

  // ------------------------------------------------------------------- clean names

  /** A path as a file system holds it. */
  predicate IsReal(p: Path) {
    p != [] && forall n :: n in p ==> IsPart(n) && n != ".."
  }

  predicate Unbroken(s: string) {
    forall i :: 0 <= i < |s| ==> !Breaks(s[i])
  }

  predicate EndsInSpace(s: string) {
    s != "" && IsSpace(s[|s| - 1])
  }

  /** No path of the list holds a line boundary, and the last one does not end in white space. */
  predicate Legible(order: seq<Path>) {
    && (forall i :: 0 <= i < |order| ==> Unbroken(Line(order[i])))
    && (order != [] ==> !EndsInSpace(Line(order[|order| - 1])))
  }

  // ------------------------------------------------------------- one line, one path

  lemma LineParts(p: Path)
    requires p == [] || IsReal(p)
    ensures Split(Line(p)) == [""] + ROOT + p
    ensures Resolve(Split(Line(p)), true, []) == ROOT + p
    ensures IsSlash(Line(p), 0)
  {
    forall i | 0 <= i < |ROOT + p|
      ensures '/' !in (ROOT + p)[i]
    {
      assert (ROOT + p)[i] in ROOT + p;
    }
    SplitJoin(ROOT + p);
    assert Line(p)[1..] == Join(ROOT + p);
    assert [""] + (ROOT + p) == [""] + ROOT + p;
    assert ([""] + ROOT + p)[1..] == ROOT + p && [] + (ROOT + p) == ROOT + p;
    ResolveKeepsResolved(ROOT + p, true, []);
  }

  /** A line that comes through whole names its path, unless that is below .git. */
  lemma LineIsRead(cwd: string, p: Path)
    requires IsReal(p)
    ensures ReadLine(cwd, Line(p)) == if GIT in p then None else Some(p)
  {
    LineParts(p);
    assert GIT in [""] + ROOT + p <==> GIT in p;
    assert (ROOT + p)[|ROOT|..] == p && ROOT < ROOT + p;
  }

  // ------------------------------------------------------------------ whole lists

  lemma {:induction false} LinesConcat(a: string, b: string)
    ensures Lines(a + "\n" + b) == Lines(a) + Lines(b)
  {
    var s := a + "\n" + b;
    if a == "" {
      assert s[1..] == b;
    } else {
      assert s[1..] == a[1..] + "\n" + b;
      LinesConcat(a[1..], b);
    }
  }

  lemma {:induction false} UnbrokenLine(s: string)
    requires Unbroken(s)
    ensures Lines(s) == [s]
  {
    if s == "" {
    } else {
      UnbrokenLine(s[1..]);
      assert s == [s[0]] + s[1..];
    }
  }

  lemma TextEnds(lines: seq<string>, rest: string)
    requires lines != []
    ensures var n := |lines| - 1; Text(lines) + rest == Text(lines[..n]) + (lines[n] + "\n" + rest)
  {
  }

  lemma OneLine(line: string, rest: string)
    requires Unbroken(line)
    ensures Lines(line + "\n" + rest) == [line] + Lines(rest)
  {
    LinesConcat(line, rest);
    UnbrokenLine(line);
  }

  lemma Regroup<T>(xs: seq<T>, rest: seq<T>)
    requires xs != []
    ensures xs[..|xs| - 1] + ([xs[|xs| - 1]] + rest) == xs + rest
  {
  }

  lemma {:induction false} TextLines(lines: seq<string>, rest: string)
    requires forall i :: 0 <= i < |lines| ==> Unbroken(lines[i])
    ensures Lines(Text(lines) + rest) == lines + Lines(rest)
  {
    if lines == [] {
      assert Text(lines) + rest == rest;
    } else {
      var n := |lines| - 1;
      TextEnds(lines, rest);
      OneLine(lines[n], rest);
      TextLines(lines[..n], lines[n] + "\n" + rest);
      Regroup(lines, Lines(rest));
    }
  }

  lemma {:induction false} StripEndConcat(a: string, b: string)
    ensures StripEnd(b) != "" ==> StripEnd(a + b) == a + StripEnd(b)
    ensures |StripEnd(b)| <= |b| && StripEnd(b) == b[..|StripEnd(b)|]
    decreases |b|
  {
    if b == "" || !IsSpace(b[|b| - 1]) {
    } else {
      StripEndConcat(a, b[..|b| - 1]);
      assert (a + b)[..|a + b| - 1] == a + b[..|b| - 1];
    }
  }

  lemma {:induction false} SlashStays(s: string)
    requires s != "" && s[0] == '/'
    ensures StripEnd(s) != "" && StripEnd(s)[0] == '/'
  {
    if !IsSpace(s[|s| - 1]) {
    } else {
      SlashStays(s[..|s| - 1]);
    }
  }

  lemma {:induction false} TextStarts(lines: seq<string>)
    requires lines != [] && IsSlash(lines[0], 0)
    ensures IsSlash(Text(lines), 0)
  {
    if |lines| <= 1 {
    } else {
      TextStarts(lines[..|lines| - 1]);
    }
  }

  lemma StripLine(a: string, last: string)
    requires IsSlash(last, 0)
    ensures StripEnd(a + (last + "\n")) == a + StripEnd(last)
  {
    assert (last + "\n")[..|last|] == last;
    SlashStays(last);
    StripEndConcat(a, last + "\n");
  }

  /** Stripping the whole text strips the last line only. */
  lemma StrippedText(lines: seq<string>)
    requires lines != [] && IsSlash(lines[0], 0) && IsSlash(lines[|lines| - 1], 0)
    ensures StripEnd(StripStart(Text(lines))) == Text(lines[..|lines| - 1]) + StripEnd(lines[|lines| - 1])
  {
    TextStarts(lines);
    assert StripStart(Text(lines)) == Text(lines);
    StripLine(Text(lines[..|lines| - 1]), lines[|lines| - 1]);
  }

  /** The lines the script sees when none of those printed holds a line boundary. */
  lemma UnbrokenText(lines: seq<string>)
    requires lines != [] && IsSlash(lines[0], 0) && IsSlash(lines[|lines| - 1], 0)
    requires forall i :: 0 <= i < |lines| ==> Unbroken(lines[i])
    ensures Lines(StripEnd(StripStart(Text(lines)))) == lines[..|lines| - 1] + [StripEnd(lines[|lines| - 1])]
  {
    var init, kept := lines[..|lines| - 1], StripEnd(lines[|lines| - 1]);
    StrippedText(lines);
    StripKeepsUnbroken(lines[|lines| - 1]);
    TextLines(init, kept);
    UnbrokenLine(kept);
  }

  lemma StripKeepsUnbroken(s: string)
    requires Unbroken(s)
    ensures Unbroken(StripEnd(s))
  {
    StripEndConcat("", s);
  }

  lemma UnbrokenList(order: seq<Path>)
    requires order != [] && forall i :: 0 <= i < |order| ==> Unbroken(Line(order[i]))
    ensures var n := |order| - 1;
      Lines(StripEnd(StripStart(Print(order)))) == LinesOf(order[..n]) + [StripEnd(Line(order[n]))]
  {
    var lines := LinesOf(order);
    UnbrokenText(lines);
    assert lines[..|lines| - 1] == LinesOf(order[..|order| - 1]);
  }

  /** The list comes through: a legible one is read back as it is, but for what lies below .git. */
  lemma LegibleIsRead(cwd: string, order: seq<Path>)
    requires Legible(order) && forall p :: p in order ==> IsReal(p)
    ensures Listed(cwd, order) == set p | p in order && GIT !in p
  {
    if order == [] {
      assert Lines("") == [""];
    } else {
      LegibleLines(order);
      LinesAreRead(cwd, order);
    }
  }

  lemma LegibleLines(order: seq<Path>)
    requires order != [] && Legible(order)
    ensures Lines(StripEnd(StripStart(Print(order)))) == LinesOf(order)
  {
    var n := |order| - 1;
    UnbrokenList(order);
    assert StripEnd(Line(order[n])) == Line(order[n]);
    assert LinesOf(order) == LinesOf(order[..n]) + [Line(order[n])];
  }

  lemma LinesAreRead(cwd: string, order: seq<Path>)
    requires forall p :: p in order ==> IsReal(p)
    ensures ReadLines(cwd, LinesOf(order)) == set p | p in order && GIT !in p
  {
    forall p | p in order
      ensures ReadLine(cwd, Line(p)) == if GIT in p then None else Some(p)
    {
      LineIsRead(cwd, p);
    }
    forall p | p in order
      ensures Line(p) in LinesOf(order)
    {
      var i :| 0 <= i < |order| && order[i] == p;
      assert LinesOf(order)[i] == Line(p);
    }
    forall line | line in LinesOf(order)
      ensures exists p :: p in order && line == Line(p)
    {
      var i :| 0 <= i < |order| && LinesOf(order)[i] == line;
      assert order[i] in order;
    }
  }

  // ------------------------------------------------------------- garbled names

  lemma {:induction false} LinesAreUnbroken(s: string)
    ensures forall i :: 0 <= i < |Lines(s)| ==> Unbroken(Lines(s)[i])
  {
    if s == "" {
    } else {
      LinesAreUnbroken(s[1..]);
    }
  }

  lemma {:induction false} PartsAreUnbroken(s: string)
    requires Unbroken(s)
    ensures forall i :: 0 <= i < |Split(s)| ==> Unbroken(Split(s)[i])
  {
    if s == "" {
    } else {
      PartsAreUnbroken(s[1..]);
    }
  }

  lemma {:induction false} ResolvedAreUnbroken(parts: seq<string>, kept: seq<string>)
    requires forall i :: 0 <= i < |parts| ==> Unbroken(parts[i])
    requires forall i :: 0 <= i < |kept| ==> Unbroken(kept[i])
    ensures forall i :: 0 <= i < |Resolve(parts, true, kept)| ==> Unbroken(Resolve(parts, true, kept)[i])
  {
    if parts == [] {
    } else {
      var part := parts[0];
      if part == "" || part == "." {
        ResolvedAreUnbroken(parts[1..], kept);
      } else if Keeps(true, kept, part) {
        ResolvedAreUnbroken(parts[1..], kept + [part]);
      } else {
        ResolvedAreUnbroken(parts[1..], if kept != [] then kept[..|kept| - 1] else kept);
      }
    }
  }

  /** A path with a line boundary in a name is never read back, whatever else the list holds. */
  lemma BrokenIsMissed(cwd: string, order: seq<Path>, p: Path, i: nat)
    requires Unbroken(cwd) && i < |p| && !Unbroken(p[i])
    ensures p !in Listed(cwd, order)
  {
    var lines := Lines(StripEnd(StripStart(Print(order))));
    LinesAreUnbroken(StripEnd(StripStart(Print(order))));
    forall line | line in lines && ReadLine(cwd, line).Some?
      ensures ReadLine(cwd, line).value != p
    {
      var full := if IsSlash(line, 0) then line else cwd + "/" + line;
      PartsAreUnbroken(full);
      ResolvedAreUnbroken(Split(full), []);
      var parts := Resolve(Split(full), true, []);
      assert i < |parts| - |ROOT| ==> parts[|ROOT|..][i] == parts[|ROOT| + i];
    }
  }

  lemma {:induction false} JoinLast(parts: seq<string>)
    requires |parts| > 1
    ensures Join(parts) == Join(parts[..|parts| - 1]) + "/" + parts[|parts| - 1]
  {
    var n := |parts| - 1;
    if n == 1 {
      assert parts[1..] == [parts[1]] && parts[..1] == [parts[0]];
    } else {
      JoinLast(parts[1..]);
      assert parts[1..][..n - 1] == parts[..n][1..];
    }
  }

  lemma LineLast(p: Path)
    requires p != []
    ensures Line(p) == Line(p[..|p| - 1]) + "/" + p[|p| - 1]
  {
    var n := |p| - 1;
    JoinLast(ROOT + p);
    assert (ROOT + p)[..|ROOT + p| - 1] == ROOT + p[..n];
  }

  lemma StrippedLine(p: Path)
    requires IsReal(p) && EndsInSpace(Line(p))
    ensures EndsInSpace(p[|p| - 1])
    ensures StripEnd(Line(p)) == Line(p[..|p| - 1]) + "/" + StripEnd(p[|p| - 1])
  {
    var up, name := p[..|p| - 1], p[|p| - 1];
    assert name in p;
    LineLast(p);
    assert Line(p)[|Line(p)| - 1] == name[|name| - 1];
    StripSlash(name);
    StripEndConcat(Line(up), "/" + name);
    assert Line(up) + ("/" + name) == Line(p);
    assert Line(up) + ("/" + StripEnd(name)) == Line(up) + "/" + StripEnd(name);
  }

  /** A shorter name in place of the last one gives another path, whatever dots it may be. */
  lemma OtherName(up: seq<string>, name: string, kept: string)
    requires IsPart(name) && name != ".." && kept != name
    ensures Resolve([kept], true, up) != up + [name]
  {
    assert [kept][1..] == [];
    assert Resolve([kept], true, up) == up + [kept] || |Resolve([kept], true, up)| <= |up|;
    assert (up + [kept])[|up|] == kept && (up + [name])[|up|] == name;
  }

  lemma StrippedResolves(up: Path, kept: string)
    requires (up == [] || IsReal(up)) && '/' !in kept
    ensures Resolve(Split(Line(up) + "/" + kept), true, []) == Resolve([kept], true, ROOT + up)
    ensures IsSlash(Line(up) + "/" + kept, 0)
  {
    SplitConcat(Line(up), kept);
    LineParts(up);
    SplitPart(kept);
    ResolveConcat(Split(Line(up)), [kept], true, []);
  }

  lemma StrippedName(name: string)
    requires '/' !in name && EndsInSpace(name)
    ensures StripEnd(name) != name && '/' !in StripEnd(name)
  {
    StrippedIsShorter(name);
    StripEndConcat("", name);
  }

  /** The line of a path whose last name ends in white space, stripped, names something else. */
  lemma StrippedIsOther(cwd: string, p: Path)
    requires IsReal(p) && EndsInSpace(Line(p))
    ensures ReadLine(cwd, StripEnd(Line(p))) != Some(p)
  {
    var up, name := p[..|p| - 1], p[|p| - 1];
    assert name in p && (forall x :: x in up ==> x in p);
    StrippedLine(p);
    StrippedName(name);
    StrippedResolves(up, StripEnd(name));
    OtherName(ROOT + up, name, StripEnd(name));
    assert (ROOT + up) + [name] == ROOT + p;
  }

  lemma {:induction false} StripSlash(s: string)
    ensures StripEnd("/" + s) == "/" + StripEnd(s)
  {
    if s == "" {
      assert StripEnd("/") == "/";
    } else if IsSpace(s[|s| - 1]) {
      assert ("/" + s)[..|s|] == "/" + s[..|s| - 1];
      StripSlash(s[..|s| - 1]);
    }
  }

  lemma StrippedIsShorter(s: string)
    requires EndsInSpace(s)
    ensures |StripEnd(s)| < |s|
  {
    StripEndConcat("", s[..|s| - 1]);
  }

  /** In a list without line boundaries the last path is missed exactly when it ends in white space. */
  lemma TrailingSpaceIsMissed(cwd: string, order: seq<Path>)
    requires order != [] && (forall p :: p in order ==> IsReal(p))
    requires forall i, j :: 0 <= i < j < |order| ==> order[i] != order[j]
    requires forall i :: 0 <= i < |order| ==> Unbroken(Line(order[i]))
    requires EndsInSpace(Line(order[|order| - 1]))
    ensures order[|order| - 1] !in Listed(cwd, order)
  {
    var n := |order| - 1;
    var p := order[n];
    UnbrokenList(order);
    StrippedIsOther(cwd, p);
    forall line | line in LinesOf(order[..n])
      ensures ReadLine(cwd, line) != Some(p)
    {
      var i :| 0 <= i < n && LinesOf(order[..n])[i] == line;
      LineIsRead(cwd, order[i]);
    }
  }

  lemma {:induction false} JoinIsUnbroken(parts: seq<string>)
    ensures Unbroken(Join(parts)) <==> forall i :: 0 <= i < |parts| ==> Unbroken(parts[i])
  {
    if parts == [] {
    } else if |parts| == 1 {
    } else {
      JoinIsUnbroken(parts[1..]);
      UnbrokenConcat(parts[0] + "/", Join(parts[1..]));
      UnbrokenConcat(parts[0], "/");
      assert forall i :: 0 < i < |parts| ==> parts[i] == parts[1..][i - 1];
    }
  }

  lemma UnbrokenConcat(a: string, b: string)
    ensures Unbroken(a + b) <==> Unbroken(a) && Unbroken(b)
  {
    assert forall i :: 0 <= i < |a| ==> (a + b)[i] == a[i];
    assert forall i :: 0 <= i < |b| ==> (a + b)[|a| + i] == b[i];
  }

  /** The changed files all come through exactly when the list is legible; names below .git set aside. */
  lemma ListingExact(cwd: string, order: seq<Path>)
    requires Unbroken(cwd) && (forall p :: p in order ==> IsReal(p))
    requires forall i, j :: 0 <= i < j < |order| ==> order[i] != order[j]
    requires forall p :: p in order && GIT in p ==> Unbroken(Line(p)) && !EndsInSpace(Line(p))
    ensures (forall p :: p in order && GIT !in p ==> p in Listed(cwd, order)) <==> Legible(order)
  {
    if Legible(order) {
      LegibleIsRead(cwd, order);
    } else if i :| 0 <= i < |order| && !Unbroken(Line(order[i])) {
      var p := order[i];
      assert p in order;
      UnbrokenConcat("/", Join(ROOT + p));
      JoinIsUnbroken(ROOT + p);
      var k :| 0 <= k < |ROOT + p| && !Unbroken((ROOT + p)[k]);
      assert Unbroken("testbed") && k > 0 && (ROOT + p)[k] == p[k - 1];
      BrokenIsMissed(cwd, order, p, k - 1);
    } else {
      assert order[|order| - 1] in order;
      TrailingSpaceIsMissed(cwd, order);
    }
  }
}
