/** The in-memory sandbox: file tools over a flat store, snapshots, restores and the change probe. */
module FakeBackend {
  import opened Prelude
  import opened PosixPath

  datatype Error =
    | EmptyPath | OutsideRoot(path: string)
    | BadEntries | BadKey | BadEntry | MissingContent | BadMtime
    | BadReturncode | BadCommands

  /** The mutable part of the backend. */
  datatype Disk = Disk(files: map<string, string>, mtimes: map<string, int>, clock: int, execs: nat)

  // --------------------------------------------------------------------- paths

  predicate Below(root: string, path: string) {
    root + "/" <= path
  }

  function NormalizePath(root: string, path: string): Result<string, Error> {
    if path == "" then Err(EmptyPath)
    else
      var normalized := NormPath(if IsSlash(path, 0) then path else root + "/" + path);
      if normalized != root && !Below(root, normalized) then Err(OutsideRoot(path)) else Ok(normalized)
  }

  function Relpath(root: string, path: string): string {
    if path == root then "."
    else if Below(root, path) then path[|root| + 1..]
    else path
  }

  /** The paths a store can hold. */
  ghost predicate Stored(root: string, path: string) {
    NormPath(path) == path && (path == root || Below(root, path))
  }

  lemma NormalizedIsStored(root: string, path: string)
    ensures NormalizePath(root, path).Ok? ==> Stored(root, NormalizePath(root, path).value)
  {
    NormPathIsIdempotent(if IsSlash(path, 0) then path else root + "/" + path);
  }

  /** A path is found again from its relative form, unless root and path are both only slashes. */
  lemma RelpathRoundTrip(root: string, path: string)
    requires NormPath(root) == root && Stored(root, path)
    ensures NormalizePath(root, Relpath(root, path)) == Ok(path) <==> !(OnlySlashes(root) && OnlySlashes(path))
  {
    if path == root {
      if OnlySlashes(root) {
        SlashRootDot(root);
      } else {
        DotBelow(root);
        assert root + "/" + "." == root + "/.";
      }
    } else {
      var rest := path[|root| + 1..];
      assert path == root + "/" + rest;
      assert root != "";
      if path != "//" {
        NormalSlashes(path, |root|);
      } else {
        assert root == "/" && rest == "";
      }
    }
  }

  lemma SlashRootDot(root: string)
    requires OnlySlashes(root)
    ensures NormalizePath(root, ".") != Ok(root)
    ensures root == "/" ==> NormalizePath(root, ".") == Ok("//")
    ensures root == "//" ==> NormalizePath(root, ".").Err?
  {
    var s := root + "/" + ".";
    SplitPart(".");
    assert root == "/" ==> s == "//.";
    assert root == "//" ==> s == "///.";
    SplitSlashes(|root| + 1, ".");
    assert s == Slashes(|root| + 1) + "." && s[|root| + 1] == '.';
    assert LeadingSlashes(s) == if root == "/" then 2 else 1;
    ResolveSkipsEmpty(|root| + 1, ["."], true);
    assert Resolve(["."], true, []) == Resolve([], true, []) == [];
    assert Slashes(2) == "//" && Slashes(1) == "/";
    assert NormPath(s) == Slashes(LeadingSlashes(s)) + Join([]) == Slashes(LeadingSlashes(s));
    assert "/" + "/" == "//";
  }

  // ------------------------------------------------------------------- editing

  predicate OccursAt(s: string, w: string, i: nat) {
    i + |w| <= |s| && s[i..i + |w|] == w
  }

  /** Occurrences of w from i on that do not overlap, counted from the left. */
  function Count(s: string, w: string, i: nat): nat
    requires w != ""
    decreases |s| - i
  {
    if i + |w| > |s| then 0
    else if OccursAt(s, w, i) then 1 + Count(s, w, i + |w|)
    else Count(s, w, i + 1)
  }

  /** Replace the first n of them, or all when n is None. */
  function Replace(s: string, w: string, with: string, n: Option<nat>, i: nat): string
    requires w != "" && i <= |s|
    decreases |s| - i
  {
    if i + |w| > |s| || n == Some(0) then s[i..]
    else if OccursAt(s, w, i) then
      with + Replace(s, w, with, if n.Some? then Some(n.value - 1) else n, i + |w|)
    else [s[i]] + Replace(s, w, with, n, i + 1)
  }

  /** With a single occurrence, replacing it and replacing all are one and the same exact edit. */
  lemma {:induction false} SingleEdit(s: string, w: string, with: string, i: nat) returns (at: nat)
    requires w != "" && i <= |s| && Count(s, w, i) == 1
    ensures i <= at && OccursAt(s, w, at)
    ensures Replace(s, w, with, Some(1), i) == s[i..at] + with + s[at + |w|..]
    ensures Replace(s, w, with, None, i) == Replace(s, w, with, Some(1), i)
    decreases |s| - i
  {
    if OccursAt(s, w, i) {
      at := i;
      NothingToReplace(s, w, with, i + |w|);
    } else {
      at := SingleEdit(s, w, with, i + 1);
      assert s[i..at] == [s[i]] + s[i + 1..at];
    }
  }

  lemma {:induction false} NothingToReplace(s: string, w: string, with: string, i: nat)
    requires w != "" && i <= |s| && Count(s, w, i) == 0
    ensures Replace(s, w, with, None, i) == s[i..]
    decreases |s| - i
  {
    if i + |w| > |s| {
    } else {
      NothingToReplace(s, w, with, i + 1);
    }
  }

  // --------------------------------------------------------------------- tools

  datatype Returncode = Missing | Unusable | Number(code: int)

  datatype FileTool =
    | ReadFile
    | WriteFile(content: string)
    | EditFile(oldText: string, newText: string, replaceAll: bool)
    | ListDir

  datatype Request =
    | Exec(returncode: Returncode)
    | Commands(count: Option<nat>)     // None: not a list
    | OnPath(path: string, tool: FileTool)
    | OtherTool

  datatype Reply =
    | Raised(error: Error)
    | Failed
    | Done
    | Content(text: string)
    | Names(names: set<string>)
    | Returned(code: int, counter: nat)

  function Write(d: Disk, path: string, content: string): Disk {
    Disk(d.files[path := content], d.mtimes[path := d.clock + 1], d.clock + 1, d.execs)
  }

  function Prefix(path: string): string {
    if path != "" && path[|path| - 1] == '/' then path else path + "/"
  }

  /** The names directly below a directory. */
  function Children(files: map<string, string>, path: string): set<string> {
    set f | f in files && f != path && Prefix(path) <= f && Split(f[|Prefix(path)|..])[0] != "" ::
      Split(f[|Prefix(path)|..])[0]
  }

  function Edited(content: string, tool: FileTool): Option<string>
    requires tool.EditFile?
  {
    if tool.oldText == "" || Count(content, tool.oldText, 0) == 0 then None
    else if Count(content, tool.oldText, 0) > 1 && !tool.replaceAll then None
    else Some(Replace(content, tool.oldText, tool.newText, if tool.replaceAll then None else Some(1), 0))
  }

  function Use(d: Disk, path: string, tool: FileTool): (Disk, Reply) {
    match tool
    case ReadFile => (d, if path in d.files then Content(d.files[path]) else Failed)
    case WriteFile(content) => (Write(d, path, content), Done)
    case ListDir => (d, Names(Children(d.files, path)))
    case EditFile(_, _, _) =>
      var edited := if path in d.files then Edited(d.files[path], tool) else None;
      if edited.Some? then (Write(d, path, edited.value), Done) else (d, Failed)
  }

  /** What one request does to the store, and what it answers. */
  function Next(root: string, d: Disk, r: Request): (Disk, Reply) {
    match r
    case Exec(returncode) =>
      (d.(execs := d.execs + 1),
       if returncode.Unusable? then Raised(BadReturncode)
       else Returned(if returncode.Number? then returncode.code else 0, d.execs))
    case Commands(None) => (d, Raised(BadCommands))
    case Commands(Some(n)) => (d.(execs := d.execs + n), Returned(0, if n == 0 then 0 else d.execs + n - 1))
    case OtherTool => (d, Done)
    case OnPath(raw, tool) =>
      match NormalizePath(root, raw)
      case Err(e) => (d, Raised(e))
      case Ok(path) => Use(d, path, tool)
  }

  lemma ChildOf(f: string, prefix: string, name: string)
    requires prefix <= f
    ensures Split(f[|prefix|..])[0] == name <==> '/' !in name && (f == prefix + name || prefix + name + "/" <= f)
  {
    assert prefix + (name + "/") == prefix + name + "/";
    assert f == prefix + f[|prefix|..];
    FirstPart(f[|prefix|..], name);
  }

  /** A listing names exactly what some stored path continues with. */
  lemma ListingIsComplete(files: map<string, string>, path: string, name: string)
    ensures name in Children(files, path) <==>
      name != "" && '/' !in name &&
      exists f :: f in files && f != path && (f == Prefix(path) + name || Prefix(path) + name + "/" <= f)
    ensures Prefix(path) == if path != "" && path[|path| - 1] == '/' then path else path + "/"
  {
    forall f | f in files && Prefix(path) <= f
      ensures Split(f[|Prefix(path)|..])[0] == name <==>
              '/' !in name && (f == Prefix(path) + name || Prefix(path) + name + "/" <= f)
    {
      ChildOf(f, Prefix(path), name);
    }
    forall f | f in files && (f == Prefix(path) + name || Prefix(path) + name + "/" <= f)
      ensures Prefix(path) <= f
    {
    }
  }

  lemma {:induction false} FirstPart(s: string, part: string)
    ensures Split(s)[0] == part <==> '/' !in part && (s == part || part + "/" <= s)
  {
    if s == "" {
    } else if s[0] == '/' {
      if part != "" && (s == part || part + "/" <= s) {
        assert part[0] == s[0] == '/';
        assert part[0] in part;
      }
    } else if part == "" {
      assert s[0] != '/';
    } else {
      FirstPart(s[1..], part[1..]);
      assert part == [part[0]] + part[1..];
      assert s == [s[0]] + s[1..];
      assert part + "/" == [part[0]] + (part[1..] + "/");
    }
  }

  /** Commands touch no file; each counts, also one whose answer is unusable, and the answer tells the last number. */
  lemma CommandsAreCounted(root: string, d: Disk, returncode: Returncode, n: nat)
    ensures var (d', reply) := Next(root, d, Exec(returncode));
      && d' == d.(execs := d.execs + 1)
      && (if returncode.Unusable? then reply.Raised? else reply == Returned(if returncode.Number? then returncode.code else 0, d.execs))
    ensures Next(root, d, Commands(Some(n))).0 == d.(execs := d.execs + n)
    ensures n > 0 ==> Next(root, d, Commands(Some(n))).1 == Returned(0, d.execs + n - 1)
    ensures Next(root, d, Commands(None)).0 == d && Next(root, d, Commands(None)).1.Raised?
    ensures Next(root, d, OtherTool) == (d, Done)
  {
  }

  // ------------------------------------------------------------- reads after writes

  /** Two names of a path lead to the same place. */
  predicate SamePlace(root: string, a: string, b: string) {
    NormalizePath(root, a).Ok? && NormalizePath(root, a) == NormalizePath(root, b)
  }

  /**
   * What is written is read back under any name of the path, with an mtime above all before; no other
   * file changes. A path outside the root raises and changes nothing.
   */
  lemma ReadsBackWhatWasWritten(root: string, d: Disk, path: string, content: string, other: string)
    ensures var (d', reply) := Next(root, d, OnPath(path, WriteFile(content)));
      && (NormalizePath(root, path).Err? ==> d' == d && reply.Raised?)
      && (NormalizePath(root, path).Ok? ==>
            && reply == Done && d'.clock == d.clock + 1 && d'.execs == d.execs
            && d'.files == d.files[NormalizePath(root, path).value := content]
            && d'.mtimes == d.mtimes[NormalizePath(root, path).value := d'.clock])
      && (SamePlace(root, path, other) ==> Next(root, d', OnPath(other, ReadFile)) == (d', Content(content)))
      && (NormalizePath(root, other).Ok? && !SamePlace(root, path, other) ==>
            Next(root, d', OnPath(other, ReadFile)).1 == Next(root, d, OnPath(other, ReadFile)).1)
  {
  }

  /**
   * An edit is a write of the edited text where the old text occurs, once or with all occurrences to be
   * replaced; everywhere else it fails and changes nothing.
   */
  lemma EditIsAWrite(root: string, d: Disk, path: string, old_: string, new_: string, all: bool)
    requires NormalizePath(root, path).Ok?
    ensures var p := NormalizePath(root, path).value;
      var possible := p in d.files && old_ != "" && Count(d.files[p], old_, 0) > 0 && (all || Count(d.files[p], old_, 0) == 1);
      Next(root, d, OnPath(path, EditFile(old_, new_, all))) ==
      if possible then Next(root, d, OnPath(path, WriteFile(Replace(d.files[p], old_, new_, if all then None else Some(1), 0))))
      else (d, Failed)
  {
  }

  // ----------------------------------------------------------------- the probe

  /** Files and mtimes go together, and no mtime is ahead of the clock. */
  predicate Timely(d: Disk) {
    d.files.Keys == d.mtimes.Keys && forall p :: p in d.mtimes ==> d.mtimes[p] <= d.clock
  }

  /** Every path is one the root can hold. */
  ghost predicate AllStored(root: string, paths: set<string>) {
    forall p :: p in paths ==> Stored(root, p)
  }

  ghost predicate Consistent(root: string, d: Disk) {
    NormPath(root) == root && Timely(d) && AllStored(root, d.files.Keys)
  }

  predicate AnyNewer(mtimes: map<string, int>, marker: int) {
    exists p :: p in mtimes && mtimes[p] > marker
  }

  /** The request is a write that succeeds. */
  predicate Writes(root: string, d: Disk, r: Request) {
    r.OnPath? && (r.tool.WriteFile? || r.tool.EditFile?) && Next(root, d, r).1.Done?
  }

  function After(root: string, d: Disk, requests: seq<Request>): Disk {
    if requests == [] then d
    else Next(root, After(root, d, requests[..|requests| - 1]), requests[|requests| - 1]).0
  }

  /** Some request of the run is a write that succeeds when its turn comes. */
  predicate SomeWrite(root: string, d: Disk, requests: seq<Request>) {
    requests != [] &&
    var n := |requests| - 1;
    SomeWrite(root, d, requests[..n]) || Writes(root, After(root, d, requests[..n]), requests[n])
  }

  /** A request leaves the names alone or adds the one it wrote to. */
  lemma NextAddsOneName(root: string, d: Disk, r: Request)
    ensures var files := Next(root, d, r).0.files;
      files.Keys == d.files.Keys ||
      (r.OnPath? && NormalizePath(root, r.path).Ok? && files.Keys == d.files.Keys + {NormalizePath(root, r.path).value})
  {
  }

  lemma NextKeepsStored(root: string, d: Disk, r: Request)
    requires AllStored(root, d.files.Keys)
    ensures AllStored(root, Next(root, d, r).0.files.Keys)
  {
    NextAddsOneName(root, d, r);
    if r.OnPath? {
      NormalizedIsStored(root, r.path);
    }
  }

  lemma NextAndTheClock(root: string, d: Disk, r: Request)
    requires Timely(d)
    ensures var d' := Next(root, d, r).0;
      && Timely(d')
      && if Writes(root, d, r) then d'.clock == d.clock + 1 && exists p :: p in d'.mtimes && d'.mtimes[p] == d'.clock
         else d' == d.(execs := d'.execs)
  {
    if Writes(root, d, r) {
      var path := NormalizePath(root, r.path).value;
      assert path in Next(root, d, r).0.mtimes;
    }
  }

  lemma NextKeepsConsistent(root: string, d: Disk, r: Request)
    requires Consistent(root, d)
    ensures Consistent(root, Next(root, d, r).0)
  {
    NextKeepsStored(root, d, r);
    NextAndTheClock(root, d, r);
  }

  lemma {:induction false} RunAndTheClock(root: string, d: Disk, requests: seq<Request>)
    requires Timely(d)
    ensures var d' := After(root, d, requests);
      && Timely(d')
      && if SomeWrite(root, d, requests) then d'.clock > d.clock && exists p :: p in d'.mtimes && d'.mtimes[p] == d'.clock
         else d' == d.(execs := d'.execs)
  {
    if requests == [] {
    } else {
      var n := |requests| - 1;
      RunAndTheClock(root, d, requests[..n]);
      NextAndTheClock(root, After(root, d, requests[..n]), requests[n]);
    }
  }

  /**
   * After any requests from the moment of a snapshot, the probe for its timestamp reports a change
   * exactly when some write succeeded; when it reports none, the store is as it was.
   */
  lemma ProbeIsExact(root: string, d: Disk, requests: seq<Request>)
    requires Timely(d)
    ensures var d' := After(root, d, requests);
      && (AnyNewer(d'.mtimes, d.clock) <==> SomeWrite(root, d, requests))
      && (!AnyNewer(d'.mtimes, d.clock) ==> d' == d.(execs := d'.execs))
  {
    RunAndTheClock(root, d, requests);
  }

  // ----------------------------------------------------------------- snapshots

  datatype RawMtime = Absent | Invalid | At(ns: int)

  datatype RawEntry = NotADict | Entry(content: Option<string>, mtime: RawMtime)

  datatype Key = NotText | Text(relpath: string)

  /** entries is None when it is no dictionary. */
  datatype Snapshot = Snapshot(entries: Option<seq<(Key, RawEntry)>>, timestamp: int)

  datatype Loaded = Loaded(files: map<string, string>, mtimes: map<string, int>)

  datatype Item = Item(path: string, content: string, mtime: int)

  function ReadEntry(root: string, timestamp: int, key: Key, raw: RawEntry): Result<Item, Error> {
    if key.NotText? then Err(BadKey)
    else if raw.NotADict? then Err(BadEntry)
    else if raw.content.None? then Err(MissingContent)
    else
      match NormalizePath(root, key.relpath)
      case Err(e) => Err(e)
      case Ok(path) =>
        if raw.mtime.Invalid? then Err(BadMtime)
        else Ok(Item(path, raw.content.value, if raw.mtime.At? then raw.mtime.ns else timestamp))
  }

  function ReadAll(root: string, timestamp: int, entries: seq<(Key, RawEntry)>): (items: seq<Result<Item, Error>>)
    ensures |items| == |entries|
  {
    seq(|entries|, i requires 0 <= i < |entries| => ReadEntry(root, timestamp, entries[i].0, entries[i].1))
  }

  /** The first n entries in order; the first bad one decides the error. */
  function Load(items: seq<Result<Item, Error>>, n: nat): Result<Loaded, Error>
    requires n <= |items|
  {
    if n == 0 then Ok(Loaded(map[], map[]))
    else
      match Load(items, n - 1)
      case Err(e) => Err(e)
      case Ok(l) =>
        match items[n - 1]
        case Err(e) => Err(e)
        case Ok(item) => Ok(Loaded(l.files[item.path := item.content], l.mtimes[item.path := item.mtime]))
  }

  /** The clock a restore leaves: the latest of the timestamp and the restored mtimes. */
  ghost predicate IsLatest(clock: int, timestamp: int, mtimes: map<string, int>) {
    && clock >= timestamp
    && (forall p :: p in mtimes ==> clock >= mtimes[p])
    && (clock == timestamp || exists p :: p in mtimes && clock == mtimes[p])
  }

  method Latest(timestamp: int, mtimes: map<string, int>) returns (clock: int)
    ensures IsLatest(clock, timestamp, mtimes)
  {
    clock := timestamp;
    var rest := mtimes.Keys;
    while rest != {}
      invariant rest <= mtimes.Keys && clock >= timestamp
      invariant forall p :: p in mtimes && p !in rest ==> clock >= mtimes[p]
      invariant clock == timestamp || exists p :: p in mtimes && clock == mtimes[p]
      decreases |rest|
    {
      var p :| p in rest;
      if mtimes[p] > clock {
        clock := mtimes[p];
      }
      rest := rest - {p};
    }
  }

  /** What an entry of a snapshot says: which path holds what, since when; an entry without an mtime is as old as the snapshot. */
  ghost predicate Says(root: string, timestamp: int, key: Key, raw: RawEntry, path: string, content: string, mtime: int) {
    && key.Text? && NormalizePath(root, key.relpath) == Ok(path)
    && raw.Entry? && raw.content == Some(content)
    && (raw.mtime == At(mtime) || (raw.mtime == Absent && mtime == timestamp))
  }

  ghost predicate IsSound(root: string, timestamp: int, key: Key, raw: RawEntry) {
    exists path, content, mtime :: Says(root, timestamp, key, raw, path, content, mtime)
  }

  lemma EntryMeans(root: string, timestamp: int, key: Key, raw: RawEntry)
    ensures var r := ReadEntry(root, timestamp, key, raw);
      && (r.Ok? <==> IsSound(root, timestamp, key, raw))
      && (r.Ok? ==> Says(root, timestamp, key, raw, r.value.path, r.value.content, r.value.mtime))
  {
    var r := ReadEntry(root, timestamp, key, raw);
    if r.Ok? {
      assert Says(root, timestamp, key, raw, r.value.path, r.value.content, r.value.mtime);
    }
  }

  /** Loading succeeds exactly when every entry says something. */
  lemma {:induction false} LoadSucceeds(root: string, timestamp: int, entries: seq<(Key, RawEntry)>, n: nat)
    requires n <= |entries|
    ensures Load(ReadAll(root, timestamp, entries), n).Ok? <==>
      forall i :: 0 <= i < n ==> IsSound(root, timestamp, entries[i].0, entries[i].1)
  {
    if n == 0 {
    } else {
      LoadSucceeds(root, timestamp, entries, n - 1);
      EntryMeans(root, timestamp, entries[n - 1].0, entries[n - 1].1);
    }
  }

  /** The last entry about a path decides what is loaded for it. */
  lemma LastWordHolds(root: string, timestamp: int, entries: seq<(Key, RawEntry)>, i: nat, path: string, content: string, mtime: int)
    requires i < |entries| && Says(root, timestamp, entries[i].0, entries[i].1, path, content, mtime)
    requires forall j :: i < j < |entries| && entries[j].0.Text? ==> NormalizePath(root, entries[j].0.relpath) != Ok(path)
    ensures var l := Load(ReadAll(root, timestamp, entries), |entries|);
      l.Ok? ==> path in l.value.files && l.value.files[path] == content
                && path in l.value.mtimes && l.value.mtimes[path] == mtime
  {
    EntryMeans(root, timestamp, entries[i].0, entries[i].1);
    StaysLoaded(root, timestamp, entries, i, |entries|);
  }

  lemma {:induction false} StaysLoaded(root: string, timestamp: int, entries: seq<(Key, RawEntry)>, i: nat, n: nat)
    requires i < n <= |entries| && ReadEntry(root, timestamp, entries[i].0, entries[i].1).Ok?
    requires var path := ReadEntry(root, timestamp, entries[i].0, entries[i].1).value.path;
      forall j :: i < j < n && entries[j].0.Text? ==> NormalizePath(root, entries[j].0.relpath) != Ok(path)
    ensures var item, l := ReadEntry(root, timestamp, entries[i].0, entries[i].1).value, Load(ReadAll(root, timestamp, entries), n);
      l.Ok? ==> item.path in l.value.files && item.path in l.value.mtimes
                && l.value.files[item.path] == item.content && l.value.mtimes[item.path] == item.mtime
    decreases n
  {
    if i == n - 1 {
    } else {
      StaysLoaded(root, timestamp, entries, i, n - 1);
    }
  }

  ghost predicate ItemsStored(root: string, items: seq<Result<Item, Error>>) {
    forall i :: 0 <= i < |items| && items[i].Ok? ==> Stored(root, items[i].value.path)
  }

  lemma ReadItemsAreStored(root: string, timestamp: int, entries: seq<(Key, RawEntry)>)
    ensures ItemsStored(root, ReadAll(root, timestamp, entries))
  {
    forall i | 0 <= i < |entries| && ReadEntry(root, timestamp, entries[i].0, entries[i].1).Ok?
      ensures Stored(root, ReadEntry(root, timestamp, entries[i].0, entries[i].1).value.path)
    {
      NormalizedIsStored(root, entries[i].0.relpath);
    }
  }

  lemma {:induction false} LoadedIsStored(root: string, items: seq<Result<Item, Error>>, n: nat)
    requires n <= |items| && ItemsStored(root, items) && Load(items, n).Ok?
    ensures var l := Load(items, n).value;
      l.files.Keys == l.mtimes.Keys && forall p :: p in l.files ==> Stored(root, p)
  {
    if n == 0 {
    } else {
      LoadedIsStored(root, items, n - 1);
    }
  }

  lemma {:induction false} LoadErrorStays(items: seq<Result<Item, Error>>, n: nat, m: nat)
    requires n <= m <= |items| && Load(items, n).Err?
    ensures Load(items, m) == Load(items, n)
    decreases m
  {
    if n == m {
    } else {
      LoadErrorStays(items, n, m - 1);
    }
  }

  function EntryOf(root: string, d: Disk, path: string): (Key, RawEntry)
    requires path in d.files && path in d.mtimes
  {
    (Text(Relpath(root, path)), Entry(Some(d.files[path]), At(d.mtimes[path])))
  }

  /** A snapshot of d: one entry for each file, in some order, and the clock. */
  ghost predicate IsCapture(root: string, d: Disk, paths: seq<string>, snapshot: Snapshot)
    requires d.files.Keys == d.mtimes.Keys
  {
    && (forall p :: p in d.files <==> p in paths)
    && snapshot.timestamp == d.clock
    && snapshot.entries.Some?
    && |snapshot.entries.value| == |paths|
    && forall i :: 0 <= i < |paths| ==> snapshot.entries.value[i] == EntryOf(root, d, paths[i])
  }

  ghost predicate Captures(root: string, d: Disk, snapshot: Snapshot)
    requires d.files.Keys == d.mtimes.Keys
  {
    exists paths :: IsCapture(root, d, paths, snapshot)
  }

  /** A store that a snapshot cannot carry: its root is only slashes and so is some file's path. */
  ghost predicate Unportable(root: string, d: Disk) {
    OnlySlashes(root) && exists p :: p in d.files && OnlySlashes(p)
  }

  function ItemOf(d: Disk, path: string): Item
    requires path in d.files && path in d.mtimes
  {
    Item(path, d.files[path], d.mtimes[path])
  }

  /** What reading back the entry of a stored file gives: the file, unless only slashes name it. */
  ghost predicate ReadsAs(root: string, d: Disk, path: string, r: Result<Item, Error>)
    requires path in d.files && path in d.mtimes
  {
    if OnlySlashes(root) && OnlySlashes(path) then r.Err? || (path == "/" && r.value.path == "//")
    else r == Ok(ItemOf(d, path))
  }

  lemma SlashPathReadsBack(root: string, path: string)
    requires OnlySlashes(root) && OnlySlashes(path) && Stored(root, path)
    ensures var r := NormalizePath(root, Relpath(root, path)); r.Err? || (path == "/" && r.value == "//")
  {
    SlashRootDot(root);
    if path != root {
      assert |root + "/"| == 2 && path[..2] == path == "//" && root == "/";
      assert Relpath(root, path) == path[2..] == "";
    }
  }

  lemma EntryReadsBack(root: string, d: Disk, path: string, timestamp: int)
    requires NormPath(root) == root && Stored(root, path) && path in d.files && path in d.mtimes
    ensures ReadsAs(root, d, path, ReadEntry(root, timestamp, EntryOf(root, d, path).0, EntryOf(root, d, path).1))
  {
    if OnlySlashes(root) && OnlySlashes(path) {
      SlashPathReadsBack(root, path);
    } else {
      RelpathRoundTrip(root, path);
    }
  }

  /** The items read back from a capture of d, file by file. */
  ghost predicate ReadsBack(root: string, d: Disk, paths: seq<string>, items: seq<Result<Item, Error>>)
    requires d.files.Keys == d.mtimes.Keys
  {
    && (forall p :: p in d.files <==> p in paths)
    && |items| == |paths|
    && forall i :: 0 <= i < |paths| ==> ReadsAs(root, d, paths[i], items[i])
  }

  lemma CaptureReadsBack(root: string, d: Disk, paths: seq<string>, snapshot: Snapshot)
    requires Consistent(root, d) && IsCapture(root, d, paths, snapshot)
    ensures ReadsBack(root, d, paths, ReadAll(root, snapshot.timestamp, snapshot.entries.value))
  {
    forall i | 0 <= i < |paths|
      ensures paths[i] in d.files
      ensures ReadsAs(root, d, paths[i], ReadAll(root, snapshot.timestamp, snapshot.entries.value)[i])
    {
      assert Stored(root, paths[i]);
      EntryReadsBack(root, d, paths[i], snapshot.timestamp);
    }
  }

  /** The part of m that concerns the first n paths. */
  function Part<T>(m: map<string, T>, paths: seq<string>, n: nat): map<string, T>
    requires n <= |paths|
  {
    map p | p in m && p in paths[..n] :: m[p]
  }

  lemma PartNext<T>(m: map<string, T>, paths: seq<string>, n: nat)
    requires n < |paths| && paths[n] in m
    ensures Part(m, paths, n + 1) == Part(m, paths, n)[paths[n] := m[paths[n]]]
  {
    assert paths[..n + 1] == paths[..n] + [paths[n]];
  }

  lemma PartAll<T>(m: map<string, T>, paths: seq<string>)
    requires forall p :: p in m ==> p in paths
    ensures Part(m, paths, |paths|) == m
  {
    assert paths[..|paths|] == paths;
  }

  lemma LoadsNext(d: Disk, paths: seq<string>, items: seq<Result<Item, Error>>, n: nat)
    requires n < |paths| == |items| && paths[n] in d.files && paths[n] in d.mtimes
    requires Load(items, n) == Ok(Loaded(Part(d.files, paths, n), Part(d.mtimes, paths, n)))
    requires items[n] == Ok(ItemOf(d, paths[n]))
    ensures Load(items, n + 1) == Ok(Loaded(Part(d.files, paths, n + 1), Part(d.mtimes, paths, n + 1)))
  {
    PartNext(d.files, paths, n);
    PartNext(d.mtimes, paths, n);
  }

  lemma ReadsBackAt(root: string, d: Disk, paths: seq<string>, items: seq<Result<Item, Error>>, n: nat)
    requires d.files.Keys == d.mtimes.Keys && ReadsBack(root, d, paths, items) && !Unportable(root, d)
    requires n < |paths|
    ensures paths[n] in d.files && items[n] == Ok(ItemOf(d, paths[n]))
  {
    assert paths[n] in d.files && ReadsAs(root, d, paths[n], items[n]);
  }

  lemma {:induction false} LoadsAll(root: string, d: Disk, paths: seq<string>, items: seq<Result<Item, Error>>, n: nat)
    requires d.files.Keys == d.mtimes.Keys && ReadsBack(root, d, paths, items) && n <= |paths|
    requires !Unportable(root, d)
    ensures Load(items, n) == Ok(Loaded(Part(d.files, paths, n), Part(d.mtimes, paths, n)))
  {
    if n == 0 {
    } else {
      LoadsAll(root, d, paths, items, n - 1);
      ReadsBackAt(root, d, paths, items, n - 1);
      LoadsNext(d, paths, items, n - 1);
    }
  }

  lemma {:induction false} LoadHolds(items: seq<Result<Item, Error>>, i: nat, n: nat)
    requires i < n <= |items| && Load(items, n).Ok?
    ensures items[i].Ok? && items[i].value.path in Load(items, n).value.files
    decreases n
  {
    if i == n - 1 {
    } else {
      LoadHolds(items, i, n - 1);
    }
  }

  /** A file whose path is only slashes comes back as an error or under another name. */
  lemma BadEntryShows(root: string, d: Disk, paths: seq<string>, items: seq<Result<Item, Error>>)
    requires d.files.Keys == d.mtimes.Keys && ReadsBack(root, d, paths, items) && Unportable(root, d)
    ensures Load(items, |items|) != Ok(Loaded(d.files, d.mtimes))
  {
    assert forall j :: 0 <= j < |paths| ==> ReadsAs(root, d, paths[j], items[j]);
    if Load(items, |items|).Ok? {
      var p :| p in d.files && OnlySlashes(p);
      var i :| 0 <= i < |paths| && paths[i] == p;
      LoadHolds(items, i, |items|);
      if "//" in d.files {
        var j :| 0 <= j < |paths| && paths[j] == "//";
        LoadHolds(items, j, |items|);
      }
    }
  }

  /** Loading a captured snapshot gives back the very store, exactly when the store is portable. */
  lemma CaptureLoadsBack(root: string, d: Disk, paths: seq<string>, snapshot: Snapshot)
    requires Consistent(root, d) && IsCapture(root, d, paths, snapshot)
    ensures Load(ReadAll(root, snapshot.timestamp, snapshot.entries.value), |paths|) == Ok(Loaded(d.files, d.mtimes))
            <==> !Unportable(root, d)
  {
    var items := ReadAll(root, snapshot.timestamp, snapshot.entries.value);
    CaptureReadsBack(root, d, paths, snapshot);
    LoadsBackIffPortable(root, d, paths, items);
  }

  lemma LoadsBackIffPortable(root: string, d: Disk, paths: seq<string>, items: seq<Result<Item, Error>>)
    requires d.files.Keys == d.mtimes.Keys && ReadsBack(root, d, paths, items)
    ensures Load(items, |items|) == Ok(Loaded(d.files, d.mtimes)) <==> !Unportable(root, d)
  {
    if Unportable(root, d) {
      BadEntryShows(root, d, paths, items);
    } else {
      LoadsAll(root, d, paths, items, |paths|);
      PartAll(d.files, paths);
      PartAll(d.mtimes, paths);
    }
  }

  lemma CaptureGrows(root: string, d: Disk, paths: seq<string>, entries: seq<(Key, RawEntry)>, p: string)
    requires d.files.Keys == d.mtimes.Keys && p in d.files && |entries| == |paths|
    requires forall i :: 0 <= i < |paths| ==> paths[i] in d.files && entries[i] == EntryOf(root, d, paths[i])
    ensures forall i :: 0 <= i <= |paths| ==>
      (paths + [p])[i] in d.files && (entries + [EntryOf(root, d, p)])[i] == EntryOf(root, d, (paths + [p])[i])
  {
  }

  /** The entries come in some order of the files; the source sorts them. */
  method CaptureEntries(root: string, d: Disk) returns (entries: seq<(Key, RawEntry)>)
    requires d.files.Keys == d.mtimes.Keys
    ensures Captures(root, d, Snapshot(Some(entries), d.clock))
  {
    entries := [];
    ghost var paths: seq<string> := [];
    var rest := d.files.Keys;
    while rest != {}
      invariant rest <= d.files.Keys && |entries| == |paths|
      invariant forall p :: p in d.files && p !in rest <==> p in paths
      invariant forall i :: 0 <= i < |paths| ==> paths[i] in d.files && entries[i] == EntryOf(root, d, paths[i])
      decreases |rest|
    {
      var p :| p in rest;
      CaptureGrows(root, d, paths, entries, p);
      entries := entries + [EntryOf(root, d, p)];
      paths := paths + [p];
      rest := rest - {p};
    }
    assert IsCapture(root, d, paths, Snapshot(Some(entries), d.clock));
  }

  method LoadItems(items: seq<Result<Item, Error>>) returns (r: Result<Loaded, Error>)
    ensures r == Load(items, |items|)
  {
    var restoredFiles: map<string, string>, restoredMtimes: map<string, int> := map[], map[];
    for i := 0 to |items|
      invariant Load(items, i) == Ok(Loaded(restoredFiles, restoredMtimes))
    {
      if items[i].Err? {
        LoadErrorStays(items, i + 1, |items|);
        return Err(items[i].error);
      }
      var item := items[i].value;
      restoredFiles := restoredFiles[item.path := item.content];
      restoredMtimes := restoredMtimes[item.path := item.mtime];
    }
    r := Ok(Loaded(restoredFiles, restoredMtimes));
  }

  /** A snapshot that is refused changes nothing; any other replaces files, mtimes and clock. */
  ghost predicate IsRestore(root: string, snapshot: Snapshot, d: Disk, d': Disk, r: Result<(), Error>) {
    if snapshot.entries.None? then r == Err(BadEntries) && d' == d
    else
      match Load(ReadAll(root, snapshot.timestamp, snapshot.entries.value), |snapshot.entries.value|)
      case Err(e) => r == Err(e) && d' == d
      case Ok(l) =>
        r == Ok(()) && d' == Disk(l.files, l.mtimes, d'.clock, d.execs) &&
        IsLatest(d'.clock, snapshot.timestamp, l.mtimes)
  }

  lemma RestoreKeepsConsistent(root: string, snapshot: Snapshot, d: Disk, d': Disk, r: Result<(), Error>)
    requires Consistent(root, d) && IsRestore(root, snapshot, d, d', r)
    ensures Consistent(root, d')
  {
    if r.Ok? {
      ReadItemsAreStored(root, snapshot.timestamp, snapshot.entries.value);
      LoadedIsStored(root, ReadAll(root, snapshot.timestamp, snapshot.entries.value), |snapshot.entries.value|);
    }
  }

  /** Restoring a captured store gives back files, mtimes and clock exactly when the store is portable. */
  lemma RoundTripIffPortable(root: string, d: Disk, snapshot: Snapshot, other: Disk, d': Disk, r: Result<(), Error>)
    requires Consistent(root, d) && Captures(root, d, snapshot) && IsRestore(root, snapshot, other, d', r)
    ensures r.Ok? && d' == d.(execs := other.execs) <==> !Unportable(root, d)
  {
    var paths :| IsCapture(root, d, paths, snapshot);
    CaptureLoadsBack(root, d, paths, snapshot);
  }

  /** A sandbox at / whose only file is / itself. */
  function RootFile(content: string): Disk {
    Disk(map["/" := content], map["/" := 1], 1, 0)
  }

  /** Its snapshot does not come back, into whatever store it is restored. */
  lemma RootFileIsLost(content: string, snapshot: Snapshot, other: Disk, d': Disk, r: Result<(), Error>)
    requires Captures("/", RootFile(content), snapshot) && IsRestore("/", snapshot, other, d', r)
    ensures Consistent("/", RootFile(content))
    ensures r.Err? || d'.files != RootFile(content).files || d'.mtimes != RootFile(content).mtimes || d'.clock != 1
  {
    SplitSlashes(1, "");
    assert Slashes(1) + "" == "/" && Split("") == [""];
    ResolveSkipsEmpty(1, [""], true);
    assert NormPath("/") == "/";
    assert OnlySlashes("/");
    RoundTripIffPortable("/", RootFile(content), snapshot, other, d', r);
  }

  // ----------------------------------------------------------------- the class

  class Backend {
    const root: string
    var files: map<string, string>
    var mtimes: map<string, int>
    var clock: int
    var execCounter: nat

    function State(): Disk
      reads this
    {
      Disk(files, mtimes, clock, execCounter)
    }

    ghost predicate Valid()
      reads this
    {
      Consistent(root, State())
    }

    constructor (root: string)
      ensures Valid() && this.root == NormPath(root) && State() == Disk(map[], map[], 0, 0)
    {
      this.root := NormPath(root);
      files, mtimes, clock, execCounter := map[], map[], 0, 0;
      NormPathIsIdempotent(root);
    }

    method Execute(r: Request) returns (reply: Reply)
      requires Valid()
      modifies this
      ensures Valid() && (State(), reply) == Next(root, old(State()), r)
    {
      NextKeepsConsistent(root, State(), r);
      match r
      case Exec(returncode) =>
        var counter := execCounter;
        execCounter := execCounter + 1;
        if returncode.Unusable? {
          return Raised(BadReturncode);
        }
        reply := Returned(if returncode.Number? then returncode.code else 0, counter);
      case Commands(count) =>
        if count.None? {
          return Raised(BadCommands);
        }
        var lastCounter := 0;
        ghost var before := execCounter;
        for i := 0 to count.value
          invariant execCounter == before + i && lastCounter == (if i == 0 then 0 else before + i - 1)
          invariant files == old(files) && mtimes == old(mtimes) && clock == old(clock)
        {
          lastCounter := execCounter;
          execCounter := execCounter + 1;
        }
        reply := Returned(0, lastCounter);
      case OtherTool =>
        reply := Done;
      case OnPath(raw, tool) =>
        var path := NormalizePath(root, raw);
        if path.Err? {
          return Raised(path.error);
        }
        reply := UseTool(path.value, tool);
    }

    method UseTool(path: string, tool: FileTool) returns (reply: Reply)
      modifies this
      ensures (State(), reply) == Use(old(State()), path, tool)
    {
      match tool
      case ReadFile =>
        reply := if path in files then Content(files[path]) else Failed;
      case WriteFile(content) =>
        WriteTo(path, content);
        reply := Done;
      case ListDir =>
        reply := Names(Children(files, path));
      case EditFile(_, _, _) =>
        if path !in files {
          return Failed;
        }
        var edited := Edited(files[path], tool);
        if edited.None? {
          return Failed;
        }
        WriteTo(path, edited.value);
        reply := Done;
    }

    method WriteTo(path: string, content: string)
      modifies this
      ensures State() == Write(old(State()), path, content)
    {
      clock := clock + 1;
      files := files[path := content];
      mtimes := mtimes[path := clock];
    }

    method CaptureSnapshot() returns (snapshot: Snapshot)
      requires Valid()
      ensures Captures(root, State(), snapshot)
    {
      var entries := CaptureEntries(root, State());
      snapshot := Snapshot(Some(entries), clock);
    }

    method RestoreSnapshot(snapshot: Snapshot) returns (r: Result<(), Error>)
      requires Valid()
      modifies this
      ensures Valid() && IsRestore(root, snapshot, old(State()), State(), r)
    {
      if snapshot.entries.None? {
        return Err(BadEntries);
      }
      var loaded := LoadItems(ReadAll(root, snapshot.timestamp, snapshot.entries.value));
      if loaded.Err? {
        return Err(loaded.error);
      }
      files, mtimes := loaded.value.files, loaded.value.mtimes;
      clock := Latest(snapshot.timestamp, loaded.value.mtimes);
      r := Ok(());
      RestoreKeepsConsistent(root, snapshot, old(State()), State(), r);
    }

    method ProbeChangesSince(marker: int) returns (changed: bool)
      ensures changed == AnyNewer(mtimes, marker)
    {
      changed := false;
      var left := mtimes.Keys;
      while left != {} && !changed
        invariant left <= mtimes.Keys
        invariant changed ==> AnyNewer(mtimes, marker)
        invariant !changed ==> forall p :: p in mtimes && p !in left ==> mtimes[p] <= marker
        decreases left
      {
        var p :| p in left;
        changed := mtimes[p] > marker;
        left := left - {p};
      }
    }
  }
}
