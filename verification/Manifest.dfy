/** Checkpoint manifests, and the source state that folding them yields. */
module Manifest {
  import opened Prelude
  import opened FileTree

  datatype ModeField = NoMode | NullMode | Bits(bits: int)

  /** One value of the "entries" object, before any check. */
  datatype RawEntry =
    | RawFile(hash: Option<Digest>, mode: ModeField, mtime: Option<int>)
    | RawLink(target: Option<string>, hash: Option<Digest>)
    | UnknownType(hash: Option<Digest>)
    | PlainText(text: string)
    | NotAnObject

  datatype Item = Item(path: Path, entry: RawEntry)

  /** A parsed manifest; "entries" keeps the order of the JSON object. */
  datatype Manifest = Manifest(entries: seq<Item>, deleted: seq<Path>)

  datatype FoldError = BadEntry(path: Path)

  predicate Skipped(p: Path) {
    GIT in p
  }

  /** The permission bits of a mode. */
  function IMode(mode: int): int {
    mode % 0x1000
  }

  /** A path as os.path.relpath writes it. */
  predicate Canonical(p: Path) {
    && p != []
    && "" !in p
    && "." !in p
    && ".." !in p
  }

  /** What the writers of manifests guarantee: JSON keys are distinct and paths are canonical. */
  ghost predicate Tidy(m: Manifest) {
    && (forall i, j :: 0 <= i < j < |m.entries| ==> m.entries[i].path != m.entries[j].path)
    && (forall i :: 0 <= i < |m.entries| ==> Canonical(m.entries[i].path))
    && (forall d :: d in m.deleted ==> Canonical(d))
  }

  // ---------------------------------------------------------------- entries

  /** An entry the reader rejects with an exception. */
  predicate Raises(e: RawEntry) {
    e.UnknownType? || (e.RawLink? && e.target.None?)
  }

  /** An entry the reader passes over. */
  predicate Ignored(e: RawEntry) {
    e.NotAnObject? || e.PlainText? || (e.RawFile? && e.hash.None?)
  }

  function Normalize(e: RawEntry): Entry
    requires !Raises(e) && !Ignored(e)
  {
    match e
    case RawFile(hash, mode, _) =>
      FileEntry(hash.value, if mode.Bits? then Some(IMode(mode.bits)) else None)
    case RawLink(target, _) => LinkEntry(target.value)
  }

  /** The entries among the first k items, or the first item that raises. */
  function ReadEntries(items: seq<Item>, k: nat): Result<Entries, FoldError>
    requires k <= |items|
  {
    if k == 0 then Ok(map[])
    else
      var before := ReadEntries(items, k - 1);
      var item := items[k - 1];
      if before.Err? || Skipped(item.path) then before
      else if Raises(item.entry) then Err(BadEntry(item.path))
      else if Ignored(item.entry) then before
      else Ok(before.value[item.path := Normalize(item.entry)])
  }

  // ------------------------------------------------------------------- fold

  /** What one manifest makes of the state folded so far. */
  function Fold(prev: Entries, m: Manifest, incremental: bool): Result<Entries, FoldError> {
    var read := ReadEntries(m.entries, |m.entries|);
    if read.Err? || !incremental then read
    else
      var merged := prev + read.value;
      Ok(map p | p in merged && (p !in m.deleted || Skipped(p)) :: merged[p])
  }

  /** Reads the entries, updates the state with them, then drops the deleted paths. */
  method FoldManifest(prev: Entries, m: Manifest, incremental: bool) returns (folded: Result<Entries, FoldError>)
    ensures folded == Fold(prev, m, incremental)
  {
    var entries: Entries := map[];
    var i := 0;
    while i < |m.entries|
      invariant 0 <= i <= |m.entries|
      invariant ReadEntries(m.entries, i) == Ok(entries)
    {
      var item := m.entries[i];
      if !Skipped(item.path) {
        if Raises(item.entry) {
          ReadErrorsStick(m.entries, i + 1, |m.entries|);
          return Err(BadEntry(item.path));
        }
        if !Ignored(item.entry) {
          entries := entries[item.path := Normalize(item.entry)];
        }
      }
      i := i + 1;
    }
    if !incremental {
      return Ok(entries);
    }
    var state := prev;
    state := state + entries;
    ghost var merged := state;
    i := 0;
    while i < |m.deleted|
      invariant 0 <= i <= |m.deleted|
      invariant state == map p | p in merged && (p !in m.deleted[..i] || Skipped(p)) :: merged[p]
    {
      if !Skipped(m.deleted[i]) {
        state := state - {m.deleted[i]};
      }
      assert m.deleted[..i + 1] == m.deleted[..i] + [m.deleted[i]];
      i := i + 1;
    }
    assert m.deleted[..i] == m.deleted;
    folded := Ok(state);
  }

  lemma {:induction false} ReadErrorsStick(items: seq<Item>, k: nat, n: nat)
    requires k <= n <= |items|
    requires ReadEntries(items, k).Err?
    ensures ReadEntries(items, n) == ReadEntries(items, k)
    decreases n
  {
    if k == n {
    } else {
      ReadErrorsStick(items, k, n - 1);
    }
  }

  // ---------------------------------------------------------------- compare

  datatype Comparison = Comparison(modified: set<Path>, modes: set<Path>, added: set<Path>, removed: set<Path>)
  {
    predicate IsMatch() {
      modified == {} && modes == {} && added == {} && removed == {}
    }
  }

  /** Two entries with the same hash: the digest, or the target of a link. */
  predicate SameKey(a: Entry, b: Entry) {
    match (a, b)
    case (FileEntry(x, _), FileEntry(y, _)) => x == y
    case (LinkEntry(x), LinkEntry(y)) => x == y
    case _ => false
  }

  function ModeOf(e: Entry): Option<int> {
    if e.FileEntry? && e.mode.Some? then Some(IMode(e.mode.value)) else None
  }

  predicate ModesDiffer(a: Entry, b: Entry) {
    ModeOf(a).Some? && ModeOf(b).Some? && ModeOf(a) != ModeOf(b)
  }

  function Compare(source: Entries, replay: Entries): Comparison {
    var common := source.Keys * replay.Keys;
    Comparison(
      (set p | p in common && !SameKey(source[p], replay[p])),
      (set p | p in common && ModesDiffer(source[p], replay[p])),
      replay.Keys - source.Keys,
      source.Keys - replay.Keys)
  }

  /**
   * What the comparison reports of one path: missing on one side, other bytes or another target or
   * another kind, or permission bits that are known on both sides and differ.
   */
  lemma CompareReports(source: Entries, replay: Entries, p: Path)
    ensures var c := Compare(source, replay);
      && (p in c.removed <==> p in source && p !in replay)
      && (p in c.added <==> p in replay && p !in source)
      && (p in source && p in replay ==>
            match (source[p], replay[p])
            case (FileEntry(a, m), FileEntry(b, n)) =>
              (p in c.modified <==> a != b) && (p in c.modes <==> m.Some? && n.Some? && m.value % 4096 != n.value % 4096)
            case (LinkEntry(a), LinkEntry(b)) => (p in c.modified <==> a != b) && p !in c.modes
            case _ => p in c.modified && p !in c.modes)
      && (p in c.modified || p in c.modes ==> p in source && p in replay)
  {
  }

  /** An entry the tree may hold where the source recorded e. */
  predicate Accepts(e: Entry, found: Entry) {
    match e
    case FileEntry(digest, mode) =>
      found.FileEntry? && found.digest == digest
      && (mode.None? || found.mode.None? || IMode(found.mode.value) == IMode(mode.value))
    case LinkEntry(target) => found == e
  }

  /** The replay holds just the paths of the source, and accepts at each of them. */
  ghost predicate Matches(source: Entries, replay: Entries) {
    && source.Keys == replay.Keys
    && forall p :: p in source ==> Accepts(source[p], replay[p])
  }

  lemma CompareIsMatch(source: Entries, replay: Entries)
    ensures Compare(source, replay).IsMatch() <==> Matches(source, replay)
  {
    var c := Compare(source, replay);
    if c.IsMatch() {
      assert source.Keys == replay.Keys by {
        assert source.Keys - replay.Keys == {} && replay.Keys - source.Keys == {};
        forall p ensures p in source.Keys <==> p in replay.Keys {
          assert p !in source.Keys - replay.Keys && p !in replay.Keys - source.Keys;
        }
      }
      forall p | p in source
        ensures Accepts(source[p], replay[p])
      {
        assert p !in c.modified && p !in c.modes;
      }
    }
  }
}
