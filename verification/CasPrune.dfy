/** Pruning unreferenced blobs, and why no restore can notice. */
module CasPrune {
  import opened Prelude
  import opened FileTree
  import opened Manifest
  import opened Restore
  import opened CheckpointChain

  datatype PruneError = InvalidEntry | InvalidManifest

  /** The digest an entry names: every object may have one, whatever its type says. */
  function EntryDigest(e: RawEntry): Result<Option<Digest>, PruneError> {
    match e
    case PlainText(text) => Ok(Some(text))
    case RawFile(hash, _, _) => Ok(hash)
    case RawLink(_, hash) => Ok(hash)
    case UnknownType(hash) => Ok(hash)
    case NotAnObject => Err(InvalidEntry)
  }

  /** The digests the first k entries of a manifest refer to. */
  function References(items: seq<Item>, k: nat): Result<set<Digest>, PruneError>
    requires k <= |items|
  {
    if k == 0 then Ok({})
    else
      var before := References(items, k - 1);
      if before.Err? then before
      else
        var named := EntryDigest(items[k - 1].entry);
        if named.Err? then Err(InvalidEntry)
        else if named.value.Some? then Ok(before.value + {named.value.value})
        else before
  }

  /** The digests of all scanned manifests; the scan stops at the first invalid one. */
  function Scan(files: seq<ManifestFile>, k: nat): Result<set<Digest>, PruneError>
    requires k <= |files|
  {
    if k == 0 then Ok({})
    else
      var before := Scan(files, k - 1);
      if before.Err? then before
      else
        match files[k - 1]
        case Unreadable => Err(InvalidManifest)
        case WithoutEntries(_) => before
        case Parsed(m) =>
          var found := References(m.entries, |m.entries|);
          if found.Err? then found else Ok(before.value + found.value)
  }

  /** The entry is a digest, or an object with one, whatever its type. */
  predicate Names(e: RawEntry, h: Digest) {
    e == PlainText(h) || (e.RawFile? && e.hash == Some(h)) || (e.RawLink? && e.hash == Some(h))
    || (e.UnknownType? && e.hash == Some(h))
  }

  lemma {:induction false} ReferencesMeans(items: seq<Item>, k: nat)
    requires k <= |items|
    ensures References(items, k).Err? <==> exists i :: 0 <= i < k && items[i].entry == NotAnObject
    ensures References(items, k).Ok? ==>
      forall h :: h in References(items, k).value <==> exists i :: 0 <= i < k && Names(items[i].entry, h)
  {
    if k == 0 {
    } else {
      ReferencesMeans(items, k - 1);
    }
  }

  /** Some entry of a manifest file names the digest. */
  ghost predicate FileNames(file: ManifestFile, h: Digest) {
    file.Parsed? && exists i :: 0 <= i < |file.manifest.entries| && Names(file.manifest.entries[i].entry, h)
  }

  ghost predicate IsInvalid(file: ManifestFile) {
    file == Unreadable ||
    (file.Parsed? && exists i :: 0 <= i < |file.manifest.entries| && file.manifest.entries[i].entry == NotAnObject)
  }

  /** The scan fails exactly on an invalid file, and otherwise collects just the digests that are named. */
  lemma {:induction false} ScanMeans(files: seq<ManifestFile>, k: nat)
    requires k <= |files|
    ensures Scan(files, k).Err? <==> exists i :: 0 <= i < k && IsInvalid(files[i])
    ensures Scan(files, k).Ok? ==>
      forall h :: h in Scan(files, k).value <==> exists i :: 0 <= i < k && FileNames(files[i], h)
  {
    if k == 0 {
    } else {
      ScanMeans(files, k - 1);
      if files[k - 1].Parsed? {
        ReferencesMeans(files[k - 1].manifest.entries, |files[k - 1].manifest.entries|);
      }
    }
  }

  method ReferencedDigests(files: seq<ManifestFile>) returns (referenced: Result<set<Digest>, PruneError>)
    ensures referenced == Scan(files, |files|)
  {
    var digests: set<Digest> := {};
    var i := 0;
    while i < |files|
      invariant 0 <= i <= |files|
      invariant Scan(files, i) == Ok(digests)
    {
      match files[i] {
        case Unreadable =>
          ScanErrorsStick(files, i + 1, |files|);
          return Err(InvalidManifest);
        case WithoutEntries(_) =>
        case Parsed(m) =>
          var j := 0;
          ghost var before := digests;
          while j < |m.entries|
            invariant 0 <= j <= |m.entries|
            invariant References(m.entries, j).Ok?
            invariant digests == before + References(m.entries, j).value
          {
            var named := EntryDigest(m.entries[j].entry);
            if named.Err? {
              ReferenceErrorsStick(m.entries, j + 1, |m.entries|);
              ScanErrorsStick(files, i + 1, |files|);
              return Err(InvalidEntry);
            }
            if named.value.Some? {
              digests := digests + {named.value.value};
            }
            j := j + 1;
          }
      }
      i := i + 1;
    }
    referenced := Ok(digests);
  }

  lemma {:induction false} ReferenceErrorsStick(items: seq<Item>, k: nat, n: nat)
    requires k <= n <= |items| && References(items, k).Err?
    ensures References(items, n) == References(items, k)
    decreases n
  {
    if k == n {
    } else {
      ReferenceErrorsStick(items, k, n - 1);
    }
  }

  lemma {:induction false} ScanErrorsStick(files: seq<ManifestFile>, k: nat, n: nat)
    requires k <= n <= |files| && Scan(files, k).Err?
    ensures Scan(files, n) == Scan(files, k)
    decreases n
  {
    if k == n {
    } else {
      ScanErrorsStick(files, k, n - 1);
    }
  }

  /** The digest a blob path stands for; a path of another depth stands for none. */
  function DigestOfPath(path: Place): Digest {
    if |path.parts| == 2 then path.parts[0] + path.parts[1] else ""
  }

  function Pruned(store: Store, referenced: set<Digest>): Store {
    map p | p in store && DigestOfPath(p) in referenced :: store[p]
  }

  /** The sizes of the unreferenced files among the first k of a listing. */
  function Freed(store: Store, listing: seq<Place>, referenced: set<Digest>, k: nat): nat
    requires k <= |listing| && forall p :: p in listing ==> p in store
  {
    if k == 0 then 0
    else
      Freed(store, listing, referenced, k - 1)
      + if DigestOfPath(listing[k - 1]) in referenced then 0 else store[listing[k - 1]].size
  }

  class BlobStore {
    var files: Store

    constructor (store: Store)
      ensures files == store
    {
      files := store;
    }

    /** The loop over the listing. */
    method Sweep(listing: seq<Place>, referenced: set<Digest>, dryRun: bool)
      returns (total: nat, deleted: nat, freed: nat)
      requires Lists(listing, files)
      modifies this
      ensures files == Remaining(old(files), listing, referenced, |listing|, dryRun)
      ensures total == |listing|
      ensures deleted == |Unreferenced(listing, referenced, |listing|)|
      ensures freed == Freed(old(files), listing, referenced, |listing|)
    {
      total, deleted, freed := 0, 0, 0;
      ghost var start := files;
      while total < |listing|
        invariant 0 <= total <= |listing|
        invariant files == Remaining(start, listing, referenced, total, dryRun)
        invariant deleted == |Unreferenced(listing, referenced, total)|
        invariant freed == Freed(start, listing, referenced, total)
      {
        var path := listing[total];
        OneMoreFile(start, listing, referenced, total, dryRun);
        total := total + 1;
        if DigestOfPath(path) !in referenced {
          freed := freed + files[path].size;
          deleted := deleted + 1;
          if !dryRun {
            files := files - {path};
          }
        }
      }
    }

    /** Unlinks what is not referenced, or only counts it; the counts do not depend on which. */
    method Prune(listing: seq<Place>, referenced: set<Digest>, dryRun: bool)
      returns (total: nat, deleted: nat, freed: nat)
      requires Lists(listing, files)
      modifies this
      ensures files == if dryRun then old(files) else Pruned(old(files), referenced)
      ensures total == |old(files)|
      ensures deleted == |old(files)| - |Pruned(old(files), referenced)|
      ensures freed == Freed(old(files), listing, referenced, |listing|)
    {
      ghost var start := files;
      total, deleted, freed := Sweep(listing, referenced, dryRun);
      WhatIsLeft(start, listing, referenced);
    }
  }

  /** The files after the first k of the listing have been looked at. */
  ghost function Remaining(store: Store, listing: seq<Place>, referenced: set<Digest>, k: nat, dryRun: bool): Store
    requires k <= |listing|
  {
    if dryRun then store else store - Unreferenced(listing, referenced, k)
  }

  lemma OneMoreFile(store: Store, listing: seq<Place>, referenced: set<Digest>, k: nat, dryRun: bool)
    requires Lists(listing, store) && k < |listing|
    ensures var p, before := listing[k], Unreferenced(listing, referenced, k);
      var rest := Remaining(store, listing, referenced, k, dryRun);
      && p in rest && rest[p] == store[p]
      && (DigestOfPath(p) !in referenced ==>
            && |Unreferenced(listing, referenced, k + 1)| == |before| + 1
            && Remaining(store, listing, referenced, k + 1, dryRun) == if dryRun then rest else rest - {p})
      && (DigestOfPath(p) in referenced ==> Unreferenced(listing, referenced, k + 1) == before)
  {
    var p, before := listing[k], Unreferenced(listing, referenced, k);
    NotYetDropped(store, listing, referenced, k);
    assert store - (before + {p}) == (store - before) - {p};
  }

  lemma NotYetDropped(store: Store, listing: seq<Place>, referenced: set<Digest>, k: nat)
    requires Lists(listing, store) && k < |listing|
    ensures listing[k] in store && listing[k] !in Unreferenced(listing, referenced, k)
  {
    UnreferencedMembers(listing, referenced, k);
    assert listing[k] in listing;
  }

  /** A listing of the blob files, each of them once. */
  ghost predicate Lists(listing: seq<Place>, store: Store) {
    && (forall p :: p in listing <==> p in store)
    && (forall i, j :: 0 <= i < j < |listing| ==> listing[i] != listing[j])
  }

  function Unreferenced(listing: seq<Place>, referenced: set<Digest>, k: nat): set<Place>
    requires k <= |listing|
  {
    if k == 0 then {}
    else
      var before := Unreferenced(listing, referenced, k - 1);
      if DigestOfPath(listing[k - 1]) in referenced then before else before + {listing[k - 1]}
  }

  lemma {:induction false} UnreferencedMembers(listing: seq<Place>, referenced: set<Digest>, k: nat)
    requires k <= |listing|
    ensures forall p :: p in Unreferenced(listing, referenced, k) <==> p in listing[..k] && DigestOfPath(p) !in referenced
  {
    if k == 0 {
    } else {
      UnreferencedMembers(listing, referenced, k - 1);
      assert listing[..k] == listing[..k - 1] + [listing[k - 1]];
    }
  }

  lemma {:induction false} DistinctCount(listing: seq<Place>, k: nat)
    requires k <= |listing|
    requires forall i, j :: 0 <= i < j < |listing| ==> listing[i] != listing[j]
    ensures |set i | 0 <= i < k :: listing[i]| == k
  {
    var seen := set i | 0 <= i < k :: listing[i];
    if k == 0 {
    } else {
      DistinctCount(listing, k - 1);
      var before := set i | 0 <= i < k - 1 :: listing[i];
      assert seen == before + {listing[k - 1]};
    }
  }

  lemma ListedKeys(store: Store, listing: seq<Place>)
    requires Lists(listing, store)
    ensures |store| == |listing|
  {
    DistinctCount(listing, |listing|);
    var keys := set i | 0 <= i < |listing| :: listing[i];
    forall p
      ensures p in store.Keys <==> p in keys
    {
      assert p in listing <==> p in store;
    }
    assert keys == store.Keys;
  }

  lemma WhatIsLeft(store: Store, listing: seq<Place>, referenced: set<Digest>)
    requires Lists(listing, store)
    ensures |store| == |listing|
    ensures Pruned(store, referenced) == store - Unreferenced(listing, referenced, |listing|)
    ensures |Pruned(store, referenced)| == |store| - |Unreferenced(listing, referenced, |listing|)|
  {
    ListedKeys(store, listing);
    UnreferencedMembers(listing, referenced, |listing|);
    assert listing[..|listing|] == listing;
    var gone := Unreferenced(listing, referenced, |listing|);
    assert Pruned(store, referenced).Keys == store.Keys - gone;
    assert gone <= store.Keys;
  }

  // ------------------------------------------------------------ restores after a prune

  /** Every digest the manifest's file entries name is referenced. */
  ghost predicate Keeps(referenced: set<Digest>, items: seq<Item>) {
    forall i :: 0 <= i < |items| && items[i].entry.RawFile? && items[i].entry.hash.Some? ==>
      items[i].entry.hash.value in referenced
  }

  lemma {:induction false} ReferencesKeep(items: seq<Item>, k: nat)
    requires k <= |items| && References(items, k).Ok?
    ensures Keeps(References(items, k).value, items[..k])
  {
    if k == 0 {
    } else {
      ReferencesKeep(items, k - 1);
      forall i | 0 <= i < k && items[i].entry.RawFile? && items[i].entry.hash.Some?
        ensures items[i].entry.hash.value in References(items, k).value
      {
        if i < k - 1 {
          assert items[..k - 1][i] == items[i];
        }
      }
    }
  }

  lemma {:induction false} ScanKeeps(files: seq<ManifestFile>, k: nat, m: Manifest)
    requires k <= |files| && Scan(files, k).Ok? && Parsed(m) in files[..k]
    ensures Keeps(Scan(files, k).value, m.entries)
  {
    if files[k - 1] == Parsed(m) {
      ReferencesKeep(m.entries, |m.entries|);
      assert m.entries[..|m.entries|] == m.entries;
    } else {
      assert files[..k] == files[..k - 1] + [files[k - 1]];
      ScanKeeps(files, k - 1, m);
    }
  }

  lemma ReadableAfterPrune(store: Store, referenced: set<Digest>, h: Digest)
    requires h in referenced
    ensures Readable(Pruned(store, referenced), h) <==> Readable(store, h)
  {
    if |h| > 2 {
      assert h[..2] + h[2..] == h;
    }
  }

  lemma {:induction false} WritesSurvivePrune(t: Tree, plan: seq<Item>, k: nat, store: Store, referenced: set<Digest>, now: int)
    requires k <= |plan| && Keeps(referenced, plan)
    ensures WriteItems(t, plan, k, Pruned(store, referenced), now) == WriteItems(t, plan, k, store, now)
  {
    if k == 0 {
    } else {
      WritesSurvivePrune(t, plan, k - 1, store, referenced, now);
      var e := plan[k - 1].entry;
      if e.RawFile? && e.hash.Some? {
        ReadableAfterPrune(store, referenced, e.hash.value);
      }
    }
  }

  lemma PlanKeeps(m: Manifest, referenced: set<Digest>)
    requires Keeps(referenced, m.entries)
    ensures Keeps(referenced, Plan(m))
  {
    PickKeeps(m.entries, |m.entries|, false, referenced);
    PickKeeps(m.entries, |m.entries|, true, referenced);
  }

  lemma {:induction false} PickKeeps(items: seq<Item>, k: nat, links: bool, referenced: set<Digest>)
    requires k <= |items| && Keeps(referenced, items)
    ensures Keeps(referenced, Pick(items, k, links))
  {
    if k == 0 {
    } else {
      PickKeeps(items, k - 1, links, referenced);
    }
  }

  lemma SpecSurvivesPrune(t: Tree, spec: CheckpointSpec, clear: bool, store: Store, referenced: set<Digest>, now: int)
    requires spec.file.Parsed? ==> Keeps(referenced, spec.file.manifest.entries)
    ensures RestoreSpec(t, spec, clear, Pruned(store, referenced), now) == RestoreSpec(t, spec, clear, store, now)
  {
    if spec.file.Parsed? {
      var m := spec.file.manifest;
      PlanKeeps(m, referenced);
      var order := ByDepth(m.deleted, |m.deleted|);
      var start := if clear then Clear(t) else Delete(t, order, |order|).tree;
      WritesSurvivePrune(start, Plan(m), |Plan(m)|, store, referenced, now);
    }
  }

  /**
   * After a prune, any chain of scanned manifests restores to the same tree, and fails where it
   * failed before.
   */
  lemma {:induction false} PruneIsInvisible(files: seq<ManifestFile>, chain: seq<CheckpointSpec>, k: nat,
                                              t: Tree, store: Store, now: int)
    requires Scan(files, |files|).Ok? && k <= |chain|
    requires forall i :: 0 <= i < |chain| ==> chain[i].file in files
    ensures RestoreChain(t, chain, k, Pruned(store, Scan(files, |files|).value), now) == RestoreChain(t, chain, k, store, now)
  {
    if k == 0 {
    } else {
      PruneIsInvisible(files, chain, k - 1, t, store, now);
      var before := RestoreChain(t, chain, k - 1, store, now);
      var referenced := Scan(files, |files|).value;
      var spec := chain[k - 1];
      assert spec.file in files;
      assert files[..|files|] == files;
      if spec.file.Parsed? {
        ScanKeeps(files, |files|, spec.file.manifest);
      }
      SpecSurvivesPrune(before.tree, spec, k == 1, store, referenced, now);
    }
  }

  /** The sizes of the first k files of a listing that a store holds. */
  function Sizes(store: Store, listing: seq<Place>, k: nat): nat
    requires k <= |listing|
  {
    if k == 0 then 0 else Sizes(store, listing, k - 1) + if listing[k - 1] in store then store[listing[k - 1]].size else 0
  }

  /** The bytes freed and the bytes that stay are the bytes there were. */
  lemma {:induction false} BytesAddUp(store: Store, listing: seq<Place>, referenced: set<Digest>, k: nat)
    requires Lists(listing, store) && k <= |listing|
    ensures Freed(store, listing, referenced, k) + Sizes(Pruned(store, referenced), listing, k) == Sizes(store, listing, k)
  {
    if k == 0 {
    } else {
      BytesAddUp(store, listing, referenced, k - 1);
      assert listing[k - 1] in listing;
    }
  }

  /** What a real run leaves behind is referenced, and pruning again changes nothing. */
  lemma PrunedIsReferenced(store: Store, referenced: set<Digest>)
    ensures forall p :: p in Pruned(store, referenced) ==> DigestOfPath(p) in referenced
    ensures Pruned(Pruned(store, referenced), referenced) == Pruned(store, referenced)
  {
  }
}
