/** The baseline store of `FileIntegrityCheckerApp` as values: the in-memory
    `baseline_hashes`, the tracked set `files_to_check` and the JSON file on
    disk, with each operation as a function from the old store to the new one. */
module Baseline {
  import opened Wrappers
  import opened Paths
  import opened Host
  import opened Fingerprint

  /** A JSON object from path to hex digest or `null`. */
  type Record = map<Path, Option<Digest>>

  /** `baseline_hashes.json`: absent, present but not valid JSON, or holding a record. */
  datatype Disk = Missing | Unparseable | Stored(record: Record)

  datatype Store = Store(baselineHashes: Record, filesToCheck: set<Path>, disk: Disk)

  /** The exceptions `update_baseline_hashes` lets escape. */
  datatype Error = InvalidOperation | KeyError(key: Path)

  /** Every tracked path has a saved hash in memory. */
  predicate Tracked(st: Store)
  {
    st.filesToCheck <= st.baselineHashes.Keys
  }

  /** The saved hash map and the file hold the same record. */
  predicate InSync(st: Store)
  {
    st.disk.Stored? && st.disk.record == st.baselineHashes
  }

  // ---------------------------------------------------------------- the file

  /** `create_baseline_file`: writes `{}` when the file does not exist. */
  function CreateBaselineFile(disk: Disk): (d: Disk)
    ensures !d.Missing?
    ensures disk.Missing? ==> d == Stored(map[])
    ensures !disk.Missing? ==> d == disk
  {
    if disk.Missing? then Stored(map[]) else disk
  }

  /** The record `json.load` yields, `{}` when the file is missing or not valid JSON. */
  function Retrieve(disk: Disk): Record
  {
    if disk.Stored? then disk.record else map[]
  }

  /** `append_to_baseline_hashes(data)`: `existing_data.update(data)`, then write. */
  function AppendToDisk(disk: Disk, data: Record): Disk
  {
    if disk.Missing? then Missing else Stored(Retrieve(disk) + data)
  }

  /** Appending writes the entries of `data` over the loaded record and keeps every
      other entry; a missing file stays missing; appending twice is appending the union. */
  lemma AppendMerges(disk: Disk, data: Record, more: Record)
    ensures AppendToDisk(disk, data).Missing? <==> disk.Missing?
    ensures !disk.Missing? ==>
      && Retrieve(AppendToDisk(disk, data)).Keys == Retrieve(disk).Keys + data.Keys
      && (forall k :: k in data ==> Retrieve(AppendToDisk(disk, data))[k] == data[k])
      && (forall k :: k in Retrieve(disk) && k !in data ==> Retrieve(AppendToDisk(disk, data))[k] == Retrieve(disk)[k])
    ensures AppendToDisk(AppendToDisk(disk, data), more) == AppendToDisk(disk, data + more)
  {
  }

  /** Creating the file never loses a record: whatever the file held it still loads
      the same, creating it a second time changes nothing, and afterwards it exists. */
  lemma CreatePreservesRecord(disk: Disk)
    ensures !CreateBaselineFile(disk).Missing?
    ensures Retrieve(CreateBaselineFile(disk)) == Retrieve(disk)
    ensures CreateBaselineFile(CreateBaselineFile(disk)) == CreateBaselineFile(disk)
    ensures disk.Missing? ==> Retrieve(CreateBaselineFile(disk)) == map[]
  {
  }

  /** The loading fallback never fails: a missing or unparseable file reads as `{}`,
      and a stored record reads back as itself. */
  lemma RetrieveFallback(disk: Disk)
    ensures !disk.Stored? ==> Retrieve(disk) == map[]
    ensures disk.Stored? ==> Retrieve(disk) == disk.record
    ensures Retrieve(CreateBaselineFile(disk)) == Retrieve(disk)
  {
  }

  // ---------------------------------------------------------------- save_baseline

  /** `save_baseline` with the normalised key and the computed hash. */
  function Save(st: Store, key: Path, hash: Option<Digest>): Store
  {
    Store(st.baselineHashes[key := hash], st.filesToCheck + {key}, AppendToDisk(st.disk, map[key := hash]))
  }

  /** After saving, memory and file map `key` to `hash`, `key` is tracked, and no
      other entry changes; when the file is missing only memory changes. */
  lemma SaveEffect(st: Store, key: Path, hash: Option<Digest>)
    ensures var r := Save(st, key, hash);
      && r.baselineHashes[key] == hash
      && key in r.filesToCheck
      && (forall k :: k != key ==> (k in r.baselineHashes <==> k in st.baselineHashes))
      && (forall k :: k != key && k in st.baselineHashes ==> r.baselineHashes[k] == st.baselineHashes[k])
      && r.filesToCheck - {key} == st.filesToCheck - {key}
      && (st.disk.Missing? ==> r.disk == Missing)
      && (!st.disk.Missing? ==> r.disk == Stored(Retrieve(st.disk)[key := hash]))
      && (Tracked(st) ==> Tracked(r))
      && (InSync(st) ==> InSync(r))
  {
    var r := Save(st, key, hash);
    if !st.disk.Missing? {
      assert Retrieve(st.disk) + map[key := hash] == Retrieve(st.disk)[key := hash];
    }
  }

  // ---------------------------------------------------------------- update_baseline_hashes

  /** `update_baseline_hashes(operation, file_name, new_name, new_hash)`. A missing
      file is reported and nothing changes; otherwise the record is loaded (`{}` when
      unparseable), edited, and written back whole. `remove` deletes the entry and
      drops the path from the tracked set but leaves the saved hash in memory;
      `set.remove` raises when the path is not tracked, before the write. `rename`
      edits the file only. `change` edits both the file and memory. Any other
      operation raises before the write. */
  function Update(st: Store, operation: string, fileName: Path, newName: Option<Path>,
                  newHash: Option<Digest>): Result<Store, Error>
  {
    if st.disk.Missing? then Ok(st)
    else
      var existing := Retrieve(st.disk);
      if operation == "remove" then
        if fileName !in existing then Ok(st.(disk := Stored(existing)))
        else if fileName !in st.filesToCheck then Err(KeyError(fileName))
        else Ok(st.(disk := Stored(existing - {fileName}), filesToCheck := st.filesToCheck - {fileName}))
      else if operation == "rename" then
        if fileName in existing && newName.Some? then
          Ok(st.(disk := Stored((existing - {fileName})[newName.value := existing[fileName]])))
        else Ok(st.(disk := Stored(existing)))
      else if operation == "change" then
        if fileName in existing && newHash.Some? then
          Ok(st.(disk := Stored(existing[fileName := newHash]),
                 baselineHashes := st.baselineHashes[fileName := newHash]))
        else Ok(st.(disk := Stored(existing)))
      else Err(InvalidOperation)
  }

  /** `change` with a hash for a path in the file sets it in both the file and memory;
      otherwise neither changes. It never raises and never touches the tracked set. */
  lemma ChangeSpec(st: Store, fileName: Path, newName: Option<Path>, newHash: Option<Digest>)
    ensures Update(st, "change", fileName, newName, newHash).Ok?
    ensures var r := Update(st, "change", fileName, newName, newHash).value;
      && r.filesToCheck == st.filesToCheck
      && (!st.disk.Missing? && fileName in Retrieve(st.disk) && newHash.Some? ==>
            r.baselineHashes == st.baselineHashes[fileName := newHash]
            && r.disk == Stored(Retrieve(st.disk)[fileName := newHash]))
      && (!(!st.disk.Missing? && fileName in Retrieve(st.disk) && newHash.Some?) ==>
            r.baselineHashes == st.baselineHashes
            && (st.disk.Missing? ==> r == st)
            && (!st.disk.Missing? ==> r.disk == Stored(Retrieve(st.disk))))
  {
  }

  /** `remove` of a recorded, tracked path deletes it from the file and the tracked
      set and leaves memory alone; of a recorded untracked path raises with nothing
      changed; of an unrecorded path changes nothing. */
  lemma RemoveSpec(st: Store, fileName: Path, newName: Option<Path>, newHash: Option<Digest>)
    ensures var u := Update(st, "remove", fileName, newName, newHash);
      && (!st.disk.Missing? && fileName in Retrieve(st.disk) && fileName in st.filesToCheck ==>
            u == Ok(Store(st.baselineHashes, st.filesToCheck - {fileName}, Stored(Retrieve(st.disk) - {fileName}))))
      && (!st.disk.Missing? && fileName in Retrieve(st.disk) && fileName !in st.filesToCheck ==>
            u == Err(KeyError(fileName)))
      && (st.disk.Missing? ==> u == Ok(st))
      && (!st.disk.Missing? && fileName !in Retrieve(st.disk) ==>
            u == Ok(st.(disk := Stored(Retrieve(st.disk)))))
  {
  }

  /** Removing a path a second time is a no-op. */
  lemma {:induction false} RemoveIdempotent(st: Store, fileName: Path)
    requires Update(st, "remove", fileName, None, None).Ok?
    ensures var r := Update(st, "remove", fileName, None, None).value;
      Update(r, "remove", fileName, None, None) == Ok(r)
  {
    var r := Update(st, "remove", fileName, None, None).value;
    assert st.disk.Missing? ==> r == st;
    assert !st.disk.Missing? ==> r.disk.Stored? && fileName !in r.disk.record;
  }

  /** `rename` of a recorded path to a given name moves its value to the new key in the
      file and keeps every other key; otherwise the record is unchanged. Memory and the
      tracked set are never touched, and the call never raises. */
  lemma RenameSpec(st: Store, fileName: Path, newName: Option<Path>, newHash: Option<Digest>)
    ensures Update(st, "rename", fileName, newName, newHash).Ok?
    ensures var r := Update(st, "rename", fileName, newName, newHash).value;
      && r.baselineHashes == st.baselineHashes && r.filesToCheck == st.filesToCheck
      && (!st.disk.Missing? && fileName in Retrieve(st.disk) && newName.Some? ==>
            && Retrieve(r.disk).Keys == Retrieve(st.disk).Keys - {fileName} + {newName.value}
            && Retrieve(r.disk)[newName.value] == Retrieve(st.disk)[fileName]
            && (forall k :: k in Retrieve(st.disk) && k != fileName && k != newName.value ==>
                  Retrieve(r.disk)[k] == Retrieve(st.disk)[k]))
      && (!(!st.disk.Missing? && fileName in Retrieve(st.disk) && newName.Some?) ==>
            && (st.disk.Missing? ==> r == st)
            && (!st.disk.Missing? ==> r.disk == Stored(Retrieve(st.disk))))
  {
  }

  /** A file that is not valid JSON loads as `{}`, so any of the three operations
      overwrites it with `{}` and leaves memory and the tracked set as they were. */
  lemma UpdateRewritesUnparseable(st: Store, operation: string, fileName: Path, newName: Option<Path>,
                                  newHash: Option<Digest>)
    requires st.disk.Unparseable?
    requires operation == "remove" || operation == "rename" || operation == "change"
    ensures Update(st, operation, fileName, newName, newHash) == Ok(st.(disk := Stored(map[])))
  {
  }

  /** An operation other than the three raises before anything is written. */
  lemma UnknownOperationRaises(st: Store, operation: string, fileName: Path, newName: Option<Path>,
                               newHash: Option<Digest>)
    requires operation != "remove" && operation != "rename" && operation != "change"
    ensures Update(st, operation, fileName, newName, newHash) == (if st.disk.Missing? then Ok(st) else Err(InvalidOperation))
  {
  }

  /** Every operation keeps each tracked path's saved hash in memory. */
  lemma UpdatePreservesTracked(st: Store, operation: string, fileName: Path, newName: Option<Path>,
                               newHash: Option<Digest>)
    requires Tracked(st)
    ensures Update(st, operation, fileName, newName, newHash).Ok? ==>
      Tracked(Update(st, operation, fileName, newName, newHash).value)
  {
  }

  /** The asymmetry: from a store whose file and memory agree, `change` keeps them
      agreeing, but a successful `remove` or `rename` of a recorded path leaves the
      old entry in memory while the file has lost it. */
  lemma UpdateSyncAsymmetry(st: Store, fileName: Path, newName: Path, newHash: Option<Digest>)
    requires InSync(st) && fileName in st.baselineHashes
    ensures InSync(Update(st, "change", fileName, None, newHash).value)
    ensures fileName in st.filesToCheck ==>
      var r := Update(st, "remove", fileName, None, None).value;
      fileName in r.baselineHashes && fileName !in Retrieve(r.disk) && !InSync(r)
    ensures newName != fileName ==>
      var r := Update(st, "rename", fileName, Some(newName), None).value;
      fileName in r.baselineHashes && fileName !in Retrieve(r.disk) && !InSync(r)
  {
  }

  // ---------------------------------------------------------------- check_hash / classification

  /** The verdict `check_integrity` and `verify_changes` give one tracked path. */
  datatype Verdict = NotChanged | Changed | Removed

  /** Not a file: removed. A file: not changed exactly when `compute_file_hash`
      equals the saved hash (`None == None` included), else changed. */
  function ClassOf<S>(env: Env<S>, baseline: Record, p: Path): Verdict
    requires p in baseline
  {
    if !env.isFile(p) then Removed
    else if FileHash(env, p) == baseline[p] then NotChanged
    else Changed
  }

  /** The tracked paths with verdict `v`. */
  function Bucket<S>(env: Env<S>, baseline: Record, files: set<Path>, v: Verdict): set<Path>
  {
    set p | p in files && p in baseline && ClassOf(env, baseline, p) == v
  }

  /** The three buckets are disjoint and together are the tracked set, so each tracked
      path is in exactly one of them. */
  lemma {:induction false} BucketsPartition<S>(env: Env<S>, baseline: Record, files: set<Path>)
    requires files <= baseline.Keys
    ensures var rm, ch, nc := Bucket(env, baseline, files, Removed), Bucket(env, baseline, files, Changed),
                             Bucket(env, baseline, files, NotChanged);
      && rm !! ch && rm !! nc && ch !! nc
      && rm + ch + nc == files
      && multiset(rm) + multiset(ch) + multiset(nc) == multiset(files)
  {
    var rm, ch, nc := Bucket(env, baseline, files, Removed), Bucket(env, baseline, files, Changed),
                      Bucket(env, baseline, files, NotChanged);
    assert rm + ch + nc == files;
    DisjointUnionMultiset(rm, ch);
    DisjointUnionMultiset(rm + ch, nc);
  }

  /** Lists holding the three buckets hold every tracked path exactly once between them. */
  lemma ListsPartition<S>(env: Env<S>, baseline: Record, files: set<Path>,
                          ch: seq<Path>, rm: seq<Path>, nc: seq<Path>)
    requires files <= baseline.Keys
    requires multiset(ch) == multiset(Bucket(env, baseline, files, Changed))
    requires multiset(rm) == multiset(Bucket(env, baseline, files, Removed))
    requires multiset(nc) == multiset(Bucket(env, baseline, files, NotChanged))
    ensures multiset(ch) + multiset(rm) + multiset(nc) == multiset(files)
  {
    BucketsPartition(env, baseline, files);
  }

  lemma DisjointUnionMultiset(a: set<Path>, b: set<Path>)
    requires a !! b
    ensures multiset(a + b) == multiset(a) + multiset(b)
  {
    forall x ensures multiset(a + b)[x] == (multiset(a) + multiset(b))[x] {
      if x in a { assert x !in b; }
    }
  }

  /** Classifying one more path adds it to the bucket of its verdict only. */
  lemma BucketGrows<S>(env: Env<S>, baseline: Record, done: set<Path>, p: Path, v: Verdict)
    requires p !in done && p in baseline
    ensures multiset(Bucket(env, baseline, done + {p}, v)) ==
      multiset(Bucket(env, baseline, done, v)) + (if ClassOf(env, baseline, p) == v then multiset{p} else multiset{})
  {
    if ClassOf(env, baseline, p) == v {
      assert Bucket(env, baseline, done + {p}, v) == Bucket(env, baseline, done, v) + {p};
      DisjointUnionMultiset(Bucket(env, baseline, done, v), {p});
    } else {
      assert Bucket(env, baseline, done + {p}, v) == Bucket(env, baseline, done, v);
    }
  }

  /** The classification loop's step: appending a path to the list of its verdict keeps
      each list holding exactly its bucket of the paths seen so far. */
  lemma AppendToBucket<S>(env: Env<S>, baseline: Record, done: set<Path>, p: Path, s: seq<Path>, v: Verdict)
    requires p !in done && p in baseline
    requires multiset(s) == multiset(Bucket(env, baseline, done, v))
    ensures ClassOf(env, baseline, p) == v ==> multiset(s + [p]) == multiset(Bucket(env, baseline, done + {p}, v))
    ensures ClassOf(env, baseline, p) != v ==> multiset(s) == multiset(Bucket(env, baseline, done + {p}, v))
  {
    BucketGrows(env, baseline, done, p, v);
  }

  /** One step of the classification loop: the list of `p`'s verdict gets `p` appended,
      and all three lists then hold the buckets of `done + {p}`. */
  lemma ClassifyStep<S>(env: Env<S>, baseline: Record, done: set<Path>, p: Path,
                        ch: seq<Path>, rm: seq<Path>, nc: seq<Path>)
    requires p !in done && p in baseline
    requires multiset(ch) == multiset(Bucket(env, baseline, done, Changed))
    requires multiset(rm) == multiset(Bucket(env, baseline, done, Removed))
    requires multiset(nc) == multiset(Bucket(env, baseline, done, NotChanged))
    ensures var v := ClassOf(env, baseline, p);
      && multiset(if v == Changed then ch + [p] else ch) == multiset(Bucket(env, baseline, done + {p}, Changed))
      && multiset(if v == Removed then rm + [p] else rm) == multiset(Bucket(env, baseline, done + {p}, Removed))
      && multiset(if v == NotChanged then nc + [p] else nc) == multiset(Bucket(env, baseline, done + {p}, NotChanged))
  {
    AppendToBucket(env, baseline, done, p, ch, Changed);
    AppendToBucket(env, baseline, done, p, rm, Removed);
    AppendToBucket(env, baseline, done, p, nc, NotChanged);
  }

  /** A list holding the paths of a bucket holds only tracked paths of that verdict. */
  lemma BucketMembers<S>(env: Env<S>, baseline: Record, files: set<Path>, s: seq<Path>, v: Verdict)
    requires multiset(s) == multiset(Bucket(env, baseline, files, v))
    ensures forall p :: p in s ==> p in files && p in baseline && ClassOf(env, baseline, p) == v
  {
    forall p | p in s ensures p in files && p in baseline && ClassOf(env, baseline, p) == v {
      assert p in multiset(s);
    }
  }

  /** A file that exists but cannot be read is not changed when its saved hash is also
      `None`, and changed when a digest was saved. */
  lemma UnreadableFileVerdict<S>(env: Env<S>, baseline: Record, p: Path)
    requires p in baseline && env.isFile(p) && env.read(p).None?
    ensures ClassOf(env, baseline, p) == (if baseline[p].None? then NotChanged else Changed)
  {
  }

  /** Saving a normalised path and scanning at once with the same host finds it not
      changed when it is a file and removed otherwise. */
  lemma SaveThenScan<S>(env: Env<S>, st: Store, p: Path)
    requires env.normpath(p) == p
    ensures var r := Save(st, env.normpath(p), FileHash(env, p));
      ClassOf(env, r.baselineHashes, p) == (if env.isFile(p) then NotChanged else Removed)
  {
  }

  // ---------------------------------------------------------------- the submit accept step

  /** One titled list of checkbox selections handed to `submit`. */
  datatype Selection = Selection(title: string, items: seq<Path>)

  /** The store after a submit, and the exception that ended it early, if any. */
  datatype Accepted = Accepted(store: Store, raised: Option<Error>)

  /** One accepted item: a "changed" item gets its freshly computed hash through
      `change`; a "removed" item goes through `remove`; other titles do nothing. */
  function AcceptItem<S>(env: Env<S>, st: Store, title: string, item: Path): Result<Store, Error>
  {
    if title == "changed" then Update(st, "change", item, None, FileHash(env, item))
    else if title == "removed" then Update(st, "remove", item, None, None)
    else Ok(st)
  }

  /** `items` accepted in order, stopping at the first exception. */
  function AcceptItems<S>(env: Env<S>, st: Store, title: string, items: seq<Path>): Accepted
    decreases |items|
  {
    if items == [] then Accepted(st, None)
    else
      var prior := AcceptItems(env, st, title, items[..|items| - 1]);
      if prior.raised.Some? then prior
      else match AcceptItem(env, prior.store, title, items[|items| - 1])
        case Ok(next) => Accepted(next, None)
        case Err(e) => Accepted(prior.store, Some(e))
  }

  /** Every selection list accepted in order, stopping at the first exception. */
  function AcceptSelections<S>(env: Env<S>, st: Store, selected: seq<Selection>): Accepted
    decreases |selected|
  {
    if selected == [] then Accepted(st, None)
    else
      var prior := AcceptSelections(env, st, selected[..|selected| - 1]);
      if prior.raised.Some? then prior
      else AcceptItems(env, prior.store, selected[|selected| - 1].title, selected[|selected| - 1].items)
  }

  /** Once an item raises, the rest of the list is not accepted. */
  lemma {:induction false} AcceptItemsStopped<S>(env: Env<S>, st: Store, title: string, items: seq<Path>, k: nat)
    requires 0 < k <= |items| && AcceptItems(env, st, title, items[..k]).raised.Some?
    ensures AcceptItems(env, st, title, items) == AcceptItems(env, st, title, items[..k])
    decreases |items| - k
  {
    if k < |items| {
      assert items[..|items| - 1][..k] == items[..k];
      AcceptItemsStopped(env, st, title, items[..|items| - 1], k);
    } else {
      assert items[..k] == items;
    }
  }

  /** Once a list raises, the remaining lists are not accepted. */
  lemma {:induction false} AcceptSelectionsStopped<S>(env: Env<S>, st: Store, selected: seq<Selection>, k: nat)
    requires 0 < k <= |selected| && AcceptSelections(env, st, selected[..k]).raised.Some?
    ensures AcceptSelections(env, st, selected) == AcceptSelections(env, st, selected[..k])
    decreases |selected| - k
  {
    if k < |selected| {
      assert selected[..|selected| - 1][..k] == selected[..k];
      AcceptSelectionsStopped(env, st, selected[..|selected| - 1], k);
    } else {
      assert selected[..k] == selected;
    }
  }

  /** A list with any other title changes nothing. */
  lemma {:induction false} AcceptItemsIgnored<S>(env: Env<S>, st: Store, title: string, items: seq<Path>)
    requires title != "changed" && title != "removed"
    ensures AcceptItems(env, st, title, items) == Accepted(st, None)
    decreases |items|
  {
    if items != [] {
      AcceptItemsIgnored(env, st, title, items[..|items| - 1]);
    }
  }

  lemma {:induction false} AcceptItemsPreservesTracked<S>(env: Env<S>, st: Store, title: string, items: seq<Path>)
    requires Tracked(st)
    ensures Tracked(AcceptItems(env, st, title, items).store)
    decreases |items|
  {
    if items != [] {
      var prior := AcceptItems(env, st, title, items[..|items| - 1]);
      AcceptItemsPreservesTracked(env, st, title, items[..|items| - 1]);
      var item := items[|items| - 1];
      UpdatePreservesTracked(prior.store, "change", item, None, FileHash(env, item));
      UpdatePreservesTracked(prior.store, "remove", item, None, None);
    }
  }

  /** Accepting a selection keeps every tracked path's saved hash in memory, so the
      next scan never misses a lookup. */
  lemma {:induction false} AcceptSelectionsPreservesTracked<S>(env: Env<S>, st: Store, selected: seq<Selection>)
    requires Tracked(st)
    ensures Tracked(AcceptSelections(env, st, selected).store)
    decreases |selected|
  {
    if selected != [] {
      var prior := AcceptSelections(env, st, selected[..|selected| - 1]);
      AcceptSelectionsPreservesTracked(env, st, selected[..|selected| - 1]);
      if prior.raised.None? {
        var last := selected[|selected| - 1];
        AcceptItemsPreservesTracked(env, prior.store, last.title, last.items);
      }
    }
  }

  /** Accepting "changed" for a recorded, readable file makes the next scan with the
      same host report it not changed. */
  lemma AcceptChangedThenScan<S>(env: Env<S>, st: Store, p: Path)
    requires !st.disk.Missing? && p in Retrieve(st.disk) && FileHash(env, p).Some? && env.isFile(p)
    ensures AcceptItem(env, st, "changed", p).Ok?
    ensures var r := AcceptItem(env, st, "changed", p).value;
      p in r.baselineHashes && ClassOf(env, r.baselineHashes, p) == NotChanged
  {
  }

  /** Accepting "removed" for a recorded, tracked path drops it from the file and the
      tracked set; accepting it again changes nothing. */
  lemma AcceptRemovedTwice<S>(env: Env<S>, st: Store, p: Path)
    requires !st.disk.Missing? && p in Retrieve(st.disk) && p in st.filesToCheck
    ensures AcceptItem(env, st, "removed", p).Ok?
    ensures var r := AcceptItem(env, st, "removed", p).value;
      && p !in r.filesToCheck && p !in Retrieve(r.disk)
      && AcceptItem(env, r, "removed", p) == Ok(r)
  {
  }

  // ---------------------------------------------------------------- add_files / add_folders

  /** The loop of `add_files`: each picked path normalised and saved. */
  function SaveEach<S>(env: Env<S>, st: Store, paths: seq<Path>): Store
    decreases |paths|
  {
    if paths == [] then st
    else
      var p := env.normpath(paths[|paths| - 1]);
      Save(SaveEach(env, st, paths[..|paths| - 1]), env.normpath(p), FileHash(env, p))
  }

  /** Saving one more picked path: the fold over the longer prefix is one more `Save`,
      and the normalised picks gain that path. */
  lemma SaveEachSnoc<S>(env: Env<S>, st: Store, paths: seq<Path>, i: nat)
    requires i < |paths|
    ensures var p := env.normpath(paths[i]);
      SaveEach(env, st, paths[..i + 1]) == Save(SaveEach(env, st, paths[..i]), env.normpath(p), FileHash(env, p))
    ensures (set q | q in paths[..i + 1] :: env.normpath(q)) == (set q | q in paths[..i] :: env.normpath(q)) + {env.normpath(paths[i])}
  {
    assert paths[..i + 1][..i] == paths[..i];
    assert paths[..i + 1] == paths[..i] + [paths[i]];
  }

  /** Saving the picked paths keeps every tracked path's hash in memory. */
  lemma {:induction false} SaveEachKeepsTracked<S>(env: Env<S>, st: Store, paths: seq<Path>)
    requires Tracked(st)
    ensures Tracked(SaveEach(env, st, paths))
    decreases |paths|
  {
    if paths != [] {
      var p := env.normpath(paths[|paths| - 1]);
      SaveEachKeepsTracked(env, st, paths[..|paths| - 1]);
      SaveEffect(SaveEach(env, st, paths[..|paths| - 1]), env.normpath(p), FileHash(env, p));
    }
  }

  /** With an idempotent `normpath`, `add_files` tracks exactly the normalised picks
      on top of what was tracked, and keeps the tracked paths' hashes in memory. */
  lemma {:induction false} SaveEachTracks<S>(env: Env<S>, st: Store, paths: seq<Path>)
    requires NormIdempotent(env)
    ensures SaveEach(env, st, paths).filesToCheck == st.filesToCheck + set p | p in paths :: env.normpath(p)
    ensures Tracked(st) ==> Tracked(SaveEach(env, st, paths))
    decreases |paths|
  {
    if paths != [] {
      var init := paths[..|paths| - 1];
      var last := paths[|paths| - 1];
      SaveEachTracks(env, st, init);
      assert env.normpath(env.normpath(last)) == env.normpath(last);
      assert (set p | p in paths :: env.normpath(p)) == (set p | p in init :: env.normpath(p)) + {env.normpath(last)} by {
        assert paths == init + [last];
      }
    }
  }

  /** The normalised `os.path.join(root, name)` of each file name of one walk entry. */
  function JoinedPaths<S>(env: Env<S>, root: Path, names: seq<Path>): (ps: seq<Path>)
    ensures |ps| == |names|
    ensures forall i :: 0 <= i < |names| ==> ps[i] == env.normpath(env.join(root, names[i]))
  {
    seq(|names|, i requires 0 <= i < |names| => env.normpath(env.join(root, names[i])))
  }

  /** One more file name adds its joined path at the end. */
  lemma JoinedPathsSnoc<S>(env: Env<S>, root: Path, names: seq<Path>, visited: seq<Path>, j: nat)
    requires j < |names|
    ensures visited + JoinedPaths(env, root, names[..j + 1]) ==
      (visited + JoinedPaths(env, root, names[..j])) + [env.normpath(env.join(root, names[j]))]
  {
    var a, b := JoinedPaths(env, root, names[..j + 1]), JoinedPaths(env, root, names[..j]);
    assert a == b + [env.normpath(env.join(root, names[j]))];
  }

  /** Every path the nested loop of `add_folders` visits, in order. */
  function WalkedPaths<S>(env: Env<S>, entries: seq<WalkEntry>): seq<Path>
    decreases |entries|
  {
    if entries == [] then []
    else
      var last := entries[|entries| - 1];
      WalkedPaths(env, entries[..|entries| - 1]) + JoinedPaths(env, last.root, last.files)
  }

  lemma {:induction false} WalkedPathsNormalised<S>(env: Env<S>, entries: seq<WalkEntry>)
    requires NormIdempotent(env)
    ensures forall i :: 0 <= i < |WalkedPaths(env, entries)| ==>
      env.normpath(WalkedPaths(env, entries)[i]) == WalkedPaths(env, entries)[i]
    decreases |entries|
  {
    if entries != [] {
      WalkedPathsNormalised(env, entries[..|entries| - 1]);
      var last := entries[|entries| - 1];
      var ws, js := WalkedPaths(env, entries[..|entries| - 1]), JoinedPaths(env, last.root, last.files);
      forall i | 0 <= i < |js| ensures env.normpath(js[i]) == js[i] {
        assert env.normpath(env.normpath(env.join(last.root, last.files[i]))) == env.normpath(env.join(last.root, last.files[i]));
      }
    }
  }

  /** The store after `add_folders`' loop and its `file_count`. */
  datatype Added = Added(store: Store, count: nat)

  /** The loop of `add_folders`: a visited path not yet tracked is saved and counted. */
  function AddWalked<S>(env: Env<S>, st: Store, paths: seq<Path>): Added
    decreases |paths|
  {
    if paths == [] then Added(st, 0)
    else
      var prior := AddWalked(env, st, paths[..|paths| - 1]);
      var p := paths[|paths| - 1];
      if p in prior.store.filesToCheck then prior
      else Added(Save(prior.store, env.normpath(p), FileHash(env, p)), prior.count + 1)
  }

  /** One step of `add_folders`' loop: with `p` normalised, an untracked `p` is saved
      under its own name and counted, and a tracked one is skipped. */
  lemma AddWalkedStep<S>(env: Env<S>, st: Store, paths: seq<Path>)
    requires paths != [] && env.normpath(paths[|paths| - 1]) == paths[|paths| - 1]
    ensures var prior, p := AddWalked(env, st, paths[..|paths| - 1]), paths[|paths| - 1];
      var r := AddWalked(env, st, paths);
      && (p in prior.store.filesToCheck ==> r == prior)
      && (p !in prior.store.filesToCheck ==>
            && r.count == prior.count + 1
            && r.store.filesToCheck == prior.store.filesToCheck + {p}
            && r.store.baselineHashes.Keys == prior.store.baselineHashes.Keys + {p})
  {
  }

  /** The distinct paths of a sequence. */
  function Elems(s: seq<Path>): set<Path>
  {
    set p | p in s
  }

  lemma ElemsSnoc(s: seq<Path>)
    requires s != []
    ensures Elems(s) == Elems(s[..|s| - 1]) + {s[|s| - 1]}
  {
    assert s == s[..|s| - 1] + [s[|s| - 1]];
  }

  lemma {:induction false} InitNormalised<S>(env: Env<S>, paths: seq<Path>)
    requires paths != []
    requires forall i :: 0 <= i < |paths| ==> env.normpath(paths[i]) == paths[i]
    ensures var init := paths[..|paths| - 1];
      forall i :: 0 <= i < |init| ==> env.normpath(init[i]) == init[i]
  {
    var init := paths[..|paths| - 1];
    forall i | 0 <= i < |init| ensures env.normpath(init[i]) == init[i] {
      assert init[i] == paths[i];
    }
  }

  /** Visiting one more path is one more step of the fold. */
  lemma AddWalkedSnoc<S>(env: Env<S>, st: Store, visited: seq<Path>, p: Path)
    ensures var prior := AddWalked(env, st, visited);
      AddWalked(env, st, visited + [p]) ==
        if p in prior.store.filesToCheck then prior
        else Added(Save(prior.store, env.normpath(p), FileHash(env, p)), prior.count + 1)
  {
    assert (visited + [p])[..|visited + [p]| - 1] == visited;
  }

  /** Saving the walked paths keeps every tracked path's hash in memory. */
  lemma {:induction false} AddWalkedKeepsTracked<S>(env: Env<S>, st: Store, paths: seq<Path>)
    requires Tracked(st)
    ensures Tracked(AddWalked(env, st, paths).store)
    decreases |paths|
  {
    if paths != [] {
      var prior := AddWalked(env, st, paths[..|paths| - 1]);
      var p := paths[|paths| - 1];
      AddWalkedKeepsTracked(env, st, paths[..|paths| - 1]);
      SaveEffect(prior.store, env.normpath(p), FileHash(env, p));
    }
  }

  /** For normalised visited paths, `add_folders` afterwards tracks the old set and
      every visited path, and keeps every tracked path's hash in memory. */
  lemma {:induction false} AddWalkedTracks<S>(env: Env<S>, st: Store, paths: seq<Path>)
    requires forall i :: 0 <= i < |paths| ==> env.normpath(paths[i]) == paths[i]
    ensures AddWalked(env, st, paths).store.filesToCheck == st.filesToCheck + Elems(paths)
    ensures Tracked(st) ==> Tracked(AddWalked(env, st, paths).store)
    decreases |paths|
  {
    if paths != [] {
      InitNormalised(env, paths);
      AddWalkedTracks(env, st, paths[..|paths| - 1]);
      AddWalkedStep(env, st, paths);
      ElemsSnoc(paths);
    }
  }

  /** For normalised visited paths, `add_folders` counts exactly the distinct visited
      paths that were not tracked before. */
  lemma {:induction false} AddWalkedCounts<S>(env: Env<S>, st: Store, paths: seq<Path>)
    requires forall i :: 0 <= i < |paths| ==> env.normpath(paths[i]) == paths[i]
    ensures AddWalked(env, st, paths).count == |Elems(paths) - st.filesToCheck|
    decreases |paths|
  {
    if paths != [] {
      var init := paths[..|paths| - 1];
      var p := paths[|paths| - 1];
      InitNormalised(env, paths);
      AddWalkedCounts(env, st, init);
      AddWalkedTracks(env, st, init);
      AddWalkedStep(env, st, paths);
      ElemsSnoc(paths);
      if p !in AddWalked(env, st, init).store.filesToCheck {
        NewPathCounted(Elems(init), st.filesToCheck, p);
      } else {
        KnownPathNotCounted(Elems(init), st.filesToCheck, p);
      }
    }
  }

  lemma KnownPathNotCounted(seen: set<Path>, before: set<Path>, p: Path)
    requires p in before + seen
    ensures (seen + {p}) - before == seen - before
  {
  }

  lemma NewPathCounted(seen: set<Path>, before: set<Path>, p: Path)
    requires p !in before + seen
    ensures |(seen + {p}) - before| == |seen - before| + 1
  {
    assert (seen + {p}) - before == (seen - before) + {p};
  }
}
