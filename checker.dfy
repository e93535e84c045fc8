/** `FileIntegrityCheckerApp` without its widgets: the fields it updates in place
    and the methods behind its buttons. */
module Checker {
  import opened Wrappers
  import opened Paths
  import opened Host
  import opened Fingerprint
  import opened Baseline

  /** What "Check Integrity" shows: a warning when nothing is tracked, otherwise the
      three buckets, each sorted. */
  datatype Report = NoFilesSelected | Checked(changed: seq<Path>, removed: seq<Path>, notChanged: seq<Path>)

  /** What "Verify Changes" opens: a notice, or the checkbox lists for `submit`. */
  datatype Verification = NothingToVerify | SelectFrom(lists: seq<Selection>)

  /** `lists` holds a "changed" list when `ch` is not empty, then a "removed" list when
      `rm` is not empty, each with exactly the paths of its set. */
  predicate ListsFor(lists: seq<Selection>, ch: set<Path>, rm: set<Path>)
  {
    && |lists| == (if ch == {} then 0 else 1) + (if rm == {} then 0 else 1)
    && (ch != {} ==> lists[0].title == "changed" && multiset(lists[0].items) == multiset(ch))
    && (rm != {} ==> lists[|lists| - 1].title == "removed" && multiset(lists[|lists| - 1].items) == multiset(rm))
  }

  /** Every path of `s` is tracked and has verdict `v`. */
  predicate AllHave<S>(env: Env<S>, baseline: Record, files: set<Path>, s: seq<Path>, v: Verdict)
  {
    forall p :: p in s ==> p in files && p in baseline && ClassOf(env, baseline, p) == v
  }

  class FileIntegrityChecker {
    var baselineHashes: Record
    var filesToCheck: set<Path>
    var disk: Disk
    var addedFolders: set<Path>
    var addedFiles: set<Path>

    /** The store the baseline operations act on. */
    function State(): Store
      reads this
    {
      Store(baselineHashes, filesToCheck, disk)
    }

    predicate Valid()
      reads this
    {
      Tracked(State())
    }

    /** `__init__`: create the file if missing, load it, track its keys. */
    constructor (initialDisk: Disk)
      ensures disk == CreateBaselineFile(initialDisk) && !disk.Missing?
      ensures baselineHashes == Retrieve(disk) && filesToCheck == baselineHashes.Keys
      ensures addedFolders == {} && addedFiles == {}
      ensures Valid()
    {
      disk := CreateBaselineFile(initialDisk);
      baselineHashes := Retrieve(CreateBaselineFile(initialDisk));
      filesToCheck := Retrieve(CreateBaselineFile(initialDisk)).Keys;
      addedFolders := {};
      addedFiles := {};
    }

    /** `append_to_baseline_hashes(data)`. */
    method AppendToBaselineHashes(data: Record)
      modifies this`disk
      ensures disk == AppendToDisk(old(disk), data)
    {
      if !disk.Missing? {
        var existingData := Retrieve(disk);
        existingData := existingData + data;
        disk := Stored(existingData);
      }
    }

    /** `save_baseline(file_path)`. */
    method SaveBaseline<S>(env: Env<S>, filePath: Path)
      modifies this`baselineHashes, this`filesToCheck, this`disk
      ensures State() == Save(old(State()), env.normpath(filePath), FileHash(env, filePath))
      ensures old(Valid()) ==> Valid()
    {
      var fileHash := ComputeFileHash(env, filePath);
      var key := env.normpath(filePath);
      AppendToBaselineHashes(map[key := fileHash]);
      baselineHashes := baselineHashes[key := fileHash];
      filesToCheck := filesToCheck + {key};
      SaveEffect(old(State()), key, fileHash);
    }

    /** `add_files`: each picked path normalised, remembered and saved; reports how
      many were picked, or nothing when the dialog returned none. */
    method AddFiles<S>(env: Env<S>, filePaths: seq<Path>) returns (added: Option<nat>)
      modifies this`baselineHashes, this`filesToCheck, this`disk, this`addedFiles
      ensures filePaths == [] ==> added == None && State() == old(State()) && addedFiles == old(addedFiles)
      ensures filePaths != [] ==> added == Some(|filePaths|)
      ensures State() == SaveEach(env, old(State()), filePaths)
      ensures addedFiles == old(addedFiles) + set p | p in filePaths :: env.normpath(p)
      ensures old(Valid()) ==> Valid()
    {
      if filePaths == [] {
        return None;
      }
      var i := 0;
      while i < |filePaths|
        invariant 0 <= i <= |filePaths|
        invariant State() == SaveEach(env, old(State()), filePaths[..i])
        invariant addedFiles == old(addedFiles) + set p | p in filePaths[..i] :: env.normpath(p)
      {
        var filePath := env.normpath(filePaths[i]);
        addedFiles := addedFiles + {filePath};
        SaveBaseline(env, filePath);
        SaveEachSnoc(env, old(State()), filePaths, i);
        i := i + 1;
      }
      assert filePaths[..i] == filePaths;
      if old(Valid()) {
        SaveEachKeepsTracked(env, old(State()), filePaths);
      }
      added := Some(|filePaths|);
    }

    /** `add_folders`: walks `folder`, saves every visited path not yet tracked and
      reports how many it saved; nothing happens when the dialog returned "". */
    method AddFolders<S>(env: Env<S>, folder: Path) returns (added: Option<nat>)
      modifies this`baselineHashes, this`filesToCheck, this`disk, this`addedFolders
      ensures folder == "" ==> added == None && State() == old(State()) && addedFolders == old(addedFolders)
      ensures folder != "" ==>
        var r := AddWalked(env, old(State()), WalkedPaths(env, env.walk(folder)));
        State() == r.store && added == Some(r.count) && addedFolders == old(addedFolders) + {folder}
      ensures folder != "" && NormIdempotent(env) ==>
        && filesToCheck == old(filesToCheck) + Elems(WalkedPaths(env, env.walk(folder)))
        && added == Some(|Elems(WalkedPaths(env, env.walk(folder))) - old(filesToCheck)|)
      ensures old(Valid()) ==> Valid()
    {
      if folder == "" {
        return None;
      }
      addedFolders := addedFolders + {folder};
      var fileCount := 0;
      var entries := env.walk(folder);
      var i := 0;
      while i < |entries|
        invariant 0 <= i <= |entries|
        invariant Added(State(), fileCount) == AddWalked(env, old(State()), WalkedPaths(env, entries[..i]))
        invariant addedFolders == old(addedFolders) + {folder}
      {
        fileCount := AddWalkEntry(env, entries[i].root, entries[i].files, fileCount,
                                  old(State()), WalkedPaths(env, entries[..i]));
        assert entries[..i + 1][..i] == entries[..i];
        i := i + 1;
      }
      assert entries[..i] == entries;
      added := Some(fileCount);
      if old(Valid()) {
        AddWalkedKeepsTracked(env, old(State()), WalkedPaths(env, entries));
      }
      if NormIdempotent(env) {
        WalkedPathsNormalised(env, entries);
        AddWalkedTracks(env, old(State()), WalkedPaths(env, entries));
        AddWalkedCounts(env, old(State()), WalkedPaths(env, entries));
      }
    }

    /** The inner loop of `add_folders` over the file names of one walk entry. */
    method AddWalkEntry<S>(env: Env<S>, rootDir: Path, names: seq<Path>, fileCount: nat,
                           ghost st0: Store, ghost visited: seq<Path>) returns (count: nat)
      requires Added(State(), fileCount) == AddWalked(env, st0, visited)
      modifies this`baselineHashes, this`filesToCheck, this`disk
      ensures Added(State(), count) == AddWalked(env, st0, visited + JoinedPaths(env, rootDir, names))
    {
      count := fileCount;
      var j := 0;
      assert visited + JoinedPaths(env, rootDir, names[..j]) == visited;
      while j < |names|
        invariant 0 <= j <= |names|
        invariant Added(State(), count) == AddWalked(env, st0, visited + JoinedPaths(env, rootDir, names[..j]))
      {
        var filePath := env.join(rootDir, names[j]);
        filePath := env.normpath(filePath);
        ghost var seen := visited + JoinedPaths(env, rootDir, names[..j]);
        JoinedPathsSnoc(env, rootDir, names, visited, j);
        AddWalkedSnoc(env, st0, seen, filePath);
        if filePath !in filesToCheck {
          SaveBaseline(env, filePath);
          count := count + 1;
        }
        j := j + 1;
      }
      assert names[..j] == names;
    }

    /** `load_baseline(file_path)`: the saved hash, a lookup that raises for an unknown path. */
    function LoadBaseline(filePath: Path): Option<Digest>
      reads this
      requires filePath in baselineHashes
    {
      baselineHashes[filePath]
    }

    /** `check_hash(file_path)`: whether the current hash equals the saved one. */
    method CheckHash<S>(env: Env<S>, filePath: Path) returns (same: bool)
      requires filePath in baselineHashes
      ensures same <==> FileHash(env, filePath) == baselineHashes[filePath]
      ensures env.isFile(filePath) ==> (same <==> ClassOf(env, baselineHashes, filePath) == NotChanged)
    {
      var savedHash := LoadBaseline(filePath);
      var currentHash := ComputeFileHash(env, filePath);
      same := currentHash == savedHash;
    }

    /** The branch of that loop for one tracked path: not a file is removed, else
      `check_hash` decides between changed and not changed. */
    method ClassifyOne<S>(env: Env<S>, filePath: Path) returns (verdict: Verdict)
      requires filePath in baselineHashes
      ensures verdict == Removed <==> !env.isFile(filePath)
      ensures verdict == NotChanged <==> env.isFile(filePath) && FileHash(env, filePath) == baselineHashes[filePath]
      ensures verdict == ClassOf(env, baselineHashes, filePath)
    {
      if !env.isFile(filePath) {
        verdict := Removed;
      } else {
        var same := CheckHash(env, filePath);
        if !same {
          verdict := Changed;
        } else {
          verdict := NotChanged;
        }
      }
    }

    /** The loop shared by `check_integrity` and `verify_changes`: each tracked path,
      in the set's iteration order, appended to the list of its verdict. */
    method Classify<S>(env: Env<S>) returns (changed: seq<Path>, removed: seq<Path>, notChanged: seq<Path>)
      requires Valid()
      ensures multiset(changed) == multiset(Bucket(env, baselineHashes, filesToCheck, Changed))
      ensures multiset(removed) == multiset(Bucket(env, baselineHashes, filesToCheck, Removed))
      ensures multiset(notChanged) == multiset(Bucket(env, baselineHashes, filesToCheck, NotChanged))
      ensures multiset(changed) + multiset(removed) + multiset(notChanged) == multiset(filesToCheck)
    {
      changed, removed, notChanged := [], [], [];
      var remaining := filesToCheck;
      ghost var done: set<Path> := {};
      while remaining != {}
        invariant remaining <= filesToCheck && done == filesToCheck - remaining
        invariant multiset(changed) == multiset(Bucket(env, baselineHashes, done, Changed))
        invariant multiset(removed) == multiset(Bucket(env, baselineHashes, done, Removed))
        invariant multiset(notChanged) == multiset(Bucket(env, baselineHashes, done, NotChanged))
        decreases remaining
      {
        var filePath :| filePath in remaining;
        changed, removed, notChanged := AppendByVerdict(env, filePath, done, changed, removed, notChanged);
        remaining := remaining - {filePath};
        done := done + {filePath};
      }
      ListsPartition(env, baselineHashes, filesToCheck, changed, removed, notChanged);
    }

    /** The body of that loop for one path: the path is appended to the list of its
      verdict, so the lists hold the buckets of the paths visited so far. */
    method AppendByVerdict<S>(env: Env<S>, filePath: Path, ghost done: set<Path>,
                              ch: seq<Path>, rm: seq<Path>, nc: seq<Path>)
      returns (changed: seq<Path>, removed: seq<Path>, notChanged: seq<Path>)
      requires filePath in baselineHashes && filePath !in done
      requires multiset(ch) == multiset(Bucket(env, baselineHashes, done, Changed))
      requires multiset(rm) == multiset(Bucket(env, baselineHashes, done, Removed))
      requires multiset(nc) == multiset(Bucket(env, baselineHashes, done, NotChanged))
      ensures multiset(changed) == multiset(Bucket(env, baselineHashes, done + {filePath}, Changed))
      ensures multiset(removed) == multiset(Bucket(env, baselineHashes, done + {filePath}, Removed))
      ensures multiset(notChanged) == multiset(Bucket(env, baselineHashes, done + {filePath}, NotChanged))
    {
      ClassifyStep(env, baselineHashes, done, filePath, ch, rm, nc);
      changed, removed, notChanged := ch, rm, nc;
      var verdict := ClassifyOne(env, filePath);
      match verdict {
        case Removed => removed := removed + [filePath];
        case Changed => changed := changed + [filePath];
        case NotChanged => notChanged := notChanged + [filePath];
      }
    }

    /** `check_integrity`. */
    method CheckIntegrity<S>(env: Env<S>) returns (report: Report)
      requires Valid()
      ensures report.NoFilesSelected? <==> filesToCheck == {}
      ensures report.Checked? ==>
        && Sorted(report.changed) && Sorted(report.removed) && Sorted(report.notChanged)
        && multiset(report.changed) + multiset(report.removed) + multiset(report.notChanged) == multiset(filesToCheck)
        && AllHave(env, baselineHashes, filesToCheck, report.changed, Changed)
        && AllHave(env, baselineHashes, filesToCheck, report.removed, Removed)
        && AllHave(env, baselineHashes, filesToCheck, report.notChanged, NotChanged)
    {
      if filesToCheck == {} {
        return NoFilesSelected;
      }
      var changed, removed, notChanged := Classify(env);
      SortSorts(changed);
      SortSorts(removed);
      SortSorts(notChanged);
      report := Checked(Sort(changed), Sort(removed), Sort(notChanged));
      BucketMembers(env, baselineHashes, filesToCheck, report.changed, Changed);
      BucketMembers(env, baselineHashes, filesToCheck, report.removed, Removed);
      BucketMembers(env, baselineHashes, filesToCheck, report.notChanged, NotChanged);
    }

    /** `verify_changes`: the lists offered for acceptance. */
    method VerifyChanges<S>(env: Env<S>) returns (v: Verification)
      requires Valid()
      ensures var ch, rm := Bucket(env, baselineHashes, filesToCheck, Changed),
                            Bucket(env, baselineHashes, filesToCheck, Removed);
        && (v.NothingToVerify? <==> ch == {} && rm == {})
        && (v.SelectFrom? ==> ListsFor(v.lists, ch, rm))
    {
      var changed, removed, notChanged := Classify(env);
      var titlesAndElements: seq<Selection> := [];
      if changed != [] {
        titlesAndElements := titlesAndElements + [Selection("changed", changed)];
      }
      if removed != [] {
        titlesAndElements := titlesAndElements + [Selection("removed", removed)];
      }
      if titlesAndElements != [] {
        v := SelectFrom(titlesAndElements);
      } else {
        v := NothingToVerify;
      }
    }

    /** `update_baseline_hashes(operation, file_name, new_name, new_hash)` on the fields;
      returns the exception it raises, if any. */
    method UpdateBaselineHashes(operation: string, fileName: Path, newName: Option<Path>, newHash: Option<Digest>)
      returns (raised: Option<Error>)
      modifies this`baselineHashes, this`filesToCheck, this`disk
      ensures var u := Update(old(State()), operation, fileName, newName, newHash);
        && (u.Ok? ==> raised == None && State() == u.value)
        && (u.Err? ==> raised == Some(u.error) && State() == old(State()))
      ensures old(Valid()) ==> Valid()
    {
      if Valid() {
        UpdatePreservesTracked(State(), operation, fileName, newName, newHash);
      }
      if disk.Missing? {
        return None;
      }
      var existingData := Retrieve(disk);
      if operation == "remove" {
        if fileName in existingData {
          existingData := existingData - {fileName};
          if fileName !in filesToCheck {
            return Some(KeyError(fileName));
          }
          filesToCheck := filesToCheck - {fileName};
        }
      } else if operation == "rename" {
        if fileName in existingData && newName.Some? {
          var value := existingData[fileName];
          existingData := existingData - {fileName};
          existingData := existingData[newName.value := value];
        }
      } else if operation == "change" {
        if fileName in existingData && newHash.Some? {
          existingData := existingData[fileName := newHash];
          baselineHashes := baselineHashes[fileName := newHash];
        }
      } else {
        return Some(InvalidOperation);
      }
      disk := Stored(existingData);
      raised := None;
    }

    /** The inner loop of `submit` for one titled list of a "changed" or "removed"
      selection; stops at the first exception. */
    method AcceptList<S>(env: Env<S>, title: string, items: seq<Path>) returns (raised: Option<Error>)
      requires title == "changed" || title == "removed"
      modifies this`baselineHashes, this`filesToCheck, this`disk
      ensures Accepted(State(), raised) == AcceptItems(env, old(State()), title, items)
    {
      var j := 0;
      while j < |items|
        invariant 0 <= j <= |items|
        invariant AcceptItems(env, old(State()), title, items[..j]) == Accepted(State(), None)
      {
        assert items[..j + 1][..j] == items[..j];
        var item := items[j];
        if title == "changed" {
          var newHash := ComputeFileHash(env, item);
          raised := UpdateBaselineHashes("change", item, None, newHash);
        } else {
          raised := UpdateBaselineHashes("remove", item, None, None);
        }
        if raised.Some? {
          AcceptItemsStopped(env, old(State()), title, items, j + 1);
          return;
        }
        j := j + 1;
      }
      assert items[..j] == items;
      raised := None;
    }

    /** The accept step of `submit`: each selected "changed" item gets a fresh hash, each
      selected "removed" item is removed; an exception ends the submit. */
    method Submit<S>(env: Env<S>, selectedItems: seq<Selection>) returns (raised: Option<Error>)
      modifies this`baselineHashes, this`filesToCheck, this`disk
      ensures Accepted(State(), raised) == AcceptSelections(env, old(State()), selectedItems)
      ensures old(Valid()) ==> Valid()
    {
      if old(Valid()) {
        AcceptSelectionsPreservesTracked(env, old(State()), selectedItems);
      }
      var i := 0;
      while i < |selectedItems|
        invariant 0 <= i <= |selectedItems|
        invariant AcceptSelections(env, old(State()), selectedItems[..i]) == Accepted(State(), None)
      {
        var title, items := selectedItems[i].title, selectedItems[i].items;
        assert selectedItems[..i + 1][..i] == selectedItems[..i];
        if title == "changed" || title == "removed" {
          raised := AcceptList(env, title, items);
          if raised.Some? {
            AcceptSelectionsStopped(env, old(State()), selectedItems, i + 1);
            return;
          }
        } else {
          AcceptItemsIgnored(env, State(), title, items);
        }
        i := i + 1;
      }
      assert selectedItems[..i] == selectedItems;
      raised := None;
    }
  }
}
