# IntegriSecure file-integrity core in Dafny

IntegriSecure records a baseline hash for each file the user adds. It keeps these in
`baseline_hashes.json` and in memory. "Check Integrity" sorts every tracked file into
changed, removed and not changed. "Verify Changes" offers those lists for acceptance,
and `submit` writes the accepted changes back into the baseline. A separate
monitor forwards watchdog events for tracked files to desktop notifications.

The model has seven modules:

- `Wrappers` holds `Option` and `Result`.
- `Paths` holds path strings and Python's `str` ordering (code-point lexicographic).
  It also holds the `list.sort` the three buckets go through, as an insertion sort.
  A uniqueness lemma shows that any sort gives the same list.
- `Host` holds the operating-system calls as parameters of an `Env`:
  - `os.path.isfile`;
  - reading a file's bytes (`None` when it cannot be opened);
  - the hash object (`hashlib.new`, `update`, `hexdigest`);
  - `os.path.normpath`;
  - `os.path.join`;
  - `os.walk`.
- `Fingerprint` holds `compute_file_hash`: a loop over 8192-byte chunks. It is
  specified by a fold of the hash's `update` over those chunks.
- `Baseline` holds the store: `baseline_hashes`, `files_to_check` and the JSON file,
  modelled as `Missing`, `Unparseable` or `Stored(map)`. It defines the pure
  meaning of every store operation and the lemmas about them:
  - `save_baseline`;
  - `append_to_baseline_hashes`;
  - `retrieve_data_from_baseline_hashes`;
  - the three `update_baseline_hashes` operations;
  - classification;
  - the accept fold of `submit`;
  - the loops of `add_files` and `add_folders`.
- `Checker` holds the class `FileIntegrityChecker`. Its fields are the ones the
  application updates in place. Each of its methods has the source's loops, and its
  `ensures` ties the new state to the `Baseline` function of the old state.
- `Monitoring` holds `FileChangeHandler` and its four `on_*` handlers, which return
  the notifications they send. It also holds the set of directories `monitor_files`
  schedules. `os.path.abspath` and `os.path.dirname` are parameters.

The user's choices from the file dialogs and the checkbox window are inputs:
- the picked paths;
- the picked folder, where `""` means the dialog was cancelled;
- the selected `(title, items)` lists.

## Model

| member | source | states |
|---|---|---|
| Paths.SortSorts | FIC.py:161-180 | sorting a bucket gives an ascending list with exactly the same paths, each as often as before |
| Paths.SortedUnique | FIC.py:161-180 | two ascending lists with the same paths are equal, so the displayed order is determined by the bucket's contents alone |
| Paths.LexLeTotal | FIC.py:162 | the string order used by `sort` is total |
| Paths.LexLeTransitive | FIC.py:162 | the string order used by `sort` is transitive |
| Paths.LexLeAntisymmetric | FIC.py:162 | the string order used by `sort` is antisymmetric |
| Paths.InsertKeepsSorted | FIC.py:162 | inserting a path into an ascending list keeps it ascending |
| Fingerprint.ChunksPartition | FIC.py:112 | the chunks read concatenate back to the file's bytes; each is non-empty and at most 8192 bytes; all but the last are full |
| Fingerprint.ComputeFileHash | FIC.py:107-117 | the digest is the hash of all chunks in order; the result is `None` exactly when the file cannot be read |
| Baseline.CreatePreservesRecord | FIC.py:362-379 | after creation the file exists; it loads the same record as before (`{}` when it was missing); creating it again changes nothing |
| Baseline.RetrieveFallback | FIC.py:406-425 | loading gives the stored map, or `{}` when the file is missing or not valid JSON; creating the file first loads the same map |
| Baseline.AppendMerges | FIC.py:383-402 | merging into the file adds the keys of `data` with its values and keeps every other stored entry; a missing file stays missing; two merges equal one merge of the combined data |
| Baseline.SaveEffect | FIC.py:307-321 | after saving, both the map in memory and the file map the key to the computed hash (possibly `None`), the key is tracked, and every other entry and tracked path is unchanged; `files_to_check ⊆ keys(baseline_hashes)` is preserved |
| Baseline.ChangeSpec | FIC.py:467-478 | `change` of a stored key with a hash sets that hash in both maps; otherwise memory is unchanged and the loaded record is written back as it was, so a file that is not valid JSON becomes `{}`; with no file nothing changes; the tracked set never changes |
| Baseline.RemoveSpec | FIC.py:447-455 | `remove` of a stored, tracked key deletes it from the file and from `files_to_check`, and leaves `baseline_hashes` as it was; a stored but untracked key raises `KeyError` and nothing is written; an unknown key leaves memory and the tracked set alone and writes the loaded record back, so a file that is not valid JSON becomes `{}`; with no file nothing changes |
| Baseline.RemoveIdempotent | FIC.py:447-455 | a second `remove` of the same path changes nothing |
| Baseline.RenameSpec | FIC.py:457-465 | `rename` of a stored key with a new name moves its value to the new key and keeps every other key; otherwise the loaded record is written back as it was (a file that is not valid JSON becomes `{}`; with no file nothing changes); neither `baseline_hashes` nor `files_to_check` changes |
| Baseline.UpdateRewritesUnparseable | FIC.py:441-485 | when the file is not valid JSON, each of the three operations succeeds, overwrites it with `{}`, and leaves memory and the tracked set as they were |
| Baseline.UnknownOperationRaises | FIC.py:480-484 | any other operation raises before anything is written; with no file, nothing happens at all |
| Baseline.UpdatePreservesTracked | FIC.py:427-485 | every successful update keeps `files_to_check ⊆ keys(baseline_hashes)`, so `load_baseline` never misses for a tracked path |
| Baseline.UpdateSyncAsymmetry | FIC.py:447-478 | starting from a file equal to `baseline_hashes`, `change` keeps them equal, while `remove` and `rename` leave the old key in memory but not on disk |
| Baseline.BucketsPartition | FIC.py:143-159 | the removed, changed and not-changed sets are pairwise disjoint and together are exactly the tracked set |
| Baseline.ListsPartition | FIC.py:143-159 | lists holding exactly the three buckets together contain every tracked path exactly once |
| Baseline.AppendToBucket | FIC.py:143-159 | appending a path to the list of its verdict keeps each list equal to its bucket of the paths visited so far |
| Baseline.ClassifyStep | FIC.py:143-159 | after one more path is appended to the list of its verdict, all three lists hold the buckets of the visited paths |
| Baseline.BucketMembers | FIC.py:143-159 | every path of a bucket's list is tracked and has that bucket's verdict |
| Baseline.UnreadableFileVerdict | FIC.py:328-334 | an existing file that cannot be read is unchanged exactly when its saved hash is also `None`, and changed otherwise |
| Baseline.SaveThenScan | FIC.py:307-334 | right after saving a normalised path, classification calls it not changed if it is a file and removed otherwise |
| Baseline.AcceptItemsStopped | FIC.py:199-206 | once an accepted item raises, the remaining items of that list are not applied |
| Baseline.AcceptSelectionsStopped | FIC.py:199-206 | once a list raises, the remaining lists are not applied |
| Baseline.AcceptItemsIgnored | FIC.py:199-206 | a list titled neither "changed" nor "removed" changes nothing |
| Baseline.AcceptItemsPreservesTracked | FIC.py:199-206 | accepting one list keeps `files_to_check ⊆ keys(baseline_hashes)` |
| Baseline.AcceptSelectionsPreservesTracked | FIC.py:199-206 | accepting all selected lists keeps `files_to_check ⊆ keys(baseline_hashes)` |
| Baseline.AcceptChangedThenScan | FIC.py:199-203 | accepting a readable stored file as changed makes the next check call it not changed |
| Baseline.AcceptRemovedTwice | FIC.py:204-206 | accepting a tracked stored file as removed untracks it and deletes it from the file, and accepting it again changes nothing |
| Baseline.SaveEachSnoc | FIC.py:68-76 | one more picked path is one more `save_baseline` of its normalised form |
| Baseline.SaveEachKeepsTracked | FIC.py:61-78 | saving the picked paths keeps `files_to_check ⊆ keys(baseline_hashes)`, whatever `normpath` does |
| Baseline.SaveEachTracks | FIC.py:61-78 | with an idempotent `normpath`, after `add_files` the tracked set is the old one plus the normalised picked paths, and `files_to_check ⊆ keys(baseline_hashes)` is kept |
| Baseline.JoinedPathsSnoc | FIC.py:90-95 | one more file name of a walk entry adds its normalised `join(root, name)` at the end of the visited paths |
| Baseline.WalkedPathsNormalised | FIC.py:89-95 | every path visited by the walk is already normalised |
| Baseline.AddWalkedStep | FIC.py:97-103 | a visited path already tracked changes nothing; a new one is saved, tracked and counted once |
| Baseline.AddWalkedSnoc | FIC.py:97-103 | visiting one more path either leaves the result alone (already tracked) or saves it and adds one to the count |
| Baseline.AddWalkedKeepsTracked | FIC.py:87-104 | saving the walked paths keeps `files_to_check ⊆ keys(baseline_hashes)`, whatever `normpath` does |
| Baseline.AddWalkedTracks | FIC.py:87-104 | for normalised visited paths, after the walk the tracked set is the old one united with every visited path, and `files_to_check ⊆ keys(baseline_hashes)` is kept |
| Baseline.AddWalkedCounts | FIC.py:87-104 | the reported count is the number of distinct visited paths that were not tracked before |
| Checker.FileIntegrityChecker.constructor | FIC.py:20-27 | the file is created if missing, `baseline_hashes` is its contents or `{}`, every key is tracked, nothing has been added yet |
| Checker.FileIntegrityChecker.AppendToBaselineHashes | FIC.py:383-402 | the file becomes the merge of its contents with `data`; nothing else changes |
| Checker.FileIntegrityChecker.SaveBaseline | FIC.py:307-321 | the state becomes `Save` of the old state with the normalised path and its computed hash; the tracking invariant is kept |
| Checker.FileIntegrityChecker.AddFiles | FIC.py:61-78 | every picked path is saved in order, the count is the number picked, no pick changes nothing; `files_to_check ⊆ keys(baseline_hashes)` is kept |
| Checker.FileIntegrityChecker.AddFolders | FIC.py:80-104 | the walk's paths are saved in order when new; with an idempotent `normpath`, the count is the number of new distinct paths and the tracked set becomes the old one plus every walked path; `""` changes nothing; `files_to_check ⊆ keys(baseline_hashes)` is kept |
| Checker.FileIntegrityChecker.AddWalkEntry | FIC.py:90-103 | the file names of one walk entry are processed as the model's fold over their joined paths |
| Checker.FileIntegrityChecker.CheckHash | FIC.py:328-334 | true exactly when the current hash equals the saved one |
| Checker.FileIntegrityChecker.ClassifyOne | FIC.py:145-159 | removed exactly when not a file; not changed exactly when a file whose current hash equals the saved one; changed otherwise |
| Checker.FileIntegrityChecker.AppendByVerdict | FIC.py:143-159 | one loop step: the path goes to the list of its verdict, keeping each list equal to its bucket |
| Checker.FileIntegrityChecker.Classify | FIC.py:143-159 | the three lists hold exactly the three buckets, so together every tracked path exactly once |
| Checker.FileIntegrityChecker.CheckIntegrity | FIC.py:119-183 | no tracked files gives the warning; otherwise three ascending lists, every tracked path in exactly one of them, each path in the list of its verdict |
| Checker.FileIntegrityChecker.VerifyChanges | FIC.py:268-304 | "Nothing to Verify" exactly when no path is changed or removed; otherwise a "changed" list and then a "removed" list, each present exactly when its bucket is non-empty and holding exactly that bucket |
| Checker.FileIntegrityChecker.UpdateBaselineHashes | FIC.py:427-490 | the fields become the result of the operation, or stay as they were when it raises; the tracking invariant is kept |
| Checker.FileIntegrityChecker.AcceptList | FIC.py:199-206 | one selected list is applied item by item, stopping at the first exception |
| Checker.FileIntegrityChecker.Submit | FIC.py:188-209 | the selected lists are applied in order, stopping at the first exception; the tracking invariant is kept |
| Monitoring.Image | rt_file_monitoring.py:12 | every given path's image is in the set, and everything in the set is the image of a given path |
| Monitoring.Forward | rt_file_monitoring.py:23-41 | one notification when the source path is tracked and none otherwise, with the handler's title and "`src` was ..." message |
| Monitoring.HandlersForwardTrackedOnly | rt_file_monitoring.py:10-36 | the handler tracks exactly the `abspath` images of the given paths; each handler sends exactly its one notification for such a path and nothing for any other |
| Monitoring.MoveDecidedBySource | rt_file_monitoring.py:38-41 | a move from an untracked path is never reported, whatever its destination; a move from a tracked path is reported once, whatever its destination |
| Monitoring.WatchedDirectoriesCoverTracked | rt_file_monitoring.py:49-57 | the parent of every tracked absolute path is scheduled, and every scheduled directory is such a parent |
| Monitoring.MissingFileStillMonitored | rt_file_monitoring.py:44-53 | a given path that is not a file is warned about, stays tracked and still has its parent scheduled |
| Monitoring.ParentsAreImage | rt_file_monitoring.py:53 | the scheduled directories are exactly `dirname(abspath(f))` of the given paths |
| Monitoring.SharedParentsScheduledOnce | rt_file_monitoring.py:53-57 | there are never more scheduled directories than given paths, and strictly fewer when two given paths share a parent, so each directory is scheduled once |
| Monitoring.ImageSize | rt_file_monitoring.py:53 | an image is never larger than the set it comes from |
| Monitoring.ImageShrinks | rt_file_monitoring.py:53 | two given paths with one image make the image strictly smaller |

## Left out

- Tk widgets, `result_text` formatting, message boxes and file dialogs are left out. The dialogs' answers are inputs. The reports are returned values.
- The `select_items_from_lists` window, `toggle_select_all` and `display_selected_items` are left out. The user's choices become the `Selection` input of `Submit`.
- `show_hashes` is left out. It is display only.
- `get_files_to_check` and `normalise_file_path` get no member of their own. They are one-line wrappers, and the model reads the field and applies `normpath` directly.
- `add_file_to_added_files` and `add_folder_to_added_folders` are inlined into `AddFiles` and `AddFolders`, which update `addedFiles` and `addedFolders`.
- `print` output and the never-read `saved_hash` attribute are left out. `LoadBaseline` is therefore a function of the current state.
- SHA-256 is left out. The hash object is a parameter: an initial state, `update` on a chunk, and `hexdigest`.
- `os.path.isfile`, `normpath`, `join`, `walk`, `abspath` and `dirname` are parameters, and their semantics are not modelled. The `add_files` and `add_folders` set and count properties assume `normpath(normpath(p)) == normpath(p)` (`Host.NormIdempotent`).
- Any other failure when reading a file in `compute_file_hash` is the same as "cannot be read" (`None`).
- JSON text, file handles, `seek` and `truncate` are left out. The file is a map, or `Missing`, or `Unparseable`.
- `append_to_baseline_hashes` does not truncate after rewriting. A shorter rewrite could leave trailing bytes, but this is byte-level behaviour and is not visible in a map model.
- An `OSError` other than a missing file is not modelled.
- A JSON value that is not an object is not modelled.
- The `APPDATA` lookup and `os.makedirs` are left out. The file's initial condition is the constructor's input.
- The exceptions `update_baseline_hashes` raises are returned as values. `KeyError` is raised when the path is in the file but not tracked, and `ValueError` (`InvalidOperation`) for an unknown operation. The Tk callback that would receive them is not modelled.
- `remove` (FIC.py:447-455) never deletes from `baseline_hashes`, so an accepted removal still shows in `show_hashes` until restart. The model follows the code.
- The code has no debouncing and no "Unknown" bucket, so neither is modelled.
- `Classify` visits `files_to_check` in an arbitrary order, as Python's set iteration does. Only the sorted output is pinned down.
- The watchdog `Observer`, its scheduling calls, the sleep loop, `KeyboardInterrupt` and the `plyer` notifier are left out. A handler's notifications are its returned sequence. `monitor_files`'s effect is the returned plan of warnings, handler and directories.
- Concurrency between the monitor and the application is not modelled.
- temp.py is not part of this model. It is a stand-alone checkbox demo.
