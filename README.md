# CloneReaper duplicate finder: a Dafny model of its detection-and-remediation pipeline

CloneReaper finds duplicate files under a directory and optionally deletes,
quarantines or hard-links the extra copies. This project models the core of
`CloneReaperPrimeProd.py` and proves properties of it. The stages are:

1. Size bucketing (`find_potential_duplicates_by_size`).
2. The hardlink partition (`identify_hardlinks`).
3. Two-stage hash grouping (`compute_hash_worker`, `identify_duplicates_by_hash`).
4. Wasted-space accounting (`calculate_wasted_space`).
5. Keep selection (`select_file_to_keep`).
6. The action executor (`perform_actions`).
7. `normalize_path`, and the final confirmation gate of `run_scan_and_process`.

The filesystem is a value, `map<Path, Entry>`. An entry records:

- its kind (regular file, directory, symbolic link with its target, or other);
- its `lstat` size and its content bytes;
- its identity key (`(st_dev, st_ino)`, or the NTFS file index);
- its mtime;
- whether its metadata can be read, whether it can be opened, and whether the OS refuses to unlink or rename it.

The queries are the `os` calls the program makes:

- `lstat` does not follow links.
- `isfile`, `exists`, `stat` and `open` follow up to 40 symbolic links.

The effects are `remove`, `shutil.move`, `link` and `makedirs`. Each returns `None` where the call raises, except `makedirs`, which returns the kind of error: a clash with an existing entry, or a refusal.

The digest is an uninterpreted function `seq<byte> -> string` supplied by
the host (`Env`), as are the platform and `os.path.abspath`.

Python dicts are insertion-ordered association lists (`Dicts.Dict`):

- `d[k] = v` replaces the value in place or appends a new entry.
- `defaultdict(list).append/extend` appends under the key.
- Order matters. It decides which path is "first" and the order in which the executor visits paths.

Where the source mutates state, the model does too:

- The configuration object is a class, `Configuration.Config`. `identify_duplicates_by_hash` switches `partial_hash` off and restores it.
- The disk is a class, `FileSystem.Disk`. Its methods apply the effect functions.
- Every `for` loop of the modelled functions, and the `while` loop that reads a file chunk by chunk, is a Dafny `while` loop proved against a recursive specification function. `Pool.map` is an order-preserving sequential loop.

The modules are:

- `Wrappers`: Option.
- `Paths`: POSIX `join`, `basename`, `splitext`, and the stamped quarantine name.
- `FileSystem`
- `Configuration`
- `Dicts`
- `Scan`
- `Hardlinks`
- `Hashing`
- `Waste`
- `Keep`
- `Actions`
- `Pipeline`

## Model

| member | source | states |
|---|---|---|
| Configuration.Config.constructor | CloneReaperPrimeProd.py:52-70 | a new configuration holds the defaults: no directory, `min_size` 1, partial hashing off, hardlink checks only where `pywin32` loaded, dry run on, action `none`, keep `first`, no quarantine path, 2 confirmations |
| Configuration.NormalizeIdempotent | CloneReaperPrimeProd.py:129-138 | normalizing twice equals normalizing once; with long paths on Windows the result always carries the `\\?\` prefix, and otherwise (or if the prefix is already there) the path is unchanged |
| Paths.Basename | CloneReaperPrimeProd.py:523 | the base name holds no `/` and is a suffix of the path |
| Paths.SplitExtParts | CloneReaperPrimeProd.py:529 | `base + ext` gives back the name, and a non-empty `ext` starts with `.` |
| Paths.JoinRelative | CloneReaperPrimeProd.py:524-526 | joining a relative name gives the directory, a `/` unless it already ends in one, then the name |
| Paths.DirnameJoin | CloneReaperPrimeProd.py:524-526 | the directory of a name joined onto a directory that does not end in `/` is that directory |
| Paths.StampedDiffers | CloneReaperPrimeProd.py:527-534 | the timestamped quarantine name `base_<ts>ext` differs from the plain name in the same directory and is still a bare name |
| FileSystem.Follow | CloneReaperPrimeProd.py:235 | link resolution ends, if at all, on an existing entry that is not a link; an existing non-link resolves to itself |
| FileSystem.StatTarget | CloneReaperPrimeProd.py:173 | `os.stat` succeeds only on an existing, statable, non-link entry |
| FileSystem.RemoveFile | CloneReaperPrimeProd.py:520 | a successful `os.remove` takes exactly that path out of the filesystem |
| FileSystem.MoveFile | CloneReaperPrimeProd.py:535 | a successful `shutil.move` removes the source and puts its entry at the target, which is the destination, or `destination/basename` when the destination is a directory; unless the source is renamed onto itself, the target's parent is a directory |
| FileSystem.HardLink | CloneReaperPrimeProd.py:537-543 | a successful link creates only the new name, with the entry (hence the identity key) of the resolved target |
| FileSystem.MakeDirs | CloneReaperPrimeProd.py:490-491 | a successful `os.makedirs` keeps every existing entry as it was and adds only new directories, each at a prefix of the path: its missing parents and the path itself |
| FileSystem.Disk.Remove | CloneReaperPrimeProd.py:520 | the disk changes as `RemoveFile` says exactly when the call succeeds, and is unchanged otherwise |
| FileSystem.Disk.Move | CloneReaperPrimeProd.py:535 | the same for `MoveFile` |
| FileSystem.Disk.Link | CloneReaperPrimeProd.py:539-543 | the same for `HardLink` |
| FileSystem.Disk.MakeDirectory | CloneReaperPrimeProd.py:491 | the same for `MakeDirs` |
| Dicts.PutGet | CloneReaperPrimeProd.py:308 | after `d[k] = v`, looking up `k` gives `v` and every other key gives what it gave before |
| Dicts.GroupGet | CloneReaperPrimeProd.py:239 | in a defaultdict filled by `append`, the list under a key is exactly the items with that key in order, and a key never appended is absent |
| Dicts.MultiplesGet | CloneReaperPrimeProd.py:253-257 | filtering to lists of more than one path keeps a key's list exactly when it has two or more paths |
| Scan.FindPotentialDuplicatesBySize | CloneReaperPrimeProd.py:215-261 | the loop returns the size buckets of two or more paths, the count of bucketed paths, and the count of unreadable entries, against the specification functions |
| Scan.BucketsBySize | CloneReaperPrimeProd.py:238-239 | the bucket of size `s` is present exactly when two or more walked paths are files of `lstat` size `s >= min_size`, and then holds exactly those paths in walk order |
| Scan.SelectIsCandidates | CloneReaperPrimeProd.py:232-240 | the paths filed under size `s` are the walked entries whose `lstat` gives `s`, that `isfile` (which follows links) accepts, and whose size is at least the minimum |
| Scan.BucketsAreCandidates | CloneReaperPrimeProd.py:229-257 | every bucket has at least two paths, and each path in it was walked, is a file, and `lstat`s to the bucket's size, which is at least the minimum |
| Scan.SizeItemsSound | CloneReaperPrimeProd.py:232-240 | every path the scan files was walked and classified as a candidate of that size |
| Scan.UnreadableCounted | CloneReaperPrimeProd.py:241-245 | the unreadable counter counts exactly the walked paths whose `lstat` fails other than by vanishing; vanished paths are skipped uncounted |
| Hardlinks.GroupById | CloneReaperPrimeProd.py:278-289 | the inner loop builds `files_by_id`: the keyed paths grouped by identity key in order |
| Hardlinks.SplitById | CloneReaperPrimeProd.py:291-297 | groups of two or more are appended to `hardlinks_found` and add `size * (n - 1)`, and singletons go to the remaining paths |
| Hardlinks.IdentifyBucket | CloneReaperPrimeProd.py:277-308 | one bucket: the residual (singletons, then paths without a key) is stored only when it has more than one path, and the hardlink groups and the shared space are extended |
| Hardlinks.IdentifyHardlinks | CloneReaperPrimeProd.py:264-316 | the whole loop equals the specification `Identify` for `(groups_to_check, hardlinks_found, hardlink_space)` |
| Hardlinks.KeyedItemsMembers | CloneReaperPrimeProd.py:286-289 | a path is keyed under `k` exactly when it is in the bucket and its identity lookup gives `k` |
| Hardlinks.UnkeyedMembers | CloneReaperPrimeProd.py:300-304 | the paths without an id are exactly the bucket's paths whose lookup fails |
| Hardlinks.HardlinkSetsSound | CloneReaperPrimeProd.py:288-295 | every hardlink group has at least two bucketed paths, all with its identity key |
| Hardlinks.UnkeyedStay | CloneReaperPrimeProd.py:299-305 | a path without an identity key always goes to the residual |
| Hardlinks.BucketPartition | CloneReaperPrimeProd.py:288-305 | a bucket's paths are exactly the hardlink groups' paths plus the residual, as multisets |
| Hardlinks.ToCheckSound | CloneReaperPrimeProd.py:307-308 | every group kept for hashing has at least two paths and is the residual of an input bucket of the same size |
| Hardlinks.ToCheckGet | CloneReaperPrimeProd.py:307-308 | for distinct bucket sizes, size `s` is kept for hashing exactly when its residual has more than one path, and then with that residual |
| Hardlinks.BucketSpace | CloneReaperPrimeProd.py:292-295 | one bucket's shared space is its size times the number of its keyed paths beyond one per identity |
| Hardlinks.SpaceCounted | CloneReaperPrimeProd.py:273-295 | `hardlink_space` equals that figure summed over the buckets |
| Hashing.ComputeHashWorker | CloneReaperPrimeProd.py:189-212 | the chunk loop gives `None` for an unopenable file, `""` for an empty file in partial mode, the digest of the first 65536 bytes in partial mode, and the digest of the whole content otherwise |
| Hashing.PoolMap | CloneReaperPrimeProd.py:347-348 | the map returns one `(path, digest)` per task, in task order |
| Hashing.HashesAt | CloneReaperPrimeProd.py:348 | result `i` is the worker's answer for task `i` |
| Hashing.CollectPartialHashes | CloneReaperPrimeProd.py:346-350 | `partial_hashes` maps each path to its last result |
| Hashing.HashMapGet | CloneReaperPrimeProd.py:349-355 | `partial_hashes.get(path)` is the worker's partial digest of every bucketed path |
| Hashing.GroupByPartialHash | CloneReaperPrimeProd.py:352-357 | the nested loop groups the paths with a partial digest by `(size, phash)` in order |
| Hashing.GroupBucket | CloneReaperPrimeProd.py:354-357 | the inner loop appends one bucket's paths with a digest under their key |
| Hashing.CollectSurvivors | CloneReaperPrimeProd.py:359-361 | `files_to_hash_full` is the concatenation of the groups of two or more, in order |
| Hashing.FilesToHashFull | CloneReaperPrimeProd.py:334-372 | stage 1 hands full hashing the partial-pass survivors, or every bucketed path when partial mode is off |
| Hashing.CollectFinalHashes | CloneReaperPrimeProd.py:388-392 | `final_hashes` is the insertion-ordered dict of the results |
| Hashing.GroupByFullHash | CloneReaperPrimeProd.py:395-398 | paths with a truthy full digest are grouped by that digest alone, in order |
| Hashing.KeepShared | CloneReaperPrimeProd.py:400-402 | the duplicates are the digests holding two or more paths |
| Hashing.SharedFullHashes | CloneReaperPrimeProd.py:388-402 | these three loops together compute the specification of stage 2 |
| Hashing.IdentifyDuplicatesByHash | CloneReaperPrimeProd.py:319-407 | the result equals the specification `DuplicatesByHash` under the settings on entry, and `partial_hash` (and every other field) has its original value on return |
| Hashing.FinalHashesMembers | CloneReaperPrimeProd.py:388-392 | every `final_hashes` entry is a hashed path with the worker's digest of it |
| Hashing.FinalHashesDistinct | CloneReaperPrimeProd.py:388-392 | for distinct paths, `final_hashes` holds every result in task order |
| Hashing.DigestItemsMembers | CloneReaperPrimeProd.py:396-398 | every grouped item comes from a `final_hashes` entry with that non-empty digest |
| Hashing.ToHashFullWithin | CloneReaperPrimeProd.py:359-369 | what is hashed in full is drawn from the buckets, each path at most as often as it was bucketed |
| Hashing.ToHashFullDistinct | CloneReaperPrimeProd.py:359-369 | distinct bucketed paths give distinct paths to hash in full |
| Hashing.DuplicatesSound | CloneReaperPrimeProd.py:355-402 | every reported set has at least two bucketed paths under a non-empty digest, and each could be read and its whole content hashes to that digest, so an unreadable path is in no set |
| Hashing.DuplicatesExact | CloneReaperPrimeProd.py:395-402 | for distinct paths, the set under digest `h` is exactly the fully hashed paths whose content hashes to `h`, in hashing order, and it is reported exactly when there are two or more |
| Hashing.TwinsReported | CloneReaperPrimeProd.py:334-402 | two different paths of one bucket with equal readable content end up in the same reported set, with partial mode on or off |
| Hashing.BothSurvive | CloneReaperPrimeProd.py:352-361 | with partial mode on, two such paths share `(size, phash)` and both reach full hashing |
| Hashing.MatchingMembers | CloneReaperPrimeProd.py:395-398 | the reference duplicate set under `h` holds exactly the paths whose full digest is `h` |
| Hashing.MatchingDistinct | CloneReaperPrimeProd.py:395-398 | the reference set of distinct paths is itself distinct |
| Hashing.PartialAgreesWithFull | CloneReaperPrimeProd.py:334-402 | with an injective digest and buckets keyed by content length, partial mode reports a set under `h` exactly when full mode does, with the same paths |
| Hashing.LoneKeyDropped | CloneReaperPrimeProd.py:352-361 | a path that shares its `(size, phash)` key with no other path is not hashed in full |
| Hashing.LinkKeyAlone | CloneReaperPrimeProd.py:352-361 | in the instance of a symbolic link bucketed with a file of another content, the link is alone under its key and is not hashed in full |
| Hashing.LinkFullOrder | CloneReaperPrimeProd.py:395-398 | in that instance, the paths whose full digest is that of `A` are `L`, `A`, `B`, in walk order |
| Hashing.LinkSplitsModes | CloneReaperPrimeProd.py:334-402 | in that instance, with partial mode off the set `[L, A, B]` is reported, the link first and then the two files whose content it names; with partial mode on, a set holding `A` and `B` and not the link is reported |
| Hashing.SurvivorsCover | CloneReaperPrimeProd.py:352-361 | under those assumptions, when two or more bucketed paths share a full digest, all of them survive the partial pass |
| Waste.CalculateWastedSpace | CloneReaperPrimeProd.py:411-429 | the loop computes the waste as specified |
| Waste.WastedConcat | CloneReaperPrimeProd.py:416-428 | the waste is additive over the sets, so one set's failed `lstat` affects no other set |
| Waste.WastedMultiples | CloneReaperPrimeProd.py:416-423 | sets of fewer than two paths contribute nothing |
| Waste.SingleSetWaste | CloneReaperPrimeProd.py:417-423 | an empty or one-path set wastes nothing |
| Waste.UniformSetWaste | CloneReaperPrimeProd.py:419-423 | a set whose paths all `lstat` to one size of at least the minimum wastes that size once for every path but one |
| Keep.InsertMembers | CloneReaperPrimeProd.py:460-462 | insertion adds exactly the new pair |
| Keep.SortSorted | CloneReaperPrimeProd.py:460-462 | the stable sort's output is ordered by key, ascending or reversed |
| Keep.SortNames | CloneReaperPrimeProd.py:460-462 | the sort is a permutation of its input |
| Keep.SortHead | CloneReaperPrimeProd.py:460-463 | the sorted list starts with the earliest element whose key is best, which is Python's stable behaviour under `reverse=True` too |
| Keep.FirstBest | CloneReaperPrimeProd.py:463 | it picks an index whose key is best, and no earlier index has an equally good key |
| Keep.Decorate | CloneReaperPrimeProd.py:445-454 | each path is paired with its strategy key, in list order |
| Keep.NamesDecorate | CloneReaperPrimeProd.py:458-462 | stripping the keys gives back the list |
| Keep.Ordered | CloneReaperPrimeProd.py:458-470 | the list that is split is a permutation of the input |
| Keep.KeepPartition | CloneReaperPrimeProd.py:436-470 | an empty list gives `("", [])`; otherwise `[keep] + process` is a permutation of the list and `process` has one path fewer |
| Keep.KeepNotProcessed | CloneReaperPrimeProd.py:504-509 | in a list without repeats, the kept path is in the list and is never processed |
| Keep.KeepFirstPath | CloneReaperPrimeProd.py:439-470 | `first`, or an unknown strategy, gives `(list[0], list[1:])` |
| Keep.KeepShortest | CloneReaperPrimeProd.py:445-463 | `shortest` keeps the earliest path of minimal length |
| Keep.KeepLongest | CloneReaperPrimeProd.py:447-463 | `longest` keeps the earliest path of maximal length |
| Keep.KeepBest | CloneReaperPrimeProd.py:458-463 | for any sorting strategy whose keys can all be computed, the kept path is the earliest one with the best key |
| Keep.KeepByAge | CloneReaperPrimeProd.py:450-463 | `oldest`/`newest` keep the earliest path with the smallest/largest mtime when every mtime can be read |
| Keep.KeepByAgeFallback | CloneReaperPrimeProd.py:464-468 | when some mtime cannot be read, `(list[0], list[1:])` is returned |
| Actions.ActOn | CloneReaperPrimeProd.py:510-547 | a path is counted only with its `lstat` size; an uncounted path changes nothing except in real link mode; a dry run never changes the filesystem |
| Actions.ActOnFile | CloneReaperPrimeProd.py:509-552 | the per-path `try` on the disk does what `ActOn` specifies |
| Actions.ProcessFileList | CloneReaperPrimeProd.py:509-552 | the inner loop over `process_list` matches its specification |
| Actions.ProcessDuplicateSet | CloneReaperPrimeProd.py:500-552 | one set: sets of fewer than two paths are skipped; otherwise keep selection runs on the current disk and the process list is acted on |
| Actions.ProcessAllSets | CloneReaperPrimeProd.py:500-552 | the loop over the sets matches its specification |
| Actions.PerformActions | CloneReaperPrimeProd.py:473-557 | `perform_actions` returns `(0, 0)` with no change for no sets or mode `none`, creates a missing quarantine directory first, aborts when that raises, and otherwise returns the loop's counters |
| Actions.ProcessFilesConcat | CloneReaperPrimeProd.py:509-547 | the per-file loop composes: processing `a + b` is `a`, then `b` on the result, with counts and sizes added |
| Actions.FilesCountBounded | CloneReaperPrimeProd.py:545 | no more paths are counted than are processed |
| Actions.CountBounded | CloneReaperPrimeProd.py:477-545 | no sets or mode `none` gives `(0, 0)` and no change; otherwise the count never exceeds the paths beyond one in each set |
| Actions.ProcessSubset | CloneReaperPrimeProd.py:504-509 | every processed path belongs to its set |
| Actions.ActOnDry | CloneReaperPrimeProd.py:511-546 | in a dry run a path changes nothing and is counted with its size exactly when its `lstat` succeeds |
| Actions.DryRunUnchanged | CloneReaperPrimeProd.py:483-518 | a dry run leaves the filesystem as it was (no quarantine directory is made) and always completes |
| Actions.DryRunTotals | CloneReaperPrimeProd.py:477-546 | a dry run in any mode but `none` leaves the filesystem as it was and reports, over the sets of two or more, the number of paths left to process whose `lstat` succeeds and the sum of their `lstat` sizes |
| Actions.DryRunCount | CloneReaperPrimeProd.py:500-546 | in a dry run where every path `lstat`s, the count is the number of paths beyond one per set of two or more |
| Actions.DryFilesSaved | CloneReaperPrimeProd.py:509-546 | in a dry run over paths of one size, the count is their number and the bytes are their total size |
| Actions.DrySetSaved | CloneReaperPrimeProd.py:500-546 | in a dry run over a uniform set, the processed count and bytes equal the extra copies and that set's waste |
| Actions.DryRunMatchesWaste | CloneReaperPrimeProd.py:411-557 | when each set is uniform in size, a dry run reports exactly the extra copies and the space `calculate_wasted_space` computes |
| Actions.ActOnDelete | CloneReaperPrimeProd.py:519-520 | in real delete mode a counted path is removed and nothing else changes, and an uncounted one changes nothing |
| Actions.ActOnDeleteExact | CloneReaperPrimeProd.py:512-520 | in real delete mode a path is removed and counted with its size exactly when its `lstat` and `os.remove` succeed, and otherwise nothing changes |
| Actions.DeleteFilesExact | CloneReaperPrimeProd.py:509-547 | over distinct paths, the inner loop removes exactly its removable paths and counts each with its size |
| Actions.DeleteSetsExact | CloneReaperPrimeProd.py:500-547 | the loop over the sets removes exactly the removable paths left to process, counts each with its size, never removes a set's kept path and removes only paths of the sets |
| Actions.DeleteRunExact | CloneReaperPrimeProd.py:477-557 | a real delete run removes exactly those entries and changes no other, returns their number and the sum of their sizes, and leaves each set's kept path as it was |
| Actions.DeleteRemovesCounted | CloneReaperPrimeProd.py:519-547 | a real delete run only removes entries, exactly as many as it counts, and changes no surviving entry |
| Actions.QuarantineStep | CloneReaperPrimeProd.py:521-546 | quarantine moves the path to `q/basename`, or to `q/base_<ts>ext` when `q/basename` exists; it counts the path with its `lstat` size exactly when `lstat` and the move succeed, the filesystem is then the move's result (into the destination when that is a directory), and otherwise nothing changes; an existing `q/basename` other than the path is left as it was |
| Actions.QuarantineExact | CloneReaperPrimeProd.py:512-535 | in real quarantine mode a path gives the result of `shutil.move` to its destination and is counted with its size exactly when its `lstat` and the move succeed, and otherwise nothing changes |
| Actions.QuarantineReplaces | CloneReaperPrimeProd.py:527-535 | as written: when `q/basename` exists and the stamped name is an existing regular file, a path whose `lstat` and move succeed is counted and its entry replaces that file |
| Actions.QuarantineReplacesExample | CloneReaperPrimeProd.py:522-535 | an instance meeting every hypothesis of the previous row, in which the replaced file has other content than the moved one |
| Actions.SafeQuarantineDest | CloneReaperPrimeProd.py:522-534 | corrected: the chosen destination, when there is one, is inside the quarantine directory and is not an existing entry |
| Actions.SafeDestAgrees | CloneReaperPrimeProd.py:523-534 | wherever the written destination is free, the corrected one is the same path |
| Actions.SafeMoveReplacesNothing | CloneReaperPrimeProd.py:522-535 | a move onto the corrected destination puts the entry there and keeps every other existing entry as it was |
| Actions.DestInQuarantine | CloneReaperPrimeProd.py:523-534 | the destination is always inside the quarantine directory |
| Actions.LinkStep | CloneReaperPrimeProd.py:536-547 | link mode removes the path and then links it to the kept path, so that the path ends with the kept path's identity key; if the link fails the path stays removed and is not counted |
| Actions.ActOnUntouched | CloneReaperPrimeProd.py:518-543 | acting on one path leaves every other path outside the quarantine directory as it was |
| Actions.OthersUntouched | CloneReaperPrimeProd.py:473-557 | the whole run leaves every path that is in no set and outside the quarantine directory as it was |
| Pipeline.ConfirmGate | CloneReaperPrimeProd.py:973-988 | actions proceed exactly when it is a dry run or each of the first `confirmations` prompts is answered yes; a missing answer is the default, no |
| Pipeline.Detect | CloneReaperPrimeProd.py:934-945 | steps 1 to 3 give the size buckets, the hardlink groups when hardlink checking is on, and the duplicates found by hashing the residuals (or all buckets), and leave the configuration as it was |
| Pipeline.RunScanAndProcess | CloneReaperPrimeProd.py:913-1005 | the run does nothing when no directory is set; otherwise it equals the specification `RunPipeline` in both the final filesystem and the result, and leaves the configuration unchanged |
| Pipeline.RunChangesOnlyWhenConfirmed | CloneReaperPrimeProd.py:973-989 | a dry run, or a real run that is not confirmed, leaves the filesystem unchanged; a dry run is never cancelled |
| Pipeline.ToHashCandidates | CloneReaperPrimeProd.py:935-945 | every path that reaches hashing was walked, is a file, and `lstat`s to at least the minimum size |
| Pipeline.ReportedAreDuplicates | CloneReaperPrimeProd.py:935-945 | every reported set has two or more walked files of at least the minimum size, all readable, whose contents hash to the set's non-empty digest |

## Left out

- Configuration persistence (`Config.save` and `Config.load`) and importing a previous report (lines 922-932) are JSON file I/O. `import_report_path` is not a field of the model, and a run always scans.
- Report generation, the e-mail report and the media-server trigger are output formatting, SMTP and network calls. They are not part of this model.
- The interactive menus, `ask_yes_no`'s prompt loop, the banner, the summary, `main_interactive` and `main` are not modelled. The replies to the final prompts are an input sequence of booleans. An unrecognised reply is re-asked in the source, so only the final yes/no for each prompt matters.
- `format_bytes`, progress printing and logging are not modelled. They only produce text, and `format_bytes` uses floating point.
- The result display of `run_scan_and_process` (lines 947-967) is not modelled. It also computes `os.path.getsize` of the first path of each set.
- `multiprocessing.Pool` concurrency is not modelled. The map is sequential and order-preserving, and each worker gets a copy of the settings.
- `hashlib` algorithm selection and digest internals are not modelled: the digest is one uninterpreted function of the bytes read. An unknown algorithm name (which makes `hashlib.new` raise, so every worker returns `None`) is therefore not modelled.
- The Windows `win32file` identity lookup and `CreateHardLink` are not modelled. The identity key is a field of the entry, available only where `pywin32` loaded, and `CanLink` states whether the link call exists.
- `os.walk` itself is not modelled. Its output, the joined file paths in walk order, is an input sequence. `os.walk` silently skips directories it cannot list, so such a directory adds nothing to the unreadable count in the source either.
- `os.path.abspath` is an uninterpreted function. Path syntax is POSIX (`/`-separated) for `join`, `basename` and `splitext`.
- Actions.QuarantineStep: `time.time()` is one timestamp input for the whole run, whereas the source reads the clock at each name collision.
- Keep.KeepByAge: mtimes are integers, and the source's floating-point seconds are not modelled.
- Hashing.DuplicatesExact: requires the paths hashed in full to be distinct, which holds for what `os.walk` yields. With repeated paths, `final_hashes` merges entries and the statement does not apply.
- Hashing.TwinsReported: requires the bucketed paths to be distinct, for the same reason.
- Hashing.PartialAgreesWithFull: is stated per digest as equality of the path sets, not of the dictionaries with their order, because the partial pass regroups paths by `(size, phash)` and so changes their order. It also assumes an injective digest and buckets keyed by each readable path's content length.
- Actions.ActOnUntouched: is stated only for paths outside the quarantine directory. Moving a file into it can replace an entry there (see Findings).
- Actions.DeleteRunExact: requires the paths of the sets to differ pairwise, also once normalized, as `os.walk` yields them. It also requires that, for `oldest` or `newest`, no path is a symbolic link, because a link's mtime is its target's and an earlier set may delete that target, which would shift the later choice.
- Paths are the keys of the filesystem map. Two spellings of one file (a `./` prefix, a doubled `/`) are different entries, except that `os.mkdir` and `os.path.dirname` ignore trailing `/`s.

## Findings

The executor and the hash stages are modelled as written (`ActOn`, `DuplicatesByHash`). The members in the last column define what the code evidently intends, with that property proved.

| source | as written | input that shows it | evidently intended | confidence | as-written member | corrected member |
|---|---|---|---|---|---|---|
| CloneReaperPrimeProd.py:527-535 | when `q/basename` exists, the timestamped name is used without checking whether it exists, and `shutil.move` replaces a file already there | quarantining `a` into `q` at stamp 5 when `q/a` and `q/a_5` are both regular files: `a` is counted and the earlier `q/a_5` is overwritten | the comment at line 522 says name conflicts are handled, so no quarantined file should be replaced | not executed | Actions.QuarantineReplaces | Actions.SafeMoveReplacesNothing |
| CloneReaperPrimeProd.py:352-361 | partial mode hashes in full only the paths that share `(size, phash)`, where `size` is the `lstat` size of line 234, which for a symbolic link is the length of its target name | files `A` and `B` with content `[1, 1]`, a link `L` to `A`, and a file `F` with content `[2]`: `L` is bucketed with `F` under size 1, so full mode reports `[L, A, B]` and partial mode reports `A` and `B` in a set without `L`; with keep `first`, the full-mode set keeps the link and hands both files it names to the action (`Keep.KeepFirstPath`) | partial hashing is offered at line 809 only as a faster pre-check, so it should report the same sets as full mode | not executed | Hashing.LinkSplitsModes | Hashing.PartialAgreesWithFull |

The corrected member of the first row is built on `Actions.SafeQuarantineDest`. The second row's corrected member holds under its stated hypothesis: buckets keyed by the content length of their readable paths.
