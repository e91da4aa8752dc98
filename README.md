# Drive uploader and H@H log watcher, modelled in Dafny

This project models two sequential cores of the repository.

**The upload engine `DriveUploader` (duld/drive.py).**
- It keeps a registry of jobs in progress (`_jobs`, with `job_guard`). A second call for a key already in progress is refused.
- It resolves the remote target folder.
- It skips names matched by the exclusion filter (`_should_exclude`).
- It mirrors a local directory tree recursively. Each remote folder is found or created: a same-named file blocks; an absent or trashed folder, or a trashed parent, gets a new folder; the engine then waits until the new folder resolves.
- Every entry of a directory and every item of a torrent is uploaded, even after a failure, and the results are AND-ed.
- A file that is already present is checked by digest and never re-uploaded. Any other file is uploaded and then verified by its digest (`md5sum`, reads of 65536 bytes).
- A file upload is tried at most `RETRY_TIMES` = 3 times (duld/drive.py:22; the constant `UploadSpec.RETRY_TIMES`, the attempt budget of `Uploader.DriveUploader.UploadFileRetry`). Only an exception causes a retry, and one sync follows each exception. An attempt raises at its start, in `get_path` of a parent that does not resolve yet, or in the upload call itself.

**The log-line buffer of `HaHEventHandler._push_lines` (tmacd/hah.py).**
- Fragments are appended to a buffer.
- An incomplete head fragment is glued to the one after it, once.
- Every line that reports a finished gallery download emits one `upload_torrent` callback, in order.
- At most one trailing incomplete fragment stays behind.

## Layout

| file | module | what it holds |
|---|---|---|
| wrappers.dfy | `Wrappers` | `Option` |
| hashing.dfy | `Hashing` | bytes, the incremental `Hasher` class, `md5sum` as a loop |
| exclusion.dfy | `Exclusion` | `_should_exclude` over an abstract regex matcher |
| localfs.dfy | `LocalFs` | the local tree, `Path.name`, `Path(root, item)` |
| remote.dfy | `RemoteDrive` | the remote drive as data (`Remote`), and the `Drive` class the engine calls |
| upload_spec.dfy | `UploadSpec` | the engine as functions from a remote state to `(ok, new remote state)` |
| uploader.dfy | `Uploader` | the `DriveUploader` class; each method is proved to compute its `UploadSpec` function |
| upload_props.dfy | `UploadProperties` | the engine's properties, proved about `UploadSpec` |
| hah.dfy | `HaH` | the line matcher, the reassembly as a function, and `HaHEventHandler` with its in-place buffer |

## How the collaborators are modelled

**Remote drive.**
- `Remote` records what the engine reads: paths, the children by `(parent id, name)`, and the folders that do not resolve yet.
- It also counts the calls to `sync`, `upload_from_local` and `create_folder`, and the uploads that returned a file (`uploadsDone`).
- Three oracle sequences stand for the remote's failures:
  - `faults`: whether each `_upload_file` attempt raises;
  - `transfers`: how each `upload_from_local` call goes: a file with the digest of the bytes sent, a file with another digest, or an exception with nothing written;
  - `creations`: whether each `create_folder` returns a folder, and after how many syncs that folder resolves.
- An exhausted oracle behaves well: no exception, an intact transfer, a folder that resolves at once.
- `paths`, what `get_node_by_path` resolves, is fixed for the whole run (see "Left out").

**Hash.** The hash is a function parameter `h: Bytes -> Digest`. A hasher's digest is `h` applied to everything fed to it.

**Regex matcher.** The regex matcher of `_should_exclude` is a function parameter.

**Pattern list.** The JSON mapping served at `exclude_url` becomes an input:
- `None` when no URL is configured;
- otherwise the list of its pattern values.

**Local file system.** It is a map from paths to `Entry` trees. A directory's children are listed in the order `iterdir` yields them.

**Exceptions.** An exception at the start of an `_upload_file` attempt, in its `get_path` of the parent (duld/drive.py:176, raised while the parent does not resolve), or in its upload call becomes the `Exn` outcome of that attempt. Such an attempt writes no node.

## Behaviour of the code worth noting

**A trashed file blocks a directory.**
- `_upload_directory` checks `is_file` before `trashed` (duld/drive.py:127-132).
- So a same-named *trashed file* still makes the directory fail, whereas `_upload_file` treats a trashed node as absent and uploads over it (duld/drive.py:181, 192).
- `UploadProperties.FileBlocksDirectory` states this.

**A late exception is not modelled.**
- An exception after the upload call has returned, for instance while hashing for the verification, is not modelled (see "Left out").
- In the source the loop then syncs and the next attempt looks the name up again (duld/drive.py:169, 179). Once the new node is visible it is only verified. The upload could be repeated only if the sync has not yet made the new node visible.

**The H@H callback has the wrong arity.**
- The callback is scheduled with three arguments, `(upload_to, download_path, [name])` (tmacd/hah.py:50).
- `upload_torrent` takes four (duld/drive.py:74).
- The model records the tuple as written (`HaH.Callback`).

**A line split three ways is lost.**
- The buffer joins an incomplete head with only one more fragment.
- So a finished-download line that arrives in three fragments is matched as two pieces. The glued first two never match. The third matches only if it starts with the prefix itself, so the name is lost whenever it does not (`HaH.ThreeWaySplitDropped`).
- When the third fragment does start with the prefix, it emits the name it carries: the fragments `FINISHED_PREFIX`, `"x"` and `FINISHED_PREFIX + "y\n"` emit `"y"` (`HaH.PrefixedThirdFragmentEmits`).

## Model

| member | source | states |
|---|---|---|
| Hashing.Hasher.Update | duld/drive.py:258 | `update` appends the chunk to what the hasher has absorbed |
| Hashing.Read | duld/drive.py:255 | the bytes `fin.read(65536)` returns at a position: the next 65536 bytes, fewer at the end of the file; no contract of its own, its use is stated by `Hashing.Md5Sum` |
| Hashing.Hasher.HexDigest | duld/drive.py:259 | `hexdigest()` is the hash of everything absorbed; no contract of its own, its use is stated by `Hashing.Md5Sum` and, through `Uploader.DriveUploader.VerifyRemoteFile`, by `UploadProperties.UploadFileCases` |
| Hashing.Md5Sum | duld/drive.py:252-259 | the file is fed to the hasher in order, in chunks of 1 to 65536 bytes, all full but the last; the digest is that of the hasher's previous input followed by the whole file |
| Exclusion.AnyMatch | duld/drive.py:238-240 | the search of a pattern list is true iff some pattern of the list matches the name |
| Exclusion.ShouldExclude | duld/drive.py:237-249 | a name is excluded iff a static pattern matches, or a URL is configured and one of its patterns matches; the remote list is fetched iff a URL is configured and no static pattern matched |
| LocalFs.Lookup | duld/drive.py:112-116 | the `exists()` and `is_dir()` tests: what, if anything, is at a local path; no contract of its own, its cases are stated by `UploadProperties.MissingLocalFails` and `UploadProperties.UploadDispatches` |
| LocalFs.StripTrailingSlashes | duld/drive.py:108 | the path without its trailing slashes: a prefix of it, followed in it only by '/', and not ending in '/' |
| LocalFs.Basename | duld/drive.py:108 | `Path.name` is the last component: it contains no '/' and is the end of the path with trailing slashes removed, preceded there by '/' or by nothing |
| LocalFs.Join | duld/drive.py:88 | `pathlib.Path(torrent_root, item)`; no contract of its own, its property is stated by `LocalFs.BasenameOfJoin` |
| LocalFs.BasenameOfJoin | duld/drive.py:88 | the name of `Path(torrent_root, item)` is the item, for a single-component item |
| RemoteDrive.Synced | duld/drive.py:99-105 | the remote after one sync, as a value; no contract of its own, `RemoteDrive.Drive.Sync` is proved to compute it |
| RemoteDrive.LookupPath | duld/drive.py:63 | `get_node_by_path` as a value; no contract of its own, `RemoteDrive.Drive.GetNodeByPath` is proved to compute it |
| RemoteDrive.LookupChild | duld/drive.py:179 | `get_node_by_name_from_parent` as a value; no contract of its own, `RemoteDrive.Drive.GetNodeByNameFromParent` is proved to compute it |
| RemoteDrive.PathVisible | duld/drive.py:176 | whether `get_path` returns; no contract of its own, `RemoteDrive.Drive.GetPathResolves` is proved to compute it |
| RemoteDrive.CreateFolderIn | duld/drive.py:134 | `create_folder` as a value; no contract of its own, `RemoteDrive.Drive.CreateFolder` is proved to compute it and `UploadProperties.FolderCreatedIff` states its outcomes |
| RemoteDrive.UploadInto | duld/drive.py:196-201 | `upload_from_local` as a value; no contract of its own, `RemoteDrive.Drive.UploadFromLocal` is proved to compute it and `UploadProperties.UploadFileCases` states its outcomes |
| RemoteDrive.DrawFault | duld/drive.py:162-164 | whether the next attempt raises at its start, as a value; no contract of its own, `RemoteDrive.Drive.NextFault` is proved to compute it |
| RemoteDrive.Drive.Sync | duld/drive.py:99-105 | one sync: the call is counted and every pending folder comes one sync closer to resolvable |
| RemoteDrive.Drive.GetNodeByPath | duld/drive.py:63-64 | the node at the path, or `None`; nothing changes |
| RemoteDrive.Drive.GetNodeByNameFromParent | duld/drive.py:126 | the child of that name under the parent, or `None`; nothing changes |
| RemoteDrive.Drive.GetPathResolves | duld/drive.py:143-148 | whether `get_path` of the node returns instead of raising; nothing changes |
| RemoteDrive.Drive.CreateFolder | duld/drive.py:134-135 | one counted `create_folder` call; a new live folder under that name, or `None`, as the creation oracle says |
| RemoteDrive.Drive.UploadFromLocal | duld/drive.py:195-201 | one counted upload call; unless it raises, a new live file replaces the name, with the digest the remote reports |
| RemoteDrive.Drive.GetHasher | duld/drive.py:212 | a fresh hasher over the drive's hash, having absorbed nothing |
| RemoteDrive.Drive.NextFault | duld/drive.py:162-164 | whether the next file attempt raises; only that oracle advances |
| UploadSpec.Verified | duld/drive.py:219 | the reference predicate of `_verify_remote_file`, the digest comparison, with no contract of its own; its uses are stated by `UploadProperties.UploadFileCases` and `Uploader.DriveUploader.VerifyRemoteFile` |
| UploadSpec.UploadFile | duld/drive.py:174-208 | an attempt never syncs or creates folders and makes at most one upload call; an attempt that raises writes nothing; an attempt that returns counts every upload call it made as an upload that returned |
| UploadSpec.RetryStep | duld/drive.py:161-169 | one turn of the loop: an attempt that returns decides, one that raises is followed by a sync and the next attempt |
| UploadSpec.Retry | duld/drive.py:160-172 | the retry loop has at most one upload that returns and one upload call per attempt, creates no folder, and only lets the remote evolve |
| UploadSpec.Poll | duld/drive.py:143-149 | the wait ends with the new folder resolvable and changes nothing but syncs and pending folders |
| UploadSpec.PollSyncs | duld/drive.py:143-149 | the wait makes exactly the syncs the folder still needs before `get_path` resolves it |
| UploadSpec.FindOrCreateFolder | duld/drive.py:125-149 | the step uploads nothing, creates at most one folder, and yields only folders |
| UploadSpec.Upload | duld/drive.py:107-120 | a missing path changes nothing; uploads that returned are bounded by the files of the local entry, upload calls by three per file, and created folders by its directories |
| UploadSpec.UploadDirectory | duld/drive.py:122-158 | uploads that returned are bounded by the files under the directory, upload calls by three per file, and folders created by its directories plus one |
| UploadSpec.UploadChildren | duld/drive.py:151-158 | uploads that returned are bounded by the entries' files, upload calls by three per file, and created folders by their directories |
| UploadSpec.UploadPath | duld/drive.py:61-72 | at least one sync, and the remote only evolves |
| UploadSpec.UploadItems | duld/drive.py:87-97 | the remote only evolves: paths kept, no name dropped, counters only grow |
| UploadSpec.UploadTorrent | duld/drive.py:80-97 | at least one sync, and the remote only evolves |
| Uploader.DriveUploader.constructor | duld/drive.py:27-28 | no job is registered at first |
| Uploader.DriveUploader.JobGuardEnter | duld/drive.py:262-264 | the key is added to the registry |
| Uploader.DriveUploader.JobGuardExit | duld/drive.py:265-268 | the key is discarded from the registry |
| Uploader.DriveUploader.UploadPath | duld/drive.py:55-72 | a key in progress gives false with no remote change; otherwise the call computes `UploadSpec.UploadPath`; the registry is as before on every normal exit |
| Uploader.DriveUploader.UploadTorrent | duld/drive.py:74-97 | as for `UploadPath`, keyed by the torrent id, computing `UploadSpec.UploadTorrent` |
| Uploader.DriveUploader.Upload | duld/drive.py:107-120 | the method computes `UploadSpec.Upload` |
| Uploader.DriveUploader.UploadDirectory | duld/drive.py:122-158 | the method, with its wait loop and its entry loop, computes `UploadSpec.UploadDirectory` |
| Uploader.DriveUploader.UploadFileRetry | duld/drive.py:160-172 | the counted loop computes `UploadSpec.Retry` with `RETRY_TIMES` = 3 attempts, the constant of duld/drive.py:22 |
| Uploader.DriveUploader.UploadFile | duld/drive.py:174-208 | the method computes `UploadSpec.UploadFile` |
| Uploader.DriveUploader.VerifyRemoteFile | duld/drive.py:210-222 | true iff the digest of the whole local file equals the remote digest |
| UploadProperties.ExcludedIsSkipped | duld/drive.py:108-110 | an excluded name succeeds with no remote change, whatever the local path holds |
| UploadProperties.MissingLocalFails | duld/drive.py:112-114 | a missing local path that is not excluded fails with no remote change |
| UploadProperties.UploadDispatches | duld/drive.py:116-120 | a name that is not excluded: a directory goes to the directory mirror and a file to the retry loop |
| UploadProperties.UnresolvedTargetFails | duld/drive.py:61-66 | an unresolvable target fails after exactly one sync, and the result does not depend on the local tree (both entry points) |
| UploadProperties.FileBlocksDirectory | duld/drive.py:126-131 | a same-named file, trashed or not, fails the directory with no folder created |
| UploadProperties.FolderCreatedIff | duld/drive.py:132-139 | `create_folder` is called iff the child is absent, or is a folder that is trashed or has a trashed parent; otherwise nothing changes |
| UploadProperties.LiveFolderReused | duld/drive.py:126-132 | a live folder under a live parent is reused as it is |
| UploadProperties.RefusedCreationStops | duld/drive.py:134-139 | a refused creation fails the directory with exactly one `create_folder` call and nothing uploaded |
| UploadProperties.CreatedFolderIsUsed | duld/drive.py:134-149 | a created folder is the one returned, it resolves by the end of the wait, nothing is uploaded meanwhile, exactly as many syncs are made as the creation's lag, and the directory's entries are then uploaded into it |
| UploadProperties.AndAllVisitsAll | duld/drive.py:151-158 | a loop that AND-s its steps takes every step, in order, from the state the previous one left, and succeeds iff every step does |
| UploadProperties.ChildrenAreAndAll | duld/drive.py:151-158 | the directory loop is such a loop |
| UploadProperties.ItemsAreAndAll | duld/drive.py:88-97 | the torrent loop is such a loop |
| UploadProperties.ChildrenVisitAll | duld/drive.py:151-158 | every entry of a directory is uploaded, in order, even after failures, and the directory succeeds iff all entries do |
| UploadProperties.ItemsVisitAll | duld/drive.py:88-97 | every item of a torrent is uploaded, in order, even after failures, and the torrent succeeds iff all items do |
| UploadProperties.UploadFileCases | duld/drive.py:179-208 | an attempt that does not raise at its start: a parent that does not resolve raises in `get_path` with nothing written; under a parent that resolves, a live folder fails with no upload; a live file gives digest equality with no upload; otherwise exactly one upload call, which either raises with nothing written or leaves a live file, the result being whether its digest is that of the local contents |
| UploadProperties.FailedAttemptStep | duld/drive.py:161-169 | one failed attempt, then a sync, then the remaining failed attempts |
| UploadProperties.FailedAttemptsShape | duld/drive.py:161-169 | `k` failed attempts make exactly `k` syncs and at most `k` upload calls, write no node and create no folder |
| UploadProperties.RetryAfterFailedAttempts | duld/drive.py:161-169 | `k` failed attempts use up `k` of the attempts, each followed by a sync |
| UploadProperties.ThreeFailedAttemptsFail | duld/drive.py:160-172 | three failed attempts, whichever call raised, give false after exactly three syncs, with at most three upload calls and nothing written |
| UploadProperties.FirstReturnDecides | duld/drive.py:161-167 | after `k` failed attempts, the first attempt that returns decides the result, true or false, and nothing runs after it |
| UploadProperties.RetryOkNeedsReturn | duld/drive.py:160-172 | a success needs an attempt among the first three that returned |
| UploadProperties.AfterRaisesShape | duld/drive.py:162-169 | `k` attempts that raise at their start use `k` faults and make `k` syncs, and change nothing else but pending folders |
| UploadProperties.LeadingRaisesFail | duld/drive.py:162-169 | attempts that raise at their start are failed attempts, leading to the state `AfterRaises` gives |
| UploadProperties.ThreeRaisesFail | duld/drive.py:160-172 | three attempts that raise at their start give false after exactly three syncs, with no upload call and no other change |
| UploadProperties.UploadRaiseStep | duld/drive.py:192-201 | for a missing file under a parent that resolves, an attempt whose upload call raises makes that one call, writes nothing and is followed by a sync |
| UploadProperties.UploadRaisesThrice | duld/drive.py:160-201 | a new file under a parent that resolves, whose upload call raises three times gives false after exactly three upload calls and three syncs, with nothing written |
| UploadProperties.UploadRaisesTwiceThenSucceeds | duld/drive.py:160-208 | a new file under a parent that resolves, whose upload call raises twice and then goes through is uploaded on the third attempt: success, two syncs, three upload calls, one file written with the right digest |
| UploadProperties.RetryOkHoldsFile | duld/drive.py:181-208 | after a successful retry loop the name holds a live file whose digest is that of the local contents, under a parent that resolves |
| UploadProperties.HeldFileSkipped | duld/drive.py:181-192 | with such a file in place under a parent that resolves, and when no attempt raises, the next upload succeeds at once and changes nothing |
| UploadProperties.FileUploadIdempotent | duld/drive.py:107-208 | uploading a file again after a successful upload, when no attempt raises, succeeds with no remote change at all |
| HaH.MatchFinished | tmacd/hah.py:47-49 | a match yields a name with no newline, and the line is the prefix, that name and one or two newlines |
| HaH.MatchFinishedAccepts | tmacd/hah.py:47-49 | every line of that shape matches and yields its name |
| HaH.MatchFinishedNeedsPrefix | tmacd/hah.py:47 | only a line that starts with the prefix matches |
| HaH.Taken | tmacd/hah.py:39-45 | a turn of the loop uses one or two fragments, never more than are there |
| HaH.NextLine | tmacd/hah.py:39-45 | the line matched next: the head fragment when complete, else the head glued to the fragment after it; no contract of its own, its use is stated by `HaH.ReassembleStep` |
| HaH.Emitted | tmacd/hah.py:47-50 | the one-line match-and-callback step: the name of a finished download, or nothing; no contract of its own, its use is stated by `HaH.EachLineSnoc` and `HaH.FinishedLineEmitsOne` |
| HaH.EndsWithNewline | tmacd/hah.py:39 | `line.endswith('\n')`; no contract of its own, used by `HaH.IncompleteJoin` and `HaH.ReassembleLeavesOneFragment` |
| HaH.Stalled | tmacd/hah.py:39-42 | the `break` of the loop: a lone incomplete fragment; no contract of its own, used by `HaH.ReassembleLeavesOneFragment` |
| HaH.StepKeepsSplit | tmacd/hah.py:37-51 | the loop invariant of `_push_lines`: one more turn keeps the lines matched so far and what the rest of the buffer will give |
| HaH.ReassembleStep | tmacd/hah.py:37-51 | one turn of the loop: the next line is matched, and the loop goes on with the fragments after the ones it used |
| HaH.EachLineSnoc | tmacd/hah.py:47-50 | matching one more line adds exactly what that line emits, after the rest |
| HaH.EachLineAppend | tmacd/hah.py:47-51 | the names of two runs of lines are the names of each, in order |
| HaH.Reassemble | tmacd/hah.py:37-51 | the reference function of the `while` loop of `_push_lines`, with no contract of its own; its properties are stated by `HaH.ReassembleLeavesOneFragment`, `HaH.ReassembleAppend` and `HaH.ReassembleCompleteLines` |
| HaH.EachLine | tmacd/hah.py:47-50 | the reference function of the match-and-emit step, with no contract of its own; its properties are stated by `HaH.EachLineAppend` and `HaH.FinishedLineEmitsOne` |
| HaH.ReassembleLeavesOneFragment | tmacd/hah.py:37-51 | what stays behind is nothing, or exactly the last fragment when it is incomplete; no more lines than fragments are matched |
| HaH.ReassembleCompleteLines | tmacd/hah.py:37-51 | a buffer of complete lines is consumed entirely, each fragment matched on its own, in order |
| HaH.ReassembleAppend | tmacd/hah.py:36-42 | two batches give the same lines as one: the fragment one call keeps heads the next call's buffer |
| HaH.FinishedLineEmitsOne | tmacd/hah.py:47-51 | a complete finished-download line emits exactly its name, ahead of what follows |
| HaH.IncompleteJoin | tmacd/hah.py:39-45 | two incomplete fragments glued together are still incomplete |
| HaH.JoinedPairDropped | tmacd/hah.py:39-51 | two incomplete fragments are glued into one line that matches nothing |
| HaH.ThreeWaySplitDropped | tmacd/hah.py:39-51 | a finished-download line that arrives in three fragments, the last not starting with the prefix, emits nothing and leaves nothing |
| HaH.PrefixedThirdFragmentEmits | tmacd/hah.py:39-51 | a third fragment that starts with the prefix does emit its own name |
| HaH.HaHEventHandler.constructor | tmacd/hah.py:23 | the buffer starts empty |
| HaH.HaHEventHandler.PushLines | tmacd/hah.py:35-51 | the buffer keeps its invariant and holds what the reassembly leaves; the callbacks are `(upload_to, download_path, [name])` for each matched name, in the order of the old buffer followed by the new fragments |

## Left out

- Resource setup and teardown (`__aenter__`, `__aexit__`, the drive factory, the HTTP session, the process pool, the worker queue): lifecycle code over foreign libraries.
- The lock and the one-second sleep in `_sync`: they concern concurrency only. A sync is one abstract step.
- Concurrency between calls: the model is sequential. The refusal of a key in progress is stated for one call that finds the key registered.
- The real MD5, `get_media_info` and the transfer itself: foreign calls. The hash is a parameter and an upload is one insertion into the remote map, or an exception with nothing written.
- Python `re` semantics in `_should_exclude` (case-insensitive, anchored at the start): the matcher is a parameter. The HTTP fetch of `exclude_url` is an input list, fixed for the whole run, whereas the source fetches it again on every call.
- Exceptions other than one raised at the start of an `_upload_file` attempt, by its `get_path` of a parent that does not resolve, or by its upload call: failures of the exclusion fetch, of `create_folder`, of `get_path` in `_upload_directory`, and of an attempt after its upload call returned. The last would leave the new node behind; the next attempt would re-upload only if the sync had not yet made it visible.
- Exits by exception from `upload_path` and `upload_torrent`, and so the `finally` of `job_guard` (duld/drive.py:265-268): the entry points are modelled on their normal exits only, where the registry is shown to be restored.
- New remote paths: `paths` is fixed. `CreateFolderIn` adds a child but no path, and every operation keeps `paths` as it was, whereas in the source `get_node_by_path` would resolve a folder created earlier.
- UploadSpec.Poll: the wait after `create_folder` ends because each folder is given the number of syncs it needs before it resolves. A folder that never resolves, on which the source would loop forever, is not modelled.
- `pathlib` normalisation: paths are plain strings. `Path.name` ignores trailing slashes but not `.` components, and an absolute torrent item is joined as it is rather than replacing the root.
- Tree-level idempotence (uploading a whole directory twice): not proved. It would need uniqueness of node ids and of local names, which the model does not maintain. It is proved for a single file (`UploadProperties.FileUploadIdempotent`).
- `_try_resolve_name_confliction`: nothing calls it.
- Logging calls.
- `HaHEventHandler.on_modified` (file reading and offset tracking; it also refers to an undefined `log_path`) and `HaHListener`: file I/O and watcher threads. `PushLines` takes the fragments that were read.
- The dispatch of callbacks through the I/O loop: `PushLines` returns the callback tuples in order.
