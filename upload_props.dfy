/**
 * Properties of the upload engine of duld/drive.py, stated about the reference
 * functions of `UploadSpec` (which the methods of `Uploader.DriveUploader` compute).
 */
module UploadProperties {
  import opened Wrappers
  import opened Hashing
  import opened LocalFs
  import opened Exclusion
  import opened RemoteDrive
  import opened UploadSpec

  // ---------------------------------------------------------------- _upload

  /** An excluded name is reported as uploaded, whatever the local path holds, and nothing is touched. */
  lemma ExcludedIsSkipped(f: Filter, h: Bytes -> Digest, r: Remote, parent: Node, name: string, local: Option<Entry>)
    requires ShouldExclude(f, name).excluded
    ensures Upload(f, h, r, parent, name, local) == Outcome(true, r)
  {
  }

  /** A local path that does not exist (and is not excluded) fails with no remote change. */
  lemma MissingLocalFails(f: Filter, h: Bytes -> Digest, r: Remote, parent: Node, name: string)
    requires !ShouldExclude(f, name).excluded
    ensures Upload(f, h, r, parent, name, None) == Outcome(false, r)
  {
  }

  /** Otherwise a file goes to the retry loop and a directory to the directory mirror. */
  lemma UploadDispatches(f: Filter, h: Bytes -> Digest, r: Remote, parent: Node, name: string, e: Entry)
    requires !ShouldExclude(f, name).excluded
    ensures e.File? ==> Upload(f, h, r, parent, name, Some(e)) == Retry(h, r, parent, name, e.contents, RETRY_TIMES)
    ensures e.Dir? ==> Upload(f, h, r, parent, name, Some(e)) == UploadDirectory(f, h, r, parent, name, e.children)
  {
  }

  // ---------------------------------------------------- upload_path / upload_torrent

  /** An unresolvable remote target fails after the one sync, whatever the local tree holds. */
  lemma UnresolvedTargetFails(f: Filter, h: Bytes -> Digest, r: Remote, remotePath: string,
                              localPath: string, fs: FileSystem, fs': FileSystem, root: string, items: seq<string>)
    requires LookupPath(r, remotePath).None?
    ensures UploadPath(f, h, r, remotePath, localPath, fs) == Outcome(false, Synced(r))
    ensures UploadPath(f, h, r, remotePath, localPath, fs) == UploadPath(f, h, r, remotePath, localPath, fs')
    ensures UploadTorrent(f, h, r, remotePath, root, items, fs) == Outcome(false, Synced(r))
    ensures UploadTorrent(f, h, r, remotePath, root, items, fs) == UploadTorrent(f, h, r, remotePath, root, items, fs')
  {
    assert Synced(r).paths == r.paths;
  }

  // ---------------------------------------------------------- _upload_directory

  /** Whether the find-or-create step calls `create_folder`. */
  predicate NeedsFolder(r: Remote, parent: Node, name: string)
  {
    var child := LookupChild(r, parent, name);
    child.None? || (child.value.isFolder && (child.value.trashed || parent.trashed))
  }

  /** A same-named file under the parent, trashed or not, fails the directory without creating a folder. */
  lemma FileBlocksDirectory(f: Filter, h: Bytes -> Digest, r: Remote, parent: Node, name: string, cs: seq<Child>)
    requires LookupChild(r, parent, name).Some? && !LookupChild(r, parent, name).value.isFolder
    ensures UploadDirectory(f, h, r, parent, name, cs) == Outcome(false, r)
  {
  }

  /**
   * `create_folder` is called exactly when the child is absent, or is a folder that
   * is trashed or has a trashed parent; and no other remote write happens in
   * this step but that creation.
   */
  lemma FolderCreatedIff(r: Remote, parent: Node, name: string)
    ensures FindOrCreateFolder(r, parent, name).1.createCalls == r.createCalls + 1 <==> NeedsFolder(r, parent, name)
    ensures !NeedsFolder(r, parent, name) ==> FindOrCreateFolder(r, parent, name).1 == r
    ensures NeedsFolder(r, parent, name) ==>
      FindOrCreateFolder(r, parent, name).0.Some?
      == (r.creations == [] || r.creations[0].Created?)
  {
  }

  /** An existing live folder under a live parent is reused as it is. */
  lemma LiveFolderReused(r: Remote, parent: Node, name: string)
    requires LookupChild(r, parent, name).Some?
    requires LookupChild(r, parent, name).value.isFolder && !LookupChild(r, parent, name).value.trashed
    requires !parent.trashed
    ensures FindOrCreateFolder(r, parent, name) == (LookupChild(r, parent, name), r)
  {
  }

  /** A refused creation fails the directory at once: one `create_folder` call and no upload into it. */
  lemma RefusedCreationStops(f: Filter, h: Bytes -> Digest, r: Remote, parent: Node, name: string, cs: seq<Child>)
    requires NeedsFolder(r, parent, name)
    requires r.creations != [] && r.creations[0] == Refused
    ensures UploadDirectory(f, h, r, parent, name, cs)
      == Outcome(false, r.(createCalls := r.createCalls + 1, creations := r.creations[1..]))
  {
  }

  /**
   * A created folder is waited for and then used: the entries go into the new
   * folder, which is resolvable by then, after exactly the syncs its creation lag
   * asks for.
   */
  lemma CreatedFolderIsUsed(f: Filter, h: Bytes -> Digest, r: Remote, parent: Node, name: string, cs: seq<Child>)
    requires NeedsFolder(r, parent, name)
    requires r.creations == [] || r.creations[0].Created?
    ensures var (folder, r1) := FindOrCreateFolder(r, parent, name);
      && folder == Some(Node(r.nextId, true, false, ""))
      && LookupChild(r1, parent, name) == folder
      && PathVisible(r1, r.nextId)
      && r1.nextId == r.nextId + 1
      && r1.uploadCalls == r.uploadCalls
      && UploadDirectory(f, h, r, parent, name, cs) == UploadChildren(f, h, r1, folder.value, cs)
      && r1.syncCalls == r.syncCalls + (if r.creations == [] then 0 else r.creations[0].lag)
  {
    var (made, r1) := CreateFolderIn(r, parent, name);
    assert made == Some(Node(r.nextId, true, false, ""));
    var p := Poll(r1, r.nextId);
    assert p.children == r1.children;
    PollSyncs(r1, r.nextId);
  }

  // ------------------------------------------------------------- aggregation

  /** The outcome of each element of a loop, each step taken from the state the previous one left. */
  function Steps<X>(step: (Remote, X) -> Outcome, r: Remote, xs: seq<X>): (t: seq<Outcome>)
    ensures |t| == |xs|
    decreases |xs|
  {
    if xs == [] then []
    else
      var first := step(r, xs[0]);
      [first] + Steps(step, first.remote, xs[1..])
  }

  /** A loop that runs every step and AND-s the results, without stopping at a failure. */
  function AndAll<X>(step: (Remote, X) -> Outcome, r: Remote, xs: seq<X>): Outcome
    decreases |xs|
  {
    if xs == [] then Outcome(true, r)
    else
      var first := step(r, xs[0]);
      var rest := AndAll(step, first.remote, xs[1..]);
      Outcome(first.ok && rest.ok, rest.remote)
  }

  /** The state step `i` of a trace starts from. */
  function Before(r: Remote, t: seq<Outcome>, i: nat): Remote
    requires i <= |t|
  {
    if i == 0 then r else t[i - 1].remote
  }

  /**
   * Such a loop takes every step, in order, each from the state the previous one
   * left, and succeeds exactly when every step does.
   */
  lemma {:induction false} AndAllVisitsAll<X>(step: (Remote, X) -> Outcome, r: Remote, xs: seq<X>)
    ensures var t := Steps(step, r, xs);
      && (forall i :: 0 <= i < |xs| ==> t[i] == step(Before(r, t, i), xs[i]))
      && (AndAll(step, r, xs).ok <==> forall i :: 0 <= i < |t| ==> t[i].ok)
      && AndAll(step, r, xs).remote == Before(r, t, |t|)
    decreases |xs|
  {
    if xs != [] {
      var first := step(r, xs[0]);
      var rest := Steps(step, first.remote, xs[1..]);
      AndAllVisitsAll(step, first.remote, xs[1..]);
      var t := Steps(step, r, xs);
      assert t == [first] + rest;
      forall i | 0 < i < |xs|
        ensures t[i] == step(Before(r, t, i), xs[i])
      {
        assert t[i] == rest[i - 1] && xs[i] == xs[1..][i - 1];
        assert Before(r, t, i) == Before(first.remote, rest, i - 1);
      }
      assert (forall i :: 0 <= i < |t| ==> t[i].ok) <==> first.ok && (forall i :: 0 <= i < |rest| ==> rest[i].ok) by {
        if forall i :: 0 <= i < |t| ==> t[i].ok {
          assert t[0] == first;
          forall i | 0 <= i < |rest| ensures rest[i].ok {
            assert rest[i] == t[i + 1];
          }
        }
        if first.ok && forall i :: 0 <= i < |rest| ==> rest[i].ok {
          forall i | 0 <= i < |t| ensures t[i].ok {
            if i > 0 {
              assert t[i] == rest[i - 1];
            }
          }
        }
      }
      assert Before(r, t, |t|) == Before(first.remote, rest, |rest|);
    }
  }

  /** One entry of `_upload_directory`'s loop. */
  function ChildStep(f: Filter, h: Bytes -> Digest, folder: Node): (Remote, Child) -> Outcome
  {
    (r: Remote, c: Child) => Upload(f, h, r, folder, c.name, Some(c.entry))
  }

  /** One item of `upload_torrent`'s loop. */
  function ItemStep(f: Filter, h: Bytes -> Digest, node: Node, root: string, fs: FileSystem): (Remote, string) -> Outcome
  {
    (r: Remote, item: string) => Upload(f, h, r, node, Basename(Join(root, item)), Lookup(fs, Join(root, item)))
  }

  /** The directory loop is such a loop: it does not stop at the first failed entry. */
  lemma {:induction false} ChildrenAreAndAll(f: Filter, h: Bytes -> Digest, r: Remote, folder: Node, cs: seq<Child>)
    ensures UploadChildren(f, h, r, folder, cs) == AndAll(ChildStep(f, h, folder), r, cs)
    decreases |cs|
  {
    if cs != [] {
      var first := Upload(f, h, r, folder, cs[0].name, Some(cs[0].entry));
      assert ChildStep(f, h, folder)(r, cs[0]) == first;
      ChildrenAreAndAll(f, h, first.remote, folder, cs[1..]);
    }
  }

  /** So is the torrent loop. */
  lemma {:induction false} ItemsAreAndAll(f: Filter, h: Bytes -> Digest, r: Remote, node: Node, root: string, items: seq<string>, fs: FileSystem)
    ensures UploadItems(f, h, r, node, root, items, fs) == AndAll(ItemStep(f, h, node, root, fs), r, items)
    decreases |items|
  {
    if items != [] {
      var path := Join(root, items[0]);
      var first := Upload(f, h, r, node, Basename(path), Lookup(fs, path));
      assert ItemStep(f, h, node, root, fs)(r, items[0]) == first;
      ItemsAreAndAll(f, h, first.remote, node, root, items[1..], fs);
    }
  }

  /**
   * Every entry of a directory is uploaded, in order, each from the state the
   * previous one left, and the directory succeeds exactly when every entry does.
   */
  lemma ChildrenVisitAll(f: Filter, h: Bytes -> Digest, r: Remote, folder: Node, cs: seq<Child>)
    ensures var t := Steps(ChildStep(f, h, folder), r, cs);
      && (forall i :: 0 <= i < |cs| ==> t[i] == Upload(f, h, Before(r, t, i), folder, cs[i].name, Some(cs[i].entry)))
      && (UploadChildren(f, h, r, folder, cs).ok <==> forall i :: 0 <= i < |t| ==> t[i].ok)
      && UploadChildren(f, h, r, folder, cs).remote == Before(r, t, |t|)
  {
    ChildrenAreAndAll(f, h, r, folder, cs);
    AndAllVisitsAll(ChildStep(f, h, folder), r, cs);
  }

  /** Every item of a torrent is uploaded, in order, and the torrent succeeds exactly when every item does. */
  lemma ItemsVisitAll(f: Filter, h: Bytes -> Digest, r: Remote, node: Node, root: string, items: seq<string>, fs: FileSystem)
    ensures var t := Steps(ItemStep(f, h, node, root, fs), r, items);
      && (forall i :: 0 <= i < |items| ==>
            t[i] == Upload(f, h, Before(r, t, i), node, Basename(Join(root, items[i])), Lookup(fs, Join(root, items[i]))))
      && (UploadItems(f, h, r, node, root, items, fs).ok <==> forall i :: 0 <= i < |t| ==> t[i].ok)
      && UploadItems(f, h, r, node, root, items, fs).remote == Before(r, t, |t|)
  {
    ItemsAreAndAll(f, h, r, node, root, items, fs);
    AndAllVisitsAll(ItemStep(f, h, node, root, fs), r, items);
  }

  // ---------------------------------------------------------------- _upload_file

  /**
   * One attempt that does not raise at its start. While the parent does not
   * resolve, `get_path` raises and nothing is written. Once it does, a live folder
   * fails, a live file is compared by digest with no upload, and anything else makes exactly one
   * upload call. If that call raises, nothing is written; otherwise the new live
   * file takes the name and the result is whether its digest is that of the whole
   * local contents.
   */
  lemma UploadFileCases(h: Bytes -> Digest, r: Remote, parent: Node, name: string, contents: Bytes)
    requires !DrawFault(r).0
    ensures var (a, r1) := UploadFile(h, r, parent, name, contents);
      !PathVisible(r, parent.id) ==> a.Exn? && r1 == DrawFault(r).1
    ensures var (a, r1) := UploadFile(h, r, parent, name, contents);
      var child := LookupChild(r, parent, name);
      PathVisible(r, parent.id) ==>
      && (child.Some? && !child.value.trashed && child.value.isFolder ==>
            a == Ok(false) && r1.uploadCalls == r.uploadCalls)
      && (child.Some? && !child.value.trashed && !child.value.isFolder ==>
            && a == Ok(h(contents) == child.value.hash)
            && r1.uploadCalls == r.uploadCalls && r1.children == r.children)
      && (child.None? || child.value.trashed ==>
            && r1.uploadCalls == r.uploadCalls + 1
            && (r.transfers != [] && r.transfers[0].Raised? ==>
                  a.Exn? && r1.children == r.children && r1.uploadsDone == r.uploadsDone)
            && (r.transfers == [] || !r.transfers[0].Raised? ==>
                  && a.Ok? && r1.uploadsDone == r.uploadsDone + 1
                  && LookupChild(r1, parent, name).Some?
                  && var file := LookupChild(r1, parent, name).value;
                     !file.isFolder && !file.trashed && a.value == (h(contents) == file.hash)
                     && (r.transfers == [] || r.transfers[0].Intact? ==> a.value)))
  {
  }

  // ---------------------------------------------------------- _upload_file_retry

  /**
   * The remote after `k` attempts that all raise, at their start or in the upload
   * call, each followed by a sync; `None` when one of them returns instead.
   */
  function AfterFailedAttempts(h: Bytes -> Digest, r: Remote, parent: Node, name: string, contents: Bytes, k: nat): Option<Remote>
    decreases k
  {
    if k == 0 then Some(r)
    else
      var (a, r1) := UploadFile(h, r, parent, name, contents);
      if a.Exn? then AfterFailedAttempts(h, Synced(r1), parent, name, contents, k - 1) else None
  }

  /** One failed attempt, then the others: the unfolding of `AfterFailedAttempts` by one step. */
  lemma FailedAttemptStep(h: Bytes -> Digest, r: Remote, parent: Node, name: string, contents: Bytes, k: nat)
    requires k > 0
    ensures var (a, r1) := UploadFile(h, r, parent, name, contents);
      AfterFailedAttempts(h, r, parent, name, contents, k)
      == if a.Exn? then AfterFailedAttempts(h, Synced(r1), parent, name, contents, k - 1) else None
  {
  }

  /**
   * Failed attempts write nothing: `k` of them make exactly `k` syncs and at most
   * `k` upload calls, none of which returned, and create no folder.
   */
  lemma {:induction false} FailedAttemptsShape(h: Bytes -> Digest, r: Remote, parent: Node, name: string, contents: Bytes, k: nat)
    requires AfterFailedAttempts(h, r, parent, name, contents, k).Some?
    ensures var s := AfterFailedAttempts(h, r, parent, name, contents, k).value;
      && s.paths == r.paths && s.children == r.children
      && s.syncCalls == r.syncCalls + k
      && s.uploadsDone == r.uploadsDone
      && s.uploadCalls <= r.uploadCalls + k
      && s.createCalls == r.createCalls
    decreases k
  {
    if k > 0 {
      var (a, r1) := UploadFile(h, r, parent, name, contents);
      FailedAttemptsShape(h, Synced(r1), parent, name, contents, k - 1);
    }
  }

  /** `k` failed attempts use up `k` of the `n` attempts, with a sync after each. */
  lemma {:induction false} RetryAfterFailedAttempts(h: Bytes -> Digest, r: Remote, parent: Node, name: string, contents: Bytes, n: nat, k: nat)
    requires k <= n && AfterFailedAttempts(h, r, parent, name, contents, k).Some?
    ensures Retry(h, r, parent, name, contents, n)
         == Retry(h, AfterFailedAttempts(h, r, parent, name, contents, k).value, parent, name, contents, n - k)
    decreases k
  {
    if k > 0 {
      var (a, r1) := UploadFile(h, r, parent, name, contents);
      FailedAttemptStep(h, r, parent, name, contents, k);
      RetryStep(h, r, parent, name, contents, n);
      RetryAfterFailedAttempts(h, Synced(r1), parent, name, contents, n - 1, k - 1);
    }
  }

  /**
   * Three failed attempts, whichever call raised in each: false, exactly three
   * syncs, no more than three upload calls, and nothing written.
   */
  lemma ThreeFailedAttemptsFail(h: Bytes -> Digest, r: Remote, parent: Node, name: string, contents: Bytes)
    requires AfterFailedAttempts(h, r, parent, name, contents, RETRY_TIMES).Some?
    ensures var o := Retry(h, r, parent, name, contents, RETRY_TIMES);
      && o == Outcome(false, AfterFailedAttempts(h, r, parent, name, contents, RETRY_TIMES).value)
      && o.remote.syncCalls == r.syncCalls + 3
      && o.remote.children == r.children
      && o.remote.uploadsDone == r.uploadsDone
      && o.remote.uploadCalls <= r.uploadCalls + 3
      && o.remote.createCalls == r.createCalls
  {
    RetryAfterFailedAttempts(h, r, parent, name, contents, RETRY_TIMES, RETRY_TIMES);
    FailedAttemptsShape(h, r, parent, name, contents, RETRY_TIMES);
  }

  /**
   * The first attempt that returns decides: after `k` failed attempts, with
   * attempts to spare, the next one's boolean is the result and nothing follows it.
   */
  lemma FirstReturnDecides(h: Bytes -> Digest, r: Remote, parent: Node, name: string, contents: Bytes, n: nat, k: nat)
    requires k < n && AfterFailedAttempts(h, r, parent, name, contents, k).Some?
    requires UploadFile(h, AfterFailedAttempts(h, r, parent, name, contents, k).value, parent, name, contents).0.Ok?
    ensures var (a, r') := UploadFile(h, AfterFailedAttempts(h, r, parent, name, contents, k).value, parent, name, contents);
      Retry(h, r, parent, name, contents, n) == Outcome(a.value, r')
  {
    RetryAfterFailedAttempts(h, r, parent, name, contents, n, k);
  }

  /** A success needed an attempt among the first `n` that returned. */
  lemma {:induction false} RetryOkNeedsReturn(h: Bytes -> Digest, r: Remote, parent: Node, name: string, contents: Bytes, n: nat)
    requires Retry(h, r, parent, name, contents, n).ok
    ensures AfterFailedAttempts(h, r, parent, name, contents, n).None?
    decreases n
  {
    if n > 0 {
      var (a, r1) := UploadFile(h, r, parent, name, contents);
      if a.Exn? {
        RetryOkNeedsReturn(h, Synced(r1), parent, name, contents, n - 1);
      }
    }
  }

  /** The next `k` file attempts raise at their start. */
  predicate LeadingRaises(faults: seq<bool>, k: nat)
  {
    k <= |faults| && forall i :: 0 <= i < k ==> faults[i]
  }

  /** The remote after `k` attempts that raise at their start: each uses up a fault and is followed by a sync. */
  function AfterRaises(r: Remote, k: nat): Remote
    decreases k
  {
    if k == 0 then r else AfterRaises(Synced(r.(faults := Rest(r.faults))), k - 1)
  }

  /** Those attempts use up `k` faults and make `k` syncs, and change nothing else but the pending folders. */
  lemma {:induction false} AfterRaisesShape(r: Remote, k: nat)
    requires k <= |r.faults|
    ensures AfterRaises(r, k) == r.(syncCalls := r.syncCalls + k, faults := r.faults[k..], hidden := AfterRaises(r, k).hidden)
    decreases k
  {
    if k > 0 {
      var r1 := Synced(r.(faults := Rest(r.faults)));
      AfterRaisesShape(r1, k - 1);
      assert r1.faults[k - 1..] == r.faults[k..];
    }
  }

  /** Attempts that raise at their start are failed attempts that make no upload call. */
  lemma {:induction false} LeadingRaisesFail(h: Bytes -> Digest, r: Remote, parent: Node, name: string, contents: Bytes, k: nat)
    requires LeadingRaises(r.faults, k)
    ensures AfterFailedAttempts(h, r, parent, name, contents, k) == Some(AfterRaises(r, k))
    decreases k
  {
    if k > 0 {
      var r1 := Synced(r.(faults := Rest(r.faults)));
      assert DrawFault(r) == (true, r.(faults := Rest(r.faults)));
      assert LeadingRaises(r1.faults, k - 1) by {
        forall i | 0 <= i < k - 1 ensures r1.faults[i] {
          assert r1.faults[i] == r.faults[i + 1];
        }
      }
      LeadingRaisesFail(h, r1, parent, name, contents, k - 1);
    }
  }

  /** Three attempts that raise at their start: false, three syncs, three faults used, and no upload call at all. */
  lemma ThreeRaisesFail(h: Bytes -> Digest, r: Remote, parent: Node, name: string, contents: Bytes)
    requires LeadingRaises(r.faults, RETRY_TIMES)
    ensures var o := Retry(h, r, parent, name, contents, RETRY_TIMES);
      && !o.ok
      && o.remote.syncCalls == r.syncCalls + 3
      && o.remote.faults == r.faults[3..]
      && o.remote.children == r.children
      && o.remote.uploadCalls == r.uploadCalls
      && o.remote.createCalls == r.createCalls
  {
    LeadingRaisesFail(h, r, parent, name, contents, RETRY_TIMES);
    ThreeFailedAttemptsFail(h, r, parent, name, contents);
    AfterRaisesShape(r, RETRY_TIMES);
  }

  /** An attempt for a missing file whose upload call raises: one upload call, nothing written, then a sync. */
  lemma UploadRaiseStep(h: Bytes -> Digest, r: Remote, parent: Node, name: string, contents: Bytes)
    requires r.faults == [] && PathVisible(r, parent.id) && LookupChild(r, parent, name).None?
    requires r.transfers != [] && r.transfers[0].Raised?
    ensures AfterFailedAttempts(h, r, parent, name, contents, 1)
         == Some(Synced(r.(uploadCalls := r.uploadCalls + 1, transfers := r.transfers[1..])))
  {
    assert DrawFault(r) == (false, r);
  }

  /**
   * A new file whose upload call raises three times in a row: false after three
   * attempts, three upload calls and three syncs, with nothing written.
   */
  lemma UploadRaisesThrice(h: Bytes -> Digest, r: Remote, parent: Node, name: string, contents: Bytes)
    requires r.faults == [] && PathVisible(r, parent.id) && LookupChild(r, parent, name).None?
    requires |r.transfers| >= 3 && r.transfers[0].Raised? && r.transfers[1].Raised? && r.transfers[2].Raised?
    ensures var o := Retry(h, r, parent, name, contents, RETRY_TIMES);
      && !o.ok
      && o.remote.syncCalls == r.syncCalls + 3
      && o.remote.uploadCalls == r.uploadCalls + 3
      && o.remote.uploadsDone == r.uploadsDone
      && o.remote.children == r.children
  {
    var r1 := Synced(r.(uploadCalls := r.uploadCalls + 1, transfers := r.transfers[1..]));
    UploadRaiseStep(h, r, parent, name, contents);
    var r2 := Synced(r1.(uploadCalls := r1.uploadCalls + 1, transfers := r1.transfers[1..]));
    UploadRaiseStep(h, r1, parent, name, contents);
    var r3 := Synced(r2.(uploadCalls := r2.uploadCalls + 1, transfers := r2.transfers[1..]));
    UploadRaiseStep(h, r2, parent, name, contents);
    assert AfterFailedAttempts(h, r, parent, name, contents, 3) == Some(r3) by {
      assert AfterFailedAttempts(h, r, parent, name, contents, 3) == AfterFailedAttempts(h, r1, parent, name, contents, 2);
      assert AfterFailedAttempts(h, r1, parent, name, contents, 2) == AfterFailedAttempts(h, r2, parent, name, contents, 1);
    }
    ThreeFailedAttemptsFail(h, r, parent, name, contents);
  }

  /**
   * A new file whose upload call raises twice and then goes through intact:
   * the third attempt uploads it and the loop succeeds.
   */
  lemma UploadRaisesTwiceThenSucceeds(h: Bytes -> Digest, r: Remote, parent: Node, name: string, contents: Bytes)
    requires r.faults == [] && PathVisible(r, parent.id) && LookupChild(r, parent, name).None?
    requires |r.transfers| >= 3 && r.transfers[0].Raised? && r.transfers[1].Raised? && r.transfers[2].Intact?
    ensures var o := Retry(h, r, parent, name, contents, RETRY_TIMES);
      && o.ok
      && o.remote.syncCalls == r.syncCalls + 2
      && o.remote.uploadCalls == r.uploadCalls + 3
      && o.remote.uploadsDone == r.uploadsDone + 1
      && HoldsFile(o.remote, h, parent, name, contents)
  {
    var r1 := Synced(r.(uploadCalls := r.uploadCalls + 1, transfers := r.transfers[1..]));
    UploadRaiseStep(h, r, parent, name, contents);
    var r2 := Synced(r1.(uploadCalls := r1.uploadCalls + 1, transfers := r1.transfers[1..]));
    UploadRaiseStep(h, r1, parent, name, contents);
    assert AfterFailedAttempts(h, r, parent, name, contents, 2) == Some(r2) by {
      assert AfterFailedAttempts(h, r, parent, name, contents, 2) == AfterFailedAttempts(h, r1, parent, name, contents, 1);
    }
    assert DrawFault(r2) == (false, r2);
    UploadFileCases(h, r2, parent, name, contents);
    FirstReturnDecides(h, r, parent, name, contents, RETRY_TIMES, 2);
  }

  // ---------------------------------------------------------------- idempotence

  /** A live file under `name` whose digest is that of `contents`. */
  predicate HoldsFile(r: Remote, h: Bytes -> Digest, parent: Node, name: string, contents: Bytes)
  {
    var child := LookupChild(r, parent, name);
    child.Some? && !child.value.isFolder && !child.value.trashed && child.value.hash == h(contents)
  }

  /** A successful retry loop leaves the verified file in place, under a parent that resolves. */
  lemma {:induction false} RetryOkHoldsFile(h: Bytes -> Digest, r: Remote, parent: Node, name: string, contents: Bytes, n: nat)
    requires Retry(h, r, parent, name, contents, n).ok
    ensures HoldsFile(Retry(h, r, parent, name, contents, n).remote, h, parent, name, contents)
    ensures PathVisible(Retry(h, r, parent, name, contents, n).remote, parent.id)
    decreases n
  {
    var (a, r1) := UploadFile(h, r, parent, name, contents);
    if a.Exn? {
      RetryOkHoldsFile(h, Synced(r1), parent, name, contents, n - 1);
    }
  }

  /**
   * With that file in place under a parent that resolves, and no fault pending,
   * the retry loop succeeds at once and changes nothing.
   */
  lemma HeldFileSkipped(h: Bytes -> Digest, r: Remote, parent: Node, name: string, contents: Bytes, n: nat)
    requires HoldsFile(r, h, parent, name, contents) && PathVisible(r, parent.id) && r.faults == [] && n >= 1
    ensures Retry(h, r, parent, name, contents, n) == Outcome(true, r)
  {
    assert DrawFault(r) == (false, r);
  }

  /**
   * Uploading a file again after it was uploaded (and no fault is pending) is a
   * no-op that reports success: no sync, no upload, no folder.
   */
  lemma FileUploadIdempotent(f: Filter, h: Bytes -> Digest, r: Remote, parent: Node, name: string, contents: Bytes)
    requires Upload(f, h, r, parent, name, Some(File(contents))).ok
    requires Upload(f, h, r, parent, name, Some(File(contents))).remote.faults == []
    ensures var s := Upload(f, h, r, parent, name, Some(File(contents))).remote;
      Upload(f, h, s, parent, name, Some(File(contents))) == Outcome(true, s)
  {
    if !ShouldExclude(f, name).excluded {
      RetryOkHoldsFile(h, r, parent, name, contents, RETRY_TIMES);
      HeldFileSkipped(h, Upload(f, h, r, parent, name, Some(File(contents))).remote, parent, name, contents, RETRY_TIMES);
    }
  }
}
