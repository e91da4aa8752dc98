/**
 * The upload engine of duld/drive.py (`DriveUploader`) as functions of the remote
 * state: each function gives the boolean a call returns and the remote state it
 * leaves. The methods of `Uploader.DriveUploader` are proved to compute exactly these.
 */
module UploadSpec {
  import opened Wrappers
  import opened Hashing
  import opened LocalFs
  import opened Exclusion
  import opened RemoteDrive

  /** Attempts `_upload_file_retry` makes before giving up. */
  const RETRY_TIMES: nat := 3

  datatype Outcome = Outcome(ok: bool, remote: Remote)

  /** How one `_upload_file` attempt ends: it returns a boolean, or it raises. */
  datatype Attempt = Ok(value: bool) | Exn

  /** What any upload may do to the remote: never re-point paths, never drop a name, only count up. */
  predicate Evolves(r: Remote, r': Remote)
  {
    && r'.paths == r.paths
    && r.children.Keys <= r'.children.Keys
    && r.nextId <= r'.nextId
    && r.syncCalls <= r'.syncCalls
    && r.uploadCalls <= r'.uploadCalls
    && r.uploadsDone <= r'.uploadsDone
    && r.createCalls <= r'.createCalls
  }

  /** `_verify_remote_file`: the digest of the whole local file equals the remote's. */
  predicate Verified(h: Bytes -> Digest, contents: Bytes, remoteHash: Digest)
  {
    h(contents) == remoteHash
  }

  /**
   * `_upload_file`: keep a live file whose digest matches, refuse a live folder,
   * and otherwise upload once and verify what the remote reports. The attempt
   * raises at its start, in `get_path` of a parent that does not resolve yet, or
   * in the upload call.
   */
  function UploadFile(h: Bytes -> Digest, r: Remote, parent: Node, name: string, contents: Bytes): (res: (Attempt, Remote))
    ensures Evolves(r, res.1)
    ensures res.1.syncCalls == r.syncCalls && res.1.createCalls == r.createCalls
    ensures res.1.uploadCalls <= r.uploadCalls + 1
    ensures res.1.uploadsDone - r.uploadsDone == res.1.uploadCalls - r.uploadCalls || res.0.Exn?
    ensures res.0.Exn? ==> res.1.uploadsDone == r.uploadsDone && res.1.children == r.children
  {
    var (raises, r0) := DrawFault(r);
    if raises || !PathVisible(r0, parent.id) then (Exn, r0)
    else
      var child := LookupChild(r0, parent, name);
      if child.Some? && !child.value.trashed then
        if child.value.isFolder then (Ok(false), r0)
        else (Ok(Verified(h, contents, child.value.hash)), r0)
      else
        var (file, r1) := UploadInto(r0, h, parent, name, contents);
        if file.None? then (Exn, r1)
        else (Ok(Verified(h, contents, file.value.hash)), r1)
  }

  /**
   * `_upload_file_retry` with `attempts` attempts left: the first attempt that
   * returns decides; an attempt that raises is followed by one sync. At most one
   * upload returns; every attempt makes at most one upload call.
   */
  function Retry(h: Bytes -> Digest, r: Remote, parent: Node, name: string, contents: Bytes, attempts: nat): (o: Outcome)
    ensures Evolves(r, o.remote)
    ensures o.remote.uploadsDone <= r.uploadsDone + 1
    ensures o.remote.uploadCalls <= r.uploadCalls + attempts
    ensures o.remote.createCalls == r.createCalls
    decreases attempts
  {
    if attempts == 0 then Outcome(false, r)
    else
      var (a, r1) := UploadFile(h, r, parent, name, contents);
      match a
      case Ok(b) => Outcome(b, r1)
      case Exn => Retry(h, Synced(r1), parent, name, contents, attempts - 1)
  }

  /** One turn of the retry loop: an attempt that returns decides, one that raises is followed by a sync. */
  lemma RetryStep(h: Bytes -> Digest, r: Remote, parent: Node, name: string, contents: Bytes, n: nat)
    requires n > 0
    ensures var (a, r1) := UploadFile(h, r, parent, name, contents);
      Retry(h, r, parent, name, contents, n)
      == if a.Ok? then Outcome(a.value, r1) else Retry(h, Synced(r1), parent, name, contents, n - 1)
  {
  }

  /** The wait after `create_folder`: sync until `get_path` of the new folder stops raising. */
  function Poll(r: Remote, id: nat): (p: Remote)
    ensures PathVisible(p, id)
    ensures p == r.(syncCalls := p.syncCalls, hidden := p.hidden)
    ensures r.syncCalls <= p.syncCalls
    decreases Lag(r, id)
  {
    if PathVisible(r, id) then r else Poll(Synced(r), id)
  }

  /**
   * How many syncs `id` still needs before `get_path` resolves it: none once it is
   * visible, otherwise its pending count, and at least one.
   */
  function PendingSyncs(r: Remote, id: nat): nat
  {
    if id !in r.hidden then 0 else if r.hidden[id] <= 1 then 1 else r.hidden[id]
  }

  /** The wait makes exactly the syncs the folder still needs. */
  lemma {:induction false} PollSyncs(r: Remote, id: nat)
    ensures Poll(r, id).syncCalls == r.syncCalls + PendingSyncs(r, id)
    decreases Lag(r, id)
  {
    if !PathVisible(r, id) {
      PollSyncs(Synced(r), id);
    }
  }

  /**
   * The find-or-create step of `_upload_directory`: a file of that name blocks; a
   * missing or trashed child, or a trashed parent, gets a new folder.
   */
  function FindOrCreateFolder(r: Remote, parent: Node, name: string): (res: (Option<Node>, Remote))
    ensures Evolves(r, res.1)
    ensures res.1.uploadCalls == r.uploadCalls && res.1.uploadsDone == r.uploadsDone
    ensures res.1.createCalls <= r.createCalls + 1
    ensures res.0.Some? ==> res.0.value.isFolder
  {
    var child := LookupChild(r, parent, name);
    if child.Some? && !child.value.isFolder then (None, r)
    else if child.None? || child.value.trashed || parent.trashed then
      var (made, r1) := CreateFolderIn(r, parent, name);
      if made.None? then (None, r1) else (made, Poll(r1, made.value.id))
    else (child, r)
  }

  /**
   * `_upload`: skip an excluded name, fail on a missing path, mirror a directory,
   * retry a file. At most one upload that returns, and `RETRY_TIMES` upload calls,
   * per local file, and one folder per local directory.
   */
  function Upload(f: Filter, h: Bytes -> Digest, r: Remote, parent: Node, name: string, local: Option<Entry>): (o: Outcome)
    ensures Evolves(r, o.remote)
    ensures local.None? ==> o.remote == r
    ensures local.Some? ==> o.remote.uploadsDone <= r.uploadsDone + Files(local.value)
    ensures local.Some? ==> o.remote.uploadCalls <= r.uploadCalls + RETRY_TIMES * Files(local.value)
    ensures local.Some? ==> o.remote.createCalls <= r.createCalls + Dirs(local.value)
    decreases if local.Some? then EntrySize(local.value) else 0, 0
  {
    if ShouldExclude(f, name).excluded then Outcome(true, r)
    else
      match local
      case None => Outcome(false, r)
      case Some(File(contents)) => Retry(h, r, parent, name, contents, RETRY_TIMES)
      case Some(Dir(cs)) => UploadDirectory(f, h, r, parent, name, cs)
  }

  /** `_upload_directory`: find or create the folder, then upload every entry into it. */
  function UploadDirectory(f: Filter, h: Bytes -> Digest, r: Remote, parent: Node, name: string, cs: seq<Child>): (o: Outcome)
    ensures Evolves(r, o.remote)
    ensures o.remote.uploadsDone <= r.uploadsDone + ChildrenFiles(cs)
    ensures o.remote.uploadCalls <= r.uploadCalls + RETRY_TIMES * ChildrenFiles(cs)
    ensures o.remote.createCalls <= r.createCalls + 1 + ChildrenDirs(cs)
    decreases ChildrenSize(cs), 2
  {
    var (folder, r1) := FindOrCreateFolder(r, parent, name);
    if folder.None? then Outcome(false, r1) else UploadChildren(f, h, r1, folder.value, cs)
  }

  /** The loop of `_upload_directory`: every entry is uploaded, failed or not, and the results are AND-ed. */
  function UploadChildren(f: Filter, h: Bytes -> Digest, r: Remote, folder: Node, cs: seq<Child>): (o: Outcome)
    ensures Evolves(r, o.remote)
    ensures o.remote.uploadsDone <= r.uploadsDone + ChildrenFiles(cs)
    ensures o.remote.uploadCalls <= r.uploadCalls + RETRY_TIMES * ChildrenFiles(cs)
    ensures o.remote.createCalls <= r.createCalls + ChildrenDirs(cs)
    decreases ChildrenSize(cs), 1
  {
    if cs == [] then Outcome(true, r)
    else
      var first := Upload(f, h, r, folder, cs[0].name, Some(cs[0].entry));
      var rest := UploadChildren(f, h, first.remote, folder, cs[1..]);
      Outcome(first.ok && rest.ok, rest.remote)
  }

  /** `upload_path` once its job is registered: sync, resolve the target, upload the path. */
  function UploadPath(f: Filter, h: Bytes -> Digest, r: Remote, remotePath: string, localPath: string, fs: FileSystem): (o: Outcome)
    ensures Evolves(r, o.remote)
    ensures o.remote.syncCalls >= r.syncCalls + 1
  {
    var r1 := Synced(r);
    match LookupPath(r1, remotePath)
    case None => Outcome(false, r1)
    case Some(node) => Upload(f, h, r1, node, Basename(localPath), Lookup(fs, localPath))
  }

  /** The loop of `upload_torrent`: every item under the root is uploaded, failed or not, and the results are AND-ed. */
  function UploadItems(f: Filter, h: Bytes -> Digest, r: Remote, node: Node, root: string, items: seq<string>, fs: FileSystem): (o: Outcome)
    ensures Evolves(r, o.remote)
    decreases |items|
  {
    if items == [] then Outcome(true, r)
    else
      var path := Join(root, items[0]);
      var first := Upload(f, h, r, node, Basename(path), Lookup(fs, path));
      var rest := UploadItems(f, h, first.remote, node, root, items[1..], fs);
      Outcome(first.ok && rest.ok, rest.remote)
  }

  /** `upload_torrent` once its job is registered. */
  function UploadTorrent(f: Filter, h: Bytes -> Digest, r: Remote, remotePath: string, root: string, items: seq<string>, fs: FileSystem): (o: Outcome)
    ensures Evolves(r, o.remote)
    ensures o.remote.syncCalls >= r.syncCalls + 1
  {
    var r1 := Synced(r);
    match LookupPath(r1, remotePath)
    case None => Outcome(false, r1)
    case Some(node) => UploadItems(f, h, r1, node, root, items, fs)
  }
}
