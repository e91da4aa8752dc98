/**
 * `DriveUploader` (duld/drive.py) as a class: its job registry `_jobs` is a field the
 * entry points update in place, and every method that talks to the drive is proved
 * to compute exactly the boolean and the remote state that `UploadSpec` gives.
 */
module Uploader {
  import opened Wrappers
  import opened Hashing
  import opened LocalFs
  import opened Exclusion
  import opened RemoteDrive
  import S = UploadSpec

  class DriveUploader {
    /** The keys (local paths and torrent ids) of the uploads in progress. */
    var jobs: set<string>
    const drive: Drive
    /** The `exclude_pattern` and `exclude_url` settings, with the regex matcher. */
    const filter: Filter

    constructor (drive: Drive, filter: Filter)
      ensures this.drive == drive && this.filter == filter && jobs == {}
    {
      this.drive := drive;
      this.filter := filter;
      jobs := {};
    }

    /** Entering `job_guard`: the key is registered. */
    method JobGuardEnter(token: string)
      modifies this
      ensures jobs == old(jobs) + {token}
    {
      jobs := jobs + {token};
    }

    /** Leaving `job_guard`, on every normal exit: the key is discarded. */
    method JobGuardExit(token: string)
      modifies this
      ensures jobs == old(jobs) - {token}
    {
      jobs := jobs - {token};
    }

    /**
     * A key already in progress is refused without touching anything; otherwise
     * the key is held for the duration of the call and released on every exit.
     */
    method UploadPath(remotePath: string, localPath: string, fs: FileSystem) returns (ok: bool)
      modifies this, drive
      ensures jobs == old(jobs)
      ensures localPath in old(jobs) ==> !ok && drive.View() == old(drive.View())
      ensures localPath !in old(jobs) ==>
        S.Outcome(ok, drive.View()) == S.UploadPath(filter, drive.hasher, old(drive.View()), remotePath, localPath, fs)
    {
      if localPath in jobs {
        return false;
      }
      JobGuardEnter(localPath);
      drive.Sync();
      var node := drive.GetNodeByPath(remotePath);
      if node.None? {
        JobGuardExit(localPath);
        return false;
      }
      ok := Upload(node.value, Basename(localPath), Lookup(fs, localPath));
      JobGuardExit(localPath);
    }

    method UploadTorrent(remotePath: string, torrentId: string, torrentRoot: string, rootItems: seq<string>, fs: FileSystem)
      returns (ok: bool)
      modifies this, drive
      ensures jobs == old(jobs)
      ensures torrentId in old(jobs) ==> !ok && drive.View() == old(drive.View())
      ensures torrentId !in old(jobs) ==>
        S.Outcome(ok, drive.View()) == S.UploadTorrent(filter, drive.hasher, old(drive.View()), remotePath, torrentRoot, rootItems, fs)
    {
      if torrentId in jobs {
        return false;
      }
      JobGuardEnter(torrentId);
      drive.Sync();
      var node := drive.GetNodeByPath(remotePath);
      if node.None? {
        JobGuardExit(torrentId);
        return false;
      }
      ghost var start := drive.View();
      var allOk := true;
      var i := 0;
      while i < |rootItems|
        invariant 0 <= i <= |rootItems|
        invariant jobs == old(jobs) + {torrentId}
        invariant S.UploadItems(filter, drive.hasher, start, node.value, torrentRoot, rootItems, fs) ==
          var rest := S.UploadItems(filter, drive.hasher, drive.View(), node.value, torrentRoot, rootItems[i..], fs);
          S.Outcome(allOk && rest.ok, rest.remote)
      {
        var item := Join(torrentRoot, rootItems[i]);
        var itemOk := Upload(node.value, Basename(item), Lookup(fs, item));
        if !itemOk {
          allOk := false;
        }
        assert rootItems[i..][1..] == rootItems[i + 1..];
        i := i + 1;
      }
      JobGuardExit(torrentId);
      ok := allOk;
    }

    method Upload(parent: Node, name: string, local: Option<Entry>) returns (ok: bool)
      modifies drive
      ensures S.Outcome(ok, drive.View()) == S.Upload(filter, drive.hasher, old(drive.View()), parent, name, local)
      decreases if local.Some? then EntrySize(local.value) else 0, 0
    {
      if ShouldExclude(filter, name).excluded {
        return true;
      }
      if local.None? {
        return false;
      }
      match local.value
      case Dir(cs) =>
        ok := UploadDirectory(parent, name, cs);
      case File(contents) =>
        ok := UploadFileRetry(parent, name, contents);
    }

    method UploadDirectory(parent: Node, name: string, cs: seq<Child>) returns (ok: bool)
      modifies drive
      ensures S.Outcome(ok, drive.View()) == S.UploadDirectory(filter, drive.hasher, old(drive.View()), parent, name, cs)
      decreases ChildrenSize(cs), 2
    {
      var folder: Node;
      var child := drive.GetNodeByNameFromParent(name, parent);
      if child.Some? && !child.value.isFolder {
        return false;
      } else if child.None? || child.value.trashed || parent.trashed {
        var made := drive.CreateFolder(parent, name);
        if made.None? {
          return false;
        }
        folder := made.value;
        ghost var created := drive.View();
        var resolves := drive.GetPathResolves(folder);
        while !resolves
          invariant resolves == PathVisible(drive.View(), folder.id)
          invariant S.Poll(drive.View(), folder.id) == S.Poll(created, folder.id)
          decreases Lag(drive.View(), folder.id)
        {
          drive.Sync();
          resolves := drive.GetPathResolves(folder);
        }
      } else {
        folder := child.value;
      }
      ghost var start := drive.View();
      assert S.FindOrCreateFolder(old(drive.View()), parent, name) == (Some(folder), start);
      ok := true;
      var i := 0;
      while i < |cs|
        invariant 0 <= i <= |cs|
        invariant S.UploadChildren(filter, drive.hasher, start, folder, cs) ==
          var rest := S.UploadChildren(filter, drive.hasher, drive.View(), folder, cs[i..]);
          S.Outcome(ok && rest.ok, rest.remote)
      {
        ChildSizeBound(cs, i);
        var childOk := Upload(folder, cs[i].name, Some(cs[i].entry));
        if !childOk {
          ok := false;
        }
        assert cs[i..][1..] == cs[i + 1..];
        i := i + 1;
      }
    }

    method UploadFileRetry(parent: Node, name: string, contents: Bytes) returns (ok: bool)
      modifies drive
      ensures S.Outcome(ok, drive.View()) == S.Retry(drive.hasher, old(drive.View()), parent, name, contents, S.RETRY_TIMES)
    {
      for attempt := 0 to S.RETRY_TIMES
        invariant S.Retry(drive.hasher, old(drive.View()), parent, name, contents, S.RETRY_TIMES) ==
                  S.Retry(drive.hasher, drive.View(), parent, name, contents, S.RETRY_TIMES - attempt)
      {
        ghost var before := drive.View();
        var res := UploadFile(parent, name, contents);
        S.RetryStep(drive.hasher, before, parent, name, contents, S.RETRY_TIMES - attempt);
        if res.Ok? {
          return res.value;
        }
        drive.Sync();
      }
      return false;
    }

    method UploadFile(parent: Node, name: string, contents: Bytes) returns (res: S.Attempt)
      modifies drive
      ensures (res, drive.View()) == S.UploadFile(drive.hasher, old(drive.View()), parent, name, contents)
    {
      var raises := drive.NextFault();
      if raises {
        return S.Exn;
      }
      var resolves := drive.GetPathResolves(parent);
      if !resolves {
        return S.Exn;
      }
      var child := drive.GetNodeByNameFromParent(name, parent);
      if child.Some? && !child.value.trashed {
        if child.value.isFolder {
          return S.Ok(false);
        }
        var ok := VerifyRemoteFile(contents, child.value.hash);
        if !ok {
          return S.Ok(false);
        }
      }
      if child.None? || child.value.trashed {
        var file := drive.UploadFromLocal(parent, name, contents);
        if file.None? {
          return S.Exn;
        }
        var ok := VerifyRemoteFile(contents, file.value.hash);
        if !ok {
          return S.Ok(false);
        }
      }
      return S.Ok(true);
    }

    /** Hashes the local file with the drive's hasher and compares with the remote digest. */
    method VerifyRemoteFile(contents: Bytes, remoteHash: Digest) returns (ok: bool)
      ensures ok == (drive.hasher(contents) == remoteHash)
    {
      var hasher := drive.GetHasher();
      var localHash;
      ghost var chunks;
      localHash, chunks := Md5Sum(hasher, contents);
      assert [] + contents == contents;
      ok := localHash == remoteHash;
    }
  }
}
