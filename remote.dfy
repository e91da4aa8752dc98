/**
 * The remote drive as the upload engine uses it (the collaborator behind
 * `self._drive` in duld/drive.py). Its internals are foreign to the model; what the
 * engine relies on is kept as plain data:
 *   - `paths`: what `get_node_by_path` resolves;
 *   - `children`: what `get_node_by_name_from_parent` finds under a parent id;
 *   - `hidden`: folders created but not yet resolvable by `get_path`, with the number
 *     of syncs still needed before they are;
 *   - call counters for `sync`, `upload_from_local` and `create_folder`, and the
 *     number of uploads that returned a file;
 *   - three oracles standing for the remote's failures: whether the next file attempt
 *     raises, how the next upload goes, and how the next
 *     `create_folder` goes. An exhausted oracle behaves well.
 */
module RemoteDrive {
  import opened Wrappers
  import opened Hashing

  datatype Node = Node(id: nat, isFolder: bool, trashed: bool, hash: Digest)

  /**
   * How an `upload_from_local` call goes: it returns a file with the digest of the
   * bytes sent, or with another digest, or it raises and writes nothing.
   */
  datatype Transfer = Intact | Garbled(reported: Digest) | Raised

  /** How a `create_folder` call goes: a folder that resolves after `lag` syncs, or `None`. */
  datatype Creation = Created(lag: nat) | Refused

  datatype Remote = Remote(
    paths: map<string, Node>,
    children: map<(nat, string), Node>,
    nextId: nat,
    hidden: map<nat, nat>,
    syncCalls: nat,
    uploadCalls: nat,
    uploadsDone: nat,
    createCalls: nat,
    faults: seq<bool>,
    transfers: seq<Transfer>,
    creations: seq<Creation>)

  function Rest<T>(s: seq<T>): seq<T>
  {
    if s == [] then [] else s[1..]
  }

  /** One `sync`: pulls pending changes, bringing every hidden folder one sync closer to resolvable. */
  function Synced(r: Remote): Remote
  {
    r.(syncCalls := r.syncCalls + 1,
       hidden := map id | id in r.hidden && r.hidden[id] > 1 :: r.hidden[id] - 1)
  }

  function LookupPath(r: Remote, path: string): Option<Node>
  {
    if path in r.paths then Some(r.paths[path]) else None
  }

  function LookupChild(r: Remote, parent: Node, name: string): Option<Node>
  {
    if (parent.id, name) in r.children then Some(r.children[(parent.id, name)]) else None
  }

  /** `get_path(node)` returns instead of raising. */
  predicate PathVisible(r: Remote, id: nat)
  {
    id !in r.hidden
  }

  /** Syncs still needed before `id` resolves, plus one while it is hidden: drops with every sync. */
  function Lag(r: Remote, id: nat): nat
  {
    if id in r.hidden then r.hidden[id] + 1 else 0
  }

  function CreateFolderIn(r: Remote, parent: Node, name: string): (Option<Node>, Remote)
  {
    var calls := r.(createCalls := r.createCalls + 1, creations := Rest(r.creations));
    match (if r.creations == [] then Created(0) else r.creations[0])
    case Refused => (None, calls)
    case Created(lag) =>
      var folder := Node(r.nextId, true, false, "");
      (Some(folder),
       calls.(children := r.children[(parent.id, name) := folder],
              nextId := r.nextId + 1,
              hidden := if lag == 0 then r.hidden - {folder.id} else r.hidden[folder.id := lag]))
  }

  /**
   * `upload_from_local`: one upload call. Unless it raises (`None`), the new file
   * node replaces whatever held its name.
   */
  function UploadInto(r: Remote, h: Bytes -> Digest, parent: Node, name: string, contents: Bytes): (Option<Node>, Remote)
  {
    var transfer := if r.transfers == [] then Intact else r.transfers[0];
    var called := r.(uploadCalls := r.uploadCalls + 1, transfers := Rest(r.transfers));
    match transfer
    case Raised => (None, called)
    case _ =>
      var digest := if transfer.Garbled? then transfer.reported else h(contents);
      var file := Node(r.nextId, false, false, digest);
      (Some(file),
       called.(children := r.children[(parent.id, name) := file],
               nextId := r.nextId + 1,
               uploadsDone := r.uploadsDone + 1))
  }

  /** Whether the next file attempt raises before it writes anything. */
  function DrawFault(r: Remote): (bool, Remote)
  {
    (r.faults != [] && r.faults[0], r.(faults := Rest(r.faults)))
  }

  /** The remote drive object. `View` is its state as a value. */
  class Drive {
    const hasher: Bytes -> Digest
    var paths: map<string, Node>
    var children: map<(nat, string), Node>
    var nextId: nat
    var hidden: map<nat, nat>
    var syncCalls: nat
    var uploadCalls: nat
    var uploadsDone: nat
    var createCalls: nat
    var faults: seq<bool>
    var transfers: seq<Transfer>
    var creations: seq<Creation>

    function View(): Remote
      reads this
    {
      Remote(paths, children, nextId, hidden, syncCalls, uploadCalls, uploadsDone, createCalls, faults, transfers, creations)
    }

    constructor (hasher: Bytes -> Digest, initial: Remote)
      ensures this.hasher == hasher && View() == initial
    {
      this.hasher := hasher;
      paths, children, nextId, hidden := initial.paths, initial.children, initial.nextId, initial.hidden;
      syncCalls, uploadCalls, uploadsDone, createCalls := initial.syncCalls, initial.uploadCalls, initial.uploadsDone, initial.createCalls;
      faults, transfers, creations := initial.faults, initial.transfers, initial.creations;
    }

    method Sync()
      modifies this
      ensures View() == Synced(old(View()))
    {
      syncCalls := syncCalls + 1;
      hidden := map id | id in hidden && hidden[id] > 1 :: hidden[id] - 1;
    }

    method GetNodeByPath(path: string) returns (node: Option<Node>)
      ensures node == LookupPath(View(), path)
    {
      node := if path in paths then Some(paths[path]) else None;
    }

    method GetNodeByNameFromParent(name: string, parent: Node) returns (node: Option<Node>)
      ensures node == LookupChild(View(), parent, name)
    {
      node := if (parent.id, name) in children then Some(children[(parent.id, name)]) else None;
    }

    /** Whether `get_path(node)` returns rather than raises. */
    method GetPathResolves(node: Node) returns (resolves: bool)
      ensures resolves == PathVisible(View(), node.id)
    {
      resolves := node.id !in hidden;
    }

    method CreateFolder(parent: Node, name: string) returns (folder: Option<Node>)
      modifies this
      ensures (folder, View()) == CreateFolderIn(old(View()), parent, name)
    {
      var creation := if creations == [] then Created(0) else creations[0];
      createCalls, creations := createCalls + 1, Rest(creations);
      match creation
      case Refused =>
        folder := None;
      case Created(lag) =>
        var created := Node(nextId, true, false, "");
        children := children[(parent.id, name) := created];
        nextId := nextId + 1;
        if lag != 0 {
          hidden := hidden[created.id := lag];
        } else {
          hidden := hidden - {created.id};
        }
        folder := Some(created);
    }

    /** `upload_from_local`; `None` when the call raises. */
    method UploadFromLocal(parent: Node, name: string, contents: Bytes) returns (file: Option<Node>)
      modifies this
      ensures (file, View()) == UploadInto(old(View()), hasher, parent, name, contents)
    {
      var transfer := if transfers == [] then Intact else transfers[0];
      uploadCalls, transfers := uploadCalls + 1, Rest(transfers);
      if transfer.Raised? {
        return None;
      }
      var digest := if transfer.Garbled? then transfer.reported else hasher(contents);
      var created := Node(nextId, false, false, digest);
      children := children[(parent.id, name) := created];
      nextId, uploadsDone := nextId + 1, uploadsDone + 1;
      file := Some(created);
    }

    /** `get_hasher`: a fresh hasher for the drive's digest algorithm. */
    method GetHasher() returns (h: Hasher)
      ensures fresh(h) && h.algorithm == hasher && h.absorbed == []
    {
      h := new Hasher(hasher);
    }

    /** Draws from the fault oracle at the start of a file attempt. */
    method NextFault() returns (raises: bool)
      modifies this
      ensures (raises, View()) == DrawFault(old(View()))
    {
      raises := faults != [] && faults[0];
      faults := Rest(faults);
    }
  }
}
