/**
 * The local filesystem as the upload engine sees it: what lies at a path is a file
 * with its bytes or a directory with its named entries (the order of `iterdir`).
 */
module LocalFs {
  import opened Wrappers
  import opened Hashing

  datatype Entry = File(contents: Bytes) | Dir(children: seq<Child>)

  datatype Child = Child(name: string, entry: Entry)

  /** What exists at each path string a caller may name; a path not in the map does not exist. */
  type FileSystem = map<string, Entry>

  function Lookup(fs: FileSystem, path: string): Option<Entry>
  {
    if path in fs then Some(fs[path]) else None
  }

  function EntrySize(e: Entry): (n: nat)
    ensures n >= 1
  {
    match e
    case File(_) => 1
    case Dir(cs) => 1 + ChildrenSize(cs)
  }

  function ChildrenSize(cs: seq<Child>): nat
  {
    if cs == [] then 0 else EntrySize(cs[0].entry) + ChildrenSize(cs[1..])
  }

  lemma {:induction false} ChildSizeBound(cs: seq<Child>, i: nat)
    requires i < |cs|
    ensures EntrySize(cs[i].entry) <= ChildrenSize(cs)
  {
    if i > 0 {
      ChildSizeBound(cs[1..], i - 1);
    }
  }

  /** The number of files in a tree. */
  function Files(e: Entry): nat
  {
    match e
    case File(_) => 1
    case Dir(cs) => ChildrenFiles(cs)
  }

  function ChildrenFiles(cs: seq<Child>): nat
  {
    if cs == [] then 0 else Files(cs[0].entry) + ChildrenFiles(cs[1..])
  }

  /** The number of directories in a tree, itself included. */
  function Dirs(e: Entry): nat
  {
    match e
    case File(_) => 0
    case Dir(cs) => 1 + ChildrenDirs(cs)
  }

  function ChildrenDirs(cs: seq<Child>): nat
  {
    if cs == [] then 0 else Dirs(cs[0].entry) + ChildrenDirs(cs[1..])
  }

  /** `s` without its trailing slashes: a prefix of `s` followed in `s` by slashes only. */
  function StripTrailingSlashes(s: string): (t: string)
    ensures |t| <= |s| && t == s[..|t|]
    ensures forall k :: |t| <= k < |s| ==> s[k] == '/'
    ensures t == [] || t[|t| - 1] != '/'
  {
    if |s| > 0 && s[|s| - 1] == '/' then StripTrailingSlashes(s[..|s| - 1]) else s
  }

  /** The part of `s` after its last '/' (all of `s` when it has none). */
  function AfterLastSlash(s: string): (t: string)
    ensures '/' !in t
    ensures |t| <= |s| && t == s[|s| - |t|..]
    ensures |t| < |s| ==> s[|s| - |t| - 1] == '/'
  {
    if s == [] then []
    else if s[|s| - 1] == '/' then []
    else AfterLastSlash(s[..|s| - 1]) + [s[|s| - 1]]
  }

  /** `pathlib.Path(path).name`: the last component, trailing slashes ignored. */
  function Basename(path: string): (name: string)
    ensures '/' !in name
    ensures var s := StripTrailingSlashes(path);
      && |name| <= |s| && name == s[|s| - |name|..]
      && (|name| < |s| ==> s[|s| - |name| - 1] == '/')
  {
    AfterLastSlash(StripTrailingSlashes(path))
  }

  /** `pathlib.Path(root, item)`. */
  function Join(root: string, item: string): string
  {
    root + "/" + item
  }

  lemma {:induction false} AfterLastSlashOfJoin(root: string, item: string)
    requires '/' !in item
    ensures AfterLastSlash(root + "/" + item) == item
  {
    if item != [] {
      var shorter := item[..|item| - 1];
      assert (root + "/" + item)[..|root + "/" + item| - 1] == root + "/" + shorter;
      AfterLastSlashOfJoin(root, shorter);
    }
  }

  /** The name of a joined path is the item joined on, when the item is one component. */
  lemma BasenameOfJoin(root: string, item: string)
    requires item != [] && '/' !in item
    ensures Basename(Join(root, item)) == item
  {
    AfterLastSlashOfJoin(root, item);
  }
}
