/** The filesystem as an immutable tree, standing in for `readdir`. */
module FsTree {
  import opened Wrappers
  import opened Strings

  /** A filesystem object. `Unreadable` is a directory whose `readdir`
      throws (permissions); `Other` is whatever a `Dirent` reports as neither
      file nor directory (a symbolic link, a socket, a FIFO, a device). */
  datatype Node = Dir(children: seq<Dirent>) | File | Unreadable | Other

  /** One entry of a `readdir(…, { withFileTypes: true })` result. */
  datatype Dirent = Dirent(name: string, node: Node)

  predicate IsFile(d: Dirent) {
    d.node.File?
  }

  predicate IsDirectory(d: Dirent) {
    d.node.Dir? || d.node.Unreadable?
  }

  /** `name.startsWith(".")`. */
  predicate IsHidden(d: Dirent) {
    StartsWith(d.name, ".")
  }

  /** The number of nodes in a subtree; the termination measure of the search. */
  function Size(n: Node): (r: nat)
    ensures r >= 1
  {
    match n
    case Dir(cs) => 1 + ChildrenSize(cs)
    case _ => 1
  }

  function ChildrenSize(cs: seq<Dirent>): nat
    decreases cs
  {
    if cs == [] then 0 else Size(cs[0].node) + ChildrenSize(cs[1..])
  }

  /** The subtree at `path` (segments from the filesystem root), if every
      directory on the way can be read; the first entry with a matching name
      is taken, names being unique within a directory on a real filesystem. */
  function Lookup(n: Node, path: seq<string>): Option<Node>
    decreases path
  {
    if path == [] then Some(n)
    else match n
      case Dir(cs) =>
        var i := FirstNamed(cs, path[0]);
        if i < |cs| then Lookup(cs[i].node, path[1..]) else None
      case _ => None
  }

  function FirstNamed(cs: seq<Dirent>, name: string): (i: nat)
    ensures i <= |cs|
    ensures i < |cs| ==> cs[i].name == name
    ensures forall j :: 0 <= j < i ==> cs[j].name != name
  {
    if cs == [] then 0
    else if cs[0].name == name then 0
    else 1 + FirstNamed(cs[1..], name)
  }

  /** `readdir(path, { withFileTypes: true })`: the entries of a readable
      directory, or `None` where it throws (missing, not a directory,
      unreadable). */
  function ReadDir(fs: Node, path: seq<string>): (r: Option<seq<Dirent>>)
    ensures r.Some? <==> Lookup(fs, path).Some? && Lookup(fs, path).value.Dir?
    ensures r.Some? ==> r.value == Lookup(fs, path).value.children
  {
    match Lookup(fs, path)
    case Some(Dir(cs)) => Some(cs)
    case _ => None
  }
}
