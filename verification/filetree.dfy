/**
 * The file system as the comparison sees it: an immutable tree of
 * directories and files, addressed by the components of a relative path.
 * `os.path.exists(os.path.join(root, *path))` becomes `Lookup(root, path).Some?`.
 */
module FileTree {

  import opened Wrappers

  /**
   * A directory maps each entry name to its entry; a file holds its bytes
   * and whether opening it for reading succeeds (a permission error makes
   * `open` raise even though `stat` works).
   */
  datatype Node =
    | Dir(children: map<string, Node>)
    | File(content: seq<bv8>, readable: bool)

  /** The entry reached by following `path` from `root`, if it exists. */
  function Lookup(root: Node, path: seq<string>): (r: Option<Node>)
    ensures |path| == 0 ==> r == Some(root)
    ensures |path| > 0 && r.Some? ==> root.Dir? && path[0] in root.children
    decreases |path|
  {
    if |path| == 0 then Some(root)
    else if root.Dir? && path[0] in root.children then Lookup(root.children[path[0]], path[1..])
    else None
  }
}
