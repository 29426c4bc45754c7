/**
 * The second pass of `generate_tree_comparison`: the recursive
 * `build_string_with_comparison`, which visits the kept entries in sorted
 * order, gives each a connector, an indentation prefix and a status, bumps
 * that status's counter once, and recurses into directories right after
 * their own line.
 */
module Render {

  import opened Wrappers
  import opened FileTree
  import opened FileEquality
  import opened Walk
  import opened Siblings

  /** The three status icons: `✅`, `⚠️`, `❌`. */
  datatype Status = Identical | Modified | Missing

  function Icon(s: Status): string
  {
    match s
    case Identical => "✅"
    case Modified => "⚠️"
    case Missing => "❌"
  }

  const Tee := "├── "
  const Corner := "└── "
  const Bar := "│   "
  const Blank := "    "

  /** The `status_counts` dict, keyed by icon. */
  datatype Counts = Counts(identical: nat, modified: nat, missing: nat)
  {
    function Total(): nat
    {
      identical + modified + missing
    }

    function Bump(s: Status): Counts
    {
      match s
      case Identical => this.(identical := identical + 1)
      case Modified => this.(modified := modified + 1)
      case Missing => this.(missing := missing + 1)
    }

    function Plus(o: Counts): Counts
    {
      Counts(identical + o.identical, modified + o.modified, missing + o.missing)
    }
  }

  const Zero := Counts(0, 0, 0)

  /** One output line: `f"{prefix}{connector}{name} {status_icon}"`. */
  datatype Line = Line(prefix: string, connector: string, name: string, status: Status)

  function LineText(l: Line): string
  {
    l.prefix + l.connector + l.name + " " + Icon(l.status)
  }

  /** A line together with the relative path and kind of the entry it reports. */
  datatype Visit = Visit(path: seq<string>, isDir: bool, line: Line)

  /** The two trees compared and the `quick_scan` flag. */
  datatype Env = Env(base: Node, target: Node, quick: bool)

  /**
   * The status of an entry: missing when the target path does not exist;
   * otherwise identical for a directory, identical for a file under quick
   * scan, and else identical exactly when `are_files_identical` says so.
   */
  function Classify(isDir: bool, baseEntry: Option<Node>, targetEntry: Option<Node>, quick: bool): (s: Status)
    ensures s == Missing <==> targetEntry.None?
    ensures s == Modified ==> !isDir && !quick
    ensures targetEntry.Some? && !isDir && !quick
            ==> (s == Identical <==> AreFilesIdentical(ProbeOf(baseEntry), ProbeOf(targetEntry)))
  {
    if targetEntry.None? then Missing
    else if isDir then Identical
    else if quick then Identical
    else if AreFilesIdentical(ProbeOf(baseEntry), ProbeOf(targetEntry)) then Identical
    else Modified
  }

  /** The lines of a subtree and the counts they contributed. */
  datatype Rendered = Rendered(visits: seq<Visit>, counts: Counts)

  /** `build_string_with_comparison(d, prefix, current_path)` for the folder `t` at `path`. */
  function RenderDir(t: Shape, prefix: string, path: seq<string>, env: Env): (r: Rendered)
    requires t.Folder?
    ensures |r.visits| >= |t.entries|
    decreases t, 1
  {
    RenderSeq(t, SortedNames(t.entries), prefix, path, env)
  }

  /** The loop body of `build_string_with_comparison` over the remaining sorted names of `t`. */
  function RenderSeq(t: Shape, names: seq<string>, prefix: string, path: seq<string>, env: Env): (r: Rendered)
    requires t.Folder?
    requires forall k :: 0 <= k < |names| ==> names[k] in t.entries
    ensures |r.visits| >= |names|
    ensures |names| > 0 ==> r.visits[0].path == path + [names[0]] && r.visits[0].line.name == names[0]
    decreases t, 0, |names|
  {
    if |names| == 0 then Rendered([], Zero)
    else
      var h := EntryVisit(t, names, prefix, path, env);
      var below := Below(t, names, prefix, path, env);
      var rest := RenderSeq(t, names[1..], prefix, path, env);
      var vs := [h] + below.visits + rest.visits;
      var one := Zero.Bump(h.line.status);
      assert one.Total() == 1;
      var counts := one.Plus(below.counts).Plus(rest.counts);
      assert |vs| == 1 + |below.visits| + |rest.visits| && vs[0] == h;
      Rendered(vs, counts)
  }

  /** `'└── '` for the last of the siblings, `'├── '` for the others. */
  function Connector(last: bool): string
  {
    if last then Corner else Tee
  }

  /** What a child's prefix adds: `'    '` below the last sibling, `'│   '` below the others. */
  function ChildIndent(last: bool): string
  {
    if last then Blank else Bar
  }

  /** The line of `names[0]`, the entry being visited. */
  function EntryVisit(t: Shape, names: seq<string>, prefix: string, path: seq<string>, env: Env): Visit
    requires t.Folder? && |names| > 0 && names[0] in t.entries
  {
    var isDir := t.entries[names[0]].Folder?;
    var here := path + [names[0]];
    var status := Classify(isDir, Lookup(env.base, here), Lookup(env.target, here), env.quick);
    Visit(here, isDir, Line(prefix, Connector(|names| == 1), names[0], status))
  }

  /** The lines of the subtree of `names[0]`: none for a file. */
  function Below(t: Shape, names: seq<string>, prefix: string, path: seq<string>, env: Env): (r: Rendered)
    requires t.Folder? && |names| > 0 && names[0] in t.entries
    decreases t, 0, |names|, 0
  {
    var child := t.entries[names[0]];
    if child.Folder? then RenderDir(child, prefix + ChildIndent(|names| == 1), path + [names[0]], env)
    else Rendered([], Zero)
  }
}
