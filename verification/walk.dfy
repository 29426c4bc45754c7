/**
 * The first pass of `generate_tree_comparison`: a top-down `os.walk` of the
 * base tree that removes ignored entries from `dirs` and `files` before it
 * descends, recording what is kept as a nested dict (a directory maps to a
 * dict, a file to `None`). Here that dict is a `Shape`.
 */
module Walk {

  import opened Wrappers
  import opened FileTree
  import opened PathName
  import opened Ignore

  /** Which `is_ignored` the walk consults. */
  datatype Variant =
    | FullPath  // analyzer.py: globs and extension on the slash-joined relative path
    | BareName  // compass_analyzer.py: exact name membership and extension on the entry name

  /** The entry at relative `path` (never the root itself) is ignored. */
  predicate Excluded(v: Variant, cfg: Config, path: seq<string>)
  {
    && |path| > 0
    && match v
       case FullPath => Ignored(JoinPath(path), cfg)
       case BareName => NameIgnored(path[|path| - 1], cfg)
  }

  /** The nested dict: a folder maps names to entries, a leaf is a file. */
  datatype Shape = Folder(entries: map<string, Shape>) | Leaf

  /** The entry of `t` reached by following `q`. */
  function Find(t: Shape, q: seq<string>): (r: Option<Shape>)
    ensures |q| == 0 ==> r == Some(t)
    decreases |q|
  {
    if |q| == 0 then Some(t)
    else if t.Folder? && q[0] in t.entries then Find(t.entries[q[0]], q[1..])
    else None
  }

  /**
   * What the walk records for the directory `dir` found at `path`: its
   * entries that are not ignored, each retained directory filled in turn.
   */
  function PruneDir(dir: Node, path: seq<string>, v: Variant, cfg: Config): (s: Shape)
    requires dir.Dir?
    ensures s.Folder?
    ensures forall n :: n in s.entries <==> n in dir.children && !Excluded(v, cfg, path + [n])
    ensures forall n :: n in s.entries ==> (s.entries[n].Folder? <==> dir.children[n].Dir?)
    decreases dir
  {
    Folder(map n | n in dir.children && !Excluded(v, cfg, path + [n]) ::
             if dir.children[n].Dir? then PruneDir(dir.children[n], path + [n], v, cfg) else Leaf)
  }

  /**
   * The dict built by the walk: at the top it holds the entries of the base
   * root that are not ignored, each with its kind; a base root that is not
   * a directory yields nothing.
   */
  function Walk(base: Node, v: Variant, cfg: Config): (r: map<string, Shape>)
    ensures !base.Dir? ==> r == map[]
    ensures forall n :: n in r <==> base.Dir? && n in base.children && !Excluded(v, cfg, [n])
    ensures forall n :: n in r ==> (r[n].Folder? <==> base.children[n].Dir?)
  {
    if base.Dir? then PruneDir(base, [], v, cfg).entries else map[]
  }

  /** `p` names an entry of the base tree, and neither it nor any directory above it is ignored. */
  predicate Retained(base: Node, v: Variant, cfg: Config, p: seq<string>)
  {
    && |p| > 0
    && Lookup(base, p).Some?
    && forall k :: 1 <= k <= |p| ==> !Excluded(v, cfg, p[..k])
  }

  lemma {:induction false} PruneFind(dir: Node, path: seq<string>, v: Variant, cfg: Config, q: seq<string>)
    requires dir.Dir?
    ensures Find(PruneDir(dir, path, v, cfg), q).Some?
            <==> Lookup(dir, q).Some? && forall k :: 1 <= k <= |q| ==> !Excluded(v, cfg, path + q[..k])
    ensures Find(PruneDir(dir, path, v, cfg), q).Some?
            ==> (Find(PruneDir(dir, path, v, cfg), q).value.Folder? <==> Lookup(dir, q).value.Dir?)
    decreases |q|
  {
    if |q| > 0 {
      var n := q[0];
      var rest := q[1..];
      ShiftPrefixes(v, cfg, path, q);
      if n in dir.children && !Excluded(v, cfg, path + [n]) {
        var child := dir.children[n];
        if child.Dir? {
          PruneFind(child, path + [n], v, cfg, rest);
        } else if |rest| > 0 {
          assert Find(Leaf, rest).None?;
        }
      }
    }
  }

  /** The prefixes of `q` below `path` are its first step, then the prefixes of the rest below that step. */
  lemma ShiftPrefixes(v: Variant, cfg: Config, path: seq<string>, q: seq<string>)
    requires |q| > 0
    ensures (forall k :: 1 <= k <= |q| ==> !Excluded(v, cfg, path + q[..k]))
            <==> !Excluded(v, cfg, path + [q[0]])
                 && forall k :: 1 <= k <= |q[1..]| ==> !Excluded(v, cfg, (path + [q[0]]) + q[1..][..k])
  {
    var n, rest := q[0], q[1..];
    assert q[..1] == [n];
    forall k | 1 <= k <= |rest|
      ensures path + q[..k + 1] == (path + [n]) + rest[..k]
    {
      assert q[..k + 1] == [n] + rest[..k];
    }
    if !Excluded(v, cfg, path + [n]) && forall k :: 1 <= k <= |rest| ==> !Excluded(v, cfg, (path + [n]) + rest[..k]) {
      forall k | 1 <= k <= |q|
        ensures !Excluded(v, cfg, path + q[..k])
      {
        if k > 1 {
          assert path + q[..k] == (path + [n]) + rest[..k - 1];
        }
      }
    }
  }


  /**
   * Pruning is exact: the walk keeps an entry if and only if it exists in
   * the base tree and neither it nor any directory above it is ignored, and
   * it keeps it with its kind.
   */
  lemma WalkKeepsExactlyRetained(base: Node, v: Variant, cfg: Config, p: seq<string>)
    ensures |p| > 0 && Find(Folder(Walk(base, v, cfg)), p).Some? <==> Retained(base, v, cfg, p)
    ensures Retained(base, v, cfg, p)
            ==> (Find(Folder(Walk(base, v, cfg)), p).value.Folder? <==> Lookup(base, p).value.Dir?)
  {
    if base.Dir? {
      PruneFind(base, [], v, cfg, p);
      assert PruneDir(base, [], v, cfg) == Folder(Walk(base, v, cfg));
      forall k | 1 <= k <= |p|
        ensures [] + p[..k] == p[..k]
      {
      }
    } else if |p| > 0 {
      assert Find(Folder(map[]), p).None?;
    }
  }

  /**
   * An ignored directory takes its whole subtree with it: nothing below it
   * is kept, even entries that are not ignored themselves.
   */
  lemma IgnoredEntryHidesSubtree(base: Node, v: Variant, cfg: Config, d: seq<string>, below: seq<string>)
    requires Excluded(v, cfg, d)
    ensures !Retained(base, v, cfg, d + below)
    ensures Find(Folder(Walk(base, v, cfg)), d + below).None?
  {
    assert (d + below)[..|d|] == d;
    WalkKeepsExactlyRetained(base, v, cfg, d + below);
  }

  /** With the name check, an entry is kept exactly when no name on its path is ignored. */
  lemma ByNameRetained(base: Node, cfg: Config, p: seq<string>)
    ensures Retained(base, BareName, cfg, p)
            <==> |p| > 0 && Lookup(base, p).Some? && forall i :: 0 <= i < |p| ==> !NameIgnored(p[i], cfg)
  {
    forall k | 1 <= k <= |p|
      ensures Excluded(BareName, cfg, p[..k]) <==> NameIgnored(p[k - 1], cfg)
    {
    }
    if forall k :: 1 <= k <= |p| ==> !Excluded(BareName, cfg, p[..k]) {
      forall i | 0 <= i < |p|
        ensures !NameIgnored(p[i], cfg)
      {
        assert !Excluded(BareName, cfg, p[..i + 1]);
      }
    }
  }

  /** Without ignore rules the walk keeps every entry of the base tree. */
  lemma NoRulesKeepEverything(base: Node, v: Variant, p: seq<string>)
    requires |p| > 0
    ensures Find(Folder(Walk(base, v, Config([], []))), p).Some? <==> Lookup(base, p).Some?
  {
    WalkKeepsExactlyRetained(base, v, Config([], []), p);
  }
}
