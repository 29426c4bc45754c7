/**
 * The shape of the rendered listing: lines come in preorder (a directory's
 * line is followed at once by the lines of its whole kept subtree), the
 * connector marks the last of the siblings, a child's prefix extends its
 * parent's, and siblings appear directories first, then by lower-cased name.
 */
module Layout {

  import opened Order
  import opened Walk
  import opened Siblings
  import opened Render
  import opened RenderFacts

  // ---------------------------------------------------------------------
  // Preorder
  // ---------------------------------------------------------------------

  /** Between an entry's line and the line of one of its descendants, every line is a descendant too. */
  predicate Contiguous(vs: seq<Visit>)
  {
    forall i, j, k :: 0 <= i < j < k < |vs| && Under(vs[i].path, vs[k].path) ==> Under(vs[i].path, vs[j].path)
  }

  /** No line reports an ancestor of an entry reported earlier. */
  predicate AncestorsFirst(vs: seq<Visit>)
  {
    forall i, j :: 0 <= i < j < |vs| ==> !Under(vs[j].path, vs[i].path)
  }

  predicate Preorder(vs: seq<Visit>)
  {
    Contiguous(vs) && AncestorsFirst(vs)
  }

  lemma {:induction false} DirPreorder(t: Shape, prefix: string, path: seq<string>, env: Env)
    requires t.Folder?
    ensures Preorder(RenderDir(t, prefix, path, env).visits)
    decreases t, 1
  {
    SeqPreorder(t, SortedNames(t.entries), prefix, path, env);
  }

  lemma {:induction false} SeqPreorder(t: Shape, names: seq<string>, prefix: string, path: seq<string>, env: Env)
    requires t.Folder?
    requires forall k :: 0 <= k < |names| ==> names[k] in t.entries
    requires Distinct(names)
    ensures Preorder(RenderSeq(t, names, prefix, path, env).visits)
    decreases t, 0, |names|
  {
    if |names| > 0 {
      var h := EntryVisit(t, names, prefix, path, env);
      var below := Below(t, names, prefix, path, env).visits;
      var rest := RenderSeq(t, names[1..], prefix, path, env).visits;
      assert RenderSeq(t, names, prefix, path, env).visits == [h] + below + rest;
      DistinctTail(names);
      SeqPreorder(t, names[1..], prefix, path, env);
      BelowPreorder(t, names, prefix, path, env);
      SeqRooted(t, names[1..], prefix, path, env);
      BelowRooted(t, names, prefix, path, env);
      PreorderStep(names, path, h, below, rest);
    }
  }

  lemma {:induction false} BelowPreorder(t: Shape, names: seq<string>, prefix: string, path: seq<string>, env: Env)
    requires t.Folder? && |names| > 0 && names[0] in t.entries
    ensures Preorder(Below(t, names, prefix, path, env).visits)
    decreases t, 0, |names|, 0
  {
    var child := t.entries[names[0]];
    if child.Folder? {
      DirPreorder(child, prefix + ChildIndent(|names| == 1), path + [names[0]], env);
    }
  }

  /** One step of `SeqPreorder`: the entry, then its subtree, then its later siblings' lines. */
  lemma PreorderStep(names: seq<string>, path: seq<string>, h: Visit, below: seq<Visit>, rest: seq<Visit>)
    requires |names| > 0 && names[0] !in names[1..]
    requires h.path == path + [names[0]]
    requires forall k :: 0 <= k < |below| ==> Under(h.path, below[k].path)
    requires forall k :: 0 <= k < |rest| ==> Rooted(rest[k], path, names[1..])
    requires Preorder(below) && Preorder(rest)
    ensures Preorder([h] + below + rest)
  {
    Parts(names, path, h, below, rest);
    ContiguousStep(names[0], path, h, below, rest);
    AncestorsFirstStep(names[0], path, h, below, rest);
  }

  lemma ContiguousStep(first: string, path: seq<string>, h: Visit, below: seq<Visit>, rest: seq<Visit>)
    requires forall k :: 0 <= k < |below| ==> Under(h.path, below[k].path)
    requires forall m :: 0 <= m <= |below| ==> InsideFirst([h] + below + rest, m, path, first)
    requires forall m :: |below| < m < 1 + |below| + |rest| ==> OutsideFirst([h] + below + rest, m, path, first)
    requires Contiguous(below) && Contiguous(rest)
    ensures Contiguous([h] + below + rest)
  {
    var vs := [h] + below + rest;
    var n := |below|;
    forall i, j, k | 0 <= i < j < k < |vs|
      ensures Under(vs[i].path, vs[k].path) ==> Under(vs[i].path, vs[j].path)
    {
      if k > n {
        if i <= n {
          assert InsideFirst(vs, i, path, first) && OutsideFirst(vs, k, path, first);
          Apart(vs[i].path, vs[k].path, path);
        } else {
          assert vs[i] == rest[i - 1 - n] && vs[j] == rest[j - 1 - n] && vs[k] == rest[k - 1 - n];
        }
      } else if i == 0 {
        assert vs[j] == below[j - 1];
      } else {
        assert vs[i] == below[i - 1] && vs[j] == below[j - 1] && vs[k] == below[k - 1];
      }
    }
  }

  lemma AncestorsFirstStep(first: string, path: seq<string>, h: Visit, below: seq<Visit>, rest: seq<Visit>)
    requires forall k :: 0 <= k < |below| ==> Under(h.path, below[k].path)
    requires forall m :: 0 <= m <= |below| ==> InsideFirst([h] + below + rest, m, path, first)
    requires forall m :: |below| < m < 1 + |below| + |rest| ==> OutsideFirst([h] + below + rest, m, path, first)
    requires AncestorsFirst(below) && AncestorsFirst(rest)
    ensures AncestorsFirst([h] + below + rest)
  {
    var vs := [h] + below + rest;
    var n := |below|;
    forall i, j | 0 <= i < j < |vs|
      ensures !Under(vs[j].path, vs[i].path)
    {
      if j > n {
        if i <= n {
          assert InsideFirst(vs, i, path, first) && OutsideFirst(vs, j, path, first);
          Apart(vs[i].path, vs[j].path, path);
        } else {
          assert vs[i] == rest[i - 1 - n] && vs[j] == rest[j - 1 - n];
        }
      } else if i == 0 {
        assert vs[j] == below[j - 1];
      } else {
        assert vs[i] == below[i - 1] && vs[j] == below[j - 1];
      }
    }
  }

  // ---------------------------------------------------------------------
  // One step of the sibling loop
  // ---------------------------------------------------------------------

  /**
   * The lines for `names` are the line of `names[0]`, the lines of its
   * subtree, and the lines for the later names; what each part holds.
   */
  lemma StepFacts(t: Shape, names: seq<string>, prefix: string, path: seq<string>, env: Env)
    requires t.Folder? && |names| > 0
    requires forall k :: 0 <= k < |names| ==> names[k] in t.entries
    ensures var h := EntryVisit(t, names, prefix, path, env);
      var below := Below(t, names, prefix, path, env).visits;
      var rest := RenderSeq(t, names[1..], prefix, path, env).visits;
      && RenderSeq(t, names, prefix, path, env).visits == [h] + below + rest
      && h.path == path + [names[0]]
      && h.isDir == t.entries[names[0]].Folder?
      && h.line == Line(prefix, Connector(|names| == 1), names[0], h.line.status)
      && (|names| == 1 <==> |rest| == 0)
      && (|rest| > 0 ==> rest[0].path == path + [names[1]])
      && (forall k :: 0 <= k < |below| ==> Under(h.path, below[k].path))
      && (forall k :: 0 <= k < |rest| ==> Rooted(rest[k], path, names[1..]))
  {
    var rest := RenderSeq(t, names[1..], prefix, path, env).visits;
    if |names| > 1 {
      assert rest[0] == EntryVisit(t, names[1..], prefix, path, env);
    }
    SeqRooted(t, names[1..], prefix, path, env);
    BelowRooted(t, names, prefix, path, env);
  }

  // ---------------------------------------------------------------------
  // Connectors
  // ---------------------------------------------------------------------

  /** No later line reports a sibling of the entry on line `i`. */
  predicate LastSibling(vs: seq<Visit>, i: nat)
  {
    forall j :: i < j < |vs| ==> !SameParent(vs[i].path, vs[j].path)
  }

  /** A line carries `'└── '` exactly when it reports the last of its siblings, and `'├── '` otherwise. */
  predicate ConnectorsMarkLast(vs: seq<Visit>)
  {
    forall i :: 0 <= i < |vs| ==>
      && (vs[i].line.connector == Corner || vs[i].line.connector == Tee)
      && (vs[i].line.connector == Corner <==> LastSibling(vs, i))
  }

  lemma {:induction false} DirConnectors(t: Shape, prefix: string, path: seq<string>, env: Env)
    requires t.Folder?
    ensures ConnectorsMarkLast(RenderDir(t, prefix, path, env).visits)
    decreases t, 1
  {
    SeqConnectors(t, SortedNames(t.entries), prefix, path, env);
  }

  lemma {:induction false} SeqConnectors(t: Shape, names: seq<string>, prefix: string, path: seq<string>, env: Env)
    requires t.Folder?
    requires forall k :: 0 <= k < |names| ==> names[k] in t.entries
    requires Distinct(names)
    ensures ConnectorsMarkLast(RenderSeq(t, names, prefix, path, env).visits)
    decreases t, 0, |names|
  {
    if |names| > 0 {
      var h := EntryVisit(t, names, prefix, path, env);
      var below := Below(t, names, prefix, path, env).visits;
      var rest := RenderSeq(t, names[1..], prefix, path, env).visits;
      StepFacts(t, names, prefix, path, env);
      DistinctTail(names);
      SeqConnectors(t, names[1..], prefix, path, env);
      BelowConnectors(t, names, prefix, path, env);
      ConnectorStep(names, path, h, below, rest);
    }
  }

  lemma {:induction false} BelowConnectors(t: Shape, names: seq<string>, prefix: string, path: seq<string>, env: Env)
    requires t.Folder? && |names| > 0 && names[0] in t.entries
    ensures ConnectorsMarkLast(Below(t, names, prefix, path, env).visits)
    decreases t, 0, |names|, 0
  {
    var child := t.entries[names[0]];
    if child.Folder? {
      DirConnectors(child, prefix + ChildIndent(|names| == 1), path + [names[0]], env);
    }
  }

  /** Entries that part ways at `|path|`, the first strictly inside its part, are not siblings. */
  lemma NotSiblings(x: seq<string>, y: seq<string>, path: seq<string>)
    requires |x| > |path| + 1 && |y| > |path| && x[|path|] != y[|path|]
    ensures !SameParent(x, y) && !SameParent(y, x)
  {
    if |y| > |path| + 1 {
      assert x[..|x| - 1][|path|] == x[|path|];
      assert y[..|y| - 1][|path|] == y[|path|];
    }
  }

  lemma ConnectorStep(names: seq<string>, path: seq<string>, h: Visit, below: seq<Visit>, rest: seq<Visit>)
    requires |names| > 0 && names[0] !in names[1..]
    requires h.path == path + [names[0]]
    requires h.line.connector == Connector(|names| == 1)
    requires |names| == 1 <==> |rest| == 0
    requires |rest| > 0 ==> rest[0].path == path + [names[1]]
    requires forall k :: 0 <= k < |below| ==> Under(h.path, below[k].path)
    requires forall k :: 0 <= k < |rest| ==> Rooted(rest[k], path, names[1..])
    requires ConnectorsMarkLast(below) && ConnectorsMarkLast(rest)
    ensures ConnectorsMarkLast([h] + below + rest)
  {
    var vs := [h] + below + rest;
    var n := |below|;
    assert Corner != Tee by { assert Corner[0] != Tee[0]; }
    forall i | 0 <= i < |vs|
      ensures vs[i].line.connector == Corner || vs[i].line.connector == Tee
      ensures vs[i].line.connector == Corner <==> LastSibling(vs, i)
    {
      if i == 0 {
        HeadLastSibling(names, path, h, below, rest);
      } else if i <= n {
        BelowLastSibling(names, path, h, below, rest, i);
      } else {
        RestLastSibling(h, below, rest, i);
      }
    }
  }

  /** The entry's own line is the last of its siblings exactly when no later name follows. */
  lemma HeadLastSibling(names: seq<string>, path: seq<string>, h: Visit, below: seq<Visit>, rest: seq<Visit>)
    requires |names| > 0
    requires h.path == path + [names[0]]
    requires |names| == 1 <==> |rest| == 0
    requires |rest| > 0 ==> rest[0].path == path + [names[1]]
    requires forall k :: 0 <= k < |below| ==> Under(h.path, below[k].path)
    ensures LastSibling([h] + below + rest, 0) <==> |rest| == 0
  {
    var vs := [h] + below + rest;
    var n := |below|;
    if |rest| > 0 {
      assert vs[n + 1] == rest[0];
      assert h.path[..|h.path| - 1] == path;
      assert rest[0].path[..|rest[0].path| - 1] == path;
      assert SameParent(vs[0].path, vs[n + 1].path);
    } else {
      forall j | 0 < j < |vs|
        ensures !SameParent(vs[0].path, vs[j].path)
      {
        assert vs[j] == below[j - 1];
      }
    }
  }

  /** A subtree line has no sibling among the lines of the later names. */
  lemma BelowLastSibling(names: seq<string>, path: seq<string>, h: Visit, below: seq<Visit>, rest: seq<Visit>, i: nat)
    requires |names| > 0
    requires h.path == path + [names[0]]
    requires forall k :: 0 <= k < |below| ==> Under(h.path, below[k].path)
    requires forall k :: 0 <= k < |rest| ==> Rooted(rest[k], path, names[1..])
    requires names[0] !in names[1..]
    requires 0 < i <= |below|
    ensures ([h] + below + rest)[i] == below[i - 1]
    ensures LastSibling([h] + below + rest, i) <==> LastSibling(below, i - 1)
  {
    var vs := [h] + below + rest;
    var n := |below|;
    var x := below[i - 1].path;
    assert vs[i] == below[i - 1];
    UnderAt(h.path, x, |path|);
    forall j | n < j < |vs|
      ensures !SameParent(x, vs[j].path)
    {
      assert vs[j] == rest[j - 1 - n];
      assert Rooted(rest[j - 1 - n], path, names[1..]);
      NotSiblings(x, vs[j].path, path);
    }
    forall j | i - 1 < j < n
      ensures vs[j + 1] == below[j]
    {
    }
    if LastSibling(below, i - 1) {
      forall j | i < j < |vs|
        ensures !SameParent(x, vs[j].path)
      {
        if j <= n {
          assert vs[j] == below[j - 1];
        }
      }
    }
  }

  /** A line of the later names has the same later siblings in the whole listing. */
  lemma RestLastSibling(h: Visit, below: seq<Visit>, rest: seq<Visit>, i: nat)
    requires |below| < i < 1 + |below| + |rest|
    ensures ([h] + below + rest)[i] == rest[i - 1 - |below|]
    ensures LastSibling([h] + below + rest, i) <==> LastSibling(rest, i - 1 - |below|)
  {
    var vs := [h] + below + rest;
    var n := |below|;
    forall j | i < j < |vs|
      ensures vs[j] == rest[j - 1 - n]
    {
    }
    if LastSibling(rest, i - 1 - n) {
      forall j | i < j < |vs|
        ensures !SameParent(vs[i].path, vs[j].path)
      {
        assert vs[j] == rest[j - 1 - n];
      }
    }
    if LastSibling(vs, i) {
      forall j | i - 1 - n < j < |rest|
        ensures !SameParent(rest[i - 1 - n].path, rest[j].path)
      {
        assert vs[j + 1 + n] == rest[j];
      }
    }
  }

  // ---------------------------------------------------------------------
  // Prefixes
  // ---------------------------------------------------------------------

  /** Lines of the entries directly inside `path` carry the prefix the folder was given. */
  predicate TopPrefix(vs: seq<Visit>, path: seq<string>, prefix: string)
  {
    forall k :: 0 <= k < |vs| && |vs[k].path| == |path| + 1 ==> vs[k].line.prefix == prefix
  }

  /** A child's prefix is its parent's prefix extended by `'    '` below a last sibling, `'│   '` otherwise. */
  predicate PrefixesNest(vs: seq<Visit>)
  {
    forall i, j :: 0 <= i < j < |vs| && ChildOf(vs[j].path, vs[i].path) ==>
      vs[j].line.prefix == vs[i].line.prefix + Indent(vs[i].line.connector)
  }

  predicate PrefixesFollow(vs: seq<Visit>, path: seq<string>, prefix: string)
  {
    TopPrefix(vs, path, prefix) && PrefixesNest(vs)
  }

  lemma {:induction false} DirPrefixes(t: Shape, prefix: string, path: seq<string>, env: Env)
    requires t.Folder?
    ensures PrefixesFollow(RenderDir(t, prefix, path, env).visits, path, prefix)
    decreases t, 1
  {
    SeqPrefixes(t, SortedNames(t.entries), prefix, path, env);
  }

  lemma {:induction false} SeqPrefixes(t: Shape, names: seq<string>, prefix: string, path: seq<string>, env: Env)
    requires t.Folder?
    requires forall k :: 0 <= k < |names| ==> names[k] in t.entries
    requires Distinct(names)
    ensures PrefixesFollow(RenderSeq(t, names, prefix, path, env).visits, path, prefix)
    decreases t, 0, |names|
  {
    if |names| > 0 {
      var h := EntryVisit(t, names, prefix, path, env);
      var below := Below(t, names, prefix, path, env).visits;
      var rest := RenderSeq(t, names[1..], prefix, path, env).visits;
      StepFacts(t, names, prefix, path, env);
      DistinctTail(names);
      SeqPrefixes(t, names[1..], prefix, path, env);
      BelowPrefixes(t, names, prefix, path, env);
      PrefixStep(names, prefix, path, h, below, rest);
    }
  }

  lemma {:induction false} BelowPrefixes(t: Shape, names: seq<string>, prefix: string, path: seq<string>, env: Env)
    requires t.Folder? && |names| > 0 && names[0] in t.entries
    ensures PrefixesFollow(Below(t, names, prefix, path, env).visits, path + [names[0]], prefix + ChildIndent(|names| == 1))
    decreases t, 0, |names|, 0
  {
    var child := t.entries[names[0]];
    if child.Folder? {
      DirPrefixes(child, prefix + ChildIndent(|names| == 1), path + [names[0]], env);
    }
  }

  lemma PrefixStep(names: seq<string>, prefix: string, path: seq<string>, h: Visit, below: seq<Visit>, rest: seq<Visit>)
    requires |names| > 0 && names[0] !in names[1..]
    requires h.path == path + [names[0]]
    requires h.line.prefix == prefix && h.line.connector == Connector(|names| == 1)
    requires forall k :: 0 <= k < |below| ==> Under(h.path, below[k].path)
    requires forall k :: 0 <= k < |rest| ==> Rooted(rest[k], path, names[1..])
    requires PrefixesFollow(below, h.path, prefix + ChildIndent(|names| == 1))
    requires PrefixesFollow(rest, path, prefix)
    ensures PrefixesFollow([h] + below + rest, path, prefix)
  {
    var vs := [h] + below + rest;
    var n := |below|;
    Parts(names, path, h, below, rest);
    assert Indent(h.line.connector) == ChildIndent(|names| == 1) by {
      assert Corner[0] != Tee[0];
    }
    forall k | 0 <= k < |vs|
      ensures |vs[k].path| == |path| + 1 ==> vs[k].line.prefix == prefix
    {
      if 0 < k <= n {
        assert vs[k] == below[k - 1];
        assert |below[k - 1].path| > |h.path|;
      } else if k > n {
        assert vs[k] == rest[k - 1 - n];
      }
    }
    forall i, j | 0 <= i < j < |vs|
      ensures ChildOf(vs[j].path, vs[i].path) ==> vs[j].line.prefix == vs[i].line.prefix + Indent(vs[i].line.connector)
    {
      if j > n && i <= n {
        assert InsideFirst(vs, i, path, names[0]) && OutsideFirst(vs, j, path, names[0]);
        Apart(vs[i].path, vs[j].path, path);
      } else if j > n {
        assert vs[i] == rest[i - 1 - n] && vs[j] == rest[j - 1 - n];
      } else if i == 0 {
        assert vs[j] == below[j - 1];
      } else {
        assert vs[i] == below[i - 1] && vs[j] == below[j - 1];
      }
    }
  }

  // ---------------------------------------------------------------------
  // Sibling order
  // ---------------------------------------------------------------------

  /** The key a line sorts by among its siblings: directories first, then the lower-cased name. */
  function VisitKey(v: Visit): SortKey
  {
    SortKey(!v.isDir, Lower(v.line.name))
  }

  /** No line comes after a later sibling with a smaller key. */
  predicate SiblingsOrdered(vs: seq<Visit>)
  {
    forall i, j :: 0 <= i < j < |vs| && SameParent(vs[i].path, vs[j].path) ==> !KeyLess(VisitKey(vs[j]), VisitKey(vs[i]))
  }

  /** `names` is in the order the listing wants for the entries `d`. */
  predicate SortedBy(d: map<string, Shape>, names: seq<string>)
  {
    forall i, j :: 0 <= i < j < |names| ==> !KeyLess(KeyOf(d, names[j]), KeyOf(d, names[i]))
  }

  /** The lines of entries directly inside `path` carry the key of their name in `d`. */
  predicate TopKeys(vs: seq<Visit>, path: seq<string>, d: map<string, Shape>)
  {
    forall k :: 0 <= k < |vs| && |vs[k].path| == |path| + 1 ==> VisitKey(vs[k]) == KeyOf(d, vs[k].path[|path|])
  }

  lemma {:induction false} SeqTopKeys(t: Shape, names: seq<string>, prefix: string, path: seq<string>, env: Env)
    requires t.Folder?
    requires forall k :: 0 <= k < |names| ==> names[k] in t.entries
    ensures TopKeys(RenderSeq(t, names, prefix, path, env).visits, path, t.entries)
    decreases |names|
  {
    if |names| > 0 {
      var h := EntryVisit(t, names, prefix, path, env);
      var below := Below(t, names, prefix, path, env).visits;
      var rest := RenderSeq(t, names[1..], prefix, path, env).visits;
      StepFacts(t, names, prefix, path, env);
      HeadKey(t, names, prefix, path, env);
      SeqTopKeys(t, names[1..], prefix, path, env);
      TopKeysStep(t.entries, names[0], path, h, below, rest);
    }
  }

  /** The entry's own line carries the key of its name. */
  lemma HeadKey(t: Shape, names: seq<string>, prefix: string, path: seq<string>, env: Env)
    requires t.Folder? && |names| > 0 && names[0] in t.entries
    ensures VisitKey(EntryVisit(t, names, prefix, path, env)) == KeyOf(t.entries, names[0])
  {
  }

  lemma TopKeysStep(d: map<string, Shape>, first: string, path: seq<string>, h: Visit, below: seq<Visit>, rest: seq<Visit>)
    requires h.path == path + [first] && VisitKey(h) == KeyOf(d, first)
    requires forall k :: 0 <= k < |below| ==> Under(h.path, below[k].path)
    requires TopKeys(rest, path, d)
    ensures TopKeys([h] + below + rest, path, d)
  {
    var vs := [h] + below + rest;
    forall k | 0 <= k < |vs|
      ensures |vs[k].path| == |path| + 1 ==> VisitKey(vs[k]) == KeyOf(d, vs[k].path[|path|])
    {
      if k == 0 {
        assert vs[0].path[|path|] == first;
      } else if k <= |below| {
        assert vs[k] == below[k - 1];
        assert |below[k - 1].path| > |h.path|;
      } else {
        assert vs[k] == rest[k - 1 - |below|];
      }
    }
  }

  lemma SortedTail(d: map<string, Shape>, names: seq<string>)
    requires SortedBy(d, names) && |names| > 0
    ensures SortedBy(d, names[1..])
  {
    forall i, j | 0 <= i < j < |names[1..]|
      ensures !KeyLess(KeyOf(d, names[1..][j]), KeyOf(d, names[1..][i]))
    {
      assert names[1..][i] == names[i + 1] && names[1..][j] == names[j + 1];
    }
  }

  lemma {:induction false} DirOrdered(t: Shape, prefix: string, path: seq<string>, env: Env)
    requires t.Folder?
    ensures SiblingsOrdered(RenderDir(t, prefix, path, env).visits)
    decreases t, 1
  {
    SeqOrdered(t, SortedNames(t.entries), prefix, path, env);
  }

  lemma {:induction false} SeqOrdered(t: Shape, names: seq<string>, prefix: string, path: seq<string>, env: Env)
    requires t.Folder?
    requires forall k :: 0 <= k < |names| ==> names[k] in t.entries
    requires Distinct(names) && SortedBy(t.entries, names)
    ensures SiblingsOrdered(RenderSeq(t, names, prefix, path, env).visits)
    decreases t, 0, |names|
  {
    if |names| > 0 {
      var h := EntryVisit(t, names, prefix, path, env);
      var below := Below(t, names, prefix, path, env).visits;
      var rest := RenderSeq(t, names[1..], prefix, path, env).visits;
      StepFacts(t, names, prefix, path, env);
      DistinctTail(names);
      SortedTail(t.entries, names);
      HeadKey(t, names, prefix, path, env);
      SeqOrdered(t, names[1..], prefix, path, env);
      BelowOrdered(t, names, prefix, path, env);
      SeqTopKeys(t, names[1..], prefix, path, env);
      OrderStep(t.entries, names, path, h, below, rest);
    }
  }

  lemma {:induction false} BelowOrdered(t: Shape, names: seq<string>, prefix: string, path: seq<string>, env: Env)
    requires t.Folder? && |names| > 0 && names[0] in t.entries
    ensures SiblingsOrdered(Below(t, names, prefix, path, env).visits)
    decreases t, 0, |names|, 0
  {
    var child := t.entries[names[0]];
    if child.Folder? {
      DirOrdered(child, prefix + ChildIndent(|names| == 1), path + [names[0]], env);
    }
  }

  lemma OrderStep(d: map<string, Shape>, names: seq<string>, path: seq<string>, h: Visit, below: seq<Visit>, rest: seq<Visit>)
    requires |names| > 0 && names[0] !in names[1..] && SortedBy(d, names)
    requires h.path == path + [names[0]] && VisitKey(h) == KeyOf(d, names[0])
    requires forall k :: 0 <= k < |below| ==> Under(h.path, below[k].path)
    requires forall k :: 0 <= k < |rest| ==> Rooted(rest[k], path, names[1..])
    requires TopKeys(rest, path, d)
    requires SiblingsOrdered(below) && SiblingsOrdered(rest)
    ensures SiblingsOrdered([h] + below + rest)
  {
    var vs := [h] + below + rest;
    var n := |below|;
    Parts(names, path, h, below, rest);
    forall i, j | 0 <= i < j < |vs|
      ensures SameParent(vs[i].path, vs[j].path) ==> !KeyLess(VisitKey(vs[j]), VisitKey(vs[i]))
    {
      if j > n && i == 0 {
        var y := vs[j];
        assert y == rest[j - 1 - n];
        if SameParent(h.path, y.path) {
          assert h.path[..|h.path| - 1] == path;
          assert |y.path| == |path| + 1;
          assert Rooted(rest[j - 1 - n], path, names[1..]);
          var m :| 0 <= m < |names[1..]| && names[1..][m] == y.path[|path|];
          assert names[m + 1] == y.path[|path|];
        }
      } else if j > n && i <= n {
        assert vs[i] == below[i - 1];
        UnderAt(h.path, vs[i].path, |path|);
        assert InsideFirst(vs, i, path, names[0]) && OutsideFirst(vs, j, path, names[0]);
        NotSiblings(vs[i].path, vs[j].path, path);
      } else if j > n {
        assert vs[i] == rest[i - 1 - n] && vs[j] == rest[j - 1 - n];
      } else if i == 0 {
        assert vs[j] == below[j - 1];
        assert |below[j - 1].path| > |h.path|;
      } else {
        assert vs[i] == below[i - 1] && vs[j] == below[j - 1];
      }
    }
  }
}
