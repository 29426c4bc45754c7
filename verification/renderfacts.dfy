/**
 * What the render pass guarantees about the lines it emits: the counters
 * agree with the lines, every line reports an entry of the kept tree and
 * every kept entry gets exactly one line, lines come in preorder, and the
 * connector and prefix glyphs follow the sibling structure.
 */
module RenderFacts {

  import opened Wrappers
  import opened FileTree
  import opened Walk
  import opened Siblings
  import opened Render

  // ---------------------------------------------------------------------
  // Reference definitions
  // ---------------------------------------------------------------------

  /** Number of visits whose line carries status `s`. */
  function CountOf(vs: seq<Visit>, s: Status): nat
  {
    if |vs| == 0 then 0
    else (if vs[0].line.status == s then 1 else 0) + CountOf(vs[1..], s)
  }

  /** The counts a list of lines calls for: one per line, under its own status. */
  function Tally(vs: seq<Visit>): Counts
  {
    Counts(CountOf(vs, Identical), CountOf(vs, Modified), CountOf(vs, Missing))
  }

  /** `p` lies strictly below `anc`. */
  predicate Under(anc: seq<string>, p: seq<string>)
  {
    |anc| < |p| && p[..|anc|] == anc
  }

  /** `p` is an entry directly inside `dir`. */
  predicate ChildOf(p: seq<string>, dir: seq<string>)
  {
    |p| == |dir| + 1 && p[..|dir|] == dir
  }

  /** `p` and `q` are entries of the same directory. */
  predicate SameParent(p: seq<string>, q: seq<string>)
  {
    |p| > 0 && |q| > 0 && p[..|p| - 1] == q[..|q| - 1]
  }

  /** The glyphs that extend the prefix below an entry whose connector is `c`. */
  function Indent(c: string): string
  {
    if c == Corner then Blank else Bar
  }

  /** A visit's own line is right about its entry: its name, and its status as the two trees call for. */
  predicate Faithful(v: Visit, env: Env)
  {
    && |v.path| > 0
    && v.line.name == v.path[|v.path| - 1]
    && v.line.status == Classify(v.isDir, Lookup(env.base, v.path), Lookup(env.target, v.path), env.quick)
    && (v.line.connector == Tee || v.line.connector == Corner)
  }

  predicate Distinct(names: seq<string>)
  {
    forall i, j :: 0 <= i < j < |names| ==> names[i] != names[j]
  }

  // ---------------------------------------------------------------------
  // Counting
  // ---------------------------------------------------------------------

  lemma {:induction false} CountOfAppend(a: seq<Visit>, b: seq<Visit>, s: Status)
    ensures CountOf(a + b, s) == CountOf(a, s) + CountOf(b, s)
    decreases |a|
  {
    if |a| == 0 {
      assert a + b == b;
    } else {
      assert (a + b)[1..] == a[1..] + b;
      CountOfAppend(a[1..], b, s);
    }
  }

  lemma TallyAppend(a: seq<Visit>, b: seq<Visit>)
    ensures Tally(a + b) == Tally(a).Plus(Tally(b))
  {
    var i := CountOf(a + b, Identical);
    var m := CountOf(a + b, Modified);
    var x := CountOf(a + b, Missing);
    CountOfAppend(a, b, Identical);
    CountOfAppend(a, b, Modified);
    CountOfAppend(a, b, Missing);
    assert Tally(a + b) == Counts(i, m, x);
  }

  lemma TallyOne(h: Visit)
    ensures Tally([h]) == Zero.Bump(h.line.status)
  {
    assert [h][1..] == [];
    assert CountOf([h], Identical) == CountOf([], Identical) + if h.line.status == Identical then 1 else 0;
    assert CountOf([h], Modified) == CountOf([], Modified) + if h.line.status == Modified then 1 else 0;
    assert CountOf([h], Missing) == CountOf([], Missing) + if h.line.status == Missing then 1 else 0;
  }

  /** Every line is counted exactly once: the three counts sum to the number of lines. */
  lemma {:induction false} TallyTotal(vs: seq<Visit>)
    ensures Tally(vs).Total() == |vs|
    decreases |vs|
  {
    if |vs| > 0 {
      TallyTotal(vs[1..]);
    }
  }

  // ---------------------------------------------------------------------
  // Counters
  // ---------------------------------------------------------------------

  /** The counters the render pass returns are the tally of the lines it emits. */
  lemma {:induction false} DirCounts(t: Shape, prefix: string, path: seq<string>, env: Env)
    requires t.Folder?
    ensures RenderDir(t, prefix, path, env).counts == Tally(RenderDir(t, prefix, path, env).visits)
    decreases t, 1
  {
    SeqCounts(t, SortedNames(t.entries), prefix, path, env);
  }

  lemma {:induction false} SeqCounts(t: Shape, names: seq<string>, prefix: string, path: seq<string>, env: Env)
    requires t.Folder?
    requires forall k :: 0 <= k < |names| ==> names[k] in t.entries
    ensures RenderSeq(t, names, prefix, path, env).counts == Tally(RenderSeq(t, names, prefix, path, env).visits)
    decreases t, 0, |names|
  {
    if |names| > 0 {
      var h := EntryVisit(t, names, prefix, path, env);
      var below := Below(t, names, prefix, path, env);
      var rest := RenderSeq(t, names[1..], prefix, path, env);
      SeqCounts(t, names[1..], prefix, path, env);
      BelowCounts(t, names, prefix, path, env);
      TallyAppend([h], below.visits);
      TallyAppend([h] + below.visits, rest.visits);
      TallyOne(h);
    }
  }

  lemma {:induction false} BelowCounts(t: Shape, names: seq<string>, prefix: string, path: seq<string>, env: Env)
    requires t.Folder? && |names| > 0 && names[0] in t.entries
    ensures Below(t, names, prefix, path, env).counts == Tally(Below(t, names, prefix, path, env).visits)
    decreases t, 0, |names|, 0
  {
    var child := t.entries[names[0]];
    if child.Folder? {
      DirCounts(child, prefix + ChildIndent(|names| == 1), path + [names[0]], env);
    }
  }

  // ---------------------------------------------------------------------
  // Each line is right about its own entry
  // ---------------------------------------------------------------------

  lemma {:induction false} DirFaithful(t: Shape, prefix: string, path: seq<string>, env: Env)
    requires t.Folder?
    ensures forall k :: 0 <= k < |RenderDir(t, prefix, path, env).visits| ==>
              Faithful(RenderDir(t, prefix, path, env).visits[k], env)
    decreases t, 1
  {
    SeqFaithful(t, SortedNames(t.entries), prefix, path, env);
  }

  lemma {:induction false} SeqFaithful(t: Shape, names: seq<string>, prefix: string, path: seq<string>, env: Env)
    requires t.Folder?
    requires forall k :: 0 <= k < |names| ==> names[k] in t.entries
    ensures forall k :: 0 <= k < |RenderSeq(t, names, prefix, path, env).visits| ==>
              Faithful(RenderSeq(t, names, prefix, path, env).visits[k], env)
    decreases t, 0, |names|
  {
    if |names| > 0 {
      var h := EntryVisit(t, names, prefix, path, env);
      var below := Below(t, names, prefix, path, env).visits;
      var rest := RenderSeq(t, names[1..], prefix, path, env).visits;
      SeqFaithful(t, names[1..], prefix, path, env);
      BelowFaithful(t, names, prefix, path, env);
      var vs := [h] + below + rest;
      assert forall k :: 0 <= k < |vs| ==> Faithful(vs[k], env);
      assert RenderSeq(t, names, prefix, path, env).visits == vs;
    }
  }

  lemma {:induction false} BelowFaithful(t: Shape, names: seq<string>, prefix: string, path: seq<string>, env: Env)
    requires t.Folder? && |names| > 0 && names[0] in t.entries
    ensures forall k :: 0 <= k < |Below(t, names, prefix, path, env).visits| ==>
              Faithful(Below(t, names, prefix, path, env).visits[k], env)
    decreases t, 0, |names|, 0
  {
    var child := t.entries[names[0]];
    if child.Folder? {
      DirFaithful(child, prefix + ChildIndent(|names| == 1), path + [names[0]], env);
    }
  }

  // ---------------------------------------------------------------------
  // Each line reports an entry of the kept tree, with its kind
  // ---------------------------------------------------------------------

  /** `v` reports an entry of `t` (rendered at `path`), with its kind. */
  predicate Placed(v: Visit, t: Shape, path: seq<string>)
  {
    && Under(path, v.path)
    && Find(t, v.path[|path|..]).Some?
    && (Find(t, v.path[|path|..]).value.Folder? <==> v.isDir)
  }

  /** An entry placed in a sub-folder is placed in its parent too. */
  lemma PlacedLift(v: Visit, t: Shape, name: string, path: seq<string>)
    requires t.Folder? && name in t.entries
    requires Placed(v, t.entries[name], path + [name])
    ensures Placed(v, t, path) && v.path[|path|] == name
  {
    var here := path + [name];
    assert v.path[..|here|] == here;
    assert v.path[..|path|] == here[..|path|] == path;
    assert v.path[|path|] == here[|path|];
    var s := v.path[|path|..];
    assert s[0] == name && s[1..] == v.path[|here|..];
  }

  lemma {:induction false} DirPlaced(t: Shape, prefix: string, path: seq<string>, env: Env)
    requires t.Folder?
    ensures forall k :: 0 <= k < |RenderDir(t, prefix, path, env).visits| ==>
              Placed(RenderDir(t, prefix, path, env).visits[k], t, path)
    decreases t, 1
  {
    SeqPlaced(t, SortedNames(t.entries), prefix, path, env);
  }

  lemma {:induction false} SeqPlaced(t: Shape, names: seq<string>, prefix: string, path: seq<string>, env: Env)
    requires t.Folder?
    requires forall k :: 0 <= k < |names| ==> names[k] in t.entries
    ensures forall k :: 0 <= k < |RenderSeq(t, names, prefix, path, env).visits| ==>
              && Placed(RenderSeq(t, names, prefix, path, env).visits[k], t, path)
              && RenderSeq(t, names, prefix, path, env).visits[k].path[|path|] in names
    decreases t, 0, |names|
  {
    if |names| > 0 {
      var h := EntryVisit(t, names, prefix, path, env);
      var below := Below(t, names, prefix, path, env).visits;
      var rest := RenderSeq(t, names[1..], prefix, path, env).visits;
      SeqPlaced(t, names[1..], prefix, path, env);
      BelowPlaced(t, names, prefix, path, env);
      assert h.path[|path|..] == [names[0]];
      assert Find(t, [names[0]]) == Find(t.entries[names[0]], []);
      assert Placed(h, t, path);
      var vs := [h] + below + rest;
      assert forall k :: 0 <= k < |vs| ==> Placed(vs[k], t, path) && vs[k].path[|path|] in names;
      assert RenderSeq(t, names, prefix, path, env).visits == vs;
    }
  }

  lemma {:induction false} BelowPlaced(t: Shape, names: seq<string>, prefix: string, path: seq<string>, env: Env)
    requires t.Folder? && |names| > 0 && names[0] in t.entries
    ensures forall k :: 0 <= k < |Below(t, names, prefix, path, env).visits| ==>
              && Placed(Below(t, names, prefix, path, env).visits[k], t, path)
              && Placed(Below(t, names, prefix, path, env).visits[k], t.entries[names[0]], path + [names[0]])
              && Below(t, names, prefix, path, env).visits[k].path[|path|] == names[0]
    decreases t, 0, |names|, 0
  {
    var child := t.entries[names[0]];
    if child.Folder? {
      var below := RenderDir(child, prefix + ChildIndent(|names| == 1), path + [names[0]], env).visits;
      assert Below(t, names, prefix, path, env).visits == below;
      DirPlaced(child, prefix + ChildIndent(|names| == 1), path + [names[0]], env);
      forall k | 0 <= k < |below|
        ensures Placed(below[k], t, path) && below[k].path[|path|] == names[0]
      {
        PlacedLift(below[k], t, names[0], path);
      }
    }
  }

  // ---------------------------------------------------------------------
  // Every entry of the kept tree gets a line
  // ---------------------------------------------------------------------

  /** Some visit of `vs` reports the entry at `p`. */
  predicate Covered(vs: seq<Visit>, p: seq<string>)
  {
    exists k :: 0 <= k < |vs| && vs[k].path == p
  }

  lemma {:induction false} DirComplete(t: Shape, prefix: string, path: seq<string>, env: Env)
    requires t.Folder?
    ensures forall q {:trigger Find(t, q)} :: |q| > 0 && Find(t, q).Some? ==> Covered(RenderDir(t, prefix, path, env).visits, path + q)
    decreases t, 1
  {
    var names := SortedNames(t.entries);
    SeqComplete(t, names, prefix, path, env);
    forall q | |q| > 0 && Find(t, q).Some?
      ensures Covered(RenderDir(t, prefix, path, env).visits, path + q)
    {
      assert q[0] in names;
    }
  }

  lemma {:induction false} SeqComplete(t: Shape, names: seq<string>, prefix: string, path: seq<string>, env: Env)
    requires t.Folder?
    requires forall k :: 0 <= k < |names| ==> names[k] in t.entries
    ensures forall q {:trigger Find(t, q)} :: |q| > 0 && q[0] in names && Find(t, q).Some? ==>
              Covered(RenderSeq(t, names, prefix, path, env).visits, path + q)
    decreases t, 0, |names|
  {
    if |names| > 0 {
      var h := EntryVisit(t, names, prefix, path, env);
      var below := Below(t, names, prefix, path, env).visits;
      var rest := RenderSeq(t, names[1..], prefix, path, env).visits;
      assert RenderSeq(t, names, prefix, path, env).visits == [h] + below + rest;
      SeqComplete(t, names[1..], prefix, path, env);
      BelowComplete(t, names, prefix, path, env);
      CompleteStep(t, names, path, h, below, rest);
    }
  }

  /** One step of `SeqComplete`: the entry's own line, then its subtree, then its later siblings. */
  lemma CompleteStep(t: Shape, names: seq<string>, path: seq<string>, h: Visit, below: seq<Visit>, rest: seq<Visit>)
    requires t.Folder? && |names| > 0 && names[0] in t.entries
    requires h.path == path + [names[0]]
    requires forall q {:trigger Find(t.entries[names[0]], q)} :: |q| > 0 && Find(t.entries[names[0]], q).Some? ==>
               Covered(below, path + [names[0]] + q)
    requires forall q {:trigger Find(t, q)} :: |q| > 0 && q[0] in names[1..] && Find(t, q).Some? ==>
               Covered(rest, path + q)
    ensures forall q {:trigger Find(t, q)} :: |q| > 0 && q[0] in names && Find(t, q).Some? ==>
              Covered([h] + below + rest, path + q)
  {
    forall q | |q| > 0 && q[0] in names && Find(t, q).Some?
      ensures Covered([h] + below + rest, path + q)
    {
      if q[0] == names[0] {
        if |q| == 1 {
          assert Covered([h], path + q) by { assert [h][0].path == path + q; }
          CoveredLeft([h], below, path + q);
        } else {
          assert Find(t.entries[names[0]], q[1..]).Some?;
          assert path + [names[0]] + q[1..] == path + q;
          CoveredRight([h], below, path + q);
        }
        CoveredLeft([h] + below, rest, path + q);
      } else {
        assert q[0] in names[1..];
        CoveredRight([h] + below, rest, path + q);
      }
    }
  }

  lemma CoveredLeft(a: seq<Visit>, b: seq<Visit>, p: seq<string>)
    requires Covered(a, p)
    ensures Covered(a + b, p)
  {
    var k :| 0 <= k < |a| && a[k].path == p;
    assert (a + b)[k] == a[k];
  }

  lemma CoveredRight(a: seq<Visit>, b: seq<Visit>, p: seq<string>)
    requires Covered(b, p)
    ensures Covered(a + b, p)
  {
    var k :| 0 <= k < |b| && b[k].path == p;
    assert (a + b)[|a| + k] == b[k];
  }

  lemma {:induction false} BelowComplete(t: Shape, names: seq<string>, prefix: string, path: seq<string>, env: Env)
    requires t.Folder? && |names| > 0 && names[0] in t.entries
    ensures forall q {:trigger Find(t.entries[names[0]], q)} :: |q| > 0 && Find(t.entries[names[0]], q).Some? ==>
              Covered(Below(t, names, prefix, path, env).visits, path + [names[0]] + q)
    decreases t, 0, |names|, 0
  {
    var child := t.entries[names[0]];
    if child.Folder? {
      DirComplete(child, prefix + ChildIndent(|names| == 1), path + [names[0]], env);
    } else {
      forall q | |q| > 0
        ensures Find(child, q).None?
      {
      }
    }
  }

  // ---------------------------------------------------------------------
  // No entry gets two lines
  // ---------------------------------------------------------------------

  /** No two visits of `vs` report the same entry. */
  predicate DistinctPaths(vs: seq<Visit>)
  {
    forall i, j :: 0 <= i < j < |vs| ==> vs[i].path != vs[j].path
  }

  lemma {:induction false} DirDistinct(t: Shape, prefix: string, path: seq<string>, env: Env)
    requires t.Folder?
    ensures DistinctPaths(RenderDir(t, prefix, path, env).visits)
    decreases t, 1
  {
    SeqDistinct(t, SortedNames(t.entries), prefix, path, env);
  }

  lemma {:induction false} SeqDistinct(t: Shape, names: seq<string>, prefix: string, path: seq<string>, env: Env)
    requires t.Folder?
    requires forall k :: 0 <= k < |names| ==> names[k] in t.entries
    requires Distinct(names)
    ensures DistinctPaths(RenderSeq(t, names, prefix, path, env).visits)
    decreases t, 0, |names|
  {
    if |names| > 0 {
      var h := EntryVisit(t, names, prefix, path, env);
      var below := Below(t, names, prefix, path, env).visits;
      var rest := RenderSeq(t, names[1..], prefix, path, env).visits;
      assert RenderSeq(t, names, prefix, path, env).visits == [h] + below + rest;
      DistinctTail(names);
      SeqDistinct(t, names[1..], prefix, path, env);
      BelowDistinct(t, names, prefix, path, env);
      SeqRooted(t, names[1..], prefix, path, env);
      BelowRooted(t, names, prefix, path, env);
      DistinctStep(names, path, h, below, rest);
    }
  }

  /** `v` reports an entry below `path`, inside one of `names`. */
  predicate Rooted(v: Visit, path: seq<string>, names: seq<string>)
  {
    Under(path, v.path) && v.path[|path|] in names
  }

  /** The entries the lines of `names` report lie below `path`, under one of `names`. */
  lemma SeqRooted(t: Shape, names: seq<string>, prefix: string, path: seq<string>, env: Env)
    requires t.Folder?
    requires forall k :: 0 <= k < |names| ==> names[k] in t.entries
    ensures forall k :: 0 <= k < |RenderSeq(t, names, prefix, path, env).visits| ==>
              Rooted(RenderSeq(t, names, prefix, path, env).visits[k], path, names)
  {
    SeqPlaced(t, names, prefix, path, env);
  }

  /** The entries the subtree lines of `names[0]` report lie strictly below it. */
  lemma BelowRooted(t: Shape, names: seq<string>, prefix: string, path: seq<string>, env: Env)
    requires t.Folder? && |names| > 0 && names[0] in t.entries
    ensures forall k :: 0 <= k < |Below(t, names, prefix, path, env).visits| ==>
              Under(path + [names[0]], Below(t, names, prefix, path, env).visits[k].path)
  {
    BelowPlaced(t, names, prefix, path, env);
  }

  /** One step of `SeqDistinct`: the three parts report disjoint sets of entries. */
  lemma DistinctStep(names: seq<string>, path: seq<string>, h: Visit, below: seq<Visit>, rest: seq<Visit>)
    requires |names| > 0 && names[0] !in names[1..]
    requires h.path == path + [names[0]]
    requires DistinctPaths(below) && DistinctPaths(rest)
    requires forall k :: 0 <= k < |below| ==> Under(h.path, below[k].path)
    requires forall k :: 0 <= k < |rest| ==> Rooted(rest[k], path, names[1..])
    ensures DistinctPaths([h] + below + rest)
  {
    var vs := [h] + below + rest;
    var n := |below|;
    Parts(names, path, h, below, rest);
    forall i, j | 0 <= i < j < |vs|
      ensures vs[i].path != vs[j].path
    {
      if j > n {
        if i <= n {
          assert InsideFirst(vs, i, path, names[0]) && OutsideFirst(vs, j, path, names[0]);
        } else {
          assert vs[i] == rest[i - 1 - n] && vs[j] == rest[j - 1 - n];
        }
      } else if i == 0 {
        assert vs[j] == below[j - 1];
      } else {
        assert vs[i] == below[i - 1] && vs[j] == below[j - 1];
      }
    }
  }

  lemma {:induction false} BelowDistinct(t: Shape, names: seq<string>, prefix: string, path: seq<string>, env: Env)
    requires t.Folder? && |names| > 0 && names[0] in t.entries
    ensures DistinctPaths(Below(t, names, prefix, path, env).visits)
    decreases t, 0, |names|, 0
  {
    var child := t.entries[names[0]];
    if child.Folder? {
      DirDistinct(child, prefix + ChildIndent(|names| == 1), path + [names[0]], env);
    }
  }

  // ---------------------------------------------------------------------
  // Path relations used by the step lemmas
  // ---------------------------------------------------------------------

  lemma UnderAt(a: seq<string>, b: seq<string>, m: nat)
    requires Under(a, b) && m < |a|
    ensures b[m] == a[m]
  {
    assert b[..|a|][m] == b[m];
  }

  /** Two paths that part ways at position `|path|` are unrelated. */
  lemma Apart(x: seq<string>, y: seq<string>, path: seq<string>)
    requires |x| > |path| && |y| > |path| && x[|path|] != y[|path|]
    ensures !Under(x, y) && !Under(y, x)
  {
  }

  lemma DistinctTail(names: seq<string>)
    requires Distinct(names) && |names| > 0
    ensures Distinct(names[1..]) && names[0] !in names[1..]
  {
    forall i, j | 0 <= i < j < |names[1..]|
      ensures names[1..][i] != names[1..][j]
    {
      assert names[1..][i] == names[i + 1] && names[1..][j] == names[j + 1];
    }
  }

  /**
   * Where the lines of one step sit: those up to the end of the subtree
   * report `names[0]` or an entry inside it, the later ones report entries
   * under the other names.
   */
  lemma Parts(names: seq<string>, path: seq<string>, h: Visit, below: seq<Visit>, rest: seq<Visit>)
    requires |names| > 0 && names[0] !in names[1..]
    requires h.path == path + [names[0]]
    requires forall k :: 0 <= k < |below| ==> Under(h.path, below[k].path)
    requires forall k :: 0 <= k < |rest| ==> Rooted(rest[k], path, names[1..])
    ensures forall m :: 0 <= m <= |below| ==> InsideFirst([h] + below + rest, m, path, names[0])
    ensures forall m :: |below| < m < 1 + |below| + |rest| ==> OutsideFirst([h] + below + rest, m, path, names[0])
  {
    var vs := [h] + below + rest;
    forall m | 0 <= m <= |below|
      ensures InsideFirst(vs, m, path, names[0])
    {
      if m > 0 {
        assert vs[m] == below[m - 1];
        UnderAt(h.path, vs[m].path, |path|);
      }
    }
    forall m | |below| < m < |vs|
      ensures OutsideFirst(vs, m, path, names[0])
    {
      assert vs[m] == rest[m - 1 - |below|];
      assert Rooted(rest[m - 1 - |below|], path, names[1..]);
    }
  }

  predicate InsideFirst(vs: seq<Visit>, m: nat, path: seq<string>, first: string)
  {
    m < |vs| && |vs[m].path| > |path| && vs[m].path[|path|] == first
  }

  predicate OutsideFirst(vs: seq<Visit>, m: nat, path: seq<string>, first: string)
  {
    m < |vs| && |vs[m].path| > |path| && vs[m].path[|path|] != first
  }
}
