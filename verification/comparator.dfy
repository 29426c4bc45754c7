/**
 * `generate_tree_comparison` end to end: walk the base tree with the ignore
 * rules, render the kept tree against the target, and return the lines and
 * the status counters. `FullPath` is the current engine, `BareName` the
 * earlier one that matches each entry's own name.
 */
module Comparator {

  import opened FileTree
  import opened Ignore
  import opened Walk
  import opened Render
  import opened RenderFacts
  import opened Layout
  import opened QuickScan

  /** The pair `(tree_lines, status_counts)` the function returns. */
  datatype Report = Report(lines: seq<string>, counts: Counts)

  /**
   * The lines, with the entry each reports, for the comparison of `base`
   * against `target`, and the counters bumped along the way: each counter
   * holds the number of lines with its status, there are at least as many
   * lines as kept top-level entries, and an empty walk gives no line.
   */
  function Compare(base: Node, target: Node, v: Variant, cfg: Config, quick: bool): (r: Rendered)
    ensures r.counts == Tally(r.visits)
    ensures r.counts.Total() == |r.visits|
    ensures |r.visits| >= |Walk.Walk(base, v, cfg)|
    ensures Walk.Walk(base, v, cfg) == map[] ==> r.visits == []
  {
    var t := Folder(Walk.Walk(base, v, cfg));
    var env := Env(base, target, quick);
    var r := RenderDir(t, "", [], env);
    DirCounts(t, "", [], env);
    TallyTotal(r.visits);
    assert |r.visits| >= |t.entries|;
    r
  }

  /** Every entry the walk keeps at the top level gets a line at its own path. */
  lemma TopLevelListed(base: Node, target: Node, v: Variant, cfg: Config, quick: bool, n: string)
    requires n in Walk.Walk(base, v, cfg)
    ensures Covered(Compare(base, target, v, cfg, quick).visits, [n])
  {
    var t := Folder(Walk.Walk(base, v, cfg));
    var env := Env(base, target, quick);
    CompareRenders(base, target, v, cfg, quick);
    DirComplete(t, "", [], env);
    assert Find(t, [n]).Some?;
    assert [] + [n] == [n];
  }

  function Texts(vs: seq<Visit>): (r: seq<string>)
    ensures |r| == |vs|
    ensures forall k :: 0 <= k < |vs| ==> r[k] == LineText(vs[k].line)
  {
    seq(|vs|, k requires 0 <= k < |vs| => LineText(vs[k].line))
  }

  /**
   * The report for one variant: one line per rendered entry, the counters
   * summing to the number of lines, and nothing at all when no entry is kept.
   */
  function Generate(base: Node, target: Node, v: Variant, cfg: Config, quick: bool): (r: Report)
    ensures |r.lines| == |Compare(base, target, v, cfg, quick).visits|
    ensures forall k :: 0 <= k < |r.lines| ==> r.lines[k] == LineText(Compare(base, target, v, cfg, quick).visits[k].line)
    ensures r.counts == Tally(Compare(base, target, v, cfg, quick).visits)
    ensures r.counts.Total() == |r.lines|
    ensures Walk.Walk(base, v, cfg) == map[] ==> r.lines == [] && r.counts == Zero
  {
    var c := Compare(base, target, v, cfg, quick);
    Report(Texts(c.visits), c.counts)
  }

  /** `analyzer.generate_tree_comparison`: ignore rules see the whole relative path. */
  function GenerateTreeComparison(base: Node, target: Node, cfg: Config, quick: bool): (r: Report)
    ensures r == Generate(base, target, FullPath, cfg, quick)
    ensures r.counts.Total() == |r.lines|
  {
    Generate(base, target, FullPath, cfg, quick)
  }

  /** `compass_analyzer.generate_tree_comparison`: ignore rules see each entry's own name. */
  function GenerateTreeComparisonByName(base: Node, target: Node, cfg: Config, quick: bool): (r: Report)
    ensures r == Generate(base, target, BareName, cfg, quick)
    ensures r.counts.Total() == |r.lines|
  {
    Generate(base, target, BareName, cfg, quick)
  }

  // ---------------------------------------------------------------------
  // What the lines report
  // ---------------------------------------------------------------------

  /**
   * The lines report exactly the retained entries of the base tree, each
   * once and with its kind: an entry gets a line if and only if it exists in
   * the base and neither it nor any ancestor is ignored.
   */
  lemma ListsExactlyRetained(base: Node, target: Node, v: Variant, cfg: Config, quick: bool, p: seq<string>)
    ensures Covered(Compare(base, target, v, cfg, quick).visits, p) <==> Retained(base, v, cfg, p)
    ensures DistinctPaths(Compare(base, target, v, cfg, quick).visits)
  {
    CompareRenders(base, target, v, cfg, quick);
    RenderedExactlyRetained(base, v, cfg, Env(base, target, quick), p, Compare(base, target, v, cfg, quick).visits);
  }

  /** `Compare` is the rendering of the walk. */
  lemma CompareRenders(base: Node, target: Node, v: Variant, cfg: Config, quick: bool)
    ensures Compare(base, target, v, cfg, quick).visits
            == RenderDir(Folder(Walk.Walk(base, v, cfg)), "", [], Env(base, target, quick)).visits
  {
  }

  /** `ListsExactlyRetained` for the rendering of the walk against any environment. */
  lemma RenderedExactlyRetained(base: Node, v: Variant, cfg: Config, env: Env, p: seq<string>, vs: seq<Visit>)
    requires vs == RenderDir(Folder(Walk.Walk(base, v, cfg)), "", [], env).visits
    ensures Covered(vs, p) <==> Retained(base, v, cfg, p)
    ensures DistinctPaths(vs)
  {
    var t := Folder(Walk.Walk(base, v, cfg));
    DirPlaced(t, "", [], env);
    DirComplete(t, "", [], env);
    DirDistinct(t, "", [], env);
    WalkKeepsExactlyRetained(base, v, cfg, p);
    if Covered(vs, p) {
      var k :| 0 <= k < |vs| && vs[k].path == p;
      assert Placed(vs[k], t, []);
      assert p[0..] == p;
    }
    if Retained(base, v, cfg, p) {
      assert [] + p == p;
    }
  }

  /** Each line's kind is the kind of the base entry it reports. */
  lemma KindsMatchBase(base: Node, target: Node, v: Variant, cfg: Config, quick: bool)
    ensures var vs := Compare(base, target, v, cfg, quick).visits;
      forall k :: 0 <= k < |vs| ==>
        Lookup(base, vs[k].path).Some? && (vs[k].isDir <==> Lookup(base, vs[k].path).value.Dir?)
  {
    var t := Folder(Walk.Walk(base, v, cfg));
    var vs := Compare(base, target, v, cfg, quick).visits;
    DirPlaced(t, "", [], Env(base, target, quick));
    forall k | 0 <= k < |vs|
      ensures Lookup(base, vs[k].path).Some? && (vs[k].isDir <==> Lookup(base, vs[k].path).value.Dir?)
    {
      assert Placed(vs[k], t, []);
      assert vs[k].path[0..] == vs[k].path;
      WalkKeepsExactlyRetained(base, v, cfg, vs[k].path);
    }
  }

  /** An ignored entry gets no line, and neither does anything beneath it. */
  lemma IgnoredNeverListed(base: Node, target: Node, v: Variant, cfg: Config, quick: bool, d: seq<string>, rest: seq<string>)
    requires |d| > 0 && Excluded(v, cfg, d)
    ensures !Covered(Compare(base, target, v, cfg, quick).visits, d + rest)
  {
    IgnoredEntryHidesSubtree(base, v, cfg, d, rest);
    ListsExactlyRetained(base, target, v, cfg, quick, d + rest);
  }

  /**
   * Each line names its entry and carries the status the rules call for:
   * missing when the target path does not exist, identical for an existing
   * directory or under quick scan, otherwise identical exactly when the two
   * files are identical.
   */
  lemma StatusesFollowRules(base: Node, target: Node, v: Variant, cfg: Config, quick: bool)
    ensures var vs := Compare(base, target, v, cfg, quick).visits;
      forall k :: 0 <= k < |vs| ==>
        && |vs[k].path| > 0
        && vs[k].line.name == vs[k].path[|vs[k].path| - 1]
        && vs[k].line.status == Classify(vs[k].isDir, Lookup(base, vs[k].path), Lookup(target, vs[k].path), quick)
  {
    DirFaithful(Folder(Walk.Walk(base, v, cfg)), "", [], Env(base, target, quick));
  }

  /**
   * The listing's shape: preorder, connectors marking the last sibling,
   * prefixes nesting from the empty top-level prefix, and siblings sorted
   * directories first and then by lower-cased name.
   */
  lemma ListingShape(base: Node, target: Node, v: Variant, cfg: Config, quick: bool)
    ensures var vs := Compare(base, target, v, cfg, quick).visits;
      && Preorder(vs)
      && ConnectorsMarkLast(vs)
      && PrefixesFollow(vs, [], "")
      && SiblingsOrdered(vs)
  {
    var t := Folder(Walk.Walk(base, v, cfg));
    var env := Env(base, target, quick);
    DirPreorder(t, "", [], env);
    DirConnectors(t, "", [], env);
    DirPrefixes(t, "", [], env);
    DirOrdered(t, "", [], env);
  }

  /**
   * Quick scan lists the same lines, only ever turning a modified file
   * identical, and its report has no modified entries.
   */
  lemma QuickScanOnlyRelaxes(base: Node, target: Node, v: Variant, cfg: Config)
    ensures AllRelax(Compare(base, target, v, cfg, false).visits, Compare(base, target, v, cfg, true).visits)
    ensures var slow := Generate(base, target, v, cfg, false);
      var quick := Generate(base, target, v, cfg, true);
      && |quick.lines| == |slow.lines|
      && quick.counts == Counts(slow.counts.identical + slow.counts.modified, 0, slow.counts.missing)
  {
    var t := Folder(Walk.Walk(base, v, cfg));
    var slow := Compare(base, target, v, cfg, false);
    var quick := Compare(base, target, v, cfg, true);
    QuickScanMonotone(t, "", [], base, target);
    DirCounts(t, "", [], Env(base, target, false));
    DirCounts(t, "", [], Env(base, target, true));
    assert Generate(base, target, v, cfg, false).counts == slow.counts;
    assert Generate(base, target, v, cfg, true).counts == quick.counts;
  }
}
