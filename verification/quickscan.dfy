/**
 * What `quick_scan` changes: the same lines in the same places, with every
 * modified file turned identical and nothing else touched, so the modified
 * counter drops to zero and its lines move to the identical counter.
 */
module QuickScan {

  import opened Wrappers
  import opened FileTree
  import opened Walk
  import opened Siblings
  import opened Render
  import opened RenderFacts

  /** What quick scan may do to a status: only a modified file becomes identical. */
  function Relaxed(s: Status): Status
  {
    if s == Modified then Identical else s
  }

  /** `q` is the line `s` becomes under quick scan: the same entry, glyphs and name, with its status relaxed. */
  predicate Relaxes(s: Visit, q: Visit)
  {
    && q.path == s.path
    && q.isDir == s.isDir
    && q.line == s.line.(status := Relaxed(s.line.status))
  }

  predicate AllRelax(ss: seq<Visit>, qs: seq<Visit>)
  {
    |ss| == |qs| && forall k :: 0 <= k < |ss| ==> Relaxes(ss[k], qs[k])
  }

  /** For one entry: quick scan never changes a missing or a directory status, and never turns identical into modified. */
  lemma ClassifyRelaxes(isDir: bool, baseEntry: Option<Node>, targetEntry: Option<Node>)
    ensures Classify(isDir, baseEntry, targetEntry, true) == Relaxed(Classify(isDir, baseEntry, targetEntry, false))
    ensures Classify(isDir, baseEntry, targetEntry, true) != Modified
  {
  }

  lemma {:induction false} DirRelaxes(t: Shape, prefix: string, path: seq<string>, base: Node, target: Node)
    requires t.Folder?
    ensures AllRelax(RenderDir(t, prefix, path, Env(base, target, false)).visits,
                     RenderDir(t, prefix, path, Env(base, target, true)).visits)
    decreases t, 1
  {
    SeqRelaxes(t, SortedNames(t.entries), prefix, path, base, target);
  }

  lemma {:induction false} SeqRelaxes(t: Shape, names: seq<string>, prefix: string, path: seq<string>, base: Node, target: Node)
    requires t.Folder?
    requires forall k :: 0 <= k < |names| ==> names[k] in t.entries
    ensures AllRelax(RenderSeq(t, names, prefix, path, Env(base, target, false)).visits,
                     RenderSeq(t, names, prefix, path, Env(base, target, true)).visits)
    decreases t, 0, |names|
  {
    if |names| > 0 {
      var slow, quick := Env(base, target, false), Env(base, target, true);
      var b := Below(t, names, prefix, path, slow).visits;
      var b' := Below(t, names, prefix, path, quick).visits;
      var r := RenderSeq(t, names[1..], prefix, path, slow).visits;
      var r' := RenderSeq(t, names[1..], prefix, path, quick).visits;
      var h := EntryVisit(t, names, prefix, path, slow);
      var h' := EntryVisit(t, names, prefix, path, quick);
      assert RenderSeq(t, names, prefix, path, slow).visits == [h] + b + r;
      assert RenderSeq(t, names, prefix, path, quick).visits == [h'] + b' + r';
      HeadRelaxes(t, names, prefix, path, base, target);
      SeqRelaxes(t, names[1..], prefix, path, base, target);
      BelowRelaxes(t, names, prefix, path, base, target);
      RelaxAppend([h], [h'], b, b');
      RelaxAppend([h] + b, [h'] + b', r, r');
    }
  }

  lemma HeadRelaxes(t: Shape, names: seq<string>, prefix: string, path: seq<string>, base: Node, target: Node)
    requires t.Folder? && |names| > 0 && names[0] in t.entries
    ensures AllRelax([EntryVisit(t, names, prefix, path, Env(base, target, false))],
                     [EntryVisit(t, names, prefix, path, Env(base, target, true))])
  {
    var here := path + [names[0]];
    ClassifyRelaxes(t.entries[names[0]].Folder?, Lookup(base, here), Lookup(target, here));
  }

  lemma {:induction false} BelowRelaxes(t: Shape, names: seq<string>, prefix: string, path: seq<string>, base: Node, target: Node)
    requires t.Folder? && |names| > 0 && names[0] in t.entries
    ensures AllRelax(Below(t, names, prefix, path, Env(base, target, false)).visits,
                     Below(t, names, prefix, path, Env(base, target, true)).visits)
    decreases t, 0, |names|, 0
  {
    var child := t.entries[names[0]];
    if child.Folder? {
      DirRelaxes(child, prefix + ChildIndent(|names| == 1), path + [names[0]], base, target);
    }
  }

  lemma RelaxAppend(a: seq<Visit>, a': seq<Visit>, b: seq<Visit>, b': seq<Visit>)
    requires AllRelax(a, a') && AllRelax(b, b')
    ensures AllRelax(a + b, a' + b')
  {
    forall k | 0 <= k < |a + b|
      ensures Relaxes((a + b)[k], (a' + b')[k])
    {
      if k < |a| {
        assert (a + b)[k] == a[k] && (a' + b')[k] == a'[k];
      } else {
        assert (a + b)[k] == b[k - |a|] && (a' + b')[k] == b'[k - |a|];
      }
    }
  }

  /** How relaxing every line moves the tallies: modified lines are counted as identical. */
  lemma {:induction false} TallyRelaxed(ss: seq<Visit>, qs: seq<Visit>)
    requires AllRelax(ss, qs)
    ensures Tally(qs) == Counts(Tally(ss).identical + Tally(ss).modified, 0, Tally(ss).missing)
    decreases |ss|
  {
    if |ss| > 0 {
      assert AllRelax(ss[1..], qs[1..]) by {
        forall k | 0 <= k < |ss[1..]|
          ensures Relaxes(ss[1..][k], qs[1..][k])
        {
          assert ss[1..][k] == ss[k + 1] && qs[1..][k] == qs[k + 1];
        }
      }
      assert Relaxes(ss[0], qs[0]);
      TallyRelaxed(ss[1..], qs[1..]);
    }
  }

  /**
   * Quick scan over the same kept tree: the same lines in the same places,
   * each status relaxed, and the counters moved from modified to identical.
   */
  lemma QuickScanMonotone(t: Shape, prefix: string, path: seq<string>, base: Node, target: Node)
    requires t.Folder?
    ensures var slow := RenderDir(t, prefix, path, Env(base, target, false));
      var quick := RenderDir(t, prefix, path, Env(base, target, true));
      && AllRelax(slow.visits, quick.visits)
      && quick.counts == Counts(slow.counts.identical + slow.counts.modified, 0, slow.counts.missing)
  {
    var slow := RenderDir(t, prefix, path, Env(base, target, false));
    var quick := RenderDir(t, prefix, path, Env(base, target, true));
    DirRelaxes(t, prefix, path, base, target);
    DirCounts(t, prefix, path, Env(base, target, false));
    DirCounts(t, prefix, path, Env(base, target, true));
    TallyRelaxed(slow.visits, quick.visits);
  }
}
