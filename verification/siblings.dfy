/**
 * The order in which `build_string_with_comparison` visits the entries of
 * one directory: `sorted(d.keys(), key=lambda x: (d[x] is None, x.lower()))`,
 * i.e. directories before files, then by lower-cased name.
 *
 * Names that lower-case alike (`README`, `readme`) tie under that key and
 * keep the directory listing's order, which the file system decides; the
 * model settles such ties by comparing the names themselves, and the
 * contracts below promise only the key order.
 */
module Siblings {

  import opened Order
  import opened Walk

  /** The sort key of the source: `(is a file, lower-cased name)`. */
  datatype SortKey = SortKey(isFile: bool, folded: string)

  function KeyOf(d: map<string, Shape>, n: string): SortKey
  {
    SortKey(n in d && d[n].Leaf?, Lower(n))
  }

  /** Tuple comparison of two keys: `False < True`, then string order. */
  predicate KeyLess(a: SortKey, b: SortKey)
  {
    (!a.isFile && b.isFile) || (a.isFile == b.isFile && LexLess(a.folded, b.folded))
  }

  /** The total order the model sorts by: the key, then the name itself. */
  predicate Precedes(d: map<string, Shape>, a: string, b: string)
  {
    KeyLess(KeyOf(d, a), KeyOf(d, b)) || (KeyOf(d, a) == KeyOf(d, b) && LexLess(a, b))
  }

  lemma KeyLessAsymmetric(a: SortKey, b: SortKey)
    ensures !(KeyLess(a, b) && KeyLess(b, a))
  {
    LexLessAsymmetric(a.folded, b.folded);
  }

  lemma PrecedesAsymmetric(d: map<string, Shape>)
    ensures forall a, b :: !(Precedes(d, a, b) && Precedes(d, b, a))
  {
    forall a, b
      ensures !(Precedes(d, a, b) && Precedes(d, b, a))
    {
      KeyLessAsymmetric(KeyOf(d, a), KeyOf(d, b));
      LexLessIrreflexive(Lower(a));
      LexLessAsymmetric(a, b);
    }
  }

  lemma PrecedesTransitive(d: map<string, Shape>, a: string, b: string, c: string)
    requires Precedes(d, a, b) && Precedes(d, b, c)
    ensures Precedes(d, a, c)
  {
    var ka, kb, kc := KeyOf(d, a), KeyOf(d, b), KeyOf(d, c);
    if KeyLess(ka, kb) && KeyLess(kb, kc) && ka.isFile == kc.isFile {
      LexLessTransitive(ka.folded, kb.folded, kc.folded);
    } else if ka == kb && kb == kc {
      LexLessTransitive(a, b, c);
    }
  }

  lemma PrecedesTotal(d: map<string, Shape>, a: string, b: string)
    requires a != b
    ensures Precedes(d, a, b) || Precedes(d, b, a)
  {
    var ka, kb := KeyOf(d, a), KeyOf(d, b);
    if ka != kb {
      if ka.isFile == kb.isFile {
        LexLessTotal(ka.folded, kb.folded);
      }
    } else {
      LexLessTotal(a, b);
    }
  }

  /** `x` comes before every other name of `ks`. */
  predicate IsFirst(d: map<string, Shape>, x: string, ks: set<string>)
  {
    x in ks && forall y :: y in ks && y != x ==> Precedes(d, x, y)
  }

  lemma {:induction false} FirstExists(d: map<string, Shape>, ks: set<string>)
    requires ks != {}
    ensures exists x :: IsFirst(d, x, ks)
    decreases ks
  {
    var x :| x in ks;
    if ks != {x} {
      var rest := ks - {x};
      FirstExists(d, rest);
      var m :| IsFirst(d, m, rest);
      PrecedesTotal(d, x, m);
      if Precedes(d, x, m) {
        forall y | y in ks && y != x
          ensures Precedes(d, x, y)
        {
          if y != m {
            PrecedesTransitive(d, x, m, y);
          }
        }
        assert IsFirst(d, x, ks);
      } else {
        assert IsFirst(d, m, ks);
      }
    } else {
      assert IsFirst(d, x, ks);
    }
  }

  /** The names of `ks`, each once, in the model's sort order. */
  function SortedFrom(d: map<string, Shape>, ks: set<string>): (r: seq<string>)
    ensures |r| == |ks|
    ensures forall n :: n in r <==> n in ks
    ensures forall i, j :: 0 <= i < j < |r| ==> Precedes(d, r[i], r[j])
    decreases ks
  {
    if ks == {} then []
    else
      FirstExists(d, ks);
      PrecedesAsymmetric(d);
      var first :| IsFirst(d, first, ks);
      var rest := SortedFrom(d, ks - {first});
      PrependFirst(d, first, ks, rest);
      [first] + rest
  }

  /** Putting the first name of `ks` in front of the sorted others sorts all of `ks`. */
  lemma PrependFirst(d: map<string, Shape>, first: string, ks: set<string>, rest: seq<string>)
    requires IsFirst(d, first, ks)
    requires |rest| == |ks - {first}|
    requires forall n :: n in rest <==> n in ks - {first}
    requires forall i, j :: 0 <= i < j < |rest| ==> Precedes(d, rest[i], rest[j])
    ensures |[first] + rest| == |ks|
    ensures forall n :: n in [first] + rest <==> n in ks
    ensures forall i, j :: 0 <= i < j < |[first] + rest| ==> Precedes(d, ([first] + rest)[i], ([first] + rest)[j])
  {
    var r := [first] + rest;
    forall i, j | 0 <= i < j < |r|
      ensures Precedes(d, r[i], r[j])
    {
      if i == 0 {
        assert r[j] == rest[j - 1] && r[j] in rest;
      } else {
        assert r[i] == rest[i - 1] && r[j] == rest[j - 1];
      }
    }
  }

  /**
   * The visiting order of the entries of `d`: every name exactly once,
   * directories before files, and the lower-cased names non-decreasing
   * within each group.
   */
  function SortedNames(d: map<string, Shape>): (r: seq<string>)
    ensures |r| == |d|
    ensures forall n :: n in r <==> n in d
    ensures forall i, j :: 0 <= i < j < |r| ==> r[i] != r[j]
    ensures forall i, j :: 0 <= i < j < |r| ==> !KeyLess(KeyOf(d, r[j]), KeyOf(d, r[i]))
    ensures forall i, j :: 0 <= i < j < |r| && d[r[i]].Leaf? ==> d[r[j]].Leaf?
  {
    var r := SortedFrom(d, d.Keys);
    PrecedesAsymmetric(d);
    forall i, j | 0 <= i < j < |r|
      ensures !KeyLess(KeyOf(d, r[j]), KeyOf(d, r[i]))
    {
      KeyLessAsymmetric(KeyOf(d, r[i]), KeyOf(d, r[j]));
      LexLessIrreflexive(Lower(r[i]));
    }
    r
  }
}
