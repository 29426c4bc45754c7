/**
 * The two pieces of `os.path` (POSIX flavour) the comparison relies on:
 * `splitext`, which yields the extension an ignore rule is checked
 * against, and `join`, which builds the relative path of an entry from
 * the components leading to it.
 */
module PathName {

  /** Position of the last `c` in `s`, or -1 if there is none (`str.rfind`). */
  function LastIndex(s: string, c: char): (r: int)
    ensures -1 <= r < |s|
    ensures r >= 0 ==> s[r] == c
    ensures forall k :: r < k < |s| ==> s[k] != c
    decreases |s|
  {
    if |s| == 0 then -1
    else if s[|s| - 1] == c then |s| - 1
    else LastIndex(s[..|s| - 1], c)
  }

  /**
   * `p[k..]` is the extension of `p`: `p[k]` is the last dot, nothing after
   * it is a dot or a slash, and the final path segment has a character
   * other than a dot before it (so `.env` and `..` have no extension).
   */
  predicate ExtensionAt(p: string, k: int)
  {
    && 0 <= k < |p|
    && p[k] == '.'
    && (forall j :: k < j < |p| ==> p[j] != '.' && p[j] != '/')
    && (exists i :: 0 <= i < k && p[i] != '.' && forall j :: i <= j < k ==> p[j] != '/')
  }

  /** `os.path.splitext(p)[1]`: the extension with its dot, or "" when `p` has none. */
  function Extension(p: string): (e: string)
    ensures e == [] || ExtensionAt(p, |p| - |e|)
    ensures forall k {:trigger ExtensionAt(p, k)} :: ExtensionAt(p, k) ==> e == p[k..]
  {
    var sep := LastIndex(p, '/');
    var dot := LastIndex(p, '.');
    if dot > sep && exists i :: sep < i < dot && p[i] != '.' then
      assert ExtensionAt(p, dot) by {
        var i :| sep < i < dot && p[i] != '.';
        assert forall j :: i <= j < dot ==> p[j] != '/';
      }
      p[dot..]
    else
      []
  }

  /** A name whose only dot is its first character, such as `.env`, has no extension. */
  lemma DotFileHasNoExtension(name: string)
    requires |name| > 0 && name[0] == '.'
    requires forall j :: 0 < j < |name| ==> name[j] != '.' && name[j] != '/'
    ensures Extension(name) == []
  {
  }

  /** `stem.ext` has extension `.ext` when the stem does not start with a dot and neither part holds a slash or the ext a dot. */
  lemma StemAndExtension(stem: string, ext: string)
    requires |stem| > 0 && stem[0] != '.'
    requires forall j :: 0 <= j < |stem| ==> stem[j] != '/'
    requires forall j :: 0 <= j < |ext| ==> ext[j] != '.' && ext[j] != '/'
    ensures Extension(stem + "." + ext) == "." + ext
  {
    var p := stem + "." + ext;
    assert p[0] == stem[0];
    assert ExtensionAt(p, |stem|);
    assert p[|stem|..] == "." + ext;
  }

  /** `os.path.join` over relative components: `a`, `a/b`, `a/b/c`, ... ("" for none). */
  function JoinPath(path: seq<string>): (r: string)
    ensures |path| == 1 ==> r == path[0]
    ensures |path| > 1 ==> r == JoinPath(path[..|path| - 1]) + "/" + path[|path| - 1]
  {
    if |path| == 0 then ""
    else if |path| == 1 then path[0]
    else JoinPath(path[..|path| - 1]) + "/" + path[|path| - 1]
  }
}
