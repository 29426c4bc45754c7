/**
 * The two ignore checks of the repository. `analyzer.py` tests the
 * slash-separated relative path of an entry against every glob pattern,
 * then its extension; `compass_analyzer.py` tests only the entry's own
 * name, by exact membership in the pattern list, then its extension.
 * Both are applied to directories and files alike.
 */
module Ignore {

  import opened Glob
  import opened PathName

  /** The `ignored_patterns` and `ignored_file_extensions` lists of the configuration. */
  datatype Config = Config(patterns: seq<string>, extensions: seq<string>)

  /** The non-empty extension of `p` is one of the ignored extensions. */
  predicate ExtensionIgnored(p: string, cfg: Config)
  {
    var e := Extension(p);
    e != [] && e in cfg.extensions
  }

  /** Some pattern matches the whole of `p`. */
  predicate MatchesSomePattern(p: string, cfg: Config)
  {
    exists k :: 0 <= k < |cfg.patterns| && Fnmatch(p, cfg.patterns[k])
  }

  /** Decision of `analyzer.is_ignored` for a slash-separated relative path. */
  predicate Ignored(relativePath: string, cfg: Config)
  {
    MatchesSomePattern(relativePath, cfg) || ExtensionIgnored(relativePath, cfg)
  }

  /**
   * `analyzer.is_ignored`: try the patterns in order and stop at the first
   * match, then fall back to the extension test.
   */
  method IsIgnored(relativePath: string, cfg: Config) returns (ignored: bool)
    ensures ignored <==> Ignored(relativePath, cfg)
  {
    var i := 0;
    while i < |cfg.patterns|
      invariant 0 <= i <= |cfg.patterns|
      invariant forall k :: 0 <= k < i ==> !Fnmatch(relativePath, cfg.patterns[k])
    {
      if Fnmatch(relativePath, cfg.patterns[i]) {
        return true;
      }
      i := i + 1;
    }
    var e := Extension(relativePath);
    ignored := e != [] && e in cfg.extensions;
  }

  /**
   * Decision of `compass_analyzer.is_ignored` for the bare name of an entry:
   * the name is one of the patterns, or it ends in an extension (in the
   * sense of `splitext`) that is one of the ignored extensions.
   */
  predicate NameIgnored(name: string, cfg: Config): (ignored: bool)
    ensures ignored <==> name in cfg.patterns || exists k :: ExtensionAt(name, k) && name[k..] in cfg.extensions
  {
    ExtensionIgnoredAt(name, cfg);
    name in cfg.patterns || ExtensionIgnored(name, cfg)
  }

  /** An extension is ignored exactly when some suffix that `splitext` would split off is listed. */
  lemma ExtensionIgnoredAt(p: string, cfg: Config)
    ensures ExtensionIgnored(p, cfg) <==> exists k :: ExtensionAt(p, k) && p[k..] in cfg.extensions
  {
    var e := Extension(p);
    if e != [] {
      assert ExtensionAt(p, |p| - |e|) && e == p[|p| - |e|..];
    }
  }

  /**
   * When no pattern holds a glob metacharacter, the two checks agree on an
   * entry at the top of the tree, where the relative path is the name.
   */
  lemma TopLevelAgreement(name: string, cfg: Config)
    requires forall k :: 0 <= k < |cfg.patterns| ==> HasNoMeta(cfg.patterns[k])
    ensures Ignored(name, cfg) <==> NameIgnored(name, cfg)
  {
    forall k | 0 <= k < |cfg.patterns|
      ensures Fnmatch(name, cfg.patterns[k]) <==> name == cfg.patterns[k]
    {
      LiteralPattern(name, cfg.patterns[k]);
    }
  }

  /**
   * Below the top they differ: the pattern `node_modules` hides a nested
   * `web/node_modules` from the name check but not from the path check.
   */
  lemma NestedNameDiffers()
    ensures NameIgnored("node_modules", Config(["node_modules"], []))
    ensures !Ignored("web/node_modules", Config(["node_modules"], []))
  {
    var cfg := Config(["node_modules"], []);
    assert HasNoMeta("node_modules");
    LiteralPattern("web/node_modules", "node_modules");
    assert "web/node_modules" != "node_modules";
  }

  /** Glob characters mean nothing to the name check: `*.log` hides only an entry literally named `*.log`. */
  lemma NameCheckIgnoresGlobs(name: string)
    requires name != "*.log"
    ensures !NameIgnored(name, Config(["*.log"], []))
  {
  }

  /** The path check, in contrast, lets `*.log` hide `.log` files at any depth. */
  lemma PathCheckSpansDirectories(relativePath: string)
    requires |relativePath| >= 4 && relativePath[|relativePath| - 4..] == ".log"
    ensures Ignored(relativePath, Config(["*.log"], []))
  {
    var cfg := Config(["*.log"], []);
    assert HasNoMeta(".log");
    assert "*.log" == "*" + ".log";
    SuffixPattern(relativePath, ".log");
    assert Fnmatch(relativePath, cfg.patterns[0]);
  }
}
