# Codebase Compass: the tree-comparison engine in Dafny

Codebase Compass compares a *base* directory tree against a *target* tree
and prints a box-drawing tree of the base (`├── `, `└── `, `│   `). Each
entry the walk keeps gets one line: an entry that is not ignored and has no
ignored ancestor directory, since the walk never descends into an ignored
one. Each line carries a status icon:

- `✅` identical
- `⚠️` modified
- `❌` missing from the target

The engine also counts how many lines carry each icon. This project models
that engine as pure functions over immutable trees and proves what it
guarantees about ignoring, pruning, ordering, layout, classification and
counting.

The repository has two versions of the engine:

- `src/analyzer.py` is the current one. Its `is_ignored` runs `fnmatch`
  against the whole slash-joined relative path, then checks the extension.
- `src/compass_analyzer.py` is the earlier one. Its `is_ignored` looks only
  at the entry's own name: exact membership in the pattern list, or the
  extension.

Both versions share the same walk and the same render. The model gives the
walk a `Variant` parameter: `FullPath` or `BareName`.

Modules, in dependency order:

- `Wrappers`: `Option`.
- `Order`: ASCII lower-casing (`str.lower` on the names the model handles)
  and code-point lexicographic order on strings, proved to be a strict total
  order.
- `Glob`: `fnmatch.fnmatch` on POSIX.
  - A pattern is tokenised into `*`, `?`, literal characters, and bracket
    classes `[...]` / `[!...]` with ranges.
  - A `]` right after the opening bracket (or after `[!`) is literal.
  - A `[` with no closing bracket is a literal `[`.
  - The whole name must match. `*` also matches `/`.
  - Matching is case-sensitive, as `normcase` is the identity on POSIX.
- `PathName`: the extension as `os.path.splitext` computes it (last dot of
  the last segment, not at the start of the segment's leading dots), and
  joining path components with `/`.
- `FileTree`: the file system as a tree. `Dir(children)` or
  `File(content, readable)`; `Lookup` plays the role of `os.path.exists`.
- `Ignore`: both `is_ignored` functions.
- `FileEquality`: `are_files_identical`.
  - The two `stat` calls become `Probe` values.
  - The try/except becomes explicit verdicts: stat failed, sizes differ,
    read failed, digests compared.
  - SHA-256 equality of the two byte streams is modelled as equality of the
    bytes.
- `Walk`: the top-down `os.walk` with in-place pruning of `dirs`/`files`.
  It yields the nested kept tree (`Shape`: `Folder(entries)` or `Leaf`).
- `Siblings`: the sort key `(d[x] is None, x.lower())`, and a sorted listing
  of a folder's names.
- `Render`: `build_string_with_comparison`. It covers connectors, prefixes,
  the status of each entry, counters, and recursion into directories.
- `RenderFacts`: what the rendered lines report.
  - The counters tally the lines.
  - Each line names its entry with the right status.
  - Lines report exactly the entries of the kept tree, each once.
- `Layout`: preorder, connectors, prefixes and sibling order.
- `QuickScan`: what `quick_scan=True` changes.
- `Comparator`: `generate_tree_comparison` for both variants, and the
  end-to-end theorems.

How the code treats ignore patterns:

- Patterns are not split into literal names and globs.
  `src/analyzer.py:24-27` passes every pattern to `fnmatch` against the
  whole relative path, so a pattern `node_modules` does not hide
  `web/node_modules` (`Ignore.NestedNameDiffers`).
- Glob patterns in the name-only variant are plain strings
  (`Ignore.NameCheckIgnoresGlobs`).

Some behaviour of the code, recorded as modelled:

- The status of a directory depends only on whether the target path exists.
  A base directory whose target counterpart is a regular file is reported
  identical.

## Model

| member | source | states |
|---|---|---|
| Glob.Fnmatch | src/analyzer.py:25-27 | `fnmatch.fnmatch` on POSIX: the pattern translated to tokens, matched against the whole path; it has no contract of its own, and its meaning is stated by the `Glob` lemmas below |
| Glob.StarMatchesEverything | src/analyzer.py:25-27 | the pattern `*` matches every path, including ones with `/` |
| Glob.LiteralPattern | src/analyzer.py:25-27 | a pattern without `*`, `?` or `[` matches a path exactly when the path equals it |
| Glob.StarSplits | src/analyzer.py:25-27 | a leading `*` matches a string exactly when the rest of the pattern matches some suffix of it |
| Glob.SuffixPattern | src/analyzer.py:25-27 | `*` followed by a literal matches exactly the paths ending in that literal, at any depth |
| Glob.PrefixPattern | src/analyzer.py:25-27 | a literal followed by `*` matches exactly the paths starting with that literal |
| Glob.QuestionMarks | src/analyzer.py:25-27 | a pattern of n `?` matches exactly the names of length n |
| Glob.UnclosedBracketIsLiteral | src/analyzer.py:25-27 | with no `]` to close it, a `[` is an ordinary character, so such a pattern matches only itself |
| Glob.DigitClass | src/analyzer.py:25-27 | the class `[0-9]` matches exactly one character in the range 0 to 9 |
| Glob.NegatedClass | src/analyzer.py:25-27 | the class `[!x]` matches exactly one character other than x |
| Glob.ClassPattern | src/analyzer.py:25-27 | a pattern that is one bracket class with no `-` or `]` inside matches a single character exactly when the character is in the class body, or for `[!...]` exactly when it is not |
| PathName.Extension | src/analyzer.py:28 | the extension is empty or starts at a dot of the last segment that has a non-dot character before it in that segment; when such a dot exists the extension is the suffix from the last one |
| PathName.DotFileHasNoExtension | src/analyzer.py:28-29 | a name such as `.env`, whose only dot is its first character, has no extension |
| PathName.StemAndExtension | src/analyzer.py:28-29 | `stem.ext` with a stem not starting with a dot and no dot in `ext` has extension `.ext` |
| Ignore.IsIgnored | src/analyzer.py:19-31 | the pattern loop with early return answers true exactly when some pattern matches the path or the path's non-empty extension is listed |
| Ignore.NameIgnored | src/compass_analyzer.py:54-58 | the name-only check ignores a name exactly when the name is one of the patterns or ends in an extension, as `splitext` would split it off, that is one of the ignored extensions |
| Ignore.TopLevelAgreement | src/compass_analyzer.py:54-58 | when no pattern has glob characters, the two `is_ignored` versions agree on a top-level name |
| Ignore.NestedNameDiffers | src/analyzer.py:24-27 | the pattern `node_modules` hides the name `node_modules` in the name-only version but not the path `web/node_modules` in the path version |
| Ignore.NameCheckIgnoresGlobs | src/compass_analyzer.py:55 | in the name-only version `*.log` hides only the name `*.log` itself |
| Ignore.PathCheckSpansDirectories | src/analyzer.py:25-27 | in the path version `*.log` hides every path ending in `.log`, at any depth |
| FileEquality.ProbeOf | src/analyzer.py:36-40 | stat fails exactly for a missing path; bytes can be read exactly from an existing readable file, and are its contents |
| FileEquality.Check | src/analyzer.py:35-47 | each branch is taken exactly under its condition: a failed stat; otherwise different sizes; otherwise a file that cannot be read; otherwise the digests, which are equal exactly when the bytes are |
| FileEquality.AreFilesIdentical | src/analyzer.py:33-47 | true only for two readable files with the same bytes, and for two such files true exactly when the bytes are equal |
| FileEquality.SizeShortCircuit | src/analyzer.py:36-37 | different sizes give false without reading contents |
| FileEquality.UnopenableNeverIdentical | src/analyzer.py:46-47 | a missing or unreadable file makes the answer false, never an error |
| FileEquality.Symmetric | src/compass_analyzer.py:60-73 | swapping the two files does not change the answer |
| FileEquality.ReadableFilesIdenticalIffSameBytes | src/compass_analyzer.py:60-73 | for two readable files the answer is true exactly when their contents are equal |
| Walk.PruneDir | src/analyzer.py:63-80 | an entry is kept exactly when it exists and is not ignored at its path; a kept entry is a folder exactly when it is a directory |
| Walk.Walk | src/analyzer.py:58-80 | the top level of the kept dict holds exactly the base root's entries that are not ignored, each with its kind; a base root that is not a directory gives an empty dict |
| Walk.PruneFind | src/analyzer.py:58-80 | a path exists in the pruned subtree exactly when it exists below the directory and none of its prefixes is ignored, and it keeps its kind |
| Walk.WalkKeepsExactlyRetained | src/analyzer.py:58-80 | the kept tree holds a path exactly when it exists in the base and neither it nor an ancestor is ignored, with the base entry's kind |
| Walk.IgnoredEntryHidesSubtree | src/analyzer.py:63-66 | nothing at or below an ignored directory is kept, even entries that would not be ignored themselves |
| Walk.ByNameRetained | src/compass_analyzer.py:78-89 | in the name-only version, a path is kept exactly when it exists and none of its component names is ignored |
| Walk.NoRulesKeepEverything | src/analyzer.py:58-80 | with no patterns and no extensions, every existing path is kept |
| Order.Lower | src/analyzer.py:84 | lower-casing keeps the length and maps each character on its own, `A`-`Z` to `a`-`z` |
| Order.LexLessTotal | src/analyzer.py:84 | any two different strings are ordered one way or the other |
| Siblings.PrecedesTransitive | src/analyzer.py:84 | the sort order of siblings is transitive |
| Siblings.SortedNames | src/analyzer.py:84 | the listing holds every name of the folder exactly once; keys never decrease; no file comes before a directory |
| Render.RenderDir | src/analyzer.py:82-108 | a folder renders at least one line per kept entry |
| Render.RenderSeq | src/analyzer.py:85-107 | the remaining siblings render at least as many lines as there are siblings, and the first line reports the first of them at its own path |
| Render.Classify | src/analyzer.py:89-102 | missing exactly when the target path does not exist; modified only for a file without quick scan; for such a file identical exactly when `are_files_identical` holds |
| RenderFacts.TallyTotal | src/analyzer.py:103-104 | the three counts of a list of lines sum to its length |
| RenderFacts.DirCounts | src/analyzer.py:103-104 | the counters returned are exactly the per-status tally of the lines emitted |
| RenderFacts.DirFaithful | src/analyzer.py:89-104 | every line names the last component of its entry's path, carries the status the rules give that entry, and uses one of the two connectors |
| RenderFacts.DirPlaced | src/analyzer.py:82-107 | every line reports an entry of the folder being rendered, with its kind |
| RenderFacts.DirComplete | src/analyzer.py:85-107 | every entry of the folder being rendered, at any depth, gets a line |
| RenderFacts.DirDistinct | src/analyzer.py:85-107 | no entry gets two lines |
| Layout.DirPreorder | src/analyzer.py:104-107 | between a line and a line of one of its descendants every line is a descendant too, and no line reports an ancestor of an earlier line |
| Layout.DirConnectors | src/analyzer.py:86 | a line has `└── ` exactly when no later line reports a sibling of its entry, and `├── ` otherwise |
| Layout.DirPrefixes | src/analyzer.py:105-107 | top-level lines carry the folder's prefix; a child's prefix is its parent's plus four spaces below a last sibling and `│   ` otherwise |
| Layout.DirOrdered | src/analyzer.py:84-85 | among siblings, directories come before files and lower-cased names never decrease |
| QuickScan.ClassifyRelaxes | src/analyzer.py:96-102 | quick scan changes a status only from modified to identical, and never yields modified |
| QuickScan.QuickScanMonotone | src/analyzer.py:96-104 | under quick scan the same lines appear in the same order with the same glyphs, each status relaxed; modified counts move to identical |
| Comparator.Compare | src/analyzer.py:103-110 | each counter holds the number of lines with its status, the counters sum to the number of lines, there are at least as many lines as kept top-level entries, and an empty walk gives no line |
| Comparator.TopLevelListed | src/analyzer.py:58-107 | every entry the walk keeps at the top level gets a line at its own path |
| Comparator.Generate | src/analyzer.py:103-111 | one text line per rendered entry; the counters are the tally of the lines and sum to their number; no kept entry gives no lines and all-zero counts |
| Comparator.GenerateTreeComparison | src/analyzer.py:49-111 | the current engine's report, whose counts sum to its number of lines |
| Comparator.GenerateTreeComparisonByName | src/compass_analyzer.py:75-120 | the earlier engine's report, whose counts sum to its number of lines |
| Comparator.ListsExactlyRetained | src/analyzer.py:58-107 | an entry gets a line exactly when it exists in the base and neither it nor an ancestor is ignored, and no entry gets two lines |
| Comparator.KindsMatchBase | src/analyzer.py:92 | each line's kind is the kind of its base entry |
| Comparator.IgnoredNeverListed | src/compass_analyzer.py:79-80 | an ignored entry and everything below it get no line |
| Comparator.StatusesFollowRules | src/compass_analyzer.py:98-111 | each line names its entry and carries missing, directory-identical, quick-scan-identical, or content-equality status as the rules call for |
| Comparator.ListingShape | src/compass_analyzer.py:93-116 | the full listing is in preorder, its connectors mark last siblings, its prefixes nest from the empty prefix, and its siblings are sorted |
| Comparator.QuickScanOnlyRelaxes | src/compass_analyzer.py:105-113 | quick scan lists the same entries, only ever turning modified into identical, and reports no modified entries |

## Left out

- `load_config`, `main`, `src/compass.py` and `src/ui.py`. These cover
  configuration files, argument parsing, console colours, the progress bar,
  percentages and writing the report. They are I/O and presentation.
- SHA-256 and 8192-byte chunked reading. Digest equality is modelled as
  equality of the bytes read.
- Real `os.walk` and `os.path` behaviour:
  - Windows separators, `normcase` case folding and symbolic links are not
    modelled. Paths are sequences of components joined with `/`.
  - `os.walk` silently skips a directory it cannot list. The model treats
    every directory as listable.
  - A path below a directory without search permission cannot be stat'ed,
    so Python's `os.path.exists` and `getsize` report it as absent: the
    entry shows `❌` and `are_files_identical` returns false. The model's
    `FileTree.Lookup` has no permissions, so it finds every path that is in
    the tree.
- `FileEquality.ProbeOf`: `os.path.getsize` on a directory returns a
  file-system-dependent size. The model gives a directory size 0; opening it
  fails either way, so the answer is false regardless.
- Order.Lower: only `A`-`Z` are lower-cased. Python's `str.lower` also
  lower-cases non-ASCII letters, and some of them change length.
- Siblings.SortedNames: siblings whose keys tie after lower-casing appear in
  the order `os.walk` listed them, and that order is not modelled.
  - The model breaks such ties by code-point order of the raw names.
  - The contracts promise only the source's key order.
- Glob.Fnmatch / Glob.Tokenize: a class range with reversed bounds (such
  as `b-a`) matches no character, as in Python. Python goes further: it
  deletes such a range before it checks whether the class starts with `!`.
  So `[b-a!x]` is a negated class in Python, but matches `!` or `x` in the
  model.
- Glob.ClassPattern: covers classes without ranges. A class with a range is
  stated only for `[0-9]` (`Glob.DigitClass`).
- Render.RenderDir: its own contract bounds only the number of lines. What
  the lines report is stated by the `RenderFacts` and `Layout` lemmas about
  it.
- Render.RenderSeq: its own contract bounds only the number of lines and
  fixes the first one. That every later sibling gets a line is stated by
  `RenderFacts.SeqComplete`, and what the lines report by the other
  `RenderFacts` and `Layout` lemmas.
- A directory's status depends only on whether the target path exists, as in
  the source. The model does not check that the target entry is a directory
  either.
