/**
 * `are_files_identical`: compare sizes first, then SHA-256 digests of the
 * two contents; every `FileNotFoundError` / `OSError` yields false.
 * SHA-256 is taken to be collision-free, so equal digests mean equal
 * bytes; the 8192-byte chunked reading only bounds memory and does not
 * change what is compared.
 */
module FileEquality {

  import opened Wrappers
  import opened FileTree

  /**
   * What the operating system reports for a path: nothing (`stat` fails),
   * or a size together with the bytes, the latter absent when `open` or
   * `read` fails.
   */
  datatype Probe = NotFound | Found(size: nat, bytes: Option<seq<bv8>>)

  /** The reported size is the length of the bytes that can be read. */
  predicate Consistent(p: Probe)
  {
    p.Found? && p.bytes.Some? ==> |p.bytes.value| == p.size
  }

  /**
   * What probing an entry of a tree reports. Opening a directory for
   * reading fails, so a directory has no bytes; the size it reports plays
   * no part in any outcome (see `UnopenableNeverIdentical`) and is fixed
   * at 0.
   */
  function ProbeOf(entry: Option<Node>): (p: Probe)
    ensures Consistent(p)
    ensures p.NotFound? <==> entry.None?
    ensures p.Found? && p.bytes.Some? <==> entry.Some? && entry.value.File? && entry.value.readable
    ensures p.Found? && p.bytes.Some? ==> p.bytes.value == entry.value.content
  {
    match entry
    case None => NotFound
    case Some(Dir(_)) => Found(0, None)
    case Some(File(content, readable)) => Found(|content|, if readable then Some(content) else None)
  }

  /** The branch of `are_files_identical` that decides the answer. */
  datatype Verdict = StatFailed | SizesDiffer | ReadFailed | Digests(equal: bool)

  function Check(a: Probe, b: Probe): (v: Verdict)
    ensures v == StatFailed <==> a.NotFound? || b.NotFound?
    ensures v == SizesDiffer <==> a.Found? && b.Found? && a.size != b.size
    ensures v == ReadFailed <==> a.Found? && b.Found? && a.size == b.size && (a.bytes.None? || b.bytes.None?)
    ensures v.Digests? <==> a.Found? && b.Found? && a.size == b.size && a.bytes.Some? && b.bytes.Some?
    ensures v.Digests? ==> (v.equal <==> a.bytes.value == b.bytes.value)
  {
    if a.NotFound? || b.NotFound? then StatFailed
    else if a.size != b.size then SizesDiffer
    else if a.bytes.None? || b.bytes.None? then ReadFailed
    else Digests(a.bytes.value == b.bytes.value)
  }

  /** `are_files_identical(path1, path2)` on what the two paths report. */
  function AreFilesIdentical(a: Probe, b: Probe): (same: bool)
    ensures same ==> a.Found? && b.Found? && a.bytes.Some? && b.bytes.Some? && a.bytes.value == b.bytes.value
    ensures Consistent(a) && Consistent(b) && a.Found? && b.Found? && a.bytes.Some? && b.bytes.Some?
            ==> (same <==> a.bytes.value == b.bytes.value)
  {
    Check(a, b) == Digests(true)
  }

  /** Files of different sizes are never identical, and their contents are never digested. */
  lemma SizeShortCircuit(a: Probe, b: Probe)
    requires a.Found? && b.Found? && a.size != b.size
    ensures Check(a, b) == SizesDiffer
    ensures !AreFilesIdentical(a, b)
  {
  }

  /** An error at any step yields false rather than an exception. */
  lemma UnopenableNeverIdentical(a: Probe, b: Probe)
    requires a.NotFound? || b.NotFound? || (a.Found? && a.bytes.None?) || (b.Found? && b.bytes.None?)
    ensures !AreFilesIdentical(a, b)
    ensures !Check(a, b).Digests?
  {
  }

  /** The answer does not depend on the order of the two paths. */
  lemma Symmetric(a: Probe, b: Probe)
    ensures AreFilesIdentical(a, b) == AreFilesIdentical(b, a)
  {
  }

  /** For two readable files in a tree the answer is exactly byte equality. */
  lemma ReadableFilesIdenticalIffSameBytes(c1: seq<bv8>, c2: seq<bv8>)
    ensures AreFilesIdentical(ProbeOf(Some(File(c1, true))), ProbeOf(Some(File(c2, true)))) <==> c1 == c2
  {
  }
}
