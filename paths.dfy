/**
 * The parts of a Unix path that the loader reads: `Path::file_name`,
 * `Path::file_stem` and `Path::extension`, on the path's raw bytes.
 * A path's last component is its file name, once trailing separators and
 * `.` components are ignored; the stem and the extension are that name
 * split at its last dot, a leading dot not counting as a split.
 */
module Paths {
  import opened Wrappers
  import opened Utf8Codec

  const Slash: byte := 0x2F
  const Dot: byte := 0x2E

  /**
   * `p` split at its last `sep`: the bytes before it and the bytes after it;
   * without any `sep`, no prefix and the whole of `p`.
   */
  function SplitLast(p: Bytes, sep: byte): (r: (Option<Bytes>, Bytes))
    ensures sep !in r.1
    ensures r.0.None? ==> r.1 == p
    ensures r.0.Some? ==> p == r.0.value + [sep] + r.1
    decreases |p|
  {
    if p == [] then (None, [])
    else if p[|p| - 1] == sep then (Some(p[..|p| - 1]), [])
    else
      var (d, l) := SplitLast(p[..|p| - 1], sep);
      (d, l + [p[|p| - 1]])
  }

  /** A component that names a file: not empty, no separator, neither `.` nor `..`. */
  predicate IsNormalComponent(n: Bytes) {
    n != [] && Slash !in n && n != [Dot] && n != [Dot, Dot]
  }

  /** The final component of `p`, or None when `p` is empty, a root, or ends in `..`. */
  function FileName(p: Bytes): (r: Option<Bytes>)
    ensures r.Some? ==> IsNormalComponent(r.value)
    decreases |p|
  {
    var (dir, last) := SplitLast(p, Slash);
    if last == [] || last == [Dot] then
      match dir
      case None => None
      case Some(d) => FileName(d)
    else if last == [Dot, Dot] then None
    else Some(last)
  }

  /**
   * A file name split at its last dot into what comes before and after it,
   * as the standard library does: `..` and names whose only dot leads are
   * all "before"; a name without a dot is all "after".
   */
  function SplitAtDot(file: Bytes): (Option<Bytes>, Option<Bytes>) {
    if file == [Dot, Dot] then (Some(file), None)
    else
      match SplitLast(file, Dot)
      case (None, after) => (None, Some(after))
      case (Some(before), after) =>
        if before == [] then (Some(file), None) else (Some(before), Some(after))
  }

  /**
   * The file name without its extension: there is a stem exactly when there
   * is a file name, and it is a non-empty leading part of that name.
   */
  function FileStem(p: Bytes): (r: Option<Bytes>)
    ensures r.Some? <==> FileName(p).Some?
    ensures r.Some? ==> r.value != [] && r.value <= FileName(p).value
  {
    match FileName(p)
    case None => None
    case Some(f) =>
      var (before, after) := SplitAtDot(f);
      if before.Some? then before else after
  }

  /**
   * What follows the last dot of the file name, if that dot does not lead the
   * name. Stem and extension partition the file name: with an extension the
   * name is stem, dot, extension, the extension dot-free; without one the stem
   * is the whole name.
   */
  function Extension(p: Bytes): (r: Option<Bytes>)
    ensures r.Some? ==>
              Dot !in r.value && FileStem(p).Some?
              && FileName(p) == Some(FileStem(p).value + [Dot] + r.value)
    ensures r.None? && FileName(p).Some? ==> FileStem(p) == FileName(p)
  {
    match FileName(p)
    case None => None
    case Some(f) =>
      var (before, after) := SplitAtDot(f);
      if before.Some? then after else None
  }

  /** Splitting a prefix, a separator and a separator-free tail recovers exactly those two parts. */
  lemma {:induction false} SplitLastOf(d: Bytes, sep: byte, l: Bytes)
    requires sep !in l
    ensures SplitLast(l, sep) == (None, l)
    ensures SplitLast(d + [sep] + l, sep) == (Some(d), l)
    decreases |l|
  {
    if l != [] {
      var init := l[..|l| - 1];
      SplitLastOf(d, sep, init);
      assert l[..|l| - 1] == init;
      assert (d + [sep] + l)[..|d + [sep] + l| - 1] == d + [sep] + init;
      assert init + [l[|l| - 1]] == l;
    } else {
      assert d + [sep] + l == d + [sep];
      assert (d + [sep])[..|d + [sep]| - 1] == d;
    }
  }

  /** A name appended to any directory, or standing alone, is the file name of the result. */
  lemma FileNameOfJoin(dir: Bytes, n: Bytes)
    requires IsNormalComponent(n)
    ensures FileName(n) == Some(n)
    ensures FileName(dir + [Slash] + n) == Some(n)
  {
    SplitLastOf(dir, Slash, n);
  }

  /** Trailing separators and trailing `.` components do not change the file name. */
  lemma FileNameIgnoresTrailing(p: Bytes)
    ensures FileName(p + [Slash]) == FileName(p)
    ensures FileName(p + [Slash, Dot]) == FileName(p)
  {
    SplitLastOf(p, Slash, []);
    SplitLastOf(p, Slash, [Dot]);
    assert p + [Slash, Dot] == p + [Slash] + [Dot];
  }

  /**
   * Where there is no file name: the empty path, `.`, the root, `..`, and any
   * path whose last component (trailing `/` and `.` aside) is `..`.
   */
  lemma NoFileName(p: Bytes)
    ensures FileName([]) == None
    ensures FileName([Dot]) == None
    ensures FileName([Slash]) == None
    ensures FileName([Dot, Dot]) == None
    ensures FileName(p + [Slash, Dot, Dot]) == None
  {
    SplitLastOf([], Slash, []);
    SplitLastOf([], Slash, [Dot]);
    SplitLastOf([], Slash, [Dot, Dot]);
    SplitLastOf(p, Slash, [Dot, Dot]);
    assert p + [Slash, Dot, Dot] == p + [Slash] + [Dot, Dot];
  }

  /** A file name built from a non-empty stem and a dot-free extension splits back into them. */
  lemma StemExtensionOf(p: Bytes, stem: Bytes, ext: Bytes)
    requires FileName(p) == Some(stem + [Dot] + ext)
    requires stem != [] && Dot !in ext
    ensures Extension(p) == Some(ext)
    ensures FileStem(p) == Some(stem)
  {
    SplitLastOf(stem, Dot, ext);
  }

  /** A file name without any dot has no extension and is its own stem. */
  lemma NoDotNoExtension(p: Bytes)
    requires FileName(p).Some? && Dot !in FileName(p).value
    ensures Extension(p).None?
    ensures FileStem(p) == FileName(p)
  {
    SplitLastOf([], Dot, FileName(p).value);
  }
}
