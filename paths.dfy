/**
 * The string operations the extractor applies to paths: str.endswith,
 * and posixpath's basename, splitext and join, with '/' as the separator
 * and '.' as the extension separator.
 */
module Paths {
  const SketchSuffix: string := ".sketch"

  /** str.endswith. */
  predicate EndsWith(s: string, suffix: string) {
    |suffix| <= |s| && s[|s| - |suffix|..] == suffix
  }

  /** No character of s is c. */
  predicate Lacks(s: string, c: char) {
    forall k :: 0 <= k < |s| ==> s[k] != c
  }

  /** str.rfind for one character: the last index holding c, or -1 when there is none. */
  function RFind(s: string, c: char): (i: int)
    ensures -1 <= i < |s|
    ensures 0 <= i ==> s[i] == c
    ensures forall k :: i < k < |s| ==> s[k] != c
  {
    if s == [] then -1
    else if s[|s| - 1] == c then |s| - 1
    else RFind(s[..|s| - 1], c)
  }

  /** os.path.basename: everything after the last '/'. */
  function Basename(p: string): (b: string)
    ensures Lacks(b, '/')
    ensures EndsWith(p, b)
    ensures b == p || p[|p| - |b| - 1] == '/'
  {
    var i := RFind(p, '/');
    TailLacks(p, '/', i);
    p[i + 1..]
  }

  /** The text after position i lacks c when no later position holds c. */
  lemma TailLacks(s: string, c: char, i: int)
    requires -1 <= i < |s|
    requires forall k :: i < k < |s| ==> s[k] != c
    ensures Lacks(s[i + 1..], c)
  {
    var t := s[i + 1..];
    forall k | 0 <= k < |t| ensures t[k] != c {
      assert t[k] == s[i + 1 + k];
    }
  }

  predicate AllDots(s: string) {
    forall i :: 0 <= i < |s| ==> s[i] == '.'
  }

  /**
   * os.path.splitext: the extension is the text from the last '.' of the
   * last path component, unless everything before that dot in the
   * component is a dot too (a leading-dot name such as ".sketch" has no
   * extension).
   */
  function SplitExt(p: string): (r: (string, string))
    ensures r.0 + r.1 == p
    ensures r.1 == [] || (r.1[0] == '.' && Lacks(r.1[1..], '.') && Lacks(r.1, '/'))
  {
    var sep := RFind(p, '/');
    var dot := RFind(p, '.');
    if dot > sep && !AllDots(p[sep + 1..dot]) then
      ExtensionShape(p, sep, dot);
      (p[..dot], p[dot..])
    else
      (p, [])
  }

  /** Cut at the last '.', beyond the last '/', the tail is an extension. */
  lemma ExtensionShape(p: string, sep: int, dot: int)
    requires sep == RFind(p, '/') && dot == RFind(p, '.') && sep < dot
    ensures p[..dot] + p[dot..] == p
    ensures p[dot..][0] == '.' && Lacks(p[dot..][1..], '.') && Lacks(p[dot..], '/')
  {
    assert p[dot..][1..] == p[dot + 1..];
    TailLacks(p, '.', dot);
    TailLacks(p, '/', dot - 1);
  }

  /** os.path.splitext(os.path.basename(p))[0]: the stem the output files are named after. */
  function Stem(p: string): (r: string)
    ensures Lacks(r, '/')
  {
    var b := Basename(p);
    var r := SplitExt(b).0;
    PrefixLacks(r, SplitExt(b).1, '/');
    r
  }

  /** A part of a text free of c is free of c. */
  lemma PrefixLacks(r: string, t: string, c: char)
    requires Lacks(r + t, c)
    ensures Lacks(r, c)
  {
    var s := r + t;
    forall k | 0 <= k < |r| ensures r[k] != c {
      assert r[k] == s[k];
    }
  }

  /** A suffix free of '/' survives taking the basename. */
  lemma BasenameKeepsSuffix(p: string, suffix: string)
    requires EndsWith(p, suffix) && Lacks(suffix, '/')
    ensures EndsWith(Basename(p), suffix)
  {
    var t := |p| - |suffix|;
    var tail := p[t..];
    forall k | t <= k < |p| ensures p[k] != '/' {
      assert tail[k - t] == p[k];
    }
    TailKeepsSuffix(p, suffix, RFind(p, '/'));
  }

  /** Dropping a prefix that stops short of the suffix keeps the suffix. */
  lemma TailKeepsSuffix(p: string, suffix: string, i: int)
    requires EndsWith(p, suffix)
    requires -1 <= i < |p| - |suffix|
    ensures EndsWith(p[i + 1..], suffix)
  {
    var t := |p| - |suffix|;
    assert p[i + 1..][t - (i + 1)..] == p[t..];
  }

  /** In a name ending in ".sketch" the seventh character from the end is the only dot among the last seven. */
  lemma SketchSuffixDots(b: string)
    requires EndsWith(b, SketchSuffix)
    ensures b[|b| - 7] == '.'
    ensures forall k :: |b| - 6 <= k < |b| ==> b[k] != '.'
  {
    var m := |b|;
    var tail := b[m - 7..];
    assert tail == SketchSuffix;
    forall k | m - 7 <= k < m ensures b[k] == SketchSuffix[k - (m - 7)] {
      assert b[k] == tail[k - (m - 7)];
    }
  }

  /**
   * For a path ending in ".sketch" the stem is its last component without
   * that suffix; when only dots precede the suffix there is no extension
   * and the stem is the whole component.
   */
  lemma StemOfSketchPath(p: string)
    requires EndsWith(p, SketchSuffix)
    ensures var b := Basename(p);
      && EndsWith(b, SketchSuffix)
      && Stem(p) == if AllDots(b[..|b| - 7]) then b else b[..|b| - 7]
  {
    var b := Basename(p);
    BasenameKeepsSuffix(p, SketchSuffix);
    SketchSuffixDots(b);
    assert RFind(b, '.') == |b| - 7;
    assert RFind(b, '/') == -1;
    assert b[0..|b| - 7] == b[..|b| - 7];
  }

  /** os.path.join(folder, name). */
  function Join(folder: string, name: string): (r: string)
    ensures EndsWith(r, name)
  {
    if |name| > 0 && name[0] == '/' then name
    else if folder == [] || folder[|folder| - 1] == '/' then folder + name
    else folder + "/" + name
  }
}
