/**
 * File-name extensions as `os.path.splitext` computes them on Windows
 * (`ntpath`): both `\` and `/` separate directories, the extension starts at
 * the last dot of the last component, and leading dots of a component (as in
 * `.profile`) do not start an extension.
 */
module Paths {

  /** Index of the last occurrence of `c` in `s`, or -1 (Python's `str.rfind`). */
  function LastIndexOf(s: string, c: char): (k: int)
    ensures -1 <= k < |s|
    ensures k >= 0 ==> s[k] == c
    ensures forall i :: k < i < |s| ==> s[i] != c
  {
    if s == [] then -1
    else if s[|s| - 1] == c then |s| - 1
    else LastIndexOf(s[..|s| - 1], c)
  }

  /** Some character strictly between `lo` and `hi` is not a dot. */
  predicate HasNonDot(p: string, lo: int, hi: int)
    requires -1 <= lo && hi <= |p|
  {
    exists i :: lo < i < hi && p[i] != '.'
  }

  /** A directory separator. */
  predicate IsSep(c: char) {
    c == '\\' || c == '/'
  }

  /**
   * Position `d` of `p` starts an extension: a dot with no dot and no
   * separator after it, and some non-dot before it in the same component.
   */
  predicate ExtensionAt(p: string, d: int) {
    && 0 <= d < |p| && p[d] == '.'
    && (forall k :: d < k < |p| ==> NameChar(p[k]))
    && exists i :: 0 <= i < d && p[i] != '.' && forall k :: i <= k < d ==> !IsSep(p[k])
  }

  /**
   * `ntpath.splitext(p)`: the root and the extension. The extension starts
   * at the position that starts an extension, and is empty when no position does.
   */
  function SplitExt(p: string): (r: (string, string))
    ensures r.0 + r.1 == p
    ensures r.1 != [] ==> ExtensionAt(p, |r.0|)
    ensures r.1 == [] ==> forall d :: 0 <= d < |p| ==> !ExtensionAt(p, d)
  {
    var bs := LastIndexOf(p, '\\');
    var fs := LastIndexOf(p, '/');
    var sep := if bs < fs then fs else bs;
    var dot := LastIndexOf(p, '.');
    if dot > sep && HasNonDot(p, sep, dot) then
      ExtensionFound(p, bs, fs, sep, dot);
      (p[..dot], p[dot..])
    else
      ExtensionAtLastDot(p, bs, fs, sep, dot);
      (p, "")
  }

  lemma ExtensionFound(p: string, bs: int, fs: int, sep: int, dot: int)
    requires bs == LastIndexOf(p, '\\') && fs == LastIndexOf(p, '/') && dot == LastIndexOf(p, '.')
    requires sep == (if bs < fs then fs else bs)
    requires dot > sep && HasNonDot(p, sep, dot)
    ensures ExtensionAt(p, dot)
  {
    var i :| sep < i < dot && p[i] != '.';
    assert forall k :: i <= k < |p| ==> !IsSep(p[k]);
  }

  /** A position that starts an extension is the last dot, after the last separator, with a non-dot between them. */
  lemma ExtensionAtLastDot(p: string, bs: int, fs: int, sep: int, dot: int)
    requires bs == LastIndexOf(p, '\\') && fs == LastIndexOf(p, '/') && dot == LastIndexOf(p, '.')
    requires sep == (if bs < fs then fs else bs)
    ensures (exists d :: ExtensionAt(p, d)) ==> dot > sep && HasNonDot(p, sep, dot)
  {
    if d :| ExtensionAt(p, d) {
      assert d <= dot;
      assert dot <= d;
      assert bs < d && fs < d;
      var i :| 0 <= i < d && p[i] != '.' && forall k :: i <= k < d ==> !IsSep(p[k]);
      assert sep < i;
      assert HasNonDot(p, sep, dot);
    }
  }

  /** `os.path.splitext(p)[1]` */
  function Extension(p: string): string {
    SplitExt(p).1
  }

  /** A character that can end a file name: not a dot and not a separator. */
  predicate NameChar(c: char) {
    c != '.' && c != '\\' && c != '/'
  }

  /** A dot followed by characters none of which is a dot or a separator. */
  predicate IsExtension(ext: string) {
    |ext| >= 1 && ext[0] == '.' && forall i :: 1 <= i < |ext| ==> NameChar(ext[i])
  }

  lemma {:induction false} LastIndexOfAppend(a: string, b: string, c: char)
    requires c !in b
    ensures LastIndexOf(a + b, c) == LastIndexOf(a, c)
    decreases |b|
  {
    if b != [] {
      var ab := a + b;
      assert ab[..|ab| - 1] == a + b[..|b| - 1];
      assert ab[|ab| - 1] == b[|b| - 1];
      LastIndexOfAppend(a, b[..|b| - 1], c);
    } else {
      assert a + b == a;
    }
  }

  /**
   * Splitting a path that ends in an extension gives back that extension, as
   * long as the name before it ends in an ordinary character.
   */
  lemma SplitExtOfJoin(stem: string, ext: string)
    requires stem != [] && NameChar(stem[|stem| - 1])
    requires IsExtension(ext)
    ensures SplitExt(stem + ext) == (stem, ext)
  {
    var p := stem + ext;
    var tail := ext[1..];
    assert ext == ['.'] + tail;
    assert p == (stem + ['.']) + tail;
    LastIndexOfAppend(stem + ['.'], tail, '.');
    LastIndexOfAppend(stem + ['.'], tail, '\\');
    LastIndexOfAppend(stem + ['.'], tail, '/');
    var s1 := stem + ['.'];
    assert s1[..|s1| - 1] == stem;
    assert LastIndexOf(s1, '\\') == LastIndexOf(stem, '\\');
    assert LastIndexOf(s1, '/') == LastIndexOf(stem, '/');
    assert LastIndexOf(p, '.') == |stem|;
    assert LastIndexOf(stem, '\\') < |stem| - 1;
    assert LastIndexOf(stem, '/') < |stem| - 1;
    assert p[|stem| - 1] == stem[|stem| - 1];
    assert p[..|stem|] == stem;
    assert p[|stem|..] == ext;
  }
}
