/** The parts of Python's `os.path` (POSIX flavour) and `str.split` that the
    naming code uses: `splitext`, `basename`, `dirname`/`join` and splitting
    a filename on '_'. */
module Paths {

  /** `s.rfind(c)`: the last index of `c`, or -1. */
  function RFind(s: string, c: char): (i: int)
    ensures -1 <= i < |s|
    ensures i >= 0 ==> s[i] == c
    ensures forall k :: i < k < |s| ==> s[k] != c
  {
    if s == [] then -1
    else if s[|s| - 1] == c then |s| - 1
    else RFind(s[..|s| - 1], c)
  }

  /** `s.find(c)`: the first index of `c`, or -1. */
  function Find(s: string, c: char): (i: int)
    ensures -1 <= i < |s|
    ensures i >= 0 ==> s[i] == c
    ensures forall k :: 0 <= k < |s| && (i < 0 || k < i) ==> s[k] != c
  {
    if s == [] then -1
    else if s[0] == c then 0
    else
      var j := Find(s[1..], c);
      if j < 0 then -1 else j + 1
  }

  /** What `os.path.splitext` may return as an extension: nothing, or a dot
      followed by characters that are neither dots nor separators. */
  predicate IsExtension(e: string) {
    e == [] || (e[0] == '.' && forall k :: 1 <= k < |e| ==> e[k] != '.' && e[k] != '/')
  }

  /** Some character in `p[lo..hi]` is not a dot. */
  predicate SomeNonDot(p: string, lo: int, hi: int)
    requires 0 <= lo && hi <= |p|
  {
    exists k :: lo <= k < hi && p[k] != '.'
  }

  /** `os.path.splitext(p)`: the extension starts at the last dot of the last
      path component, unless everything before that dot in the component
      is dots (".bashrc" has no extension). */
  function SplitExt(p: string): (r: (string, string))
    ensures r.0 + r.1 == p
    ensures IsExtension(r.1)
  {
    var sep := RFind(p, '/');
    var dot := RFind(p, '.');
    if dot > sep && SomeNonDot(p, sep + 1, dot) then (p[..dot], p[dot..]) else (p, [])
  }

  /** `os.path.basename(p)`. */
  function Basename(p: string): (r: string)
    ensures forall k :: 0 <= k < |r| ==> r[k] != '/'
  {
    p[RFind(p, '/') + 1..]
  }

  /** The directory part of `p` with its trailing separator, so that
      `Head(p) + n` is `os.path.join(os.path.dirname(p), n)`. */
  function Head(p: string): string {
    p[..RFind(p, '/') + 1]
  }

  /** The path `n` names in the directory of `p`. */
  function ReplaceBasename(p: string, n: string): string {
    Head(p) + n
  }

  /** `s.split(c)`. */
  function SplitOn(s: string, c: char): (parts: seq<string>)
    ensures |parts| >= 1
    decreases |s|
  {
    var i := Find(s, c);
    if i < 0 then [s] else [s[..i]] + SplitOn(s[i + 1..], c)
  }

  /** A plain name followed by an extension splits back into the two. */
  lemma SplitExtOfPlain(base: string, ext: string)
    requires base != [] && base[0] != '.' && '/' !in base && '.' !in base
    requires IsExtension(ext) && '/' !in ext
    ensures SplitExt(base + ext) == (base, ext)
  {
    var p := base + ext;
    var sep := RFind(p, '/');
    assert sep == -1;
    var dot := RFind(p, '.');
    if ext == [] {
      assert p == base;
      assert dot == -1;
    } else {
      assert p[|base|] == '.';
      assert dot == |base|;
      assert p[0] == base[0];
      assert SomeNonDot(p, sep + 1, dot);
      assert p[..dot] == base && p[dot..] == ext;
    }
  }

  /** Naming a file in the directory of `p` gives a path whose base name is
      that name and whose directory is that of `p`. */
  lemma ReplaceBasenameParts(p: string, n: string)
    requires '/' !in n
    ensures Basename(ReplaceBasename(p, n)) == n
    ensures Head(ReplaceBasename(p, n)) == Head(p)
  {
    var h := Head(p);
    var q := h + n;
    var i := RFind(p, '/');
    assert |h| == i + 1;
    if i >= 0 {
      assert q[i] == '/';
    }
    assert RFind(q, '/') == i;
  }

  /** Splitting on `c` at a prefix that does not contain `c`. */
  lemma SplitOnCons(a: string, c: char, b: string)
    requires c !in a
    ensures SplitOn(a + [c] + b, c) == [a] + SplitOn(b, c)
  {
    var s := a + [c] + b;
    assert s[|a|] == c;
    assert Find(s, c) == |a|;
    assert s[..|a|] == a && s[|a| + 1..] == b;
  }

  lemma SplitOnNone(a: string, c: char)
    requires c !in a
    ensures SplitOn(a, c) == [a]
  {
  }
}
