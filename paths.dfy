/**
 * POSIX `os.path.join` and `os.path.splitext` on path strings.  Paths are
 * compared as strings; no normalisation is applied.
 */
module Paths {
  import opened Text

  type Path = string

  /** `os.path.join(a, b)`: an absolute `b` replaces `a`, otherwise a `/` is inserted if needed. */
  function Join(a: Path, b: Path): (r: Path)
    ensures StartsWith(b, "/") ==> r == b
    ensures !StartsWith(b, "/") ==> EndsWith(r, b)
  {
    if StartsWith(b, "/") then b
    else if |a| == 0 || EndsWith(a, "/") then a + b
    else a + "/" + b
  }

  /** A relative part is appended: the result starts with the path and is at most one `/` longer than the two. */
  lemma JoinPrefix(a: Path, b: Path)
    requires !StartsWith(b, "/")
    ensures StartsWith(Join(a, b), a)
    ensures |a| + |b| <= |Join(a, b)| <= |a| + 1 + |b|
  {
  }

  /** `os.path.join(a, b, c)`. */
  function Join3(a: Path, b: Path, c: Path): Path
  {
    Join(Join(a, b), c)
  }

  /** `s.rfind(c)`: index of the last occurrence of c, or -1. */
  function RFind(s: string, c: char): (i: int)
    ensures -1 <= i < |s|
    ensures i >= 0 ==> s[i] == c
    ensures forall j :: i < j < |s| ==> s[j] != c
  {
    if |s| == 0 then -1
    else if s[|s| - 1] == c then |s| - 1
    else RFind(s[..|s| - 1], c)
  }

  /** Some character of p[lo..hi] is not a dot. */
  predicate NonDotIn(p: string, lo: int, hi: int)
  {
    exists i :: lo <= i < hi && 0 <= i < |p| && p[i] != '.'
  }

  /**
   * `os.path.splitext(p)`: the extension starts at the last dot of the last
   * component, unless every character before that dot in the component is a
   * dot (so `.bashrc` has no extension).
   */
  function SplitExt(p: Path): (r: (Path, string))
    ensures r.0 + r.1 == p
    ensures r.1 == "" || (r.1[0] == '.' && '/' !in r.1 && '.' !in r.1[1..])
  {
    var sep := RFind(p, '/');
    var dot := RFind(p, '.');
    if dot > sep && NonDotIn(p, sep + 1, dot) then (p[..dot], p[dot..])
    else (p, "")
  }

  lemma {:induction false} RFindConcat(a: string, b: string, c: char)
    ensures RFind(a + b, c) == if RFind(b, c) >= 0 then |a| + RFind(b, c) else RFind(a, c)
    decreases |b|
  {
    if |b| == 0 {
      assert a + b == a;
    } else {
      var s := a + b;
      assert s[..|s| - 1] == a + b[..|b| - 1];
      RFindConcat(a, b[..|b| - 1], c);
    }
  }

  /** Joining onto a relative component appends it to `os.path.join(a, "")`. */
  lemma JoinRelative(a: Path, b: Path)
    requires !StartsWith(b, "/")
    ensures Join(a, b) == Join(a, "") + b
    ensures Join(a, "") == "" || EndsWith(Join(a, ""), "/")
  {
  }

  /** Appending text to the last component appends it to the joined path. */
  lemma JoinAppend(a: Path, b: Path, x: string)
    requires |b| > 0
    ensures Join(a, b + x) == Join(a, b) + x
  {
    assert StartsWith(b + x, "/") == StartsWith(b, "/") by {
      assert (b + x)[..1] == b[..1];
    }
    if StartsWith(b, "/") {
    } else if |a| == 0 || EndsWith(a, "/") {
      assert a + (b + x) == (a + b) + x;
    } else {
      assert a + "/" + (b + x) == (a + "/" + b) + x;
    }
  }

  /** A directory prefix ending in `/` does not change where the extension starts. */
  lemma SplitExtPrefix(pre: Path, f: Path)
    requires pre == "" || pre[|pre| - 1] == '/'
    ensures SplitExt(pre + f) == (pre + SplitExt(f).0, SplitExt(f).1)
  {
    SlashShift(pre, f);
    RFindConcat(pre, f, '.');
    if RFind(f, '.') >= 0 {
      DotShifted(pre, f);
    } else {
      assert RFind(pre, '.') < |pre|;
    }
  }

  lemma DotShifted(pre: Path, f: Path)
    requires RFind(f, '.') >= 0
    requires RFind(pre + f, '/') == |pre| + RFind(f, '/')
    requires RFind(pre + f, '.') == |pre| + RFind(f, '.')
    ensures SplitExt(pre + f) == (pre + SplitExt(f).0, SplitExt(f).1)
  {
    var s := pre + f;
    var sf, df := RFind(f, '/'), RFind(f, '.');
    NonDotShift(pre, f, sf + 1, df);
    if df > sf && NonDotIn(f, sf + 1, df) {
      assert s[..|pre| + df] == pre + f[..df];
      assert s[|pre| + df..] == f[df..];
    }
  }

  lemma SlashShift(pre: Path, f: Path)
    requires pre == "" || pre[|pre| - 1] == '/'
    ensures RFind(pre + f, '/') == |pre| + RFind(f, '/')
  {
    RFindConcat(pre, f, '/');
    if RFind(f, '/') < 0 && |pre| > 0 {
      assert RFind(pre, '/') == |pre| - 1;
    }
  }

  lemma NonDotShift(pre: string, f: string, lo: int, hi: int)
    requires 0 <= lo && hi <= |f|
    ensures NonDotIn(pre + f, |pre| + lo, |pre| + hi) <==> NonDotIn(f, lo, hi)
  {
    var s := pre + f;
    if NonDotIn(f, lo, hi) {
      var i :| lo <= i < hi && 0 <= i < |f| && f[i] != '.';
      assert s[|pre| + i] == f[i];
    }
    if NonDotIn(s, |pre| + lo, |pre| + hi) {
      var i :| |pre| + lo <= i < |pre| + hi && 0 <= i < |s| && s[i] != '.';
      assert f[i - |pre|] == s[i];
    }
  }

  /**
   * Splitting the extension off a joined path is joining the file name
   * without its extension: `splitext(join(d, f)) == (join(d, root), ext)`
   * where `(root, ext) == splitext(f)`.
   */
  lemma SplitExtJoin(d: Path, f: Path)
    ensures var (root, ext) := SplitExt(f);
      SplitExt(Join(d, f)) == (Join(d, root), ext)
  {
    var (root, ext) := SplitExt(f);
    if StartsWith(f, "/") {
      assert f[0] == '/';
      assert RFind(f, '/') >= 0;
      assert |root| > 0 && root[0] == f[0] by {
        if |root| < |f| {
          assert root == f[..RFind(f, '.')];
        }
      }
      assert StartsWith(root, "/");
    } else {
      assert !StartsWith(root, "/") by {
        if |root| > 0 {
          assert root[0] == (root + ext)[0] == f[0];
        }
      }
      JoinRelative(d, f);
      JoinRelative(d, root);
      SplitExtPrefix(Join(d, ""), f);
    }
  }

  /**
   * Inserting a non-empty text that does not start with `/` between the
   * name and the extension of a file name changes the joined path.
   */
  lemma InsertBeforeExtension(dir: Path, filename: Path, mid: string)
    requires |mid| > 0 && mid[0] != '/'
    ensures var (base, ext) := SplitExt(filename);
      Join(dir, base + mid + ext) != Join(dir, filename)
  {
    var (base, ext) := SplitExt(filename);
    var longer := base + mid + ext;
    assert |longer| > |filename|;
    if StartsWith(filename, "/") {
      assert |base| > 0;
      assert longer[0] == base[0] == filename[0];
      assert StartsWith(longer, "/");
    } else {
      assert !StartsWith(longer, "/") by {
        if |base| > 0 {
          assert longer[0] == base[0] == filename[0];
        } else {
          assert longer[0] == mid[0];
        }
      }
      JoinRelative(dir, longer);
      JoinRelative(dir, filename);
    }
  }
}
