/**
 Path strings as `rewrite` (src/bandersnatch/utils.py) takes them apart:
 `os.path.dirname` / `os.path.basename` (POSIX `split`), the
 `os.path.join` with which `tempfile` places its file in `dir`, and the
 temporary sibling `<dir>/.<name>.<suffix>` that `rewrite` stages into.
 */
module Paths {

  const Root: string := "/"

  /** `s.rfind('/') + 1`: the index just past the last separator, 0 if none. */
  function AfterLastSep(s: string): (i: nat)
    ensures i <= |s|
    ensures i > 0 ==> s[i - 1] == '/'
    ensures forall j :: i <= j < |s| ==> s[j] != '/'
  {
    if |s| == 0 then 0
    else if s[|s| - 1] == '/' then |s|
    else AfterLastSep(s[..|s| - 1])
  }

  predicate AllSep(s: string)
  {
    forall j :: 0 <= j < |s| ==> s[j] == '/'
  }

  /** `s.rstrip('/')`. */
  function RStripSep(s: string): (r: string)
    ensures |r| <= |s| && r == s[..|r|]
    ensures r == [] || r[|r| - 1] != '/'
    ensures forall j :: |r| <= j < |s| ==> s[j] == '/'
  {
    if |s| > 0 && s[|s| - 1] == '/' then RStripSep(s[..|s| - 1]) else s
  }

  /** POSIX `os.path.split(p)`: the head loses its trailing separators
      unless it consists of separators only. */
  function Split(p: string): (string, string)
  {
    var i := AfterLastSep(p);
    var head := p[..i];
    (if head != [] && !AllSep(head) then RStripSep(head) else head, p[i..])
  }

  /** `os.path.dirname(p)`. */
  function Dirname(p: string): string
  {
    Split(p).0
  }

  /** `os.path.basename(p)`. */
  function Basename(p: string): string
  {
    Split(p).1
  }

  /** POSIX `os.path.join(a, b)` for two components. */
  function Join(a: string, b: string): string
  {
    if |b| > 0 && b[0] == '/' then b
    else if |a| == 0 || a[|a| - 1] == '/' then a + b
    else a + "/" + b
  }

  /** The segment of `p` that starts at index `k` is `.` or `..`. */
  predicate DotSegmentAt(p: string, k: nat)
  {
    && k < |p|
    && p[k] == '.'
    && (k + 1 == |p| || p[k + 1] == '/' || (p[k + 1] == '.' && (k + 2 == |p| || p[k + 2] == '/')))
  }

  /** A fully resolved absolute path other than the root: starts with a
      separator, does not end with one, has no empty segment and no `.` or
      `..` segment, so that each file on disk has exactly one such name. */
  predicate IsNormal(p: string)
  {
    && |p| >= 2
    && p[0] == '/'
    && p[|p| - 1] != '/'
    && NoEmptySegment(p)
    && NoDotSegment(p)
  }

  /** No two adjacent separators. */
  predicate NoEmptySegment(p: string)
  {
    forall j :: 0 <= j < |p| - 1 ==> !(p[j] == '/' && p[j + 1] == '/')
  }

  /** No segment is `.` or `..`. */
  predicate NoDotSegment(p: string)
  {
    forall k {:trigger DotSegmentAt(p, k)} :: 0 < k < |p| && p[k - 1] == '/' ==> !DotSegmentAt(p, k)
  }

  /** The name of `rewrite`'s temporary file for `target`: created by
      `NamedTemporaryFile(prefix=f".{filename}.", dir=base_dir)`, which joins
      `dir` with the prefix followed by the random `suffix`. */
  function TempPath(target: string, suffix: string): string
  {
    Join(Dirname(target), "." + Basename(target) + "." + suffix)
  }

  // ---------------------------------------------------------------------
  // split and join

  /** A dirname is empty, all separators, or free of trailing separators;
      a basename holds no separator. */
  lemma SplitShape(p: string)
    ensures var d := Dirname(p); d == [] || AllSep(d) || d[|d| - 1] != '/'
    ensures '/' !in Basename(p)
  {
    var i := AfterLastSep(p);
    var n := p[i..];
    forall j | 0 <= j < |n| ensures n[j] != '/' {
      assert n[j] == p[i + j];
    }
  }

  lemma {:induction false} AfterLastSepAppend(x: string, n: string)
    requires x == [] || x[|x| - 1] == '/'
    requires '/' !in n
    ensures AfterLastSep(x + n) == |x|
    decreases |n|
  {
    if |n| == 0 {
      assert x + n == x;
    } else {
      var m := n[..|n| - 1];
      assert (x + n)[..|x + n| - 1] == x + m;
      assert (x + n)[|x + n| - 1] == n[|n| - 1];
      assert '/' !in m by {
        forall j | 0 <= j < |m| ensures m[j] != '/' {
          assert m[j] == n[j];
        }
      }
      AfterLastSepAppend(x, m);
    }
  }

  /** Splitting undoes joining whenever the directory part is itself in the
      form `dirname` produces and the name has no separator. */
  lemma SplitJoin(d: string, n: string)
    requires d == [] || AllSep(d) || d[|d| - 1] != '/'
    requires '/' !in n
    ensures Split(Join(d, n)) == (d, n)
  {
    var p := Join(d, n);
    if |d| == 0 {
      assert p == d + n;
      AfterLastSepAppend(d, n);
      assert p[..0] == [] && p[0..] == n;
    } else if d[|d| - 1] == '/' {
      assert p == d + n;
      AfterLastSepAppend(d, n);
      assert p[..|d|] == d && p[|d|..] == n;
    } else {
      var h := d + "/";
      assert p == h + n;
      AfterLastSepAppend(h, n);
      assert p[..|h|] == h && p[|h|..] == n;
      assert !AllSep(h) by {
        assert h[|d| - 1] != '/';
      }
      assert h[..|h| - 1] == d;
      assert RStripSep(h) == d;
    }
  }

  /** The temporary file sits in the target's directory and its name is the
      target's name between a leading `.` and `.` plus the suffix; hence it
      is never the target itself.  This holds for every target string. */
  lemma TempPathSibling(target: string, suffix: string)
    requires '/' !in suffix
    ensures Dirname(TempPath(target, suffix)) == Dirname(target)
    ensures Basename(TempPath(target, suffix)) == "." + Basename(target) + "." + suffix
    ensures TempPath(target, suffix) != target
  {
    SplitShape(target);
    var n := "." + Basename(target) + "." + suffix;
    assert '/' !in n by {
      forall j | 0 <= j < |n| ensures n[j] != '/' {
        if 1 <= j < 1 + |Basename(target)| {
          assert n[j] == Basename(target)[j - 1];
        } else if j >= 2 + |Basename(target)| {
          assert n[j] == suffix[j - 2 - |Basename(target)|];
        }
      }
    }
    SplitJoin(Dirname(target), n);
  }

  // ---------------------------------------------------------------------
  // Normalised absolute paths

  /** A normalised path splits into a parent that is the root or normalised
      and a non-empty name, and joining them gives the path back. */
  lemma NormalSplit(p: string)
    requires IsNormal(p)
    ensures Dirname(p) == Root || IsNormal(Dirname(p))
    ensures |Basename(p)| > 0 && '/' !in Basename(p)
    ensures Basename(p) != "." && Basename(p) != ".."
    ensures Join(Dirname(p), Basename(p)) == p
    ensures |Dirname(p)| < |p|
    ensures Dirname(p) == if AfterLastSep(p) == 1 then Root else p[..AfterLastSep(p) - 1]
  {
    var i := AfterLastSep(p);
    assert p[0] == '/';
    assert i > 0;
    assert i < |p|;
    var head := p[..i];
    var n := p[i..];
    SplitShape(p);
    assert !DotSegmentAt(p, i);
    assert n[0] == p[i];
    assert |n| >= 2 ==> n[1] == p[i + 1];
    assert n != "." && n != "..";
    if i == 1 {
      assert head == Root;
      assert AllSep(head);
      assert Dirname(p) == Root;
      assert Join(Root, n) == p;
    } else {
      assert p[i - 2] != '/' by {
        assert p[i - 1] == '/';
      }
      assert !(p[0] == '/' && p[1] == '/');
      assert i >= 3;
      assert !AllSep(head) by {
        assert head[i - 2] != '/';
      }
      var d := p[..i - 1];
      assert head[..i - 1] == d;
      assert RStripSep(head) == d;
      assert Dirname(p) == d;
      assert IsNormal(d) by {
        forall j | 0 <= j < |d| - 1 ensures !(d[j] == '/' && d[j + 1] == '/') {
          assert d[j] == p[j] && d[j + 1] == p[j + 1];
        }
        assert p[|d|] == '/';
        forall k | 0 < k < |d| && d[k - 1] == '/' ensures !DotSegmentAt(d, k) {
          DotSegmentPrefix(p, |d|, k);
        }
      }
      assert Join(d, n) == d + "/" + n;
      assert d + "/" + n == p;
    }
  }

  /** The parent of a path strictly below `f` is `f` itself or is still
      strictly below `f`. */
  lemma ParentOfDescendant(f: string, d: string)
    requires IsNormal(f) && IsNormal(d)
    requires |f| < |d| && d[..|f|] == f && d[|f|] == '/'
    ensures Dirname(d) == f || (|f| < |Dirname(d)| && Dirname(d)[..|f|] == f && Dirname(d)[|f|] == '/')
  {
    NormalSplit(d);
    var i := AfterLastSep(d);
    assert i > |f|;
    var q := d[..i - 1];
    assert Dirname(d) == q;
    if i - 1 > |f| {
      assert q[..|f|] == d[..|f|];
      assert q[|f|] == d[|f|];
    } else {
      assert q == d[..|f|];
    }
  }

  /** Cutting `p` just before one of its separators keeps exactly the dot
      segments that start before the cut. */
  lemma DotSegmentPrefix(p: string, len: nat, k: nat)
    requires len < |p| && p[len] == '/'
    requires k < len
    ensures DotSegmentAt(p[..len], k) <==> DotSegmentAt(p, k)
  {
    var d := p[..len];
    assert p[k] == d[k];
    if k + 1 < len {
      assert p[k + 1] == d[k + 1];
      if k + 2 < len {
        assert p[k + 2] == d[k + 2];
      }
    }
  }

  /** Joining the root or a normalised path with a name that has no
      separator and is neither empty, `.` nor `..` gives a normalised path. */
  lemma JoinNormal(d: string, n: string)
    requires d == Root || IsNormal(d)
    requires |n| > 0 && '/' !in n && n != "." && n != ".."
    ensures IsNormal(Join(d, n))
    ensures Dirname(Join(d, n)) == d && Basename(Join(d, n)) == n
  {
    assert AllSep(Root);
    SplitJoin(d, n);
    var h := if d == Root then d else d + "/";
    assert Join(d, n) == h + n;
    JoinNoEmptySegment(d, n);
    JoinNoDotSegment(d, n);
  }

  lemma JoinNoEmptySegment(d: string, n: string)
    requires d == Root || IsNormal(d)
    requires |n| > 0 && '/' !in n
    ensures NoEmptySegment((if d == Root then d else d + "/") + n)
  {
    var h := if d == Root then d else d + "/";
    var p := h + n;
    forall j | 0 <= j < |p| - 1 ensures !(p[j] == '/' && p[j + 1] == '/') {
      if d != Root && j + 1 < |d| {
        assert p[j] == d[j] && p[j + 1] == d[j + 1];
      } else if d != Root && j + 1 == |d| {
        assert p[j] == d[|d| - 1];
      } else if j + 1 == |h| {
        assert p[j + 1] == n[0];
      } else {
        assert p[j] == n[j - |h|];
      }
    }
  }

  lemma JoinNoDotSegment(d: string, n: string)
    requires d == Root || IsNormal(d)
    requires |n| > 0 && '/' !in n && n != "." && n != ".."
    ensures NoDotSegment((if d == Root then d else d + "/") + n)
  {
    var h := if d == Root then d else d + "/";
    var p := h + n;
    forall k | 0 < k < |p| && p[k - 1] == '/' ensures !DotSegmentAt(p, k) {
      if k < |h| - 1 {
        assert d != Root && p[..|d|] == d && p[|d|] == '/';
        assert d[k - 1] == p[k - 1];
        DotSegmentPrefix(p, |d|, k);
      }
    }
  }

  /** Moving a file into directory `d` names it `d/<basename(src)>`, a
      normalised path directly inside `d`. */
  lemma JoinBasename(d: string, src: string)
    requires IsNormal(d) && IsNormal(src)
    ensures IsNormal(Join(d, Basename(src)))
    ensures Dirname(Join(d, Basename(src))) == d
  {
    NormalSplit(src);
    JoinNormal(d, Basename(src));
  }

  /** For a normalised target the temporary path is normalised too. */
  lemma TempPathNormal(target: string, suffix: string)
    requires IsNormal(target)
    requires '/' !in suffix
    ensures IsNormal(TempPath(target, suffix))
    ensures Dirname(TempPath(target, suffix)) == Dirname(target)
  {
    NormalSplit(target);
    TempPathSibling(target, suffix);
    var n := "." + Basename(target) + "." + suffix;
    assert '/' !in n by {
      SplitShape(TempPath(target, suffix));
    }
    assert |n| >= 3;
    JoinNormal(Dirname(target), n);
  }
}
