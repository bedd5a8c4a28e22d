/**
  Python's `posixpath.join`, `dirname` and `basename`, the three path
  operations the content resolver composes.
*/
module PosixPath {
  import opened Text

  /** `os.path.join(a, b)`: an absolute `b` replaces `a`; otherwise one `/`
      is put between them unless `a` is empty or already ends with one. */
  function Join(a: string, b: string): string {
    if StartsWith(b, "/") then b
    else if a == "" || EndsWith(a, "/") then a + b
    else a + "/" + b
  }

  /** `p.rfind('/') + 1`: where the last path component starts. */
  function SplitPoint(p: string): (i: nat)
    ensures i <= |p|
    ensures i > 0 ==> p[i - 1] == '/'
    ensures forall j :: i <= j < |p| ==> p[j] != '/'
  {
    if p == [] then 0
    else if p[|p| - 1] == '/' then |p|
    else SplitPoint(p[..|p| - 1])
  }

  predicate AllSlashes(s: string) {
    forall i :: 0 <= i < |s| ==> s[i] == '/'
  }

  /** `s.rstrip('/')` */
  function StripTrailingSlashes(s: string): (r: string)
    ensures |r| <= |s| && r == s[..|r|]
    ensures r != [] ==> r[|r| - 1] != '/'
    ensures forall i :: |r| <= i < |s| ==> s[i] == '/'
  {
    if s != [] && s[|s| - 1] == '/' then StripTrailingSlashes(s[..|s| - 1]) else s
  }

  /** `os.path.basename(p)`: everything after the last `/`. */
  function Basename(p: string): string {
    p[SplitPoint(p)..]
  }

  /** `os.path.dirname(p)`: everything up to the last `/`, with trailing
      slashes removed unless the head consists of slashes only. */
  function Dirname(p: string): string {
    var head := p[..SplitPoint(p)];
    if head != "" && !AllSlashes(head) then StripTrailingSlashes(head) else head
  }

  /** No empty path component in the middle of `p`. */
  predicate NoDoubleSlash(p: string) {
    forall i :: 0 <= i < |p| - 1 ==> !(p[i] == '/' && p[i + 1] == '/')
  }

  /** The directory part of a path whose last `/` sits at `i - 1`, when that
      slash does not follow another one. */
  lemma DirnameAtSlash(p: string, i: nat)
    requires 1 <= i <= |p| && i == SplitPoint(p)
    requires i >= 2 ==> p[i - 2] != '/'
    ensures i == 1 ==> Dirname(p) == "/"
    ensures i >= 2 ==> Dirname(p) == p[..i - 1]
  {
    var head := p[..i];
    if i == 1 {
      assert head == "/";
      assert AllSlashes(head);
    } else {
      var d := p[..i - 1];
      assert head[..|head| - 1] == d;
      assert d[|d| - 1] != '/';
      assert StripTrailingSlashes(d) == d;
      assert StripTrailingSlashes(head) == d;
      assert !AllSlashes(head) by { assert head[i - 2] != '/'; }
    }
  }

  /** Rejoining the directory and the base name of a path without `//` and
      without a trailing `/` gives the path back. */
  lemma RejoinDirBase(p: string)
    requires p != [] && p[|p| - 1] != '/'
    requires NoDoubleSlash(p)
    ensures Basename(p) != ""
    ensures Join(Dirname(p), Basename(p)) == p
  {
    var i := SplitPoint(p);
    var name := p[i..];
    assert name != [] && name[0] != '/';
    assert !StartsWith(name, "/");
    if i == 0 {
      assert Dirname(p) == "";
      assert p == name;
    } else {
      assert i >= 2 ==> !(p[i - 1] == '/' && p[i - 2] == '/');
      DirnameAtSlash(p, i);
      var d := Dirname(p);
      assert p == p[..i] + name;
      if i == 1 {
        assert EndsWith(d, "/");
        assert p[..i] == "/";
      } else {
        assert d == p[..i - 1];
        assert d[|d| - 1] != '/';
        assert !EndsWith(d, "/");
        assert p[..i] == d + "/";
      }
    }
  }

  /** Gluing two paths without `//` keeps that property unless the seam
      itself is a `//`. */
  lemma NoDoubleSlashConcat(a: string, b: string)
    requires NoDoubleSlash(a) && NoDoubleSlash(b)
    requires a != [] && b != [] ==> !(a[|a| - 1] == '/' && b[0] == '/')
    ensures NoDoubleSlash(a + b)
  {
    var p := a + b;
    forall i | 0 <= i < |p| - 1
      ensures !(p[i] == '/' && p[i + 1] == '/')
    {
      if i < |a| - 1 {
        assert p[i] == a[i] && p[i + 1] == a[i + 1];
      } else if i == |a| - 1 {
        assert p[i] == a[|a| - 1] && p[i + 1] == b[0];
      } else {
        assert p[i] == b[i - |a|] && p[i + 1] == b[i - |a| + 1];
      }
    }
  }

  /** A path that ends in exactly one `/` has no base name, and its directory
      is the path without that slash. */
  lemma DirOfTrailingSlash(q: string)
    requires q != [] && q[|q| - 1] != '/'
    ensures Basename(q + "/") == ""
    ensures Dirname(q + "/") == q
  {
    var p := q + "/";
    assert SplitPoint(p) == |p|;
    assert p[..|p|] == p;
    assert !AllSlashes(p) by { assert p[|q| - 1] != '/'; }
    assert StripTrailingSlashes(p) == q by { assert p[..|p| - 1] == q; }
  }
}
