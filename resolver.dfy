/**
  `BaseView.get_file_path`: the request URL is mapped to at most two
  candidate files, `<base>.md` and then `<base>/index.md`, and the first one
  that exists is chosen.
*/
module Resolver {
  import opened Wrappers
  import opened Text
  import opened PosixPath
  import opened Config

  /** `url[1:]` */
  function UrlTail(url: string): string {
    if url == [] then [] else url[1..]
  }

  function FullPath(url: string): string {
    Join(ContentDir, UrlTail(url))
  }

  /** The path both candidates are built from: the full path rebuilt from its
      directory and base name, or the directory alone when the base name is
      empty (a URL ending in `/`). */
  function BasePath(url: string): string {
    var full := FullPath(url);
    var name := Basename(full);
    if name != "" then Join(Dirname(full), name) else Dirname(full)
  }

  function ExactCandidate(url: string): string {
    BasePath(url) + ContentFileExt
  }

  function IndexCandidate(url: string): string {
    Join(BasePath(url), "index" + ContentFileExt)
  }

  /** The file a URL resolves to, given the set of paths that are files. */
  method GetFilePath(url: string, existing: set<string>) returns (r: Option<string>)
    ensures r.Some? ==> r.value in existing
    ensures r.Some? ==> r.value == ExactCandidate(url) || r.value == IndexCandidate(url)
    ensures ExactCandidate(url) in existing ==> r == Some(ExactCandidate(url))
    ensures r.None? <==> ExactCandidate(url) !in existing && IndexCandidate(url) !in existing
  {
    var basePath := BasePath(url);
    var fileName := basePath + ContentFileExt;
    if fileName in existing {
      return Some(fileName);
    }
    fileName := Join(basePath, "index" + ContentFileExt);
    if fileName in existing {
      return Some(fileName);
    }
    return None;
  }

  /** The two candidates are never the same file. */
  lemma CandidatesDiffer(url: string)
    ensures ExactCandidate(url) != IndexCandidate(url)
  {
    ExtensionNotIndex(BasePath(url));
  }

  lemma ExtensionNotIndex(b: string)
    ensures b + ContentFileExt != Join(b, "index" + ContentFileExt)
  {
    var i := Join(b, "index.md");
    assert "index.md"[..1] == "i";
    assert !StartsWith("index.md", "/");
    assert |i| == |b| + 8 || |i| == |b| + 9;
  }

  /** The index candidate of a base without a trailing slash. */
  lemma IndexOfBase(url: string, b: string)
    requires BasePath(url) == b && b != [] && b[|b| - 1] != '/'
    ensures IndexCandidate(url) == b + "/index.md"
  {
    assert "index" + ContentFileExt == "index.md";
    assert "index.md"[..1] == "i";
    assert !StartsWith("index.md", "/");
    assert !EndsWith(b, "/");
  }

  /** A full path without `//` and without a trailing slash is its own base. */
  lemma BaseOfPlainPath(url: string)
    requires FullPath(url) != [] && FullPath(url)[|FullPath(url)| - 1] != '/'
    requires NoDoubleSlash(FullPath(url))
    ensures BasePath(url) == FullPath(url)
  {
    RejoinDirBase(FullPath(url));
  }

  /** A full path ending in a single `/` has the directory itself as base. */
  lemma BaseOfTrailingSlash(url: string, q: string)
    requires q != [] && q[|q| - 1] != '/'
    requires FullPath(url) == q + "/"
    ensures BasePath(url) == q
  {
    DirOfTrailingSlash(q);
  }

  /** A well-formed relative location `d` under the content directory, asked
      for as `/d` or as `/d/`, tries `content/d.md` and then `content/d/index.md`. */
  lemma UrlCandidates(d: string)
    requires d != [] && d[0] != '/' && d[|d| - 1] != '/'
    requires NoDoubleSlash(d)
    ensures ExactCandidate("/" + d) == ContentDir + d + ".md"
    ensures IndexCandidate("/" + d) == ContentDir + d + "/index.md"
    ensures ExactCandidate("/" + d + "/") == ContentDir + d + ".md"
    ensures IndexCandidate("/" + d + "/") == ContentDir + d + "/index.md"
  {
    PlainUrlCandidates(d);
    SlashUrlCandidates(d);
  }

  lemma PlainUrlCandidates(d: string)
    requires d != [] && d[0] != '/' && d[|d| - 1] != '/'
    requires NoDoubleSlash(d)
    ensures ExactCandidate("/" + d) == ContentDir + d + ".md"
    ensures IndexCandidate("/" + d) == ContentDir + d + "/index.md"
  {
    var q := ContentDir + d;
    assert !StartsWith(d, "/");
    assert UrlTail("/" + d) == d;
    assert FullPath("/" + d) == q;
    assert NoDoubleSlash(ContentDir);
    NoDoubleSlashConcat(ContentDir, d);
    BaseOfPlainPath("/" + d);
    IndexOfBase("/" + d, q);
  }

  lemma SlashUrlCandidates(d: string)
    requires d != [] && d[0] != '/' && d[|d| - 1] != '/'
    ensures ExactCandidate("/" + d + "/") == ContentDir + d + ".md"
    ensures IndexCandidate("/" + d + "/") == ContentDir + d + "/index.md"
  {
    var q := ContentDir + d;
    var t := d + "/";
    assert UrlTail("/" + d + "/") == t;
    assert !StartsWith(t, "/") by {
      assert t[0] == d[0];
    }
    assert FullPath("/" + d + "/") == ContentDir + t;
    assert ContentDir + t == q + "/";
    BaseOfTrailingSlash("/" + d + "/", q);
    IndexOfBase("/" + d + "/", q);
  }

  /** The root URL `/` tries `content.md` before `content/index.md`. */
  lemma RootCandidates()
    ensures ExactCandidate("/") == "content.md"
    ensures IndexCandidate("/") == "content/index.md"
  {
    assert UrlTail("/") == "";
    assert FullPath("/") == "content/";
    BaseOfTrailingSlash("/", "content");
    assert !EndsWith("content", "/");
  }

  /** Nothing keeps a resolved file inside the content directory: a URL
      starting with `//` makes `os.path.join` discard the content directory. */
  lemma DoubleSlashLeavesContentDir(d: string)
    requires d != [] && d[0] != '/' && d[|d| - 1] != '/'
    requires NoDoubleSlash(d)
    ensures ExactCandidate("//" + d) == "/" + d + ".md"
    ensures IndexCandidate("//" + d) == "/" + d + "/index.md"
  {
    var p := "/" + d;
    assert UrlTail("//" + d) == p;
    assert StartsWith(p, "/");
    assert FullPath("//" + d) == p;
    assert NoDoubleSlash("/");
    NoDoubleSlashConcat("/", d);
    BaseOfPlainPath("//" + d);
    IndexOfBase("//" + d, p);
  }
}
