// `BaseView.get_pages`: every content file that is not skipped becomes one
// page summary (path, title, URL, author, date), and the summaries are
// sorted by title or by date with Python's stable `sorted`.
//
// The directory walk of `get_files` is an input: the files it lists, in
// walk order, as pairs of a path relative to the content directory and the
// file's text. The full path of a file is the content directory followed by
// its relative path.
module PageIndex {
  import opened Wrappers
  import opened Text
  import opened PosixPath
  import opened Config
  import opened Splitter
  import opened FileMeta
  import Resolver

  datatype Page = Page(path: string, title: string, url: string, author: string, date: string)

  // What a `defaultdict(str)` page looks like: every field empty.
  const EmptyPage: Page := Page("", "", "", "", "")

  // The files `get_pages` passes over although `get_files` listed them.
  predicate Skipped(rel: string, cfg: Settings) {
    || StartsWith(rel, "~")
    || StartsWith(rel, "#")
    || rel == NotFoundFilename(cfg)
    || rel == SiteIndexFilename(cfg)
    || rel in cfg.ignoreFiles
  }

  // A file that becomes a page: `get_files` keeps the `.md` files and
  // `get_pages` drops the skipped ones.
  predicate Listed(rel: string, cfg: Settings) {
    EndsWith(rel, ContentFileExt) && !Skipped(rel, cfg)
  }

  // -------------------------------------------------------------------
  // URLs

  // `if u.endswith(suffix): u = u[:-len(suffix)]`
  function DropSuffix(u: string, suffix: string): (r: string)
    ensures EndsWith(u, suffix) ==> r == u[..|u| - |suffix|]
    ensures !EndsWith(u, suffix) ==> r == u
    ensures r != [] ==> r[0] == u[0]
  {
    if EndsWith(u, suffix) then u[..|u| - |suffix|] else u
  }

  // The URL of a page: `/` and the relative path, without a trailing `.md`,
  // then without a trailing `/index`, and `/` when nothing is left.
  function PageUrl(rel: string): (url: string)
    ensures url != [] && url[0] == '/'
  {
    var u := DropSuffix(DropSuffix("/" + rel, ContentFileExt), "/index");
    if u == "" then "/" else u
  }

  function Stem(rel: string): string
    requires EndsWith(rel, ContentFileExt)
  {
    rel[..|rel| - 3]
  }

  predicate IsIndexPage(rel: string)
    requires EndsWith(rel, ContentFileExt)
  {
    Stem(rel) == "index" || EndsWith(Stem(rel), "/index")
  }

  // The three shapes of a page URL.
  lemma PageUrlCases(rel: string)
    requires EndsWith(rel, ContentFileExt)
    ensures Stem(rel) == "index" ==> PageUrl(rel) == "/"
    ensures EndsWith(Stem(rel), "/index") ==> PageUrl(rel) == "/" + Stem(rel)[..|Stem(rel)| - 6]
    ensures !IsIndexPage(rel) ==> PageUrl(rel) == "/" + Stem(rel)
  {
    var stem := Stem(rel);
    var u := "/" + rel;
    assert EndsWith(u, ContentFileExt) by {
      assert u[|u| - 3..] == rel[|rel| - 3..];
    }
    var u1 := u[..|u| - 3];
    assert u1 == "/" + stem;
    SlashIndexSuffix(stem);
    if EndsWith(stem, "/index") {
      assert u1[..|u1| - 6] == "/" + stem[..|stem| - 6];
    }
  }

  lemma SlashIndexSuffix(stem: string)
    ensures EndsWith("/" + stem, "/index") <==> stem == "index" || EndsWith(stem, "/index")
  {
    var u := "/" + stem;
    if |stem| >= 6 {
      assert u[|u| - 6..] == stem[|stem| - 6..];
      assert stem != "index";
    } else if |stem| == 5 {
      assert u[|u| - 6..] == u;
      assert !EndsWith(stem, "/index");
      assert u[1..] == stem && "/index"[1..] == "index";
      assert u == "/index" <==> stem == "index";
    } else {
      assert !EndsWith(u, "/index");
    }
  }

  // A relative path as a directory walk produces it: no leading `/`, no
  // empty component, and a file name longer than the bare extension.
  predicate WellFormedRel(rel: string) {
    && EndsWith(rel, ContentFileExt)
    && |rel| > 3
    && rel[0] != '/'
    && rel[|rel| - 4] != '/'
    && NoDoubleSlash(rel)
  }

  lemma NoDoubleSlashPrefix(p: string, n: nat)
    requires n <= |p| && NoDoubleSlash(p)
    ensures NoDoubleSlash(p[..n])
  {
    var q := p[..n];
    forall i | 0 <= i < |q| - 1
      ensures !(q[i] == '/' && q[i + 1] == '/')
    {
      assert q[i] == p[i] && q[i + 1] == p[i + 1];
    }
  }

  // The URL of a page leads back to its file: `get_file_path` tries the
  // page's own file first, or second for an `index.md` (after `<dir>.md`).
  lemma PageUrlResolves(rel: string)
    requires WellFormedRel(rel)
    ensures !IsIndexPage(rel) ==> Resolver.ExactCandidate(PageUrl(rel)) == ContentDir + rel
    ensures IsIndexPage(rel) ==> Resolver.IndexCandidate(PageUrl(rel)) == ContentDir + rel
  {
    PageUrlCases(rel);
    var stem := Stem(rel);
    if stem == "index" {
      Resolver.RootCandidates();
      assert rel == "index.md";
    } else if EndsWith(stem, "/index") {
      IndexPageResolves(rel);
    } else {
      PlainPageResolves(rel);
    }
  }

  lemma PlainPageResolves(rel: string)
    requires WellFormedRel(rel) && !IsIndexPage(rel)
    ensures Resolver.ExactCandidate("/" + Stem(rel)) == ContentDir + rel
  {
    var stem := Stem(rel);
    assert rel == stem + ".md";
    NoDoubleSlashPrefix(rel, |stem|);
    assert stem[0] == rel[0];
    assert stem[|stem| - 1] == rel[|rel| - 4];
    Resolver.UrlCandidates(stem);
  }

  lemma IndexPageResolves(rel: string)
    requires WellFormedRel(rel) && EndsWith(Stem(rel), "/index")
    ensures |Stem(rel)| > 6
    ensures Resolver.IndexCandidate("/" + Stem(rel)[..|Stem(rel)| - 6]) == ContentDir + rel
  {
    var x := IndexDirShape(rel);
    Resolver.PlainUrlCandidates(x);
    assert ContentDir + x + "/index.md" == ContentDir + (x + "/index.md");
  }

  // The directory `x` of a well-formed `<x>/index.md`.
  lemma IndexDirShape(rel: string) returns (x: string)
    requires WellFormedRel(rel) && EndsWith(Stem(rel), "/index")
    ensures |Stem(rel)| > 6 && x == Stem(rel)[..|Stem(rel)| - 6]
    ensures x != [] && x[0] != '/' && x[|x| - 1] != '/' && NoDoubleSlash(x) && x + "/index.md" == rel
  {
    var stem := Stem(rel);
    assert rel == stem + ".md";
    assert |stem| > 6 by {
      assert |stem| == 6 ==> stem[0] == rel[0];
    }
    x := stem[..|stem| - 6];
    assert stem == x + "/index";
    NoDoubleSlashPrefix(rel, |stem|);
    assert x[0] == rel[0];
    assert stem[|x|] == '/';
    assert !(stem[|x|] == '/' && stem[|x| - 1] == '/');
    NoDoubleSlashPrefix(stem, |x|);
  }

  // -------------------------------------------------------------------
  // Collecting the summaries

  // `meta.get(k, "")`
  function Lookup(meta: map<string, string>, k: string): string {
    if k in meta then meta[k] else ""
  }

  // The summary of one listed file, with the `get_page_data` hook taken as
  // the identity.
  function PageOf(rel: string, text: string): Page {
    var meta := HeadersOf(Split(ContentSplitter(text).0, '\n'));
    Page(ContentDir + rel, Lookup(meta, "title"), PageUrl(rel), Lookup(meta, "author"), Lookup(meta, "date"))
  }

  // The listed files, in walk order.
  function Kept(listing: seq<(string, string)>, cfg: Settings): seq<(string, string)> {
    if listing == [] then []
    else
      var init := listing[..|listing| - 1];
      var last := listing[|listing| - 1];
      Kept(init, cfg) + if Listed(last.0, cfg) then [last] else []
  }

  // The kept files are the listed files that pass the filter, each as many
  // times as the walk lists it.
  lemma {:induction false} KeptCounts(listing: seq<(string, string)>, cfg: Settings)
    ensures forall x :: multiset(Kept(listing, cfg))[x] == if Listed(x.0, cfg) then multiset(listing)[x] else 0
  {
    if listing != [] {
      var init, last := listing[..|listing| - 1], listing[|listing| - 1];
      assert listing == init + [last];
      KeptCounts(init, cfg);
      assert multiset(listing) == multiset(init) + multiset{last};
    }
  }

  // Keeping distributes over concatenation: the kept files of a listing
  // are those of its parts, in the order of the listing.
  lemma {:induction false} KeptConcat(a: seq<(string, string)>, b: seq<(string, string)>, cfg: Settings)
    ensures Kept(a + b, cfg) == Kept(a, cfg) + Kept(b, cfg)
  {
    if b == [] {
      assert a + b == a;
    } else {
      var init, last := b[..|b| - 1], b[|b| - 1];
      assert b == init + [last];
      assert a + b == (a + init) + [last];
      KeptSnoc(a + init, last, cfg);
      KeptSnoc(init, last, cfg);
      KeptConcat(a, init, cfg);
    }
  }

  lemma KeptSnoc(init: seq<(string, string)>, last: (string, string), cfg: Settings)
    ensures Kept(init + [last], cfg) == Kept(init, cfg) + if Listed(last.0, cfg) then [last] else []
  {
    assert (init + [last])[..|init|] == init;
  }

  // The list the loop of `get_pages` builds before sorting.
  function Collect(listing: seq<(string, string)>, cfg: Settings): seq<Page> {
    if listing == [] then []
    else
      var init := listing[..|listing| - 1];
      var last := listing[|listing| - 1];
      Collect(init, cfg) + if Listed(last.0, cfg) then [PageOf(last.0, last.1)] else []
  }

  // Every listed file contributes exactly one summary, in walk order, and
  // no other file contributes anything.
  lemma {:induction false} CollectIsKept(listing: seq<(string, string)>, cfg: Settings)
    ensures |Collect(listing, cfg)| == |Kept(listing, cfg)|
    ensures forall j :: 0 <= j < |Kept(listing, cfg)| ==>
      Collect(listing, cfg)[j] == PageOf(Kept(listing, cfg)[j].0, Kept(listing, cfg)[j].1)
  {
    if listing != [] {
      CollectIsKept(listing[..|listing| - 1], cfg);
    }
  }

  // Each summary points at the file it was made from.
  lemma {:induction false} CollectPaths(listing: seq<(string, string)>, cfg: Settings, j: nat)
    requires j < |Collect(listing, cfg)|
    ensures exists i :: 0 <= i < |listing| && Collect(listing, cfg)[j].path == ContentDir + listing[i].0
  {
    var init := listing[..|listing| - 1];
    if j < |Collect(init, cfg)| {
      CollectPaths(init, cfg, j);
      var i :| 0 <= i < |init| && Collect(init, cfg)[j].path == ContentDir + init[i].0;
      assert init[i] == listing[i];
    } else {
      assert Collect(listing, cfg)[j].path == ContentDir + listing[|listing| - 1].0;
    }
  }

  lemma PrefixInjective(d: string, a: string, b: string)
    ensures d + a == d + b ==> a == b
  {
    assert (d + a)[|d|..] == a && (d + b)[|d|..] == b;
  }

  predicate DistinctRels(listing: seq<(string, string)>) {
    forall i, j :: 0 <= i < j < |listing| ==> listing[i].0 != listing[j].0
  }

  predicate DistinctPaths(pages: seq<Page>) {
    forall i, j :: 0 <= i < j < |pages| ==> pages[i].path != pages[j].path
  }

  // Distinct files give summaries with distinct paths.
  lemma {:induction false} CollectDistinct(listing: seq<(string, string)>, cfg: Settings)
    requires DistinctRels(listing)
    ensures DistinctPaths(Collect(listing, cfg))
  {
    if listing != [] {
      var init := listing[..|listing| - 1];
      var last := listing[|listing| - 1];
      assert DistinctRels(init) by {
        assert forall i :: 0 <= i < |init| ==> init[i] == listing[i];
      }
      CollectDistinct(init, cfg);
      var c := Collect(init, cfg);
      forall j | 0 <= j < |c|
        ensures c[j].path != ContentDir + last.0
      {
        CollectPaths(init, cfg, j);
        var i :| 0 <= i < |init| && c[j].path == ContentDir + init[i].0;
        assert init[i] == listing[i];
        assert listing[i].0 != last.0;
        PrefixInjective(ContentDir, init[i].0, last.0);
      }
    }
  }

  // -------------------------------------------------------------------
  // Sorting

  // `get_pages` sorts by title unless asked for title or date.
  function SortKey(requested: string): (key: string)
    ensures key == "title" || key == "date"
    ensures requested == "title" || requested == "date" ==> key == requested
  {
    if requested == "title" || requested == "date" then requested else "title"
  }

  function KeyOf(p: Page, key: string): string {
    if key == "date" then p.date else p.title
  }

  // `a` may come before `b` in the sorted list.
  predicate InOrder(a: Page, b: Page, key: string, reverse: bool) {
    if reverse then LexLe(KeyOf(b, key), KeyOf(a, key)) else LexLe(KeyOf(a, key), KeyOf(b, key))
  }

  predicate Sorted(pages: seq<Page>, key: string, reverse: bool) {
    forall i, j :: 0 <= i < j < |pages| ==> InOrder(pages[i], pages[j], key, reverse)
  }

  // `x` goes in front of the first element it may precede, so in front of
  // every element with the same key.
  function Insert(x: Page, pages: seq<Page>, key: string, reverse: bool): seq<Page> {
    if pages == [] then [x]
    else if InOrder(x, pages[0], key, reverse) then [x] + pages
    else [pages[0]] + Insert(x, pages[1..], key, reverse)
  }

  // Python's `sorted(pages, key=..., reverse=...)`.
  function SortPages(pages: seq<Page>, key: string, reverse: bool): seq<Page> {
    if pages == [] then [] else Insert(pages[0], SortPages(pages[1..], key, reverse), key, reverse)
  }

  // The pages with a given key value, in list order.
  function WithKey(pages: seq<Page>, key: string, k: string): seq<Page> {
    if pages == [] then []
    else (if KeyOf(pages[0], key) == k then [pages[0]] else []) + WithKey(pages[1..], key, k)
  }

  lemma {:induction false} WithKeyConcat(a: seq<Page>, b: seq<Page>, key: string, k: string)
    ensures WithKey(a + b, key, k) == WithKey(a, key, k) + WithKey(b, key, k)
  {
    if a != [] {
      assert (a + b)[0] == a[0];
      assert (a + b)[1..] == a[1..] + b;
      WithKeyConcat(a[1..], b, key, k);
      var h := if KeyOf(a[0], key) == k then [a[0]] else [];
      assert WithKey(a + b, key, k) == h + WithKey(a[1..] + b, key, k);
      assert h + (WithKey(a[1..], key, k) + WithKey(b, key, k)) == (h + WithKey(a[1..], key, k)) + WithKey(b, key, k);
    } else {
      assert a + b == b;
    }
  }

  lemma InOrderTotal(a: Page, b: Page, key: string, reverse: bool)
    ensures InOrder(a, b, key, reverse) || InOrder(b, a, key, reverse)
  {
    LexLeTotal(KeyOf(a, key), KeyOf(b, key));
  }

  lemma InOrderTransitive(a: Page, b: Page, c: Page, key: string, reverse: bool)
    requires InOrder(a, b, key, reverse) && InOrder(b, c, key, reverse)
    ensures InOrder(a, c, key, reverse)
  {
    if reverse {
      LexLeTransitive(KeyOf(c, key), KeyOf(b, key), KeyOf(a, key));
    } else {
      LexLeTransitive(KeyOf(a, key), KeyOf(b, key), KeyOf(c, key));
    }
  }

  // Two pages with the same key may come in either order.
  lemma InOrderSameKey(a: Page, b: Page, key: string, reverse: bool)
    requires KeyOf(a, key) == KeyOf(b, key)
    ensures InOrder(a, b, key, reverse)
  {
    LexLeReflexive(KeyOf(a, key));
  }

  lemma {:induction false} InsertPermutes(x: Page, pages: seq<Page>, key: string, reverse: bool)
    ensures multiset(Insert(x, pages, key, reverse)) == multiset(pages) + multiset{x}
  {
    if pages != [] && !InOrder(x, pages[0], key, reverse) {
      InsertPermutes(x, pages[1..], key, reverse);
      assert pages == [pages[0]] + pages[1..];
    }
  }

  lemma {:induction false} InsertSorted(x: Page, pages: seq<Page>, key: string, reverse: bool)
    requires Sorted(pages, key, reverse)
    ensures Sorted(Insert(x, pages, key, reverse), key, reverse)
  {
    if pages == [] {
    } else if InOrder(x, pages[0], key, reverse) {
      var r := [x] + pages;
      forall j | 0 < j < |r|
        ensures InOrder(x, r[j], key, reverse)
      {
        if j > 1 { InOrderTransitive(x, pages[0], pages[j - 1], key, reverse); }
      }
    } else {
      var rest := pages[1..];
      InOrderTotal(x, pages[0], key, reverse);
      InsertSorted(x, rest, key, reverse);
      InsertPermutes(x, rest, key, reverse);
      var ins := Insert(x, rest, key, reverse);
      forall j | 0 <= j < |ins|
        ensures InOrder(pages[0], ins[j], key, reverse)
      {
        assert ins[j] in multiset(ins);
        assert ins[j] == x || ins[j] in rest;
      }
    }
  }

  // Inserting `x` puts it in front of every page with its key, so the pages
  // with any one key keep their order with `x` first among its equals.
  lemma {:induction false} InsertWithKey(x: Page, pages: seq<Page>, key: string, reverse: bool, k: string)
    ensures WithKey(Insert(x, pages, key, reverse), key, k) == WithKey([x], key, k) + WithKey(pages, key, k)
  {
    if pages == [] {
    } else if InOrder(x, pages[0], key, reverse) {
      WithKeyConcat([x], pages, key, k);
    } else {
      var rest := pages[1..];
      if KeyOf(x, key) == KeyOf(pages[0], key) {
        InOrderSameKey(x, pages[0], key, reverse);
      }
      InsertWithKey(x, rest, key, reverse, k);
      WithKeyConcat([pages[0]], Insert(x, rest, key, reverse), key, k);
      WithKeyConcat([pages[0]], rest, key, k);
      assert [pages[0]] + rest == pages;
    }
  }

  // The result is a permutation of the input.
  lemma {:induction false} SortPermutes(pages: seq<Page>, key: string, reverse: bool)
    ensures multiset(SortPages(pages, key, reverse)) == multiset(pages)
  {
    if pages != [] {
      SortPermutes(pages[1..], key, reverse);
      InsertPermutes(pages[0], SortPages(pages[1..], key, reverse), key, reverse);
      assert pages == [pages[0]] + pages[1..];
    }
  }

  // The result is ordered by the key: non-decreasing, or non-increasing
  // when `reverse` is set.
  lemma {:induction false} SortSorted(pages: seq<Page>, key: string, reverse: bool)
    ensures Sorted(SortPages(pages, key, reverse), key, reverse)
  {
    if pages != [] {
      SortSorted(pages[1..], key, reverse);
      InsertSorted(pages[0], SortPages(pages[1..], key, reverse), key, reverse);
    }
  }

  // The sort is stable: pages with equal keys keep their input order, with
  // `reverse` as without it.
  lemma {:induction false} SortStable(pages: seq<Page>, key: string, reverse: bool, k: string)
    ensures WithKey(SortPages(pages, key, reverse), key, k) == WithKey(pages, key, k)
  {
    if pages != [] {
      SortStable(pages[1..], key, reverse, k);
      InsertWithKey(pages[0], SortPages(pages[1..], key, reverse), key, reverse, k);
      WithKeyConcat([pages[0]], pages[1..], key, k);
      assert [pages[0]] + pages[1..] == pages;
    }
  }

  lemma {:induction false} InsertDistinct(x: Page, pages: seq<Page>, key: string, reverse: bool)
    requires DistinctPaths(pages)
    requires forall i :: 0 <= i < |pages| ==> pages[i].path != x.path
    ensures DistinctPaths(Insert(x, pages, key, reverse))
  {
    if pages != [] && !InOrder(x, pages[0], key, reverse) {
      var rest := pages[1..];
      InsertDistinct(x, rest, key, reverse);
      InsertPermutes(x, rest, key, reverse);
      var ins := Insert(x, rest, key, reverse);
      forall j | 0 <= j < |ins|
        ensures ins[j].path != pages[0].path
      {
        assert ins[j] in multiset(ins);
        assert ins[j] == x || ins[j] in rest;
      }
    }
  }

  // Sorting keeps the paths distinct.
  lemma {:induction false} SortDistinct(pages: seq<Page>, key: string, reverse: bool)
    requires DistinctPaths(pages)
    ensures DistinctPaths(SortPages(pages, key, reverse))
  {
    if pages != [] {
      var rest := pages[1..];
      SortDistinct(rest, key, reverse);
      SortPermutes(rest, key, reverse);
      var sorted := SortPages(rest, key, reverse);
      forall i | 0 <= i < |sorted|
        ensures sorted[i].path != pages[0].path
      {
        assert sorted[i] in multiset(sorted);
        assert sorted[i] in rest;
      }
      InsertDistinct(pages[0], sorted, key, reverse);
    }
  }

  // -------------------------------------------------------------------
  // get_pages

  method GetPages(listing: seq<(string, string)>, cfg: Settings, sortKey: string, reverse: bool)
    returns (pages: seq<Page>)
    ensures pages == SortPages(Collect(listing, cfg), SortKey(sortKey), reverse)
    ensures multiset(pages) == multiset(Collect(listing, cfg))
    ensures Sorted(pages, SortKey(sortKey), reverse)
    ensures forall k :: WithKey(pages, SortKey(sortKey), k) == WithKey(Collect(listing, cfg), SortKey(sortKey), k)
    ensures DistinctRels(listing) ==> DistinctPaths(pages)
  {
    var fileDataList: seq<Page> := [];
    for n := 0 to |listing|
      invariant fileDataList == Collect(listing[..n], cfg)
    {
      assert listing[..n + 1][..n] == listing[..n];
      var (rel, text) := listing[n];
      if !EndsWith(rel, ContentFileExt) || Skipped(rel, cfg) {
        continue;
      }
      var (metaString, _) := ContentSplitter(text);
      var meta := ParseFileMeta(metaString);
      var data := Page(ContentDir + rel, Lookup(meta, "title"), PageUrl(rel), Lookup(meta, "author"), Lookup(meta, "date"));
      fileDataList := fileDataList + [data];
    }
    assert listing[..|listing|] == listing;
    var key := if sortKey == "title" || sortKey == "date" then sortKey else "title";
    pages := SortPages(fileDataList, key, reverse);
    SortPermutes(fileDataList, key, reverse);
    SortSorted(fileDataList, key, reverse);
    forall k ensures WithKey(pages, key, k) == WithKey(fileDataList, key, k) {
      SortStable(fileDataList, key, reverse, k);
    }
    if DistinctRels(listing) {
      CollectDistinct(listing, cfg);
      SortDistinct(fileDataList, key, reverse);
    }
  }
}
