// `ContentView.get`: resolve the requested file (or the not-found file),
// split and parse it, build the page index, find the neighbours of the
// current page, and choose the status and the template.
module ContentView {
  import opened Wrappers
  import opened Config
  import opened Resolver
  import opened Splitter
  import opened FileMeta
  import opened PageIndex
  import opened Context
  import Text

  datatype Navigation = Navigation(current: Page, prev: Page, next: Page, isFront: bool, isTail: bool)

  const NoNavigation: Navigation := Navigation(EmptyPage, EmptyPage, EmptyPage, false, false)

  // The test of the navigation loop: the page is the file being shown.
  predicate IsCurrent(p: Page, filePath: Option<string>, isIndex: bool) {
    !isIndex && filePath == Some(p.path)
  }

  predicate OnlyCurrent(pages: seq<Page>, filePath: Option<string>, isIndex: bool, i: int) {
    forall j :: 0 <= j < |pages| && j != i ==> !IsCurrent(pages[j], filePath, isIndex)
  }

  // What the navigation loop leaves behind:
  //  - with no current page (or in index mode) everything keeps its default;
  //  - `isFront` holds iff the first page is current, `isTail` iff the last is;
  //  - when page `i` is the only current one, it is `current`, and `prev` and
  //    `next` are its neighbours, or empty at either end of the list.
  ghost predicate Navigated(pages: seq<Page>, filePath: Option<string>, isIndex: bool, nav: Navigation) {
    && ((forall j :: 0 <= j < |pages| ==> !IsCurrent(pages[j], filePath, isIndex)) ==> nav == NoNavigation)
    && (nav.isFront <==> |pages| > 0 && IsCurrent(pages[0], filePath, isIndex))
    && (nav.isTail <==> |pages| > 0 && IsCurrent(pages[|pages| - 1], filePath, isIndex))
    && (forall i {:trigger IsCurrent(pages[i], filePath, isIndex)} ::
          0 <= i < |pages| && IsCurrent(pages[i], filePath, isIndex) && OnlyCurrent(pages, filePath, isIndex, i) ==>
          && nav.current == pages[i]
          && nav.prev == (if i == 0 then EmptyPage else pages[i - 1])
          && nav.next == (if i == |pages| - 1 then EmptyPage else pages[i + 1]))
  }

  // The loop over the sorted page list.
  method Navigate(pages: seq<Page>, filePath: Option<string>, isIndex: bool) returns (nav: Navigation)
    ensures Navigated(pages, filePath, isIndex, nav)
  {
    var current, prev, next := EmptyPage, EmptyPage, EmptyPage;
    var isFront, isTail := false, false;
    ghost var last: int := -1;
    for pageIndex := 0 to |pages|
      invariant -1 <= last < pageIndex
      invariant last >= 0 ==> IsCurrent(pages[last], filePath, isIndex) && current == pages[last]
      invariant forall j :: last < j < pageIndex ==> !IsCurrent(pages[j], filePath, isIndex)
      invariant last == -1 ==> current == EmptyPage && next == EmptyPage
      invariant prev == if last > 0 then pages[last - 1] else EmptyPage
      invariant 0 <= last < |pages| - 1 ==> next == pages[last + 1]
      invariant (last == -1 || last == |pages| - 1) && OnlyCurrent(pages[..pageIndex], filePath, isIndex, last) ==> next == EmptyPage
      invariant isFront <==> pageIndex > 0 && IsCurrent(pages[0], filePath, isIndex)
      invariant isTail <==> pageIndex == |pages| && pageIndex > 0 && IsCurrent(pages[pageIndex - 1], filePath, isIndex)
    {
      var pageData := pages[pageIndex];
      if !isIndex && filePath == Some(pageData.path) {
        current := pageData;
        if pageIndex == 0 {
          isFront := true;
        } else {
          prev := pages[pageIndex - 1];
        }
        if pageIndex == |pages| - 1 {
          isTail := true;
        } else {
          next := pages[pageIndex + 1];
        }
        last := pageIndex;
      }
    }
    nav := Navigation(current, prev, next, isFront, isTail);
    assert pages[..|pages|] == pages;
  }

  // The response: an abort, or a render with its status. What is rendered
  // is the view context.
  datatype Response = Abort(code: int) | Rendered(status: int)

  // `meta.get(k, default)`
  function GetOr(meta: map<string, string>, k: string, default: string): string {
    if k in meta then meta[k] else default
  }

  // The template a request renders: `index` in index mode, otherwise the
  // file's own `template` header, `post` when it has none.
  function TemplateName(isIndex: bool, meta: map<string, string>): string {
    if isIndex then "index" else GetOr(meta, "template", "post")
  }

  // Resolve `url`, fall back on the not-found file, read the chosen file,
  // split it, parse its headers and render its body; `found` is false on
  // the abort.
  method LoadFile(cfg: Settings, url: string, files: map<string, string>, markdown: string -> string)
    returns (found: bool, filePath: Option<string>, fileContent: string, metaString: string,
             contentString: string, meta: map<string, string>, content: string, status: int)
    ensures !found <==> ExactCandidate(url) !in files && IndexCandidate(url) !in files && NotFoundFilePath(cfg) !in files
    ensures !found ==> filePath == None
    ensures found ==> (filePath.None? <==> ExactCandidate(url) !in files && IndexCandidate(url) !in files)
    ensures found && filePath.Some? ==>
      && filePath.value in files
      && (filePath.value == ExactCandidate(url) || filePath.value == IndexCandidate(url))
      && (ExactCandidate(url) in files ==> filePath.value == ExactCandidate(url))
    ensures found ==> status == if filePath.None? then 404 else 200
    ensures found ==>
      && fileContent == files[if filePath.Some? then filePath.value else NotFoundFilePath(cfg)]
      && ContentSplitter(fileContent) == (metaString, contentString)
      && meta == HeadersOf(Text.Split(metaString, '\n'))
      && content == markdown(contentString)
  {
    found, fileContent, metaString, contentString, meta, content, status := false, "", "", "", map[], "", 200;
    filePath := GetFilePath(url, files.Keys);
    if filePath.None? {
      if NotFoundFilePath(cfg) !in files {
        return;
      }
      fileContent, status := files[NotFoundFilePath(cfg)], 404;
    } else {
      fileContent := files[filePath.value];
    }
    found := true;
    metaString, contentString := ContentSplitter(fileContent).0, ContentSplitter(fileContent).1;
    meta := ParseFileMeta(metaString);
    content := markdown(contentString);
  }

  // With no `template` header the file is shown with the `post` template.
  lemma TemplateDefault(lines: seq<string>)
    requires forall i :: 0 <= i < |lines| ==> !HasKey(lines[i], "template")
    ensures TemplateName(false, HeadersOf(lines)) == "post"
  {
    HeadersKeys(lines, "template");
  }

  // Otherwise its template is the value of the last line whose key is
  // `template`.
  lemma TemplateFromHeader(lines: seq<string>, i: nat)
    requires i < |lines| && HasKey(lines[i], "template")
    requires forall j :: i < j < |lines| ==> !HasKey(lines[j], "template")
    ensures TemplateName(false, HeadersOf(lines)) == Entry(lines[i]).value.1
  {
    HeadersLastWins(lines, i);
  }

  // `ContentView.get` for the request path `url`. `files` maps the paths
  // that are files to their text, `listing` is what the directory walk
  // lists, and `markdown` is the Markdown renderer.
  method Get(ctx: ViewContext, cfg: Settings, url: string, isIndex: bool,
             files: map<string, string>, listing: seq<(string, string)>, markdown: string -> string)
    returns (r: Response)
    modifies ctx`filePath, ctx`notFoundFilePath, ctx`fileContent, ctx`meta, ctx`content
    modifies ctx`pages, ctx`currentPage, ctx`prevPage, ctx`nextPage
    modifies ctx`isFrontPage, ctx`isTailPage, ctx`templateFilePath
    ensures r.Abort? <==> !isIndex && ExactCandidate(url) !in files && IndexCandidate(url) !in files
                          && NotFoundFilePath(cfg) !in files
    ensures r.Abort? ==> r.code == 404
    ensures r.Abort? ==>
      && ctx.filePath == None
      && unchanged(ctx`notFoundFilePath, ctx`fileContent, ctx`meta, ctx`content)
      && unchanged(ctx`pages, ctx`currentPage, ctx`prevPage, ctx`nextPage)
      && unchanged(ctx`isFrontPage, ctx`isTailPage, ctx`templateFilePath)
    ensures r.Rendered? && !isIndex ==>
      && (ctx.filePath.None? <==> ExactCandidate(url) !in files && IndexCandidate(url) !in files)
      && (ctx.filePath.None? ==> ctx.notFoundFilePath == Some(NotFoundFilePath(cfg)))
      && (ctx.filePath.Some? ==>
            && ctx.filePath.value in files
            && (ctx.filePath.value == ExactCandidate(url) || ctx.filePath.value == IndexCandidate(url))
            && (ExactCandidate(url) in files ==> ctx.filePath.value == ExactCandidate(url)))
    ensures r.Rendered? && (isIndex || ctx.filePath.Some?) ==> ctx.notFoundFilePath == old(ctx.notFoundFilePath)
    ensures r.Rendered? ==> r.status == if !isIndex && ctx.filePath.None? then 404 else 200
    ensures r.Rendered? && !isIndex ==>
      && ctx.fileContent == files[if ctx.filePath.Some? then ctx.filePath.value else NotFoundFilePath(cfg)]
      && ctx.meta == HeadersOf(Text.Split(ContentSplitter(ctx.fileContent).0, '\n'))
      && ctx.content == markdown(ContentSplitter(ctx.fileContent).1)
    ensures r.Rendered? && isIndex ==>
      ctx.filePath == old(ctx.filePath) && ctx.fileContent == old(ctx.fileContent)
      && ctx.meta == old(ctx.meta) && ctx.content == old(ctx.content)
    ensures r.Rendered? ==> ctx.pages == SortPages(Collect(listing, cfg), "date", true)
    ensures r.Rendered? ==>
      Navigated(ctx.pages, ctx.filePath, isIndex,
                Navigation(ctx.currentPage, ctx.prevPage, ctx.nextPage, ctx.isFrontPage, ctx.isTailPage))
    ensures r.Rendered? ==> ctx.templateFilePath == ThemeFilePath(cfg, TemplateName(isIndex, ctx.meta))
  {
    var statusCode := 200;
    var filePath, notFoundFilePath := ctx.filePath, ctx.notFoundFilePath;
    var fileContent, meta, content := ctx.fileContent, ctx.meta, ctx.content;
    if !isIndex {
      var found, metaString, contentString;
      found, filePath, fileContent, metaString, contentString, meta, content, statusCode := LoadFile(cfg, url, files, markdown);
      if !found {
        ctx.filePath := filePath;
        return Abort(404);
      }
      if filePath.None? {
        notFoundFilePath := Some(NotFoundFilePath(cfg));
      }
    }
    assert SortKey("date") == "date";
    var pages := PageIndex.GetPages(listing, cfg, "date", true);
    var nav := Navigate(pages, filePath, isIndex);
    ctx.Fill(filePath, notFoundFilePath, fileContent, meta, content, pages, nav.current, nav.prev, nav.next,
             nav.isFront, nav.isTail, ThemeFilePath(cfg, TemplateName(isIndex, meta)));
    return Rendered(statusCode);
  }
}
