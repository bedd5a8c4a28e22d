// `g.view_ctx`: the per-request dictionary that `ContentView.get` and the
// pagination plugin fill in step by step. A key that has not been written
// yet reads as its field's initial value: `None`, empty or false.
module Context {
  import opened Wrappers
  import opened PageIndex

  datatype PaginationInfo = PaginationInfo(currentPage: int, hasPrevPage: bool, hasNextPage: bool)

  class ViewContext {
    var isSiteIndex: bool                   // "is_site_index"
    var paginationCurrentPage: Option<int>  // "pagination_current_page"
    var filePath: Option<string>            // "file_path"
    var notFoundFilePath: Option<string>    // "not_found_file_path"
    var fileContent: string                 // "file_content"
    var meta: map<string, string>           // "meta"
    var content: string                     // "content", the rendered body
    var pages: seq<Page>                    // "pages"
    var currentPage: Page                   // "current_page"
    var prevPage: Page                      // "prev_page"
    var nextPage: Page                      // "next_page"
    var isFrontPage: bool                   // "is_front_page"
    var isTailPage: bool                    // "is_tail_page"
    var templateFilePath: string            // "template_file_path"
    var pagination: Option<PaginationInfo>  // "pagination"

    // The empty dictionary the `before_request` handler installs.
    constructor ()
      ensures !isSiteIndex && paginationCurrentPage == None
      ensures filePath == None && notFoundFilePath == None
      ensures fileContent == "" && meta == map[] && content == "" && pages == []
      ensures currentPage == EmptyPage && prevPage == EmptyPage && nextPage == EmptyPage
      ensures !isFrontPage && !isTailPage
      ensures templateFilePath == "" && pagination == None
    {
      isSiteIndex := false;
      paginationCurrentPage := None;
      filePath := None;
      notFoundFilePath := None;
      fileContent := "";
      meta := map[];
      content := "";
      pages := [];
      currentPage := EmptyPage;
      prevPage := EmptyPage;
      nextPage := EmptyPage;
      isFrontPage := false;
      isTailPage := false;
      templateFilePath := "";
      pagination := None;
    }

    // The entries `ContentView.get` writes about the file it serves.
    method SetFile(filePath': Option<string>, notFoundFilePath': Option<string>, fileContent': string,
                   meta': map<string, string>, content': string)
      modifies this`filePath, this`notFoundFilePath, this`fileContent, this`meta, this`content
      ensures filePath == filePath' && notFoundFilePath == notFoundFilePath' && fileContent == fileContent'
      ensures meta == meta' && content == content'
    {
      filePath := filePath';
      notFoundFilePath := notFoundFilePath';
      fileContent := fileContent';
      meta := meta';
      content := content';
    }

    // The entries `ContentView.get` writes about the page index and the
    // template.
    method SetIndex(pages': seq<Page>, currentPage': Page, prevPage': Page, nextPage': Page,
                    isFrontPage': bool, isTailPage': bool, templateFilePath': string)
      modifies this`pages, this`currentPage, this`prevPage, this`nextPage
      modifies this`isFrontPage, this`isTailPage, this`templateFilePath
      ensures pages == pages' && currentPage == currentPage' && prevPage == prevPage' && nextPage == nextPage'
      ensures isFrontPage == isFrontPage' && isTailPage == isTailPage' && templateFilePath == templateFilePath'
    {
      pages := pages';
      currentPage := currentPage';
      prevPage := prevPage';
      nextPage := nextPage';
      isFrontPage := isFrontPage';
      isTailPage := isTailPage';
      templateFilePath := templateFilePath';
    }

    // Every entry `ContentView.get` writes once it has read the file and
    // built the page index.
    method Fill(filePath': Option<string>, notFoundFilePath': Option<string>, fileContent': string,
                meta': map<string, string>, content': string, pages': seq<Page>, currentPage': Page,
                prevPage': Page, nextPage': Page, isFrontPage': bool, isTailPage': bool, templateFilePath': string)
      modifies this`filePath, this`notFoundFilePath, this`fileContent, this`meta, this`content
      modifies this`pages, this`currentPage, this`prevPage, this`nextPage
      modifies this`isFrontPage, this`isTailPage, this`templateFilePath
      ensures filePath == filePath' && notFoundFilePath == notFoundFilePath' && fileContent == fileContent'
      ensures meta == meta' && content == content'
      ensures pages == pages' && currentPage == currentPage' && prevPage == prevPage' && nextPage == nextPage'
      ensures isFrontPage == isFrontPage' && isTailPage == isTailPage' && templateFilePath == templateFilePath'
    {
      SetFile(filePath', notFoundFilePath', fileContent', meta', content');
      SetIndex(pages', currentPage', prevPage', nextPage', isFrontPage', isTailPage', templateFilePath');
    }
  }
}
