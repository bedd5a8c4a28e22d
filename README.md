# pyco, modelled in Dafny

pyco is a flat-file blog written with Flask. A request path is mapped to a
Markdown file under `content/`; the file's leading `/* ... */` block holds
`key: value` headers and the rest is the body. Every request also builds the
page index: a summary of every content file that is not skipped, sorted by date, newest
first. From the index it finds the neighbours of the page being shown, picks
a template, and answers 200, or 404 with the site's not-found page. The
optional pagination plugin cuts the index down to one window of pages.

The project models that core:

- `text.dfy` (`Text`): the Python `str` operations the core relies on.
  These are `startswith`, `endswith`, `split(sep)`, `split(sep, 1)`,
  `lower()`, `strip()` and code-point comparison.
- `posix_path.dfy` (`PosixPath`): `os.path.join`, `dirname` and `basename`
  as `posixpath` defines them.
- `config.dfy` (`Config`): the directory and extension constants, the
  settings the core reads, their `load_config` defaults, and the derived
  file names.
- `resolver.dfy` (`Resolver`): `get_file_path`.
- `splitter.dfy` (`Splitter`): `content_splitter`. Its regular expression
  is modelled by the decomposition it imposes on a file.
- `file_meta.dfy` (`FileMeta`): `parse_file_meta`.
- `page_index.dfy` (`PageIndex`): `get_files` and `get_pages`, including
  the URL of each page and Python's stable `sorted`.
- `view_context.dfy` (`Context`): the per-request dictionary `g.view_ctx`,
  as a class whose fields are its entries.
- `content_view.dfy` (`ContentView`): `ContentView.get`. It covers file
  loading, the 404 path and the abort, the navigation loop, the template
  choice and the status.
- `pagination.dfy` (`Pagination`): `plugins/pagination.py`, that is
  `request_url`, `get_pages` and `page_count`.

How the outside world is modelled:

- The filesystem is a map from path to file text. `os.path.isfile` is
  membership in it.
- The directory walk of `get_files` is a sequence of (path relative to
  `content/`, text) pairs, in walk order.
- The Markdown renderer is a function parameter.
- Python 2 integer division and Python slice bounds are written out.

## Model

| member | source | states |
|---|---|---|
| Text.IndexOf | pyco.py:106 | the first position of the character, or the length when it does not occur |
| Text.Split | pyco.py:105 | `split` gives at least one piece |
| Text.SplitJoins | pyco.py:105 | no piece of `split` contains the separator, and the pieces joined with the separator give the string back |
| Text.SplitUnique | pyco.py:105 | any separator-free pieces that join back to the string are exactly what `split` returns |
| Text.SplitOnceCases | pyco.py:106-107 | `split(":", 1)` gives two pieces iff the line contains a colon; the line is then first piece + colon + second piece, and the first piece has no colon |
| Text.LowerEach | pyco.py:108 | `lower()` keeps the length and lower-cases every character on its own |
| Text.TrimLeftCuts | pyco.py:108 | removes a prefix made only of white space and then stops at a non-space |
| Text.TrimRightCuts | pyco.py:108 | removes a suffix made only of white space and then stops at a non-space |
| Text.StripCuts | pyco.py:108 | the result is a slice of the input; everything cut on either side is white space; the result starts and ends with a non-space |
| Text.LexLeTotal | pyco.py:176 | any two strings are comparable |
| Text.LexLeTransitive | pyco.py:176 | string order is transitive |
| Text.LexLeAntisymmetric | pyco.py:176 | strings ordered both ways are equal |
| Text.LexLeReflexive | pyco.py:176 | every string is ordered with itself |
| PosixPath.SplitPoint | pyco.py:28-29 | the index after the last `/`; no `/` follows it |
| PosixPath.StripTrailingSlashes | pyco.py:28 | removes exactly the trailing run of `/` |
| PosixPath.DirnameAtSlash | pyco.py:28 | the directory of a path whose last `/` has no `/` before it: `/` for a top-level name, otherwise everything before that slash |
| PosixPath.RejoinDirBase | pyco.py:28-31 | a path with no `//` and no trailing `/` has a non-empty base name, and joining its directory and base name gives it back |
| PosixPath.NoDoubleSlashConcat | pyco.py:26 | concatenating two paths without `//` gives none unless the seam is `//` |
| PosixPath.DirOfTrailingSlash | pyco.py:28-31 | `q/` has an empty base name, and its directory is `q` |
| Config.DefaultFiles | utils.py:43-47 | with the default settings the not-found page is `content/404.md`, the site index file `index.md`, and template `t` is `default/t.html` |
| Resolver.GetFilePath | pyco.py:25-40 | the result is an existing file and one of the two candidates; the `.md` candidate wins when it exists; no result iff neither candidate exists |
| Resolver.CandidatesDiffer | pyco.py:33-37 | the `.md` candidate and the `index.md` candidate are never the same path |
| Resolver.ExtensionNotIndex | pyco.py:33-37 | `b.md` is never `join(b, "index.md")` |
| Resolver.IndexOfBase | pyco.py:37 | for a base without a trailing `/`, the index candidate is `base/index.md` |
| Resolver.BaseOfPlainPath | pyco.py:26-31 | a full path without `//` or a trailing `/` is its own base path |
| Resolver.BaseOfTrailingSlash | pyco.py:26-31 | a full path ending in one `/` has the directory without that slash as its base |
| Resolver.UrlCandidates | pyco.py:25-40 | `/d` and `/d/` both try `content/d.md` first and then `content/d/index.md` |
| Resolver.PlainUrlCandidates | pyco.py:25-40 | `/d` tries `content/d.md` and then `content/d/index.md` |
| Resolver.SlashUrlCandidates | pyco.py:25-40 | `/d/` tries `content/d.md` and then `content/d/index.md` |
| Resolver.RootCandidates | pyco.py:25-40 | `/` tries `content.md` and then `content/index.md` |
| Resolver.DoubleSlashLeavesContentDir | pyco.py:26 | a URL starting with `//` resolves outside the content directory, to `/d.md` or `/d/index.md` |
| Splitter.Newlines | pyco.py:94 | a run of n newlines |
| Splitter.LeadingNewlines | pyco.py:94 | the length of the greedy run of newlines at the start |
| Splitter.LastClose | pyco.py:94 | the last position in a range where the meta group can end (`*/` at the start of a line), or none |
| Splitter.MetaStart | pyco.py:94 | the meta group starts after the leading newlines, the `/*` and the newlines after it |
| Splitter.MatchSound | pyco.py:93-99 | a match decomposes the file as newlines, `/*`, newlines, meta lines, `*/`, content; the meta group does not start with a newline; no line of the content starts with `*/` |
| Splitter.MatchDecomposes | pyco.py:94-96 | every admissible close position gives a decomposition of the file |
| Splitter.DecomposesFromPieces | pyco.py:94 | the pieces of a file, placed side by side, give its decomposition |
| Splitter.OpeningPieces | pyco.py:94 | the text before the meta group is the leading newlines, `/*` and the newlines after it |
| Splitter.MetaAfterGap | pyco.py:94 | the greedy newline run leaves the meta group starting with a non-newline |
| Splitter.ContentHasNoClose | pyco.py:94 | after the last close, the content has no line starting with `*/` |
| Splitter.MatchComplete | pyco.py:94-96 | every file of the pattern's shape matches, and the content taken is no longer than in the given shape |
| Splitter.ShapeCloses | pyco.py:94 | in a file of the pattern's shape, the shape's `*/` is a place where the meta group can end |
| Splitter.LeadingNewlinesExact | pyco.py:94 | the newline run ends at the first non-newline |
| Splitter.NoCloseMeansEmpty | pyco.py:96-98 | a file without `*/` splits into two empty strings |
| Splitter.SplitAt | pyco.py:93-99 | the groups are the text between the meta start and the last close, and everything after that close |
| Splitter.SplitExample | pyco.py:93-99 | `"\n/*\nk: v\n*/"` splits into `("k: v\n", "")` |
| Splitter.ExampleOpens | pyco.py:94 | that file opens a block whose meta starts at 4 |
| Splitter.ExampleGroups | pyco.py:94 | that file closes at 9, with meta `k: v\n` and empty content |
| Splitter.CloseOnlyAtLineStart | pyco.py:94 | a `*/` inside a line does not close the block |
| Splitter.InlineOpens | pyco.py:94 | that file opens a block whose meta starts at 2 |
| Splitter.InlineGroups | pyco.py:94 | that file closes only at 9, with meta `a */ b\n` and content `x` |
| FileMeta.Entries | pyco.py:105-108 | one entry per line |
| FileMeta.EntriesEach | pyco.py:105-108 | entry `i` is the one line `i` gives |
| FileMeta.EntryShape | pyco.py:106-108 | a line gives no header iff it has no colon; otherwise the key is the lower-cased text before the first colon and the value is the stripped rest |
| FileMeta.StoreKeys | pyco.py:105-108 | the stored keys are exactly those of the entries |
| FileMeta.StoreLastWins | pyco.py:105-108 | a key holds the value of the last entry that carries it |
| FileMeta.HeadersKeys | pyco.py:101-109 | a key is in the headers iff some line carries it |
| FileMeta.HeadersLastWins | pyco.py:101-109 | a later line with the same key overwrites an earlier one |
| FileMeta.HeadersStep | pyco.py:105-108 | one more line stores its key and stripped value over the headers so far, or changes nothing when it has no colon |
| FileMeta.HeadersKeysAll | pyco.py:101-109 | for every key: it is in the headers iff some line carries it |
| FileMeta.ParseFileMeta | pyco.py:101-109 | the loop computes the headers of `split("\n")`; the keys are exactly those the lines carry |
| FileMeta.EntryExample | pyco.py:106-108 | `Tag: a:b` gives key `tag` and value `a:b` |
| FileMeta.ExampleSplit | pyco.py:106 | `Tag: a:b` splits at its first colon |
| FileMeta.ExampleStrip | pyco.py:108 | ` a:b` strips to `a:b` |
| PageIndex.PageUrl | pyco.py:157-164 | every page URL starts with `/` |
| PageIndex.DropSuffix | pyco.py:158-162 | a present suffix is cut off, otherwise nothing changes; the first character stays |
| PageIndex.PageUrlCases | pyco.py:157-164 | `index.md` gives `/`; `x/index.md` gives `/x`; any other `p.md` gives `/p` |
| PageIndex.SlashIndexSuffix | pyco.py:161-162 | `/stem` ends in `/index` iff the stem is `index` or ends in `/index` |
| PageIndex.PageUrlResolves | pyco.py:157-164 | for a well-formed relative path, the page URL resolves back to the page's own file, by the first candidate or, for an `index.md`, by the second |
| PageIndex.PlainPageResolves | pyco.py:157-159 | `/p` tries `content/p.md` first |
| PageIndex.IndexPageResolves | pyco.py:161-162 | `/x` tries `content/x/index.md` second |
| PageIndex.IndexDirShape | pyco.py:161-162 | the directory `x` of `x/index.md` is non-empty, has no `/` at either end and has no `//` |
| PageIndex.KeptCounts | pyco.py:136-151 | the kept files are the `.md` files that are not skipped, each as many times as listed |
| PageIndex.KeptConcat | pyco.py:144-151 | keeping distributes over concatenation, so the kept files stay in walk order |
| PageIndex.CollectIsKept | pyco.py:143-173 | every kept file gives exactly one summary, built from its path and headers, in walk order |
| PageIndex.CollectPaths | pyco.py:165 | every summary's path is `content/` + some listed relative path |
| PageIndex.CollectDistinct | pyco.py:165 | distinct listed files give summaries with distinct paths |
| PageIndex.SortKey | pyco.py:174-175 | the sort key is `title` or `date`; a requested `title` or `date` is kept |
| PageIndex.WithKeyConcat | pyco.py:176 | the pages with one key value distribute over concatenation |
| PageIndex.InOrderTotal | pyco.py:176 | any two pages can be ordered |
| PageIndex.InOrderTransitive | pyco.py:176 | page order is transitive |
| PageIndex.InOrderSameKey | pyco.py:176 | pages with equal keys may come in either order |
| PageIndex.InsertPermutes | pyco.py:176 | insertion adds exactly one element |
| PageIndex.InsertSorted | pyco.py:176 | insertion keeps a list sorted |
| PageIndex.InsertWithKey | pyco.py:176 | an inserted page goes before every page with its key |
| PageIndex.SortPermutes | pyco.py:176 | the sorted list is a permutation of the input |
| PageIndex.SortSorted | pyco.py:176 | the sorted list is ordered by the key, descending when `reverse` is set |
| PageIndex.SortStable | pyco.py:176 | the pages with any one key value keep their input order, with or without `reverse` |
| PageIndex.InsertDistinct | pyco.py:176 | insertion keeps paths distinct |
| PageIndex.SortDistinct | pyco.py:176 | sorting keeps paths distinct |
| PageIndex.GetPages | pyco.py:141-176 | the loop builds one summary per kept file; the result is the stable sort of those summaries: a permutation, ordered, stable, with distinct paths when the listed files are distinct |
| Context.ViewContext.constructor | pyco.py:274-275 | the request starts with an empty context: every entry absent, empty or false |
| Context.ViewContext.SetFile | pyco.py:205-231 | writes the file entries and nothing else |
| Context.ViewContext.SetIndex | pyco.py:234-254 | writes the page-index, navigation and template entries and nothing else |
| Context.ViewContext.Fill | pyco.py:205-254 | writes every entry `get` sets and nothing else |
| ContentView.Navigate | pyco.py:235-250 | with no current page, everything stays at its default; the front flag iff the first page is current; the tail flag iff the last is; a sole current page is `current`, with its neighbours (or empty pages at the ends) as `prev` and `next` |
| ContentView.TemplateDefault | pyco.py:253-254 | a file without a `template` header line is shown with `post` |
| ContentView.TemplateFromHeader | pyco.py:253-254 | otherwise the template is the value of its last `template` header line |
| ContentView.LoadFile | pyco.py:204-231 | aborts iff neither candidate nor the not-found file exists; otherwise it reads the resolved file, or the not-found file with status 404, then splits it, parses its headers and renders its body |
| ContentView.Get | pyco.py:189-259 | abort 404 iff a content request finds neither file, with only `file_path` written (as `None`); otherwise the context holds the resolved file (or the not-found path), the headers and rendered body of the split of that file's text, the date-sorted newest-first page index and its navigation, the status (404 for the not-found page) and the template (`index`, the `template` header, or `post`); the not-found path is only written for the not-found page, and no entry outside those `get` sets changes |
| Pagination.FloorDiv | plugins/pagination.py:36 | the floor of the quotient, for either sign of the divisor |
| Pagination.PageCount | plugins/pagination.py:35-36 | at least one page |
| Pagination.PageCountIsCeiling | plugins/pagination.py:35-36 | with a positive limit and some pages, the count is the ceiling of total / limit |
| Pagination.PageCountOfEmpty | plugins/pagination.py:35-36 | an empty index has one page |
| Pagination.RequestedPage | plugins/pagination.py:11-14 | at least 1; a page argument of at least 1 is kept; a missing, non-numeric or smaller argument gives 1 |
| Pagination.SliceBound | plugins/pagination.py:27 | a non-negative slice bound is clamped to the length; a negative one counts from the end and stops at 0 |
| Pagination.PySlice | plugins/pagination.py:27 | for non-negative bounds, `s[i:j]` is `s` between the two clamped bounds |
| Pagination.Paginate | plugins/pagination.py:23-31 | the current page is the smaller of the requested page and the page count; the previous flag iff it is above 1; the next flag iff it is below the count |
| Pagination.PaginateSlice | plugins/pagination.py:23-27 | the window is the run of at most `limit` pages starting at `(current-1)*limit`; it is empty iff the index is |
| Pagination.PagesThroughPrefix | plugins/pagination.py:23-27 | windows 1 to k together are the first `k*limit` pages |
| Pagination.WindowOf | plugins/pagination.py:23-27 | window `k` (not clamped) is the slice between the ends of windows `k-1` and `k` |
| Pagination.WindowsPartition | plugins/pagination.py:19-36 | the windows 1 to `page_count`, in order, are exactly the whole index, so every page appears in exactly one window |
| Pagination.RequestUrl | plugins/pagination.py:9-16 | on the site index, it records the requested page number; otherwise it changes nothing |
| Pagination.GetPages | plugins/pagination.py:19-32 | with a non-zero page number of at most `sys.maxint` set, the pages become that page's window and the pagination entry records the clamped page and the two flags; otherwise nothing changes |

## Left out

- Flask plumbing is not modelled. This covers routing, `request`, `abort`, `render_template`, `make_response`, the `before_request` handler beyond the empty context, and the context entries `get_context` copies from the configuration (site title, base URL, author). The rendered output is not modelled either.
- Plugin loading and `run_hook` are not modelled: every hook is a no-op. `Get` therefore never runs the pagination plugin; its two hooks are standalone methods on the same context. The `get_page_data` hook is taken as the identity.
- `load_config` is not modelled, except for the defaults of the settings the core reads. `config.py` is not part of this model.
- For file I/O, `open(...).read().decode("utf8")` is taken as a lookup in the file map, so decoding errors are not modelled. `os.walk` is an input sequence.
- Markdown rendering is an uninterpreted function parameter.
- Text.LowerChar: only ASCII letters are lower-cased. Python's `unicode.lower()` covers every cased letter.
- Text.LexLe: compares code points. A narrow Python 2 build compares UTF-16 code units, which orders characters outside the BMP differently.
- Pagination.RequestedPage: takes the page argument already parsed; `int()` parsing is left out, and a missing or non-numeric argument is `None`.
- Pagination.GetPages: `isinstance(current_page, int)` is modelled as a bound on the number (`sys.maxint` of a 64-bit build), since `int()` of a larger argument gives a `long`; a 32-bit build's smaller `sys.maxint` is not modelled.
- ContentView.Get: writes the context in one step after everything is computed, where the source writes entries as it goes. Only the final state is stated; the hooks that could observe the intermediate states are no-ops here.
- ContentView.Navigate: states the navigation only when the current page occurs once in the index. When several summaries share the served path, later matches of the loop overwrite what earlier ones set; the contract leaves that case open, except for the two flags and the empty-index case.
- A file whose `/*` is never closed: the source's `content_splitter` returns two empty strings, and the model follows the code. Descriptions of pyco that call such a file all body do not match the code.
- Caching is not modelled: `ENABLE_CACHE` only gets a default in `load_config` (utils.py:37), and no code of the core reads it. The `PLUGINS` list is read only by plugin loading, which is left out above.
