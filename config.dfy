/**
  The settings the core reads, with the defaults that `load_config` installs
  (utils.py) and the fixed directory and extension constants of pyco.py.
*/
module Config {
  import PosixPath
  import Text

  const ContentDir: string := "content/"
  const ContentFileExt: string := ".md"

  datatype Settings = Settings(
    notFoundFile: string,      // NOT_FOUND_FILE, without the extension
    siteIndexFile: string,     // SITE_INDEX_FILE, without the extension
    ignoreFiles: seq<string>,  // IGNORE_FILES, paths relative to the content directory
    themeName: string)         // THEME_NAME

  /** What `load_config` falls back to when the settings file is silent. */
  const Defaults: Settings := Settings("404", "index", [], "default")

  function NotFoundFilename(cfg: Settings): string {
    cfg.notFoundFile + ContentFileExt
  }

  function NotFoundFilePath(cfg: Settings): string {
    PosixPath.Join(ContentDir, NotFoundFilename(cfg))
  }

  function SiteIndexFilename(cfg: Settings): string {
    cfg.siteIndexFile + ContentFileExt
  }

  /** `theme_file_path`: a template name inside the theme directory. */
  function ThemeFilePath(cfg: Settings, template: string): string {
    PosixPath.Join(cfg.themeName, template + ".html")
  }

  /** With the defaults, the not-found page is `content/404.md`, the site
      index file is `index.md` and a template `t` is `default/t.html`. */
  lemma DefaultFiles(t: string)
    requires t != [] && t[0] != '/'
    ensures NotFoundFilePath(Defaults) == "content/404.md"
    ensures SiteIndexFilename(Defaults) == "index.md"
    ensures ThemeFilePath(Defaults, t) == "default/" + t + ".html"
  {
    assert NotFoundFilename(Defaults)[0] == '4';
    assert Text.EndsWith(ContentDir, "/");
    assert (t + ".html")[0] == t[0];
    assert !Text.EndsWith("default", "/");
  }
}
