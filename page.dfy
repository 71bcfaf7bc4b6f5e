/** The document page template `GeneratePage` (src/templates/page.ts): the
    title, the stylesheet, the sidebar, the back button and the rendered body
    placed in a fixed layout. The indentation of the template and the browser
    script it carries are fixed text and appear here as constants. */
module Page {
  import opened Strings
  import opened Markup
  import Indexer

  const PageStart := "<!DOCTYPE html>\n<html lang=\"en\" data-theme=\"light\">\n<head>\n<meta charset=\"UTF-8\">\n<meta name=\"viewport\" content=\"width=device-width, initial-scale=1.0\">\n"
  const HighlightAssets := "\n<link rel=\"stylesheet\" href=\"https://unpkg.com/@highlightjs/cdn-assets@11.7.0/styles/github-dark.min.css\"/>\n<script src=\"https://unpkg.com/@highlightjs/cdn-assets@11.7.0/highlight.min.js\"></script>\n"
  const SidebarStart := "\n</head>\n<body>\n<div class=\"content-page\">\n<aside class=\"sidebar\">\n"
  const SidebarFooter := "\n<div class=\"sidebar-footer\">\n<button id=\"theme-toggle\" class=\"theme-toggle\">\n<span class=\"theme-toggle-light\">🌙 Dark Mode</span>\n<span class=\"theme-toggle-dark\">☀️ Light Mode</span>\n</button>\n</div>\n</aside>\n<main class=\"main-content\">\n<div class=\"nav-buttons\">\n"
  const BackLabel := "← Back to Parent Folder</a>\n</div>\n"
  /** The theme switch, the smooth scrolling to anchors and the code highlighting run in the browser. */
  const PageScript := "<script>/* theme toggle, smooth scrolling, highlighting */</script>"
  const PageEnd := "\n</main>\n</div>\n" + PageScript + "\n</body>\n</html>"

  /** `parentPath`: with a `/` in the path, the text before the last `/`
      followed by `/index.html`; otherwise `index.html`, backslash paths included. */
  function ParentIndexPath(relativePath: string): (parentPath: string)
    ensures '/' in relativePath ==>
              var k := |parentPath| - |"/index.html"|;
              0 <= k < |relativePath| && parentPath == relativePath[..k] + "/index.html" &&
              relativePath[k] == '/' && forall j :: k < j < |relativePath| ==> relativePath[j] != '/'
    ensures '/' !in relativePath ==> parentPath == "index.html"
  {
    if '/' in relativePath then relativePath[..LastIndexOf(relativePath, '/')] + "/index.html"
    else "index.html"
  }

  /** The template with the back button pointing at `backHref`. */
  function Layout(sidebarHtml: string, htmlContent: string, cssRelativePath: string,
                  relativePath: string, backHref: string): (page: string)
    ensures InOrder(page, [TitleElement(StripMd(relativePath)), StylesheetLink(cssRelativePath),
                           sidebarHtml, BackLink(backHref), htmlContent])
    ensures PageStart <= page && EndsWith(page, PageEnd)
  {
    var fixed := [PageStart, HighlightAssets, SidebarStart, SidebarFooter, BackLabel, PageEnd];
    var args := [TitleElement(StripMd(relativePath)), StylesheetLink(cssRelativePath),
                 sidebarHtml, BackLink(backHref), htmlContent];
    WovenInOrder(fixed, args);
    ConcatEnds(Weave(fixed, args));
    Concat(Weave(fixed, args))
  }

  /** `GeneratePage`: the title is the path without `.md`, the stylesheet is the
      given relative path, and the sidebar, the back button to `ParentIndexPath`
      and the body follow in that order. */
  function GeneratePage(sidebarHtml: string, htmlContent: string, cssRelativePath: string,
                        relativePath: string): (page: string)
    ensures InOrder(page, [TitleElement(StripMd(relativePath)), StylesheetLink(cssRelativePath),
                           sidebarHtml, BackLink(ParentIndexPath(relativePath)), htmlContent])
    ensures PageStart <= page && EndsWith(page, PageEnd)
  {
    Layout(sidebarHtml, htmlContent, cssRelativePath, relativePath, ParentIndexPath(relativePath))
  }

  // ---------------------------------------------------------------------------
  // Where the back button leads

  /** The page a browser opens for a relative link (one without `.` or `..`
      segments, and with no `#`, `?` or `%` in its names) found on a page in
      `folder`: the link's segments appended to the folder's. */
  function Resolve(folder: seq<string>, link: string): string {
    Join(folder + Split(link), "/")
  }

  /** `index.html` is a single segment. */
  lemma IndexHtmlSegment()
    ensures Split("index.html") == ["index.html"]
  {
    IndexHtmlPlain();
    SplitPiece("index.html");
  }

  lemma IndexHtmlPlain()
    ensures forall j :: 0 <= j < |"index.html"| ==> !IsSep("index.html"[j])
  {
    var s := "index.html";
    assert |s| == 10;
    assert s[0] == 'i' && s[1] == 'n' && s[2] == 'd' && s[3] == 'e' && s[4] == 'x';
    assert s[5] == '.' && s[6] == 'h' && s[7] == 't' && s[8] == 'm' && s[9] == 'l';
  }

  lemma ParentOfTwoPieces(dir: string, name: string)
    requires forall j :: 0 <= j < |dir| ==> !IsSep(dir[j])
    requires forall j :: 0 <= j < |name| ==> !IsSep(name[j])
    ensures ParentIndexPath(dir + "/" + name) == dir + "/index.html"
  {
    var page := dir + "/" + name;
    assert page[|dir|] == '/';
    forall j | |dir| < j < |page| ensures page[j] != '/' {
      assert page[j] == name[j - |dir| - 1];
    }
    var k := LastIndexOf(page, '/');
    assert k == |dir|;
    assert page[..k] == dir;
  }

  lemma DirsOfTwoPieces(dir: string, name: string)
    requires forall j :: 0 <= j < |dir| ==> !IsSep(dir[j])
    requires forall j :: 0 <= j < |name| ==> !IsSep(name[j])
    ensures Indexer.Dirs(dir + "/" + name) == [dir]
  {
    var parts := [dir, name];
    assert forall k, j :: 0 <= k < |parts| && 0 <= j < |parts[k]| ==> !IsSep(parts[k][j]) by {
      forall k, j | 0 <= k < |parts| && 0 <= j < |parts[k]| ensures !IsSep(parts[k][j]) {
        if k == 0 { assert parts[k][j] == dir[j]; } else { assert parts[k][j] == name[j]; }
      }
    }
    Indexer.PathOfPieces(parts);
    assert parts[1..] == [name];
    assert Join(parts[1..], "/") == name;
    assert Join(parts, "/") == dir + "/" + name;
    assert parts[..1] == [dir];
  }

  lemma SlashIndexHtml()
    ensures "/index.html" == "/" + "index.html"
  {
  }

  lemma ResolveInFolder(dir: string)
    requires forall j :: 0 <= j < |dir| ==> !IsSep(dir[j])
    ensures Resolve([dir], dir + "/index.html") == dir + "/" + dir + "/index.html"
  {
    var link := dir + "/" + "index.html";
    SlashIndexHtml();
    assert link == dir + "/index.html";
    IndexHtmlSegment();
    SplitAfterPiece(dir, "index.html");
    assert Split(link) == [dir, "index.html"];
    var all := [dir] + [dir, "index.html"];
    assert all[1..] == [dir, "index.html"] && all[1..][1..] == ["index.html"];
    assert Join(all[1..][1..], "/") == "index.html";
    assert Join(all[1..], "/") == dir + "/" + "index.html";
    assert Join(all, "/") == dir + "/" + (dir + "/" + "index.html");
    RegroupLink(dir + "/", dir, "/", "index.html");
  }

  lemma RegroupLink(a: string, b: string, s: string, t: string)
    ensures a + (b + s + t) == a + b + (s + t)
  {
  }

  /** The back button of a document one directory deep, `dir/name`, resolves to
      `dir/dir/index.html`, not to the index page of `dir`. */
  lemma ParentLinkDoublesFolder(dir: string, name: string)
    requires forall j :: 0 <= j < |dir| ==> !IsSep(dir[j])
    requires forall j :: 0 <= j < |name| ==> !IsSep(name[j])
    ensures var page := dir + "/" + name;
            Indexer.Dirs(page) == [dir] &&
            Resolve(Indexer.Dirs(page), ParentIndexPath(page)) == dir + "/" + dir + "/index.html"
  {
    DirsOfTwoPieces(dir, name);
    ParentOfTwoPieces(dir, name);
    ResolveInFolder(dir);
  }

  /** A document `dir/name` alone makes the indexer write an index page for
      `dir` only, yet its back button leads to `dir/dir/index.html`. */
  lemma ParentLinkMissesIndexPage(dir: string, name: string)
    requires dir != ""
    requires forall j :: 0 <= j < |dir| ==> !IsSep(dir[j])
    requires forall j :: 0 <= j < |name| ==> !IsSep(name[j])
    ensures var page := dir + "/" + name;
            Indexer.Index([page]).Keys == {dir} &&
            Resolve(Indexer.Dirs(page), ParentIndexPath(page)) == dir + "/" + dir + "/index.html"
  {
    var page := dir + "/" + name;
    ParentLinkDoublesFolder(dir, name);
    Indexer.OneLevel(page, dir);
    var ps := [page];
    assert ps[..0] == [] && ps[0] == page;
    assert Indexer.Keys(ps) == Indexer.PathKeys(page);
    assert Indexer.Index(ps).Keys == Indexer.Keys(ps);
  }

  /** `AI/aider.md`: the back button leads to `AI/AI/index.html`, a page that is never written. */
  lemma ParentLinkExample()
    ensures Resolve(Indexer.Dirs("AI/aider.md"), ParentIndexPath("AI/aider.md")) == "AI/AI/index.html"
    ensures "AI/AI" !in Indexer.Index(["AI/aider.md"])
  {
    Indexer.ExamplePieces();
    ParentLinkMissesIndexPage("AI", "aider.md");
    ExampleNames();
  }

  lemma ExampleNames()
    ensures "AI" + "/" + "aider.md" == "AI/aider.md"
    ensures "AI" + "/" + "AI" + "/index.html" == "AI/AI/index.html"
    ensures "AI" != "AI/AI"
  {
  }

  /** The doubled folder does exist when the folder holds a subfolder of its own
      name with a document in it: the link then opens that subfolder's index page. */
  lemma ParentLinkHitsNamesake(dir: string, name: string, other: string)
    requires forall j :: 0 <= j < |dir| ==> !IsSep(dir[j])
    requires forall j :: 0 <= j < |name| ==> !IsSep(name[j])
    requires forall j :: 0 <= j < |other| ==> !IsSep(other[j])
    ensures var paths := [dir + "/" + name, dir + "/" + dir + "/" + other];
            Resolve(Indexer.Dirs(paths[0]), ParentIndexPath(paths[0])) == dir + "/" + dir + "/index.html" &&
            dir + "/" + dir in Indexer.Index(paths)
  {
    var paths := [dir + "/" + name, dir + "/" + dir + "/" + other];
    ParentLinkDoublesFolder(dir, name);
    DirsOfThreePieces(dir, other);
    Indexer.FileRecorded(paths, 1);
    var d := [dir, dir];
    assert d[1..] == [dir];
    assert Join(d, "/") == dir + "/" + dir;
  }

  lemma DirsOfThreePieces(dir: string, other: string)
    requires forall j :: 0 <= j < |dir| ==> !IsSep(dir[j])
    requires forall j :: 0 <= j < |other| ==> !IsSep(other[j])
    ensures Indexer.Dirs(dir + "/" + dir + "/" + other) == [dir, dir]
  {
    var parts := [dir, dir, other];
    assert forall k, j :: 0 <= k < |parts| && 0 <= j < |parts[k]| ==> !IsSep(parts[k][j]) by {
      forall k, j | 0 <= k < |parts| && 0 <= j < |parts[k]| ensures !IsSep(parts[k][j]) {
        if k < 2 { assert parts[k][j] == dir[j]; } else { assert parts[k][j] == other[j]; }
      }
    }
    Indexer.PathOfPieces(parts);
    assert parts[1..][1..] == [other] && Join(parts[1..][1..], "/") == other;
    assert Join(parts[1..], "/") == dir + "/" + other;
    assert Join(parts, "/") == dir + "/" + dir + "/" + other;
    assert parts[..2] == [dir, dir];
  }

  /** A path without `/`, as the backslash paths `relative` gives on Windows,
      gets the intended back button: the folder's own index page. */
  lemma SlashFreePathLinksFolderIndex(relativePath: string)
    requires '/' !in relativePath
    ensures ParentIndexPath(relativePath) == FolderIndexPath(relativePath)
  {
  }

  /** `AI\aider.md` links back to `index.html`, which resolves to `AI/index.html`. */
  lemma BackslashLinkExample()
    ensures ParentIndexPath("AI\\aider.md") == "index.html"
    ensures Resolve(Indexer.Dirs("AI\\aider.md"), ParentIndexPath("AI\\aider.md")) == "AI/index.html"
  {
    BackslashParent();
    Indexer.BackslashPathExample();
    ResolveInOwnFolder("AI");
    ExampleIndexPath();
  }

  lemma ExampleIndexPath()
    ensures "AI" + "/index.html" == "AI/index.html"
  {
  }

  lemma BackslashParent()
    ensures ParentIndexPath("AI\\aider.md") == "index.html"
  {
    Indexer.ExamplePieces();
    assert "AI\\aider.md" == "AI" + ['\\'] + "aider.md";
    BackslashOnly("AI", "aider.md");
  }

  lemma ResolveInOwnFolder(dir: string)
    ensures Resolve([dir], "index.html") == dir + "/index.html"
  {
    IndexHtmlSegment();
    ResolveSegment([dir], "index.html");
    SlashIndexHtml();
  }

  lemma BackslashOnly(dir: string, name: string)
    requires forall j :: 0 <= j < |dir| ==> !IsSep(dir[j])
    requires forall j :: 0 <= j < |name| ==> !IsSep(name[j])
    ensures '/' !in dir + ['\\'] + name
  {
    var s := dir + ['\\'] + name;
    forall j | 0 <= j < |s| ensures s[j] != '/' {
      if j < |dir| { assert s[j] == dir[j]; } else if j > |dir| { assert s[j] == name[j - |dir| - 1]; }
    }
  }

  /** The back button as evidently intended: the index page of the folder holding the document. */
  function FolderIndexPath(relativePath: string): (parentPath: string)
    ensures Split(parentPath) == [parentPath] && EndsWith(parentPath, "index.html")
  {
    IndexHtmlSegment();
    "index.html"
  }

  /** `GeneratePage` with the intended back button. */
  function GeneratePageCorrected(sidebarHtml: string, htmlContent: string, cssRelativePath: string,
                                 relativePath: string): (page: string)
    ensures InOrder(page, [TitleElement(StripMd(relativePath)), StylesheetLink(cssRelativePath),
                           sidebarHtml, BackLink(FolderIndexPath(relativePath)), htmlContent])
    ensures PageStart <= page && EndsWith(page, PageEnd)
  {
    Layout(sidebarHtml, htmlContent, cssRelativePath, relativePath, FolderIndexPath(relativePath))
  }

  /** A single-segment link from a page in `folder` lands in that folder. */
  lemma ResolveSegment(folder: seq<string>, link: string)
    requires Split(link) == [link]
    ensures |folder| == 0 ==> Resolve(folder, link) == link
    ensures |folder| > 0 ==> Resolve(folder, link) == Join(folder, "/") + "/" + link
  {
    if |folder| > 0 {
      Indexer.JoinSnoc(folder, link);
    } else {
      assert folder + [link] == [link];
    }
  }

  /** The corrected back button of every document inside a directory leads to
      the index page of that directory, and the indexer has a key for it, so
      that page is generated. A document at the root leads to the main index. */
  lemma CorrectedLinkReachesIndexPage(paths: seq<string>, n: nat)
    requires n < |paths|
    ensures var d := Indexer.Dirs(paths[n]);
            var target := Resolve(d, FolderIndexPath(paths[n]));
            (|d| == 0 ==> target == FolderIndexPath(paths[n])) &&
            (|d| > 0 ==> target == Join(d, "/") + "/" + FolderIndexPath(paths[n]) &&
                         Join(d, "/") in Indexer.Index(paths))
  {
    var d := Indexer.Dirs(paths[n]);
    ResolveSegment(d, FolderIndexPath(paths[n]));
    if |d| > 0 {
      Indexer.FileRecorded(paths, n);
    }
  }
}
