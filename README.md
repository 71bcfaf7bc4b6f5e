# my-note-site, modelled in Dafny

`my-note-site` is a static-site generator for a folder of Markdown notes. Each
note becomes an HTML page with a sidebar of its headings and a button meant to
lead back to its folder. Every folder that holds notes gets an index page listing its
subdirectories and notes. A main index page lists the top-level folders.
Folders that hold nothing but images are copied to the output unchanged.

This project models the logic behind those outputs and proves what the pages
contain:

- **Strings** (`strings.dfy`): the JavaScript string operations the generator
  relies on. These are `lastIndexOf`, `endsWith`, ASCII `toLowerCase`,
  `split(/[\\/]/)`, `Array.join` and the two `/\.md$/` replacements.
- **Ordering** (`ordering.dfy`): the order used by `Array.prototype.sort()`
  without a comparator, and an in-place sort of an `array<string>` that
  produces a sorted permutation.
- **Markup** (`markup.dfy`): pages as concatenations of pieces, and `InOrder`
  ("these pieces appear verbatim in this order"), used to state where each
  template argument lands.
- **Images** (`images.dfy`): `isImageFile` and the recursive
  `isImageOnlyDirectory`, over a directory listing given as a tree.
- **Indexer** (`indexer.dfy`): the directory-structure map of
  `generateIndexPages` and its top-level directories.
  - `Index` states what the map holds for a list of relative paths.
  - `BuildStructure` is the `forEach` build with its segment loop, proved equal
    to `Index`.
- **Emitter** (`emitter.dfy`): the per-note sidebar built from the collected
  headings.
- **Page** (`page.dfy`): the note page template `GeneratePage`, together with
  where its back button leads.
- **SubIndex** (`subindex.dfy`): `generateSubIndexContent`, the index page of
  one folder. It sorts both listings in place.
- **Topics** (`topics.dfy`): `GenerateIndex`, the main index page.

The fixed markup of the templates is kept verbatim, with the templates'
indentation reduced to line breaks. The browser scripts the templates embed
are short constant placeholders.

## Model

| member | source | states |
|---|---|---|
| Strings.LastIndexOf | main.ts:48 | The result is -1 exactly when the character is absent. Otherwise the character is at the result, and it does not occur after it. |
| Strings.ToLower | main.ts:48 | Same length as the input. Every character is lower-cased where it stands. |
| Strings.Split | main.ts:235 | There is always at least one part. No part contains `/` or `\`. |
| Strings.JoinSplitSlashed | main.ts:235 | For every path, splitting on `/` and `\` and joining the parts with `/` gives the path with each `\` written as `/`. Together with `SplitJoin`, this fixes the parts of every input. |
| Strings.SplitSlashed | main.ts:235 | A path splits exactly as its form with every `\` written as `/`: both separators cut alike. |
| Strings.SplitAfterSeparator | main.ts:235 | A separator-free piece followed by `/` or `\` is the first part, and the rest splits on its own. |
| Strings.JoinSplit | main.ts:235 | Splitting a `/`-only path and joining the parts with `/` gives the path back. |
| Strings.JoinEnds | main.ts:263 | `parts.join(sep)` starts with the first part and ends with the last. |
| Strings.SplitJoin | main.ts:263 | Joining separator-free parts with `/` and splitting again gives the parts back. |
| Strings.StripMd | src/templates/page.ts:12 | Removes exactly one trailing `.md`. Any other name is unchanged. |
| Strings.MdToHtml | main.ts:192 | A `.md` name becomes the stripped name plus `.html`. Any other name is unchanged. |
| Strings.MdToHtmlInjective | main.ts:192 | Two different `.md` notes never get the same `.html` output name. |
| Ordering.BelowTotal | src/templates/subIndex.ts:32 | Any two strings are comparable in the default sort order. |
| Ordering.BelowTransitive | src/templates/subIndex.ts:32 | The default sort order is transitive. |
| Ordering.BelowAntisymmetric | src/templates/subIndex.ts:32 | Strings that are each below the other are equal. |
| Ordering.SortedUnique | src/templates/subIndex.ts:32 | Two sorted arrangements of the same multiset are the same sequence. So the sort result does not depend on the input order. |
| Ordering.Sort | src/templates/subIndex.ts:32 | `sort()` on an array leaves it sorted and a permutation of its old contents. |
| Images.IsImageFile | main.ts:46-50 | An image name contains a dot, so a bare `png` is never an image. The exact characterisation is `ImageIffEnding`. |
| Images.Extension | main.ts:48 | With a dot, the result is the suffix from the last dot, with no dot after its first character. Without a dot, it is the whole name. |
| Images.ImageIffEnding | main.ts:46-50 | `isImageFile` holds exactly when the lower-cased name ends with one of the seven extensions. |
| Images.NoDotNoImage | main.ts:48-49 | A name without a dot is never an image. |
| Images.CaseInsensitive | main.ts:48 | Lower-casing the name first does not change the answer. |
| Images.LowerExtension | main.ts:48 | Lower-casing commutes with extracting the extension. |
| Images.UpperCaseImage | main.ts:47-49 | `A.PNG` is an image. |
| Images.TextIsNoImage | main.ts:47-49 | `notes.txt` is not an image. |
| Images.IsImageOnlyDirectory | main.ts:53-76 | The scan with early exit returns true exactly when the listing is non-empty and every entry is admissible. Admissible means an image file, an image-only subdirectory, or an entry that is neither file nor directory. |
| Images.CheckEntry | main.ts:60-72 | The loop body's two tests accept an entry exactly when it is admissible. |
| Images.Disqualified | main.ts:60-63 | One inadmissible entry makes the directory not image-only. |
| Images.EmptyNotImageOnly | main.ts:54-75 | An empty directory is never image-only. |
| Images.OrderIrrelevant | main.ts:57 | The answer does not depend on the order in which the directory is listed. |
| Images.OtherEntriesIgnored | main.ts:58-72 | An entry that is neither file nor directory never disqualifies, but it counts as content. |
| Images.NestedNonImageDisqualifies | main.ts:66-71 | A non-image file in a subdirectory disqualifies the parent. |
| Images.NestedImagesQualify | main.ts:66-71 | Images in nested directories keep the parent image-only. |
| Indexer.AddPath | main.ts:233-268 | Processing one path turns the map into `Extend(map, path)`. That adds every `currentPath` key, the segment under each non-empty parent, and the file name under `parts.join('/')`. |
| Indexer.AddSegment | main.ts:240-259 | One turn of the segment loop advances `currentPath`, creates its key, and records the segment under a non-empty parent. |
| Indexer.BuildStructure | main.ts:230-269 | The built map equals `Index(paths)`: per key, the file names in path order and the set of subdirectory names. |
| Indexer.IndexSnoc | main.ts:233 | Adding one more path to the list extends the index by exactly that path. |
| Indexer.TopLevelDirs | main.ts:271-277 | The result is exactly the keys without `/`. |
| Indexer.AncestorsAreKeys | main.ts:245-250 | Every `currentPath` a note passes through is a key of the map. |
| Indexer.KeyIsJoin | main.ts:245 | With non-empty segments, `currentPath` after `i` segments is the first `i` segments joined with `/`. |
| Indexer.AncestorDirectoriesAreKeys | main.ts:240-250 | With non-empty segments, every ancestor directory of a note is a key. |
| Indexer.ChildInParent | main.ts:253-258 | Each directory on a note's path lists the next segment among its subdirectories. |
| Indexer.FileRecorded | main.ts:262-268 | A note inside a directory is filed under its full directory path. |
| Indexer.FiledUnderOwnFolder | main.ts:263-267 | The key a note is filed under starts with the note's top-level folder and ends with its innermost folder. |
| Indexer.RootFileRecordedNowhere | main.ts:262 | A note at the root adds no key and is filed nowhere. |
| Indexer.RepeatedPathAddsNoDirectory | main.ts:249-257 | Listing a path again adds no key and no subdirectory name, because `subDirs` is a set. |
| Indexer.KeyHasSource | main.ts:248-266 | Every key comes from some note's path. |
| Indexer.SegmentsHaveNoSeparator | main.ts:235 | No directory segment contains `/`. |
| Indexer.KeySlash | main.ts:245 | With non-empty segments, the key after the first segment is that segment, and later keys contain `/`. |
| Indexer.TopLevelAreFirstSegments | main.ts:271-277 | With non-empty segments, the top-level keys are exactly the first directories of the notes. |
| Indexer.BackslashPathExample | main.ts:235-236 | `AI\aider.md`, the path form `relative` gives on Windows, has the directory `AI` and the name `aider.md`. |
| Indexer.PathOfPieces | main.ts:235-236 | For a path made of separator-free pieces joined by `/`, the directories are all pieces but the last, and the file name is the last. |
| Indexer.OneLevel | main.ts:240-268 | A note one directory deep contributes its directory as the only key, with no subdirectories and its own name filed there. |
| Indexer.TwoLevels | main.ts:240-268 | A note two directories deep contributes `a` and `a/b` as keys, lists `b` under `a`, and files its name under `a/b`. |
| Indexer.NestedPair | main.ts:233-268 | A note in `a` plus one in `a/b` give exactly two entries: `a` files the first and lists `b`, and `a/b` files the second. |
| Indexer.TwoDocumentsExample | main.ts:233-268 | `a/x.md` and `a/b/y.md` give `{a: [x.md], {b}; a/b: [y.md], {}}`. |
| Emitter.BuildSidebar | main.ts:205-210 | The `+=` loop yields the opening, one item per heading in collection order, then `</ul>`. |
| Emitter.SidebarInOrder | main.ts:205-210 | The opening, every item in heading order, and the closing appear in the sidebar in that order. |
| Emitter.ItemLinksAnchor | main.ts:208 | Each item links to `#id`, with the heading text as its label. |
| Emitter.NoHeadersEmptyList | main.ts:205-210 | A note without headings gets an empty list. |
| Page.ParentIndexPath | src/templates/page.ts:3-5 | With a `/`, the result is the text before the last `/` followed by `/index.html`. Otherwise it is `index.html`. |
| Page.GeneratePage | src/templates/page.ts:7-33 | The page starts and ends with the fixed template. In between, in order: the title (path without `.md`), the stylesheet link, the sidebar, the back button to `ParentIndexPath`, and the rendered body. |
| Page.ParentLinkDoublesFolder | src/templates/page.ts:3-5 | For a note `dir/name`, the back button resolved from the note's folder is `dir/dir/index.html`. |
| Page.ParentLinkMissesIndexPage | src/templates/page.ts:3-5 | A note `dir/name` alone makes the indexer write only `dir`'s index, yet its back button leads to `dir/dir/index.html`. |
| Page.ParentLinkExample | src/templates/page.ts:3-5 | `AI/aider.md` links back to `AI/AI/index.html`, and `AI/AI` is not a key of the index. |
| Page.ParentLinkHitsNamesake | src/templates/page.ts:3-5 | If the folder also holds a same-named subfolder with a note in it, `dir/dir` is an index key. The doubled link then opens that subfolder's index page, which is the wrong page. |
| Page.SlashFreePathLinksFolderIndex | src/templates/page.ts:3-5 | A relative path without `/`, such as a backslash path, gets the intended back button `index.html`. |
| Page.BackslashLinkExample | src/templates/page.ts:3-5 | `AI\aider.md` links back to `index.html`, which resolves to `AI/index.html`, the right page. |
| Page.FolderIndexPath | src/templates/page.ts:3-5 | The corrected back target is the single segment `index.html`. |
| Page.GeneratePageCorrected | src/templates/page.ts:7-33 | Same layout as `GeneratePage`, with the corrected back button. |
| Page.ResolveSegment | src/templates/page.ts:30 | A single-segment link from a page in a folder lands in that folder. |
| Page.CorrectedLinkReachesIndexPage | src/templates/page.ts:3-5 | For every note in a directory, the corrected back button leads to that directory's `index.html`, and the directory is an index key, so that page is written. A root note leads to the main index. |
| SubIndex.MdNames | src/templates/subIndex.ts:43-44 | Keeps exactly the names ending in `.md`, in their order. |
| SubIndex.WriteSubdirItems | src/templates/subIndex.ts:32-34 | The loop appends one entry per subdirectory, in array order. |
| SubIndex.FileStep | src/templates/subIndex.ts:44-47 | A `.md` name adds its entry. Any other name adds nothing. |
| SubIndex.WriteFileItems | src/templates/subIndex.ts:43-48 | The loop appends one entry per `.md` name, in array order. |
| SubIndex.GenerateSubIndexContent | src/templates/subIndex.ts:3-80 | Both arrays end up sorted permutations of their old contents. The result is the page for the sorted listings: the heading, the subdirectory section if there are subdirectories, the file section if the file list is non-empty, then the footer with the back link. |
| SubIndex.MdNamesSorted | src/templates/subIndex.ts:43-44 | Filtering a sorted list keeps it sorted. |
| SubIndex.PageDependsOnContents | src/templates/subIndex.ts:32-43 | The page depends only on the contents of the listings, not on their incoming order. |
| SubIndex.NoSubdirsNoSection | src/templates/subIndex.ts:28 | Without subdirectories, no subdirectory section is written. |
| SubIndex.FilesHeadingWithoutDocuments | src/templates/subIndex.ts:39-49 | A non-empty list without `.md` names still gets the "Files" heading, over an empty list. |
| SubIndex.SectionOrder | src/templates/subIndex.ts:10-55 | The page shows, in order: the title, the stylesheet, the heading with the directory name, each subdirectory entry, each `.md` entry, and the back link to the main index. |
| Topics.Ascending | src/templates/index.ts:22 | A sorted sequence holding exactly the elements of the set. |
| Topics.MinimumExists | src/templates/index.ts:22 | Every non-empty set of strings has a least element in the sort order. |
| Topics.GenerateIndex | src/templates/index.ts:3-51 | The page is the head with the stylesheet link, one topic box per directory in ascending order, then the end. |
| Topics.WriteTopics | src/templates/index.ts:22-25 | The loop appends one topic box per array element, in order. |
| Topics.ArrayFrom | src/templates/index.ts:22 | `Array.from` of a set holds each element once, in some order. |
| Topics.OneTopicPerDirectory | src/templates/index.ts:22 | The sorted list has exactly the set's elements, each once: no two positions hold the same directory. |
| Topics.TopicsInOrder | src/templates/index.ts:10-25 | The stylesheet link, then the topic boxes in ascending order, appear in the page. |
| Topics.TopicLinksIndexPage | src/templates/index.ts:23-24 | Each box links to `dir/index.html`, labelled with the directory name. |
| Topics.TopicsAreIndexedDirectories | main.ts:271-283 | The topics listed are exactly the keys of the index that have no `/`. |
| Topics.EmptyGrid | src/templates/index.ts:20-26 | With no top-level directory, the grid is empty. |

## Left out

- **I/O.** All filesystem I/O is left out: `walk`, `Deno.readDir`, reading and writing files, `ensureDir`, copying, `Deno.exit`. Directory listings and path lists are inputs.
- **Sub-index loop.** The loop that writes one sub-index page per key (main.ts:289-309) is left out. Its page contents are `GenerateSubIndexContent`.
- **Markdown rendering.** markdown-it, the `heading_open` hook, slugify and highlight.js are external libraries. The sidebar takes the collected headings as input, and the page takes the rendered body as input.
- **`@std/path`.** `relative`, `join` and `dirname` are platform-dependent library calls. The stylesheet paths and the main-index path are parameters. On POSIX, `join(dir, "index.html")` is `dir + "/index.html"` for non-empty separator-free names. On Windows, `join` writes `\`, which a browser resolves to the same page. `Index` makes `""` a top-level key for a path with a leading separator. `join` drops the empty segment and gives `index.html` there, where the model gives `/index.html`.
- **Back link of the sub-index pages.** The caller passes `join('/', relative(outputBase, mainIndexPath))`, which on POSIX is `/index.html`, a site-root link, not `../index.html`. On Windows, `join` writes `\index.html`, which a browser resolves to the same page. The model takes the value as a parameter and does not fix it.
- **`copyFolder`.** The un-awaited call only matters for concurrency.
- **CLI and serving.** The `serve` mode and command-line flag parsing are left out.
- **Browser scripts and whitespace.** The embedded browser scripts are short constants. The template indentation is reduced to line breaks, so the fixed text is not byte-identical to the source's.
- Strings.ToLower, Images.IsImageFile: Unicode case: `toLowerCase` is modelled for ASCII only. In full Unicode, only U+212A and U+0130 lower-case into ASCII, and neither can complete one of the seven extensions.
- Ordering.Sort: UTF-16: It compares characters as code points. JavaScript compares UTF-16 code units, which differs only for characters outside the Basic Multilingual Plane.
- Ordering.Sort: algorithm: It is an insertion sort. Only its result is a claim about the source, and that result is unique (`Ordering.SortedUnique`).
- Indexer.BuildStructure: record keys: The map is a plain Dafny map, so keys named like `Object.prototype` members are not special. In the source, `directoryStructure` is a plain object (main.ts:230). For a note `constructor/a.md`, `directoryStructure["constructor"]` is the inherited `Object` function, which is truthy, so no entry is created. The `.files.push` at main.ts:267 then throws a `TypeError`, and main.ts:134-136 ends the run with exit code 1 after the note pages are written and before any index page is. The model instead files the note under `constructor`.
- Indexer.TopLevelDirs: iteration order: It visits keys in an unspecified order rather than in `Object.keys` order. The result is a set, so the order does not matter.
- Images.IsImageOnlyDirectory: recursion: The per-entry tests of the loop body are factored into `CheckEntry`, which recurses into subdirectories. The listing of a subdirectory is part of the tree rather than read through `join(dirPath, name)`.
- Page.Resolve: `.` and `..`: It covers relative links without `.` or `..` segments, which is all the templates produce. It also reads an href as a plain path. The templates insert folder and file names unescaped, so names are taken to be free of `#`, `?` and `%`. A folder `C#` would make the topic link `C#/index.html` open `C` with the fragment `#/index.html`.

## Findings

| source | as written | input that shows it | evidently intended | confidence | as-written member | corrected member |
|---|---|---|---|---|---|---|
| src/templates/page.ts:3-5 | With `/`-separated relative paths, as `relative` gives on POSIX systems, the back button of a note in a folder is `<folder>/index.html`. The link is relative to the note's own folder, so a browser opens `<folder>/<folder>/index.html`. For a lone note that page is not written (`Page.ParentLinkMissesIndexPage`). It is written when the folder holds a same-named subfolder with notes (`Page.ParentLinkHitsNamesake`), and then it is the wrong page. With backslash paths the button is `index.html`, which is correct (`Page.BackslashLinkExample`). | `AI/aider.md` as the only note links back to `AI/AI/index.html`, which is not written. | A link to `index.html` in the note's own folder, which the indexer always writes. | not executed | Page.ParentLinkExample, Page.ParentLinkMissesIndexPage | Page.FolderIndexPath, Page.CorrectedLinkReachesIndexPage |
