/** The index page of one directory, `generateSubIndexContent`
    (src/templates/subIndex.ts): a header, the subdirectories sorted, the
    `.md` documents sorted and renamed, and a button back to the main index.
    The page is grown by `+=`; both listings are sorted in place. */
module SubIndex {
  import opened Strings
  import opened Ordering
  import opened Markup

  const SubIndexStart := "<!DOCTYPE html>\n<html lang=\"en\" data-theme=\"light\">\n<head>\n<meta charset=\"UTF-8\">\n<meta name=\"viewport\" content=\"width=device-width, initial-scale=1.0\">\n"
  const HeadingStart := "\n</head>\n<body>\n<div class=\"header\">\n<h1>Index of "
  const HeadingEnd := "</h1>\n<button id=\"theme-toggle\" class=\"theme-toggle\">\n<span class=\"theme-toggle-light\">🌙 Dark Mode</span>\n<span class=\"theme-toggle-dark\">☀️ Light Mode</span>\n</button>\n</div>"
  const SubdirsOpen := "\n<h2>Subdirectories</h2>\n<ul class=\"directory-list\">"
  const FilesOpen := "\n<h2 style=\"margin-top:1rem;\">Files</h2>\n<ul class=\"file-list\">"
  const ListClose := "</ul>"
  const NavStart := "\n<div class=\"nav-buttons\">\n"
  /** The theme switch runs in the browser. */
  const SubIndexScript := "<script>/* theme toggle */</script>"
  const SubIndexEnd := "← Back to Main Index</a>\n</div>\n" + SubIndexScript + "\n</body>\n</html>"

  /** The title, the stylesheet and the heading, as the page opens. */
  function Heading(dirPath: string, cssRelativePath: string): string {
    Concat(Weave([SubIndexStart, "\n", HeadingStart, HeadingEnd],
                 [TitleElement("Index of " + dirPath), StylesheetLink(cssRelativePath), dirPath]))
  }

  function SubdirItem(name: string): string {
    "<li>📁 <a href=\"" + name + "/\">" + name + "/</a></li>"
  }

  /** A document's entry: the link has `.md` replaced by `.html`, the label has it removed. */
  function FileItem(name: string): string {
    "<li><a href=\"" + MdToHtml(name) + "\">" + StripMd(name) + "</a></li>"
  }

  function SubdirItems(subDirs: seq<string>): seq<string> {
    Mapped(SubdirItem, subDirs)
  }

  /** The names that end in `.md`, in their order in `files`. */
  function MdNames(files: seq<string>): (names: seq<string>)
    ensures |names| <= |files|
    ensures forall x :: x in names <==> x in files && EndsWith(x, ".md")
  {
    if |files| == 0 then []
    else
      var last := files[|files| - 1];
      assert files == files[..|files| - 1] + [last];
      MdNames(files[..|files| - 1]) + (if EndsWith(last, ".md") then [last] else [])
  }

  function FileItems(names: seq<string>): seq<string> {
    Mapped(FileItem, names)
  }

  /** The subdirectory section: present only when there are subdirectories. */
  function SubdirSection(subDirs: seq<string>): string {
    if |subDirs| == 0 then "" else SubdirsOpen + Concat(SubdirItems(subDirs)) + ListClose
  }

  /** The file section: present whenever the list is non-empty, even when no name ends in `.md`. */
  function FileSection(fileList: seq<string>): string {
    if |fileList| == 0 then "" else FilesOpen + Concat(FileItems(MdNames(fileList))) + ListClose
  }

  function Footer(mainIndexPath: string): string {
    NavStart + BackLink(mainIndexPath) + SubIndexEnd
  }

  /** The whole page for listings that are already in their final order. */
  function SubIndexPage(dirPath: string, cssRelativePath: string, mainIndexPath: string,
                        subDirs: seq<string>, fileList: seq<string>): string {
    Heading(dirPath, cssRelativePath) + SubdirSection(subDirs) + FileSection(fileList) + Footer(mainIndexPath)
  }

  /** The `for ... of subDirs` loop: one entry per name, in array order. */
  method WriteSubdirItems(content: string, subDirs: array<string>) returns (written: string)
    ensures written == content + Concat(SubdirItems(subDirs[..]))
  {
    written := content;
    var i := 0;
    while i < subDirs.Length
      invariant 0 <= i <= subDirs.Length
      invariant written == content + Concat(SubdirItems(subDirs[..i]))
    {
      var item := SubdirItem(subDirs[i]);
      assert subDirs[..i + 1] == subDirs[..i] + [subDirs[i]];
      MappedSnoc(SubdirItem, subDirs[..i], subDirs[i]);
      ConcatAppend(content, SubdirItems(subDirs[..i]), item);
      written := written + item;
      i := i + 1;
    }
    assert subDirs[..subDirs.Length] == subDirs[..];
  }

  lemma MdNamesSnoc(files: seq<string>, name: string)
    ensures MdNames(files + [name]) == MdNames(files) + if EndsWith(name, ".md") then [name] else []
  {
    assert (files + [name])[..|files|] == files;
  }

  /** One turn of the file loop. */
  lemma {:induction false} FileStep(files: seq<string>, name: string)
    ensures EndsWith(name, ".md") ==>
              Concat(FileItems(MdNames(files + [name]))) == Concat(FileItems(MdNames(files))) + FileItem(name)
    ensures !EndsWith(name, ".md") ==>
              Concat(FileItems(MdNames(files + [name]))) == Concat(FileItems(MdNames(files)))
  {
    MdNamesSnoc(files, name);
    var names := MdNames(files);
    if EndsWith(name, ".md") {
      MappedSnoc(FileItem, names, name);
      ConcatSnoc(FileItems(names), FileItem(name));
    } else {
      assert names + [] == names;
    }
  }

  /** The `for ... of fileList` loop: an entry for each `.md` name, in array order. */
  method WriteFileItems(content: string, fileList: array<string>) returns (written: string)
    ensures written == content + Concat(FileItems(MdNames(fileList[..])))
  {
    written := content;
    var i := 0;
    while i < fileList.Length
      invariant 0 <= i <= fileList.Length
      invariant written == content + Concat(FileItems(MdNames(fileList[..i])))
    {
      var fileName := fileList[i];
      assert fileList[..i + 1] == fileList[..i] + [fileName];
      FileStep(fileList[..i], fileName);
      if EndsWith(fileName, ".md") {
        written := written + FileItem(fileName);
        Grouped(content, Concat(FileItems(MdNames(fileList[..i]))), FileItem(fileName), "");
      }
      i := i + 1;
    }
    assert fileList[..fileList.Length] == fileList[..];
  }

  /** Text appended piece by piece is the text appended as one section. */
  lemma Grouped(before: string, open: string, items: string, close: string)
    ensures before + open + items + close == before + (open + items + close)
    ensures before + open + items == before + (open + items)
  {
  }

  /** `generateSubIndexContent`. Sorts both arrays in place and writes the page
      for the sorted listings. The two arrays may even be the same one. */
  method GenerateSubIndexContent(dirPath: string, fileList: array<string>, subCssRelativePath: string,
                                 mainIndexPath: string, subDirs: array<string>)
    returns (subIndexContent: string)
    modifies fileList, subDirs
    ensures Sorted(subDirs[..]) && multiset(subDirs[..]) == old(multiset(subDirs[..]))
    ensures Sorted(fileList[..]) && multiset(fileList[..]) == old(multiset(fileList[..]))
    ensures subIndexContent == SubIndexPage(dirPath, subCssRelativePath, mainIndexPath, subDirs[..], fileList[..])
  {
    var heading := Heading(dirPath, subCssRelativePath);
    subIndexContent := heading;
    if subDirs.Length > 0 {
      subIndexContent := subIndexContent + SubdirsOpen;
      Sort(subDirs);
      subIndexContent := WriteSubdirItems(subIndexContent, subDirs);
      subIndexContent := subIndexContent + ListClose;
      Grouped(heading, SubdirsOpen, Concat(SubdirItems(subDirs[..])), ListClose);
    }
    ghost var subs := subDirs[..];
    ghost var before := subIndexContent;
    assert before == heading + SubdirSection(subs);
    if fileList.Length > 0 {
      subIndexContent := subIndexContent + FilesOpen;
      ghost var filesBefore := fileList[..];
      Sort(fileList);
      if fileList == subDirs {
        SortedUnique(fileList[..], filesBefore);
      }
      subIndexContent := WriteFileItems(subIndexContent, fileList);
      subIndexContent := subIndexContent + ListClose;
      Grouped(before, FilesOpen, Concat(FileItems(MdNames(fileList[..]))), ListClose);
    }
    assert subDirs[..] == subs;
    ghost var files := fileList[..];
    assert subIndexContent == before + FileSection(files);
    subIndexContent := subIndexContent + Footer(mainIndexPath);
  }

  // ---------------------------------------------------------------------------
  // Properties of the page

  /** A sorted list stays sorted when the non-`.md` names are dropped. */
  lemma {:induction false} MdNamesSorted(files: seq<string>)
    requires Sorted(files)
    ensures Sorted(MdNames(files))
  {
    if |files| > 0 {
      var init, last := files[..|files| - 1], files[|files| - 1];
      assert Sorted(init);
      MdNamesSorted(init);
      if EndsWith(last, ".md") {
        var names := MdNames(init);
        forall k | 0 <= k < |names| ensures Below(names[k], last) {
          assert names[k] in init;
          var j :| 0 <= j < |init| && init[j] == names[k];
          assert files[j] == init[j];
        }
      }
    }
  }

  /** The page is the same whatever order the listings arrived in: only their contents matter. */
  lemma PageDependsOnContents(dirPath: string, css: string, mainIndexPath: string,
                              subs1: seq<string>, subs2: seq<string>,
                              files1: seq<string>, files2: seq<string>)
    requires Sorted(subs1) && Sorted(subs2) && multiset(subs1) == multiset(subs2)
    requires Sorted(files1) && Sorted(files2) && multiset(files1) == multiset(files2)
    ensures SubIndexPage(dirPath, css, mainIndexPath, subs1, files1) ==
            SubIndexPage(dirPath, css, mainIndexPath, subs2, files2)
  {
    SortedUnique(subs1, subs2);
    SortedUnique(files1, files2);
  }

  /** Without subdirectories the file section follows the heading directly. */
  lemma NoSubdirsNoSection(dirPath: string, css: string, mainIndexPath: string,
                           subDirs: seq<string>, fileList: seq<string>)
    requires |subDirs| == 0
    ensures SubIndexPage(dirPath, css, mainIndexPath, subDirs, fileList) ==
            Heading(dirPath, css) + FileSection(fileList) + Footer(mainIndexPath)
  {
    assert Heading(dirPath, css) + "" == Heading(dirPath, css);
  }

  /** A non-empty list without any `.md` name still gets the "Files" heading, over an empty list. */
  lemma FilesHeadingWithoutDocuments(fileList: seq<string>)
    requires |fileList| > 0
    requires forall i :: 0 <= i < |fileList| ==> !EndsWith(fileList[i], ".md")
    ensures FileSection(fileList) == FilesOpen + ListClose
  {
    var names := MdNames(fileList);
    assert Concat(FileItems(names)) == "";
  }

  /** Section order: the heading with the directory's title and stylesheet, then the
      subdirectory section when there are subdirectories, then the file section when
      there are files, each listing in its order, then the back button to `mainIndexPath`. */
  lemma SectionOrder(dirPath: string, css: string, mainIndexPath: string,
                     subDirs: seq<string>, fileList: seq<string>)
    ensures InOrder(SubIndexPage(dirPath, css, mainIndexPath, subDirs, fileList),
                    [TitleElement("Index of " + dirPath), StylesheetLink(css), dirPath] +
                    SubdirPieces(subDirs) + FilePieces(fileList) + [BackLink(mainIndexPath)])
  {
    var heading := Heading(dirPath, css);
    var top := [TitleElement("Index of " + dirPath), StylesheetLink(css), dirPath];
    WovenInOrder([SubIndexStart, "\n", HeadingStart, HeadingEnd], top);
    SectionInOrder(SubdirsOpen, SubdirItems(subDirs), SubdirSection(subDirs), SubdirPieces(subDirs));
    SectionInOrder(FilesOpen, FileItems(MdNames(fileList)), FileSection(fileList), FilePieces(fileList));
    var back := BackLink(mainIndexPath);
    InOrderCons(NavStart, back, SubIndexEnd, []);
    assert [back] + [] == [back];
    InOrderAppend(heading, top, SubdirSection(subDirs), SubdirPieces(subDirs));
    InOrderAppend(heading + SubdirSection(subDirs), top + SubdirPieces(subDirs),
                  FileSection(fileList), FilePieces(fileList));
    InOrderAppend(heading + SubdirSection(subDirs) + FileSection(fileList),
                  top + SubdirPieces(subDirs) + FilePieces(fileList),
                  NavStart + back + SubIndexEnd, [back]);
  }

  /** What the subdirectory section shows, in order: nothing, or its heading and one entry per name. */
  function SubdirPieces(subDirs: seq<string>): seq<string> {
    if |subDirs| == 0 then [] else [SubdirsOpen] + SubdirItems(subDirs) + [ListClose]
  }

  /** What the file section shows, in order: nothing, or its heading and one entry per `.md` name. */
  function FilePieces(fileList: seq<string>): seq<string> {
    if |fileList| == 0 then [] else [FilesOpen] + FileItems(MdNames(fileList)) + [ListClose]
  }

  lemma SectionInOrder(open: string, items: seq<string>, section: string, pieces: seq<string>)
    requires (section == "" && pieces == []) ||
             (section == open + Concat(items) + ListClose && pieces == [open] + items + [ListClose])
    ensures InOrder(section, pieces)
  {
    if pieces != [] {
      Wrapped(open, items, ListClose);
    }
  }
}
