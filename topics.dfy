/** The main index page, `GenerateIndex` (src/templates/index.ts): one topic box
    per top-level directory, in sorted order, each linking to that directory's
    index page. */
module Topics {
  import opened Ordering
  import opened Markup
  import Indexer

  const IndexStart := "<!DOCTYPE html>\n<html lang=\"en\" data-theme=\"light\">\n<head>\n<meta charset=\"UTF-8\">\n<meta name=\"viewport\" content=\"width=device-width, initial-scale=1.0\">\n"
  const GridStart := "\n</head>\n<body>\n<div class=\"header\">\n<h1>Topics</h1>\n<button id=\"theme-toggle\" class=\"theme-toggle\">\n<span class=\"theme-toggle-light\">🌙 Dark Mode</span>\n<span class=\"theme-toggle-dark\">☀️ Light Mode</span>\n</button>\n</div>\n<div class=\"topic-grid\">"
  /** The theme switch runs in the browser. */
  const IndexScript := "<script>/* theme toggle */</script>"
  const IndexEnd := "\n</div>\n" + IndexScript + "\n</body>\n</html>"

  /** The page up to the opening of the topic grid. */
  function IndexHead(mainCssRelativePath: string): string {
    IndexStart + TitleElement("Main Index") + "\n" + StylesheetLink(mainCssRelativePath) + GridStart
  }

  /** `join(dir, "index.html")` for a directory name without separators. */
  function DirIndexPath(dir: string): string {
    dir + "/index.html"
  }

  function TopicItem(dir: string): string {
    "<div class=\"topic-box\"><a href=\"" + DirIndexPath(dir) + "\">" + dir + "</a></div>"
  }

  function TopicItems(dirs: seq<string>): seq<string> {
    Mapped(TopicItem, dirs)
  }

  /** The page for topics already in their final order. */
  function IndexPage(mainCssRelativePath: string, topics: seq<string>): string {
    IndexHead(mainCssRelativePath) + Concat(TopicItems(topics)) + IndexEnd
  }

  /** The smallest element of a non-empty set in string order. */
  lemma {:induction false} MinimumExists(s: set<string>)
    requires s != {}
    ensures exists m :: m in s && forall x :: x in s ==> Below(m, x)
    decreases |s|
  {
    var y :| y in s;
    if s == {y} {
      BelowReflexive(y);
      assert forall x :: x in s ==> x == y;
      assert y in s && forall x :: x in s ==> Below(y, x);
    } else {
      MinimumExists(s - {y});
      var m :| m in s - {y} && forall x :: x in s - {y} ==> Below(m, x);
      LesserOfTwo(s, y, m);
    }
  }

  /** The minimum of a set is the lesser of one element and the minimum of the others. */
  lemma LesserOfTwo(s: set<string>, y: string, m: string)
    requires y in s && m in s - {y}
    requires forall x :: x in s - {y} ==> Below(m, x)
    ensures exists r :: r in s && forall x :: x in s ==> Below(r, x)
  {
    BelowTotal(m, y);
    if Below(m, y) {
      assert forall x :: x in s ==> Below(m, x);
    } else {
      forall x | x in s ensures Below(y, x) {
        if x == y {
          BelowReflexive(y);
        } else {
          BelowTransitive(y, m, x);
        }
      }
      assert y in s;
    }
  }

  /** The elements of a set in ascending string order: the order `sort()` puts
      `Array.from(topLevelDirs)` in, whatever order the set listed them in. */
  ghost function Ascending(s: set<string>): (r: seq<string>)
    ensures Sorted(r)
    ensures multiset(r) == multiset(s)
    decreases |s|
  {
    if s == {} then []
    else
      MinimumExists(s);
      var m :| m in s && forall x :: x in s ==> Below(m, x);
      var rest := Ascending(s - {m});
      assert multiset(s) == multiset{m} + multiset(s - {m});
      MinimumFirst(m, s - {m}, rest);
      [m] + rest
  }

  /** A string below all elements of a set may precede a sorted arrangement of it. */
  lemma MinimumFirst(m: string, s: set<string>, rest: seq<string>)
    requires forall x :: x in s ==> Below(m, x)
    requires Sorted(rest) && multiset(rest) == multiset(s)
    ensures Sorted([m] + rest)
  {
    forall j | 0 <= j < |rest| ensures Below(m, rest[j]) {
      assert rest[j] in multiset(s);
    }
    var r := [m] + rest;
    forall a, b | 0 <= a < b < |r| ensures Below(r[a], r[b]) {
      if a > 0 {
        assert r[a] == rest[a - 1] && r[b] == rest[b - 1];
      }
    }
  }

  /** `GenerateIndex`: lists the set, sorts the list, and writes one topic box per directory. */
  method GenerateIndex(mainCssRelativePath: string, topLevelDirs: set<string>) returns (mainIndexContent: string)
    ensures mainIndexContent == IndexPage(mainCssRelativePath, Ascending(topLevelDirs))
  {
    var listed := ArrayFrom(topLevelDirs);
    Sort(listed);
    SortedUnique(listed[..], Ascending(topLevelDirs));
    mainIndexContent := WriteTopics(IndexHead(mainCssRelativePath), listed);
    mainIndexContent := mainIndexContent + IndexEnd;
  }

  /** The loop over the sorted directories, appending one topic box each. */
  method WriteTopics(content: string, dirs: array<string>) returns (written: string)
    ensures written == content + Concat(TopicItems(dirs[..]))
  {
    var ds := dirs[..];
    written := content;
    var i := 0;
    while i < |ds|
      invariant 0 <= i <= |ds|
      invariant written == content + Concat(TopicItems(ds[..i]))
    {
      var item := TopicItem(ds[i]);
      assert ds[..i + 1] == ds[..i] + [ds[i]];
      MappedSnoc(TopicItem, ds[..i], ds[i]);
      ConcatAppend(content, TopicItems(ds[..i]), item);
      written := written + item;
      i := i + 1;
    }
    assert ds[..|ds|] == ds;
  }

  /** `Array.from(topLevelDirs)`: a new array holding each element of the set once,
      in an order the model leaves open. */
  method ArrayFrom(s: set<string>) returns (a: array<string>)
    ensures fresh(a)
    ensures multiset(a[..]) == multiset(s)
  {
    var listed: seq<string> := [];
    var remaining := s;
    while remaining != {}
      invariant remaining <= s
      invariant multiset(listed) + multiset(remaining) == multiset(s)
      invariant forall x :: x in listed ==> x !in remaining
      decreases |remaining|
    {
      var d :| d in remaining;
      assert multiset(remaining) == multiset(remaining - {d}) + multiset{d};
      listed := listed + [d];
      remaining := remaining - {d};
    }
    a := new string[|listed|](i requires 0 <= i < |listed| => listed[i]);
    assert a[..] == listed;
  }

  // ---------------------------------------------------------------------------
  // Properties of the page

  /** One topic per directory: the sorted list holds every directory of the set exactly once. */
  lemma OneTopicPerDirectory(s: set<string>)
    ensures |Ascending(s)| == |s|
    ensures forall d :: d in s <==> d in Ascending(s)
    ensures Distinct(Ascending(s))
    ensures forall i, j :: 0 <= i < j < |Ascending(s)| ==> Ascending(s)[i] != Ascending(s)[j]
  {
    var r := Ascending(s);
    assert |r| == |multiset(r)| == |multiset(s)| == |s|;
    forall d ensures d in s <==> d in r {
      assert d in r <==> d in multiset(r);
    }
    forall x ensures multiset(r)[x] <= 1 {
    }
    forall i, j | 0 <= i < j < |r| ensures r[i] != r[j] {
      DistinctAt(r, i, j);
    }
  }

  /** The topic boxes appear in ascending order, one per directory, after the
      stylesheet link and before the end of the grid. */
  lemma TopicsInOrder(css: string, s: set<string>)
    ensures InOrder(IndexPage(css, Ascending(s)), [StylesheetLink(css)] + TopicItems(Ascending(s)))
  {
    Headed(IndexStart + TitleElement("Main Index") + "\n", StylesheetLink(css), GridStart,
           TopicItems(Ascending(s)), IndexEnd);
  }

  /** Each topic box links to the directory's `index.html`, labelled with the directory name. */
  lemma TopicLinksIndexPage(dir: string)
    ensures DirIndexPath(dir) == dir + "/index.html"
    ensures InOrder(TopicItem(dir), ["<a href=\"" + DirIndexPath(dir) + "\">", dir, "</a>"])
  {
    var link := "<a href=\"" + DirIndexPath(dir) + "\">";
    assert "</a></div>" == "</a>" + "</div>";
    assert TopicItem(dir) == "<div class=\"topic-box\">" + link + dir + "</a>" + "</div>";
    Adjacent("<div class=\"topic-box\">", "<a href=\"" + DirIndexPath(dir) + "\">", dir, "</a>", "</div>");
  }

  /** The topics listed for a set of notes are exactly the separator-free
      directories of the index, each of which gets an index page of its own. */
  lemma TopicsAreIndexedDirectories(paths: seq<string>)
    ensures forall d :: d in Ascending(Indexer.TopLevel(Indexer.Index(paths))) <==>
                        d in Indexer.Index(paths) && '/' !in d
  {
    OneTopicPerDirectory(Indexer.TopLevel(Indexer.Index(paths)));
  }

  /** With no top-level directory the grid is empty. */
  lemma EmptyGrid(css: string)
    ensures IndexPage(css, Ascending({})) == IndexHead(css) + IndexEnd
  {
    NoTopics();
    EmptyListing(IndexHead(css), IndexEnd);
  }

  lemma NoTopics()
    ensures TopicItems(Ascending({})) == []
  {
    assert Ascending({}) == [];
  }
}
