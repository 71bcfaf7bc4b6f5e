/** The per-document sidebar that `processFiles` builds (main.ts:205-210) from
    the headings the renderer collected, one link per heading. */
module Emitter {
  import opened Markup

  /** A heading as the renderer hook records it: level, text and anchor id. */
  datatype Header = Header(level: int, text: string, id: string)

  const SidebarOpen := "<h2>Headers</h2>\n<ul>\n"
  const SidebarClose := "</ul>"

  /** The list item linking to one heading's anchor. */
  function SidebarItem(h: Header): string {
    "  <li><a href=\"#" + h.id + "\">" + h.text + "</a></li>\n"
  }

  /** One item per heading, in the order the headings were collected. */
  function SidebarItems(headers: seq<Header>): seq<string> {
    Mapped(SidebarItem, headers)
  }

  /** The sidebar: the opening, the items written one after another, the closing. */
  function Sidebar(headers: seq<Header>): string {
    SidebarOpen + Concat(SidebarItems(headers)) + SidebarClose
  }

  /** The `+=` loop of `processFiles`. */
  method BuildSidebar(headers: seq<Header>) returns (sidebarHtml: string)
    ensures sidebarHtml == Sidebar(headers)
  {
    sidebarHtml := SidebarOpen;
    var i := 0;
    while i < |headers|
      invariant 0 <= i <= |headers|
      invariant sidebarHtml == SidebarOpen + Concat(SidebarItems(headers[..i]))
    {
      var item := SidebarItem(headers[i]);
      assert headers[..i + 1] == headers[..i] + [headers[i]];
      MappedSnoc(SidebarItem, headers[..i], headers[i]);
      ConcatAppend(SidebarOpen, SidebarItems(headers[..i]), item);
      sidebarHtml := sidebarHtml + item;
      i := i + 1;
    }
    assert headers[..|headers|] == headers;
    sidebarHtml := sidebarHtml + SidebarClose;
  }

  /** The sidebar holds the opening, then one link per heading in collection
      order, then the closing. */
  lemma SidebarInOrder(headers: seq<Header>)
    ensures InOrder(Sidebar(headers), [SidebarOpen] + SidebarItems(headers) + [SidebarClose])
  {
    Wrapped(SidebarOpen, SidebarItems(headers), SidebarClose);
  }

  /** Each item links to `#id` with the heading text as its label. */
  lemma ItemLinksAnchor(h: Header)
    ensures InOrder(SidebarItem(h), ["<a href=\"#" + h.id + "\">", h.text, "</a>"])
  {
    var link := "<a href=\"#" + h.id + "\">";
    assert "</a></li>\n" == "</a>" + "</li>\n";
    assert SidebarItem(h) == "  <li>" + link + h.text + "</a>" + "</li>\n";
    Adjacent("  <li>", link, h.text, "</a>", "</li>\n");
  }

  /** A document without headings gets an empty list. */
  lemma NoHeadersEmptyList()
    ensures Sidebar([]) == "<h2>Headers</h2>\n<ul>\n</ul>"
  {
  }
}
