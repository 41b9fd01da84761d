/** The HTML writers as the engine runs them: each appends to an output
    string and saves files as it goes. Every method is proved to produce
    exactly what the page functions of `Pages` describe, so the properties
    proved there hold of what the writers save. The output string passed by
    reference is an argument and a result; the files saved are a map from
    path (relative to the document root) to content. */
module Renderer {
  import opened FString
  import opened Records
  import opened Badges
  import opened Sorting
  import opened Pages

  /** Appending three pieces one after another is appending them together. */
  lemma Regroup(a: string, b: string, c: string, d: string)
    ensures a + b + c + d == a + (b + c + d)
    ensures a + b + c == a + (b + c)
  {
  }

  /** The pin loop of EdGraphTableHTML over one of a graph's pin maps: the
      keys in order, each looked up, a missing entry skipped; the page gets
      a row per pin and the blueprint table a summary per pin. */
  method PinTablesHTML(pins: PinMap) returns (rows: string, summary: string)
    ensures rows == PinRows(pins.keys, pins.entries)
    ensures summary == PinSummaries(pins.keys, pins.entries)
  {
    var keys := pins.keys;
    rows, summary := "", "";
    for i := 0 to |keys|
      invariant rows == PinRows(keys[..i], pins.entries)
      invariant summary == PinSummaries(keys[..i], pins.entries)
    {
      assert keys[..i + 1][..i] == keys[..i];
      if keys[i] in pins.entries {
        var p := pins.entries[keys[i]];
        rows := rows + PinRow(p);
        summary := summary + PinSummary(p);
      }
    }
    assert keys[..|keys|] == keys;
  }

  /** The to-do lines of a graph page, one per entry. */
  method TodoHTML(out: string, todos: seq<string>) returns (out': string)
    ensures out' == out + TodoLines(todos)
  {
    out' := out;
    for i := 0 to |todos|
      invariant out' == out + TodoLines(todos[..i])
    {
      assert todos[..i + 1][..i] == todos[..i];
      out' := out' + todos[i] + "</br>";
    }
    assert todos[..|todos|] == todos;
  }

  /** Title, tooltip, category and to-do list of a graph page. */
  method GraphTopHTML(g: EdGraphDocument) returns (top: string)
    ensures top == GraphPageTop(g)
  {
    top := Heading(1, g.name) + ReplaceHTMLReturenCode(g.toolTips) + "</br>"
      + Heading(2, "Category") + g.category + "</br>";
    if |g.todoList| > 0 {
      top := TodoHTML(top + Heading(2, "Todo"), g.todoList);
    }
  }

  /** A heading and badge lines, appended only when there are lines. */
  method SectionHTML(out: string, title: string, lines: string) returns (out': string)
    ensures out' == out + OptionalSection(title, lines)
  {
    out' := out;
    if lines != "" {
      out' := out' + Heading(2, title) + lines;
    }
  }

  /** One Input or Output table of a graph page, and the summary cell text. */
  method PinSectionHTML(out: string, title: string, pins: PinMap) returns (out': string, summary: string)
    ensures out' == out + PinSection(title, pins)
    ensures summary == PinSummaries(pins.keys, pins.entries)
  {
    var rows;
    rows, summary := PinTablesHTML(pins);
    out' := out + (Heading(2, title) + PinTableHeader + rows + TableFooter);
  }

  /** The body of a graph's own page, and the Input and Output summaries
      gathered on the way. */
  method GraphPageHTML(g: EdGraphDocument, m: FunctionFlagMasks) returns (page: string, inSummary: string, outSummary: string)
    ensures page == GraphPage(g, m)
    ensures inSummary == PinSummaries(g.input.keys, g.input.entries)
    ensures outSummary == PinSummaries(g.output.keys, g.output.entries)
  {
    var access, net, flags := AccessLines(g, m), NetLines(g, m), FlagLines(g, m);
    page := GraphTopHTML(g);
    ghost var top := page;
    page := SectionHTML(page, "Access", access);
    page := SectionHTML(page, "Net", net);
    page := SectionHTML(page, "FunctionFlag", flags);
    Regroup(top, OptionalSection("Access", access), OptionalSection("Net", net), OptionalSection("FunctionFlag", flags));
    ghost var withBadges := page;
    page, inSummary := PinSectionHTML(page, "Input", g.input);
    page, outSummary := PinSectionHTML(page, "Output", g.output);
    Regroup(withBadges, PinSection("Input", g.input), PinSection("Output", g.output), "");
  }

  /** One graph of EdGraphTableHTML's loop: the body of the graph's own page
      and the graph's row in the blueprint's table. */
  method GraphHTML(g: EdGraphDocument, m: FunctionFlagMasks) returns (page: string, row: string)
    ensures page == GraphPage(g, m)
    ensures row == GraphRow(g, m)
  {
    var inSummary, outSummary;
    page, inSummary, outSummary := GraphPageHTML(g, m);
    var access, net, flags := AccessLines(g, m), NetLines(g, m), FlagLines(g, m);
    var link := "<td>" + Href(GraphFileName(g)) + " target=\"document\">" + g.name + "</a></td>\n";
    assert link == LinkCell(g);
    var tail := Cell(ReplaceHTMLReturenCode(g.toolTips)) + Cell(inSummary) + Cell(outSummary)
      + Cell(net) + Cell(flags) + "</tr>\n";
    assert tail == RowTail(g, m);
    row := "<tr>" + Cell(g.category) + Cell(access) + link + tail;
  }

  /** One more graph: one more row and one more page saved. */
  lemma GraphTableStep(files: map<string, string>, gs: seq<EdGraphDocument>, i: nat, m: FunctionFlagMasks)
    requires i < |gs|
    ensures GraphRows(gs[..i + 1], m) == GraphRows(gs[..i], m) + GraphRow(gs[i], m)
    ensures WriteGraphPages(files, gs[..i + 1], m)
            == WriteGraphPages(files, gs[..i], m)[GraphPagePath(gs[i]) := GraphPageFile(m)(gs[i])]
  {
    var p := gs[..i + 1];
    assert p[..|p| - 1] == gs[..i] && p[|p| - 1] == gs[i];
    WriteEachStep(files, gs, i, GraphPagePath, GraphPageFile(m));
  }

  /** One more item saved by WriteEach. */
  lemma WriteEachStep<T>(files: map<string, string>, xs: seq<T>, i: nat, path: T -> string, content: T -> string)
    requires i < |xs|
    ensures WriteEach(files, xs[..i + 1], path, content) == WriteEach(files, xs[..i], path, content)[path(xs[i]) := content(xs[i])]
  {
    var p := xs[..i + 1];
    assert p[..|p| - 1] == xs[..i] && p[|p| - 1] == xs[i];
  }

  /** Graph `i` of EdGraphTableHTML's loop: its row appended and its page saved. */
  method GraphTableEntryHTML(out: string, files: map<string, string>, gs: seq<EdGraphDocument>, i: nat,
                             m: FunctionFlagMasks, cur: string, saved: map<string, string>)
    returns (cur': string, saved': map<string, string>)
    requires i < |gs|
    requires cur == out + GraphTableHeader + GraphRows(gs[..i], m) && saved == WriteGraphPages(files, gs[..i], m)
    ensures cur' == out + GraphTableHeader + GraphRows(gs[..i + 1], m)
    ensures saved' == WriteGraphPages(files, gs[..i + 1], m)
  {
    var page, row := GraphHTML(gs[i], m);
    GraphTableStep(files, gs, i, m);
    assert GraphPageFile(m)(gs[i]) == HTMLPage(page);
    Regroup(out + GraphTableHeader, GraphRows(gs[..i], m), row, "");
    saved' := saved[GraphPagePath(gs[i]) := HTMLPage(page)];
    cur' := cur + row;
  }

  /** EdGraphTableHTML: appends the table of the graphs to `out` and saves
      one page per graph, in order. */
  method EdGraphTableHTML(out: string, gs: seq<EdGraphDocument>, m: FunctionFlagMasks,
                          files: map<string, string>)
    returns (out': string, files': map<string, string>)
    ensures out' == out + GraphTable(gs, m)
    ensures files' == WriteGraphPages(files, gs, m)
  {
    out' := out + GraphTableHeader;
    files' := files;
    for i := 0 to |gs|
      invariant out' == out + GraphTableHeader + GraphRows(gs[..i], m)
      invariant files' == WriteGraphPages(files, gs[..i], m)
    {
      out', files' := GraphTableEntryHTML(out, files, gs, i, m, out', files');
    }
    assert gs[..|gs|] == gs;
    Regroup(out, GraphTableHeader, GraphRows(gs, m), "</table>\n");
    out' := out' + "</table>\n";
  }

  /** One more property: one more row. */
  lemma PropertyTableStep(ps: seq<PropertyDocument>, i: nat, m: PropertyFlagMasks)
    requires i < |ps|
    ensures PropertyRows(ps[..i + 1], m) == PropertyRows(ps[..i], m) + PropertyRow(ps[i], m)
  {
    assert ps[..i + 1][..i] == ps[..i];
  }

  /** The appends for one property's row, a cell at a time. */
  method PropertyRowHTML(out: string, p: PropertyDocument, m: PropertyFlagMasks) returns (out': string)
    ensures out' == out + PropertyRow(p, m)
  {
    var flags := PropertyFlagCell(p.propertyFlg, m);
    var net := PropertyNetCell(p.propertyFlg, p.lifetimeCondition, m);
    var access := PropertyAccessCell(p.propertyFlg, m);
    // `row` is what this method has appended so far: out' == out + row.
    ghost var row := "<tr>";
    out' := out + "<tr>";
    Regroup(out, row, Cell(p.category), "");
    out' := out' + Cell(p.category);
    row := row + Cell(p.category);
    Regroup(out, row, Cell(access), "");
    out' := out' + Cell(access);
    row := row + Cell(access);
    Regroup(out, row, Cell(p.typeName), "");
    out' := out' + Cell(p.typeName);
    row := row + Cell(p.typeName);
    Regroup(out, row, Cell(p.name), "");
    out' := out' + Cell(p.name);
    row := row + Cell(p.name);
    Regroup(out, row, Cell(ReplaceHTMLReturenCode(p.toolTips)), "");
    out' := out' + Cell(ReplaceHTMLReturenCode(p.toolTips));
    row := row + Cell(ReplaceHTMLReturenCode(p.toolTips));
    Regroup(out, row, Cell(net), "");
    out' := out' + Cell(net);
    row := row + Cell(net);
    Regroup(out, row, Cell(flags), "");
    out' := out' + Cell(flags);
    row := row + Cell(flags);
    Regroup(out, row, "</tr>\n", "");
    out' := out' + "</tr>\n";
    row := row + "</tr>\n";
  }

  /** PropertiesTableHTML: appends the table of the properties to `out`. */
  method PropertiesTableHTML(out: string, ps: seq<PropertyDocument>, m: PropertyFlagMasks) returns (out': string)
    ensures out' == out + PropertyTable(ps, m)
  {
    out' := out + PropertyTableHeader;
    for i := 0 to |ps|
      invariant out' == out + PropertyTableHeader + PropertyRows(ps[..i], m)
    {
      PropertyTableStep(ps, i, m);
      Regroup(out + PropertyTableHeader, PropertyRows(ps[..i], m), PropertyRow(ps[i], m), "");
      out' := PropertyRowHTML(out', ps[i], m);
    }
    assert ps[..|ps|] == ps;
    Regroup(out, PropertyTableHeader, PropertyRows(ps, m), "</table>\n");
    out' := out' + "</table>\n";
  }

  /** The page of one blueprint (from its sorted copy) and the graph pages
      saved while it is written. */
  method BlueprintHTML(v: BlueprintDocument, m: FlagMasks, files: map<string, string>)
    returns (body: string, files': map<string, string>)
    ensures body == BlueprintPage(v, m)
    ensures files' == WriteGraphPages(WriteGraphPages(WriteGraphPages(files, v.events, m.func), v.macros, m.func), v.functions, m.func)
  {
    body := Heading(1, v.name) + v.toolTips + "</br>"
      + Heading(2, "ContentPath") + v.contentPath + "</br>"
      + Heading(2, "Parent") + v.parentName + "</br>";
    body, files' := EdGraphTableHTML(body + Heading(2, "EventGraph"), v.events, m.func, files);
    body, files' := EdGraphTableHTML(body + Heading(2, "MacroGraph"), v.macros, m.func, files');
    body, files' := EdGraphTableHTML(body + Heading(2, "Functions"), v.functions, m.func, files');
    body := PropertiesTableHTML(body + Heading(2, "Property"), v.properties, m.prop);
  }

  /** One blueprint of DocumentToHTML's loop: its graph pages and its page. */
  method WriteBlueprintHTML(bp: BlueprintDocument, m: FlagMasks, files: map<string, string>)
    returns (files': map<string, string>)
    ensures files' == WriteBlueprint(files, bp, m, BlueprintPageFile(m))
  {
    var v := bp.(events := SortGraphs(bp.events), macros := SortGraphs(bp.macros),
                 functions := SortGraphs(bp.functions), properties := SortProperties(bp.properties));
    assert v == SortedView(bp);
    var body;
    body, files' := BlueprintHTML(v, m, files);
    BlueprintPageFileIs(v, m, body);
    WriteBlueprintIs(files, bp, m, BlueprintPageFile(m), v);
    files' := files'[BlueprintPagePath(bp) := HTMLPage(body)];
  }

  lemma WriteBlueprintIs(files: map<string, string>, bp: BlueprintDocument, m: FlagMasks,
                         page: BlueprintDocument -> string, v: BlueprintDocument)
    requires v == SortedView(bp)
    ensures WriteBlueprint(files, bp, m, page)
            == WriteGraphPages(WriteGraphPages(WriteGraphPages(files, v.events, m.func), v.macros, m.func), v.functions, m.func)[BlueprintPagePath(bp) := page(v)]
  {
  }

  lemma BlueprintPageFileIs(v: BlueprintDocument, m: FlagMasks, body: string)
    requires body == BlueprintPage(v, m)
    ensures BlueprintPageFile(m)(v) == HTMLPage(body)
  {
  }

  /** The category links at the head of the table of contents. */
  method CategoryLinksHTML(cats: seq<string>) returns (toc: string)
    ensures toc == CategoryLinks(cats)
  {
    toc := "";
    for j := 0 to |cats|
      invariant toc == CategoryLinks(cats[..j])
    {
      assert cats[..j + 1][..j] == cats[..j];
      toc := toc + Link(cats[j]);
    }
    assert cats[..|cats|] == cats;
  }

  /** What the table of contents gets for blueprint `i`: a heading when its
      content path differs, ignoring case, from the last one headed, then
      its link. `lastPath` is the path compared with, which equals the
      previous blueprint's path ignoring case. */
  method TocEntryHTML(toc: string, lastPath: string, bps: seq<BlueprintDocument>, i: nat)
    returns (toc': string, lastPath': string)
    requires i < |bps|
    requires EqualsIgnoreCase(lastPath, if i == 0 then "" else bps[i - 1].contentPath)
    ensures toc' == toc + TocEntry(bps, i)
    ensures EqualsIgnoreCase(lastPath', bps[i].contentPath)
  {
    var bp := bps[i];
    var heading := "";
    lastPath' := lastPath;
    if !EqualsIgnoreCase(lastPath, bp.contentPath) {
      lastPath' := bp.contentPath;
      heading := Heading(3, bp.contentPath);
    }
    toc' := toc + (heading + Link(bp.name));
  }

  /** One more blueprint: one more table-of-contents entry. */
  lemma TocStep(bps: seq<BlueprintDocument>, i: nat)
    requires i < |bps|
    ensures TocEntries(bps[..i + 1]) == TocEntries(bps[..i]) + TocEntry(bps, i)
  {
    assert bps[..i + 1][..i] == bps[..i];
    TocEntryPrefix(bps, i + 1, i);
  }

  /** One more blueprint: its files written after those of the ones before. */
  lemma WriteBlueprintsStep(files: map<string, string>, bps: seq<BlueprintDocument>, i: nat, m: FlagMasks,
                            page: BlueprintDocument -> string)
    requires i < |bps|
    ensures WriteBlueprints(files, bps[..i + 1], m, page)
            == WriteBlueprint(WriteBlueprints(files, bps[..i], m, page), bps[i], m, page)
  {
    assert bps[..i + 1][..i] == bps[..i];
  }

  /** The body of DocumentToHTML after the sort: the category links, then
      for each blueprint in order its table-of-contents entry, its graph
      pages and its page, and last the table of contents. */
  method SaveDocumentPages(bps: seq<BlueprintDocument>, cats: seq<string>, m: FlagMasks, files: map<string, string>)
    returns (files': map<string, string>)
    ensures files' == DocumentFiles(files, bps, cats, m)
  {
    var toc := CategoryLinksHTML(cats);
    var lastPath := "";
    files' := files;
    for i := 0 to |bps|
      invariant toc == CategoryLinks(cats) + TocEntries(bps[..i])
      invariant EqualsIgnoreCase(lastPath, if i == 0 then "" else bps[i - 1].contentPath)
      invariant files' == WriteBlueprints(files, bps[..i], m, BlueprintPageFile(m))
    {
      TocStep(bps, i);
      WriteBlueprintsStep(files, bps, i, m, BlueprintPageFile(m));
      Regroup(CategoryLinks(cats), TocEntries(bps[..i]), TocEntry(bps, i), "");
      toc, lastPath := TocEntryHTML(toc, lastPath, bps, i);
      files' := WriteBlueprintHTML(bps[i], m, files');
    }
    assert bps[..|bps|] == bps;
    DocumentFilesIs(files, bps, cats, m, files', toc);
    files' := files'[TocPath := HTMLPage(toc)];
  }

  lemma DocumentFilesIs(files: map<string, string>, bps: seq<BlueprintDocument>, cats: seq<string>, m: FlagMasks,
                        written: map<string, string>, toc: string)
    requires written == WriteBlueprints(files, bps, m, BlueprintPageFile(m))
    requires toc == CategoryLinks(cats) + TocEntries(bps)
    ensures DocumentFiles(files, bps, cats, m) == written[TocPath := HTMLPage(toc)]
  {
    assert TocBody(cats, bps) == toc;
  }

  /** DocumentToHTML: sorts the document's blueprints by content path, then
      saves every blueprint's graph pages and page and finally the table of
      contents. */
  method DocumentToHTML(doc: Document, cats: seq<string>, m: FlagMasks, files: map<string, string>)
    returns (files': map<string, string>)
    modifies doc
    ensures doc.blueprints == SortBlueprints(old(doc.blueprints))
    ensures doc.rootPath == old(doc.rootPath)
    ensures files' == DocumentFiles(files, doc.blueprints, cats, m)
  {
    doc.blueprints := SortBlueprints(doc.blueprints);
    files' := SaveDocumentPages(doc.blueprints, cats, m, files);
  }

  /** One more property: its row when it is in the category. */
  lemma CategoryRowsStep(ps: seq<PropertyDocument>, j: nat, cat: string)
    requires j < |ps|
    ensures CategoryRows(ps[..j + 1], cat) == CategoryRows(ps[..j], cat) + (if InCategory(ps[j], cat) then CategoryRow(ps[j]) else "")
  {
    assert ps[..j + 1][..j] == ps[..j];
  }

  /** The rows of one blueprint's properties that belong to the category. */
  method CategoryRowsHTML(ps: seq<PropertyDocument>, cat: string) returns (rows: string)
    ensures rows == CategoryRows(ps, cat)
  {
    rows := "";
    for j := 0 to |ps|
      invariant rows == CategoryRows(ps[..j], cat)
    {
      CategoryRowsStep(ps, j, cat);
      var p := ps[j];
      if Find(p.category, cat) != -1 {
        rows := rows + ("<tr>" + Cell(p.name) + Cell(p.typeName) + Cell(p.category)
          + Cell(ReplaceHTMLReturenCode(p.toolTips)) + "</tr>\n");
      }
    }
    assert ps[..|ps|] == ps;
  }

  /** One more blueprint: its section of the category page. */
  lemma CategoryBodyStep(bps: seq<BlueprintDocument>, i: nat, cat: string)
    requires i < |bps|
    ensures CategoryBody(bps[..i + 1], cat) == CategoryBody(bps[..i], cat) + CategorySection(bps[i], cat)
  {
    assert bps[..i + 1][..i] == bps[..i];
  }

  /** The body of a category page: for each blueprint in order, a section
      when one of its properties (sorted by category) is in the category. */
  method CategoryBodyHTML(bps: seq<BlueprintDocument>, cat: string) returns (body: string)
    ensures body == CategoryBody(bps, cat)
  {
    body := "";
    for i := 0 to |bps|
      invariant body == CategoryBody(bps[..i], cat)
    {
      CategoryBodyStep(bps, i, cat);
      var bp := bps[i];
      var rows := CategoryRowsHTML(SortProperties(bp.properties), cat);
      if rows != "" {
        body := body + (Heading(2, Link(bp.name)) + CategoryTableHeader + rows + "</table>");
      }
    }
    assert bps[..|bps|] == bps;
  }

  /** CategoryPageHTML: sorts the document's blueprints, then saves the page
      of one category, holding a section per blueprint that has a property
      in it. */
  method CategoryPageHTML(doc: Document, cat: string, files: map<string, string>)
    returns (files': map<string, string>)
    modifies doc
    ensures doc.blueprints == SortBlueprints(old(doc.blueprints))
    ensures doc.rootPath == old(doc.rootPath)
    ensures files' == files[CategoryPagePath(cat) := HTMLPage(CategoryBody(doc.blueprints, cat))]
  {
    doc.blueprints := SortBlueprints(doc.blueprints);
    var body := CategoryBodyHTML(doc.blueprints, cat);
    files' := files[CategoryPagePath(cat) := HTMLPage(body)];
  }
}
