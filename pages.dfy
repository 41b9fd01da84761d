/** What the renderer writes: the page template, headings, links, the graph,
    property, blueprint, table-of-contents and category pages, and the
    files they are saved under. Every page is a string; the files written
    are a map from the path relative to the document root to the content,
    where a later write to the same path replaces the earlier one. */
module Pages {
  import opened FString
  import opened Records
  import opened Badges
  import opened Sorting

  // ---------------------------------------------------------------------
  // Template, numbers, headings, links

  const HTMLPrefix: string :=
    "<!DOCTYPE html><html><head><meta charset=\"utf-8\"><title></title><link href=\"../layout.css\" rel=\"stylesheet\" type=\"text/css\"></head><body>\n"
  const HTMLSuffix: string := "\n</body></html>"

  /** `Printf(HTMLTemplate, Body)`: the body between the fixed head and tail. */
  function HTMLPage(body: string): string {
    HTMLPrefix + body + HTMLSuffix
  }

  /** A page starts with the fixed head, ends with the fixed tail, and the
      body can be cut back out from between them. */
  lemma HTMLPageParts(body: string)
    ensures var r := HTMLPage(body);
            && |r| == |HTMLPrefix| + |body| + |HTMLSuffix|
            && r[..|HTMLPrefix|] == HTMLPrefix && r[|r| - |HTMLSuffix|..] == HTMLSuffix
            && r[|HTMLPrefix|..|r| - |HTMLSuffix|] == body
  {
    var r := HTMLPage(body);
    assert r[..|HTMLPrefix|] == HTMLPrefix;
    assert r[|r| - |HTMLSuffix|..] == HTMLSuffix;
    assert r[|HTMLPrefix|..|r| - |HTMLSuffix|] == body;
  }

  /** Two pages are equal only when their bodies are. */
  lemma HTMLPageInjective(a: string, b: string)
    requires HTMLPage(a) == HTMLPage(b)
    ensures a == b
  {
    HTMLPageParts(a);
    HTMLPageParts(b);
  }

  function DigitChar(d: nat): char
    requires d < 10
  {
    ('0' as int + d) as char
  }

  predicate IsDigit(c: char) {
    '0' <= c <= '9'
  }

  /** `%d` of a non-negative number: its decimal digits, most significant first. */
  function NatString(n: nat): (r: string)
    ensures |r| >= 1 && forall i :: 0 <= i < |r| ==> IsDigit(r[i])
    decreases n
  {
    if n < 10 then [DigitChar(n)] else NatString(n / 10) + [DigitChar(n % 10)]
  }

  /** The value of a string of decimal digits. */
  function NatValue(s: string): nat
    requires forall i :: 0 <= i < |s| ==> IsDigit(s[i])
    decreases |s|
  {
    if s == [] then 0
    else
      assert IsDigit(s[|s| - 1]);
      NatValue(s[..|s| - 1]) * 10 + (s[|s| - 1] as int - '0' as int)
  }

  /** Reading back the digits written for `n` gives `n`. */
  lemma {:induction false} NatStringRoundTrip(n: nat)
    ensures NatValue(NatString(n)) == n
    decreases n
  {
    if n >= 10 {
      NatStringRoundTrip(n / 10);
      var s := NatString(n);
      assert s[..|s| - 1] == NatString(n / 10);
    }
  }

  /** `%d` of an `int32`. */
  function DecimalString(n: int): (r: string)
    ensures |r| >= 1
    ensures (r[0] == '-') <==> n < 0
  {
    if n < 0 then "-" + NatString(-n) else NatString(n)
  }

  /** The text TopicHTML appends: `<hN>Contents</hN>` and a line break. */
  function Heading(level: int, contents: string): string {
    "<h" + DecimalString(level) + ">" + contents + "</h" + DecimalString(level) + ">\n"
  }

  /** The levels the renderer uses print as one digit. */
  lemma HeadingLevels(c: string)
    ensures Heading(1, c) == "<h1>" + c + "</h1>\n"
    ensures Heading(2, c) == "<h2>" + c + "</h2>\n"
    ensures Heading(3, c) == "<h3>" + c + "</h3>\n"
  {
    assert NatString(1) == "1" && NatString(2) == "2" && NatString(3) == "3";
  }

  /** The link line of the table of contents and the category pages. */
  function Link(name: string): string {
    "<a href=\"" + name + ".html\" target=\"document\">" + name + "</a></br>\n"
  }

  /** One table cell. */
  function Cell(s: string): string {
    "<td>" + s + "</td>"
  }

  /** ReplaceHTMLReturenCode: every line break becomes `</br>` and a line
      break, so the text grows by five characters per line break. */
  function ReplaceHTMLReturenCode(s: string): (r: string)
    ensures |r| == |s| + 5 * Count(s, '\n')
    ensures '\n' !in s ==> r == s
  {
    ReplaceCharLength(s, '\n', "</br>\n");
    if '\n' in s then Replace(s, "\n", "</br>\n")
    else
      ReplaceCharAbsent(s, '\n', "</br>\n");
      Replace(s, "\n", "</br>\n")
  }

  /** The category rewrite `Replace("|", " - ")`: two characters longer per
      `|`, and no `|` is left. */
  function NormaliseCategory(s: string): (r: string)
    ensures |r| == |s| + 2 * Count(s, '|')
    ensures '|' !in r
  {
    ReplaceCharLength(s, '|', " - ");
    ReplaceCharRemoves(s, '|', " - ");
    Replace(s, "|", " - ")
  }

  /** Normalising a normalised category changes nothing. */
  lemma NormaliseCategoryIdempotent(s: string)
    ensures NormaliseCategory(NormaliseCategory(s)) == NormaliseCategory(s)
  {
    ReplaceCharAbsent(NormaliseCategory(s), '|', " - ");
  }

  // ---------------------------------------------------------------------
  // Graph pages and graph tables

  /** `Name.Replace(" ", "")`: the name with every space dropped and every
      other character kept, in order. */
  function WithoutSpaces(name: string): (r: string)
    ensures r == Remove(name, ' ')
  {
    ReplaceByNothing(name, ' ');
    Replace(name, " ", "")
  }

  /** The name of a graph's own page: `Parent_Name.html` with the spaces of
      the name dropped. */
  function GraphFileName(g: EdGraphDocument): string {
    g.parent + "_" + WithoutSpaces(g.name) + ".html"
  }

  /** Where a graph page is saved, relative to the document root. */
  function GraphPagePath(g: EdGraphDocument): string {
    "blueprint/" + GraphFileName(g)
  }

  /** One row of a graph's Input or Output table on its page. */
  function PinRow(p: PinDocument): string {
    "<tr>" + Cell(p.typeName) + Cell(p.name) + Cell(p.toolTips) + "</tr>"
  }

  /** One pin in the Input or Output cell of the blueprint's graph table;
      type and name are separated by an ideographic space. */
  function PinSummary(p: PinDocument): string {
    "<b>" + p.typeName + "</b>\U{3000}<i>" + p.name + "</i></br>" + p.toolTips + "</br>"
  }

  /** The text of `line` for each key in order; a key with no entry is skipped. */
  function PinLines(keys: seq<string>, entries: map<string, PinDocument>, line: PinDocument -> string): string
    decreases |keys|
  {
    if keys == [] then ""
    else
      var k := keys[|keys| - 1];
      PinLines(keys[..|keys| - 1], entries, line) + (if k in entries then line(entries[k]) else "")
  }

  /** The page rows for the keys in order. */
  function PinRows(keys: seq<string>, entries: map<string, PinDocument>): string {
    PinLines(keys, entries, PinRow)
  }

  /** The summaries for the keys in order. */
  function PinSummaries(keys: seq<string>, entries: map<string, PinDocument>): string {
    PinLines(keys, entries, PinSummary)
  }

  lemma {:induction false} EveryKeyListed(keys: seq<string>, entries: map<string, PinDocument>,
                                          line: PinDocument -> string, k: string)
    requires k in keys && k in entries
    ensures Occurs(line(entries[k]), PinLines(keys, entries, line))
    decreases |keys|
  {
    var init, last := keys[..|keys| - 1], keys[|keys| - 1];
    var text := if last in entries then line(entries[last]) else "";
    assert PinLines(keys, entries, line) == PinLines(init, entries, line) + text;
    if last == k {
      OccursSelf(text);
      OccursRight(text, PinLines(init, entries, line), text);
    } else {
      assert keys == init + [last];
      assert k in init;
      EveryKeyListed(init, entries, line, k);
      OccursLeft(line(entries[k]), PinLines(init, entries, line), text);
    }
  }

  /** Every pin of a well-formed pin map has its row on the graph page and
      its summary in the blueprint's table. */
  lemma EveryPinListed(keys: seq<string>, entries: map<string, PinDocument>, k: string)
    requires k in keys && k in entries
    ensures Occurs(PinRow(entries[k]), PinRows(keys, entries))
    ensures Occurs(PinSummary(entries[k]), PinSummaries(keys, entries))
  {
    EveryKeyListed(keys, entries, PinRow, k);
    EveryKeyListed(keys, entries, PinSummary, k);
  }

  /** A pin's default value is recorded but never shown. */
  lemma PinDefaultNotRendered(p: PinDocument, d: string)
    ensures PinRow(p.(defaultValue := d)) == PinRow(p)
    ensures PinSummary(p.(defaultValue := d)) == PinSummary(p)
  {
  }

  const PinTableHeader: string := "<table>\n<tr><th>Type</th><th>Name</th><th>TootTip</th></tr>\n"
  const TableFooter: string := "</table>\n"

  function TodoLines(todos: seq<string>): string
    decreases |todos|
  {
    if todos == [] then "" else TodoLines(todos[..|todos| - 1]) + todos[|todos| - 1] + "</br>"
  }

  /** The Todo heading and lines, present only for a non-empty list. */
  function TodoSection(todos: seq<string>): (r: string)
    ensures r == "" <==> todos == []
  {
    if |todos| > 0 then Heading(2, "Todo") + TodoLines(todos) else ""
  }

  /** A heading followed by badge lines, left out when there are no lines. */
  function OptionalSection(title: string, lines: string): (r: string)
    ensures r == "" <==> lines == ""
    ensures lines != "" ==> r == Heading(2, title) + lines
  {
    if lines == "" then "" else Heading(2, title) + lines
  }

  function AccessLines(g: EdGraphDocument, m: FunctionFlagMasks): string {
    BadgeLines(g.flag, FunctionAccessTable(m))
  }

  function NetLines(g: EdGraphDocument, m: FunctionFlagMasks): string {
    BadgeLines(g.flag, FunctionNetTable(m))
  }

  function FlagLines(g: EdGraphDocument, m: FunctionFlagMasks): string {
    BadgeLines(g.flag, FunctionFlagTable(m))
  }

  /** Title, tooltip, category and to-do list of a graph page. */
  function GraphPageTop(g: EdGraphDocument): string {
    Heading(1, g.name) + ReplaceHTMLReturenCode(g.toolTips) + "</br>"
    + Heading(2, "Category") + g.category + "</br>"
    + TodoSection(g.todoList)
  }

  /** The Access, Net and FunctionFlag sections of a graph page. */
  function GraphBadgeSections(g: EdGraphDocument, m: FunctionFlagMasks): string {
    OptionalSection("Access", AccessLines(g, m))
    + OptionalSection("Net", NetLines(g, m))
    + OptionalSection("FunctionFlag", FlagLines(g, m))
  }

  /** The Input or Output table of a graph page: a heading, then a row per pin. */
  function PinSection(title: string, pins: PinMap): string {
    Heading(2, title) + PinTableHeader + PinRows(pins.keys, pins.entries) + TableFooter
  }

  /** The Input and Output tables of a graph page. */
  function GraphPinSections(g: EdGraphDocument): string {
    PinSection("Input", g.input) + PinSection("Output", g.output)
  }

  /** The body of a graph's own page. */
  function GraphPage(g: EdGraphDocument, m: FunctionFlagMasks): string {
    GraphPageTop(g) + GraphBadgeSections(g, m) + GraphPinSections(g)
  }

  /** The opening of an anchor pointing at `file`. */
  function Href(file: string): string {
    "<a href=\"" + file + "\""
  }

  /** The cell of a graph's row holding the anchor to its page. */
  function LinkCell(g: EdGraphDocument): string {
    "<td>" + Href(GraphFileName(g)) + " target=\"document\">" + g.name + "</a></td>\n"
  }

  /** The cells of a graph's row after the link: tooltip, Input and Output
      pins, Net and Flag. */
  function RowTail(g: EdGraphDocument, m: FunctionFlagMasks): string {
    Cell(ReplaceHTMLReturenCode(g.toolTips))
    + Cell(PinSummaries(g.input.keys, g.input.entries))
    + Cell(PinSummaries(g.output.keys, g.output.entries))
    + Cell(NetLines(g, m)) + Cell(FlagLines(g, m)) + "</tr>\n"
  }

  /** A graph's row in the blueprint page's table. */
  function GraphRow(g: EdGraphDocument, m: FunctionFlagMasks): string {
    "<tr>" + Cell(g.category) + Cell(AccessLines(g, m)) + LinkCell(g) + RowTail(g, m)
  }

  const GraphTableHeader: string :=
    "<table>\n<tr><th>Category</th><th>Access</th><th>Name</th><th>TootTip</th><th>Input</th><th>Output</th><th>Net</th><th>Flag</th></tr>\n"

  function GraphRows(gs: seq<EdGraphDocument>, m: FunctionFlagMasks): string
    decreases |gs|
  {
    if gs == [] then "" else GraphRows(gs[..|gs| - 1], m) + GraphRow(gs[|gs| - 1], m)
  }

  /** What EdGraphTableHTML appends to the blueprint page. */
  function GraphTable(gs: seq<EdGraphDocument>, m: FunctionFlagMasks): string {
    GraphTableHeader + GraphRows(gs, m) + "</table>\n"
  }

  /** Saving one file per item, in order: later writes to a path replace
      earlier ones. */
  function WriteEach<T>(files: map<string, string>, xs: seq<T>, path: T -> string, content: T -> string): map<string, string>
    decreases |xs|
  {
    if xs == [] then files
    else
      var x := xs[|xs| - 1];
      WriteEach(files, xs[..|xs| - 1], path, content)[path(x) := content(x)]
  }

  /** After saving, the paths present are the old ones and one per item. */
  lemma {:induction false} WriteEachDomain<T>(files: map<string, string>, xs: seq<T>, path: T -> string,
                                             content: T -> string, p: string)
    ensures p in WriteEach(files, xs, path, content) <==> p in files || exists i :: 0 <= i < |xs| && p == path(xs[i])
    decreases |xs|
  {
    if xs != [] {
      var init, last := xs[..|xs| - 1], xs[|xs| - 1];
      WriteEachDomain(files, init, path, content, p);
      if exists i :: 0 <= i < |init| && p == path(init[i]) {
        var i :| 0 <= i < |init| && p == path(init[i]);
        assert init[i] == xs[i];
      }
      if exists i :: 0 <= i < |xs| && p == path(xs[i]) {
        var i :| 0 <= i < |xs| && p == path(xs[i]);
        if i < |init| {
          assert init[i] == xs[i];
        }
      }
    }
  }

  /** An item's path holds its content unless a later item has the same path. */
  lemma {:induction false} WriteEachLast<T>(files: map<string, string>, xs: seq<T>, path: T -> string,
                                           content: T -> string, i: nat)
    requires i < |xs| && forall j :: i < j < |xs| ==> path(xs[j]) != path(xs[i])
    ensures path(xs[i]) in WriteEach(files, xs, path, content)
    ensures WriteEach(files, xs, path, content)[path(xs[i])] == content(xs[i])
    decreases |xs|
  {
    var init := xs[..|xs| - 1];
    if i < |xs| - 1 {
      assert init[i] == xs[i];
      forall j | i < j < |init| ensures path(init[j]) != path(init[i]) {
        assert init[j] == xs[j];
      }
      WriteEachLast(files, init, path, content, i);
    }
  }

  /** After saving, the paths present are the old ones and one per item;
      each item's path holds the content of the last item with that path. */
  lemma WriteEachPaths<T>(files: map<string, string>, xs: seq<T>, path: T -> string, content: T -> string)
    ensures forall p :: p in WriteEach(files, xs, path, content) <==>
              p in files || exists i :: 0 <= i < |xs| && p == path(xs[i])
    ensures forall i :: 0 <= i < |xs| ==> path(xs[i]) in WriteEach(files, xs, path, content)
    ensures forall i :: 0 <= i < |xs| && (forall j :: i < j < |xs| ==> path(xs[j]) != path(xs[i])) ==>
              WriteEach(files, xs, path, content)[path(xs[i])] == content(xs[i])
  {
    forall p ensures p in WriteEach(files, xs, path, content) <==>
                     p in files || exists i :: 0 <= i < |xs| && p == path(xs[i]) {
      WriteEachDomain(files, xs, path, content, p);
    }
    forall i | 0 <= i < |xs| && (forall j :: i < j < |xs| ==> path(xs[j]) != path(xs[i]))
      ensures WriteEach(files, xs, path, content)[path(xs[i])] == content(xs[i]) {
      WriteEachLast(files, xs, path, content, i);
    }
  }

  /** The content of a graph's page file. */
  function GraphPageFile(m: FunctionFlagMasks): EdGraphDocument -> string {
    g => HTMLPage(GraphPage(g, m))
  }

  /** The graph pages EdGraphTableHTML saves, one per graph in order. */
  function WriteGraphPages(files: map<string, string>, gs: seq<EdGraphDocument>, m: FunctionFlagMasks): map<string, string> {
    WriteEach(files, gs, GraphPagePath, GraphPageFile(m))
  }

  /** A graph's row links to exactly the file its page is saved as. */
  lemma GraphRowLinksToGraphPage(g: EdGraphDocument, m: FunctionFlagMasks)
    ensures Occurs(Href(GraphFileName(g)), GraphRow(g, m))
    ensures GraphPagePath(g) == "blueprint/" + GraphFileName(g)
  {
    var h := Href(GraphFileName(g));
    var rest := " target=\"document\">" + g.name + "</a></td>\n";
    assert LinkCell(g) == "<td>" + h + rest;
    OccursMiddle("<td>", h, rest);
    var head := "<tr>" + Cell(g.category) + Cell(AccessLines(g, m));
    OccursRight(h, head, LinkCell(g));
    OccursLeft(h, head + LinkCell(g), RowTail(g, m));
  }

  /** After the graph pages are saved, every graph's link target exists, and
      the only new paths are those of graph pages. */
  lemma GraphLinksResolve(files: map<string, string>, gs: seq<EdGraphDocument>, m: FunctionFlagMasks)
    ensures forall i :: 0 <= i < |gs| ==> GraphPagePath(gs[i]) in WriteGraphPages(files, gs, m)
    ensures forall p :: p in WriteGraphPages(files, gs, m) <==>
              p in files || exists i :: 0 <= i < |gs| && p == GraphPagePath(gs[i])
  {
    WriteEachPaths(files, gs, GraphPagePath, GraphPageFile(m));
  }

  /** The Access, Net and Flag cells of a graph's row are always written,
      whether or not any bit is set. */
  lemma GraphRowCellsAlwaysPresent(g: EdGraphDocument, m: FunctionFlagMasks)
    ensures Occurs(Cell(AccessLines(g, m)), GraphRow(g, m))
    ensures Occurs(Cell(NetLines(g, m)), GraphRow(g, m))
    ensures Occurs(Cell(FlagLines(g, m)), GraphRow(g, m))
  {
    var a, n, f := Cell(AccessLines(g, m)), Cell(NetLines(g, m)), Cell(FlagLines(g, m));
    var open := "<tr>" + Cell(g.category);
    OccursSelf(a);
    OccursRight(a, open, a);
    OccursLeft(a, open + a, LinkCell(g));
    OccursLeft(a, open + a + LinkCell(g), RowTail(g, m));
    var pins := Cell(ReplaceHTMLReturenCode(g.toolTips))
      + Cell(PinSummaries(g.input.keys, g.input.entries))
      + Cell(PinSummaries(g.output.keys, g.output.entries));
    assert RowTail(g, m) == pins + n + f + "</tr>\n";
    OccursSelf(n);
    OccursRight(n, pins, n);
    OccursLeft(n, pins + n, f);
    OccursLeft(n, pins + n + f, "</tr>\n");
    OccursSelf(f);
    OccursRight(f, pins + n, f);
    OccursLeft(f, pins + n + f, "</tr>\n");
    OccursRight(n, open + a + LinkCell(g), RowTail(g, m));
    OccursRight(f, open + a + LinkCell(g), RowTail(g, m));
  }

  /** The Access, Net and FunctionFlag sections of a graph page are written
      exactly when some bit of their block is set. */
  lemma GraphSectionsFollowFlags(g: EdGraphDocument, m: FunctionFlagMasks)
    ensures OptionalSection("Access", AccessLines(g, m)) != "" <==>
              exists i :: 0 <= i < |FunctionAccessTable(m)| && IsSet(g.flag, FunctionAccessTable(m)[i].mask)
    ensures OptionalSection("Net", NetLines(g, m)) != "" <==>
              exists i :: 0 <= i < |FunctionNetTable(m)| && IsSet(g.flag, FunctionNetTable(m)[i].mask)
    ensures OptionalSection("FunctionFlag", FlagLines(g, m)) != "" <==>
              exists i :: 0 <= i < |FunctionFlagTable(m)| && IsSet(g.flag, FunctionFlagTable(m)[i].mask)
  {
  }

  /** A graph with no flag bits set has no badge section at all. */
  lemma NoFlagsNoSections(g: EdGraphDocument, m: FunctionFlagMasks)
    requires g.flag == 0
    ensures GraphPage(g, m) == GraphPageTop(g) + GraphPinSections(g)
  {
    assert forall b: bv64 :: !IsSet(0, b);
    assert GraphBadgeSections(g, m) == "";
  }

  // ---------------------------------------------------------------------
  // Property tables

  const PropertyTableHeader: string :=
    "<table>\n<tr><th>Category</th><th>Access</th><th>Type</th><th>Name</th><th>TootTip</th><th>Net</th><th>Flag</th></tr>\n"

  /** A property's row in the blueprint page's Property table. */
  function PropertyRow(p: PropertyDocument, m: PropertyFlagMasks): string {
    "<tr>" + Cell(p.category) + Cell(PropertyAccessCell(p.propertyFlg, m)) + Cell(p.typeName)
    + Cell(p.name) + Cell(ReplaceHTMLReturenCode(p.toolTips))
    + Cell(PropertyNetCell(p.propertyFlg, p.lifetimeCondition, m))
    + Cell(PropertyFlagCell(p.propertyFlg, m)) + "</tr>\n"
  }

  function PropertyRows(ps: seq<PropertyDocument>, m: PropertyFlagMasks): string
    decreases |ps|
  {
    if ps == [] then "" else PropertyRows(ps[..|ps| - 1], m) + PropertyRow(ps[|ps| - 1], m)
  }

  /** What PropertiesTableHTML appends to the blueprint page. */
  function PropertyTable(ps: seq<PropertyDocument>, m: PropertyFlagMasks): string {
    PropertyTableHeader + PropertyRows(ps, m) + "</table>\n"
  }

  /** A property's default value is never shown. */
  lemma PropertyDefaultNotRendered(p: PropertyDocument, m: PropertyFlagMasks, d: string)
    ensures PropertyRow(p.(defaultValue := d), m) == PropertyRow(p, m)
  {
  }

  // ---------------------------------------------------------------------
  // Blueprint pages

  /** The loop copy of a blueprint, with its graphs and properties sorted by
      category; the document's own lists are not touched. */
  function SortedView(bp: BlueprintDocument): BlueprintDocument {
    bp.(events := SortGraphs(bp.events), macros := SortGraphs(bp.macros),
        functions := SortGraphs(bp.functions), properties := SortProperties(bp.properties))
  }

  /** The copy keeps the blueprint's own fields and holds the same graphs and
      properties, each list ordered by category. */
  lemma SortedViewIsPermutation(bp: BlueprintDocument)
    ensures var v := SortedView(bp);
            && v.name == bp.name && v.contentPath == bp.contentPath
            && v.toolTips == bp.toolTips && v.parentName == bp.parentName
            && v.components == bp.components
            && multiset(v.events) == multiset(bp.events) && SortedBy(v.events, GraphCategoryKey)
            && multiset(v.macros) == multiset(bp.macros) && SortedBy(v.macros, GraphCategoryKey)
            && multiset(v.functions) == multiset(bp.functions) && SortedBy(v.functions, GraphCategoryKey)
            && multiset(v.properties) == multiset(bp.properties) && SortedBy(v.properties, PropertyCategoryKey)
  {
    SortsAreOrdered([], bp.events, bp.properties);
    SortsAreOrdered([], bp.macros, []);
    SortsAreOrdered([], bp.functions, []);
  }

  /** The body of a blueprint's page. */
  function BlueprintPage(v: BlueprintDocument, m: FlagMasks): string {
    Heading(1, v.name) + v.toolTips + "</br>"
    + Heading(2, "ContentPath") + v.contentPath + "</br>"
    + Heading(2, "Parent") + v.parentName + "</br>"
    + Heading(2, "EventGraph") + GraphTable(v.events, m.func)
    + Heading(2, "MacroGraph") + GraphTable(v.macros, m.func)
    + Heading(2, "Functions") + GraphTable(v.functions, m.func)
    + Heading(2, "Property") + PropertyTable(v.properties, m.prop)
  }

  function BlueprintPagePath(bp: BlueprintDocument): string {
    "blueprint/" + bp.name + ".html"
  }

  /** The content of a blueprint's page file, from its sorted view. */
  function BlueprintPageFile(m: FlagMasks): BlueprintDocument -> string {
    v => HTMLPage(BlueprintPage(v, m))
  }

  /** The files saved for one blueprint: its event, macro and function graph
      pages, then its own page, rendered by `page` from the sorted view (the
      renderer passes `BlueprintPageFile(m)`; the lemmas about which paths
      are written hold whatever the page says). */
  function WriteBlueprint(files: map<string, string>, bp: BlueprintDocument, m: FlagMasks,
                          page: BlueprintDocument -> string): map<string, string> {
    var v := SortedView(bp);
    var withGraphs := WriteGraphPages(WriteGraphPages(WriteGraphPages(files, v.events, m.func), v.macros, m.func), v.functions, m.func);
    withGraphs[BlueprintPagePath(bp) := page(v)]
  }

  function WriteBlueprints(files: map<string, string>, bps: seq<BlueprintDocument>, m: FlagMasks,
                           page: BlueprintDocument -> string): map<string, string>
    decreases |bps|
  {
    if bps == [] then files
    else WriteBlueprint(WriteBlueprints(files, bps[..|bps| - 1], m, page), bps[|bps| - 1], m, page)
  }

  /** Writing one blueprint keeps every file already present and adds its page. */
  lemma WriteBlueprintKeeps(files: map<string, string>, bp: BlueprintDocument, m: FlagMasks, page: BlueprintDocument -> string)
    ensures BlueprintPagePath(bp) in WriteBlueprint(files, bp, m, page)
    ensures forall p :: p in files ==> p in WriteBlueprint(files, bp, m, page)
  {
    var v := SortedView(bp);
    var f1 := WriteGraphPages(files, v.events, m.func);
    var f2 := WriteGraphPages(f1, v.macros, m.func);
    GraphLinksResolve(files, v.events, m.func);
    GraphLinksResolve(f1, v.macros, m.func);
    GraphLinksResolve(f2, v.functions, m.func);
  }

  /** Every blueprint's page and every one of its graph pages exists once all
      blueprints are written, and nothing written before is dropped. */
  lemma {:induction false} EveryBlueprintPageWritten(files: map<string, string>, bps: seq<BlueprintDocument>, m: FlagMasks,
                                                     page: BlueprintDocument -> string)
    ensures forall p :: p in files ==> p in WriteBlueprints(files, bps, m, page)
    ensures forall i :: 0 <= i < |bps| ==> BlueprintPagePath(bps[i]) in WriteBlueprints(files, bps, m, page)
    decreases |bps|
  {
    if bps != [] {
      var init, last := bps[..|bps| - 1], bps[|bps| - 1];
      EveryBlueprintPageWritten(files, init, m, page);
      var before := WriteBlueprints(files, init, m, page);
      WriteBlueprintKeeps(before, last, m, page);
      forall i | 0 <= i < |bps| - 1 ensures bps[i] == init[i] { }
    }
  }

  // ---------------------------------------------------------------------
  // Table of contents

  /** The category links, in configuration order. */
  function CategoryLinks(cats: seq<string>): string
    decreases |cats|
  {
    if cats == [] then "" else CategoryLinks(cats[..|cats| - 1]) + Link(cats[|cats| - 1])
  }

  /** Blueprint `i` starts a new heading: its content path differs, ignoring
      case, from the previous blueprint's (the first is compared with ""). */
  predicate NewPath(bps: seq<BlueprintDocument>, i: nat)
    requires i < |bps|
  {
    !EqualsIgnoreCase(if i == 0 then "" else bps[i - 1].contentPath, bps[i].contentPath)
  }

  /** What the table of contents gets for blueprint `i`. */
  function TocEntry(bps: seq<BlueprintDocument>, i: nat): string
    requires i < |bps|
  {
    (if NewPath(bps, i) then Heading(3, bps[i].contentPath) else "") + Link(bps[i].name)
  }

  function TocEntries(bps: seq<BlueprintDocument>): string
    decreases |bps|
  {
    if bps == [] then "" else TocEntries(bps[..|bps| - 1]) + TocEntry(bps, |bps| - 1)
  }

  /** The body of the table of contents. */
  function TocBody(cats: seq<string>, bps: seq<BlueprintDocument>): (r: string)
    ensures |r| == |CategoryLinks(cats)| + |TocEntries(bps)|
    ensures r[..|CategoryLinks(cats)|] == CategoryLinks(cats)
  {
    CategoryLinks(cats) + TocEntries(bps)
  }

  /** The TOC's path as the source spells it, with a backslash. */
  const TocPath: string := "blueprint\\toc.html"

  /** Every file DocumentToHTML saves: the blueprint and graph pages, then the
      table of contents. */
  function DocumentFiles(files: map<string, string>, bps: seq<BlueprintDocument>, cats: seq<string>, m: FlagMasks): map<string, string> {
    WriteBlueprints(files, bps, m, BlueprintPageFile(m))[TocPath := HTMLPage(TocBody(cats, bps))]
  }

  /** Every configured category has its link at the head of the table of contents. */
  lemma {:induction false} CategoryLinksListed(cats: seq<string>, c: string)
    requires c in cats
    ensures Occurs(Link(c), CategoryLinks(cats))
    decreases |cats|
  {
    var init := cats[..|cats| - 1];
    if cats[|cats| - 1] == c {
      OccursSelf(Link(c));
      OccursRight(Link(c), CategoryLinks(init), Link(c));
    } else {
      assert cats == init + [cats[|cats| - 1]];
      CategoryLinksListed(init, c);
      OccursLeft(Link(c), CategoryLinks(init), Link(cats[|cats| - 1]));
    }
  }

  lemma TocEntryPrefix(bps: seq<BlueprintDocument>, n: nat, i: nat)
    requires i < n <= |bps|
    ensures TocEntry(bps[..n], i) == TocEntry(bps, i)
  {
    assert bps[..n][i] == bps[i];
    if i > 0 { assert bps[..n][i - 1] == bps[i - 1]; }
  }

  /** Every blueprint gets its link in the table of contents. */
  lemma {:induction false} EveryBlueprintLinked(bps: seq<BlueprintDocument>, i: nat)
    requires i < |bps|
    ensures Occurs(Link(bps[i].name), TocEntries(bps))
    decreases |bps|
  {
    var init := bps[..|bps| - 1];
    var e := TocEntry(bps, |bps| - 1);
    if i == |bps| - 1 {
      var h := if NewPath(bps, i) then Heading(3, bps[i].contentPath) else "";
      assert e == h + Link(bps[i].name);
      OccursSelf(Link(bps[i].name));
      OccursRight(Link(bps[i].name), h, Link(bps[i].name));
      OccursRight(Link(bps[i].name), TocEntries(init), e);
    } else {
      EveryBlueprintLinked(init, i);
      assert init[i] == bps[i];
      OccursLeft(Link(bps[i].name), TocEntries(init), e);
    }
  }

  /** In the sorted list, no two headings carry the same path (ignoring
      case): blueprints sharing a path stand together under one heading. */
  lemma TocHeadingsDistinct(bps: seq<BlueprintDocument>, i: nat, j: nat)
    requires SortedBy(bps, ContentPathKey)
    requires i < j < |bps| && NewPath(bps, i) && NewPath(bps, j)
    ensures !EqualsIgnoreCase(bps[i].contentPath, bps[j].contentPath)
  {
    if EqualsIgnoreCase(bps[i].contentPath, bps[j].contentPath) {
      var a, b, c := bps[i].contentPath, bps[j - 1].contentPath, bps[j].contentPath;
      EqualsIgnoreCaseIsLower(a, c);
      assert !Less(c, b);
      if j - 1 > i {
        assert !Less(b, a);
      }
      assert Less(b, a) == Less(b, c);
      LessIsStrictWeakOrder(b, c, c);
      assert false;
    }
  }

  /** The blueprint whose heading blueprint `i` is listed under: the
      nearest one at or before it that started a heading, or the first. */
  function HeadingOwner(bps: seq<BlueprintDocument>, i: nat): (h: nat)
    requires i < |bps|
    ensures h <= i
    decreases i
  {
    if i == 0 || NewPath(bps, i) then i else HeadingOwner(bps, i - 1)
  }

  /** Every blueprint is listed under a heading carrying its own path
      (ignoring case), unless every path up to it is empty: the running
      value starts as "", so an empty first path opens no heading. */
  lemma {:induction false} TocEveryPathHeaded(bps: seq<BlueprintDocument>, i: nat)
    requires i < |bps|
    ensures var h := HeadingOwner(bps, i);
            EqualsIgnoreCase(bps[h].contentPath, bps[i].contentPath) &&
            (NewPath(bps, h) || forall k :: 0 <= k <= i ==> bps[k].contentPath == "")
    decreases i
  {
    if i == 0 {
      if !NewPath(bps, 0) {
        EqualsEmpty(bps[0].contentPath);
      }
    } else if !NewPath(bps, i) {
      TocEveryPathHeaded(bps, i - 1);
      var h := HeadingOwner(bps, i - 1);
      assert HeadingOwner(bps, i) == h;
      if !NewPath(bps, h) {
        assert bps[i - 1].contentPath == "";
        EqualsEmpty(bps[i].contentPath);
      }
    }
  }

  // ---------------------------------------------------------------------
  // Category pages

  /** A property belongs to a category page when its category contains the
      category name (ignoring case). */
  predicate InCategory(p: PropertyDocument, cat: string) {
    Contains(p.category, cat)
  }

  function CategoryRow(p: PropertyDocument): (r: string)
    ensures r != ""
  {
    "<tr>" + Cell(p.name) + Cell(p.typeName) + Cell(p.category) + Cell(ReplaceHTMLReturenCode(p.toolTips)) + "</tr>\n"
  }

  /** The rows of the properties in the category, in list order. */
  function CategoryRows(ps: seq<PropertyDocument>, cat: string): (r: string)
    ensures r == "" <==> forall i :: 0 <= i < |ps| ==> !InCategory(ps[i], cat)
    decreases |ps|
  {
    if ps == [] then ""
    else
      var p := ps[|ps| - 1];
      CategoryRows(ps[..|ps| - 1], cat) + (if InCategory(p, cat) then CategoryRow(p) else "")
  }

  /** The properties in the category, in list order. */
  function Matching(ps: seq<PropertyDocument>, cat: string): seq<PropertyDocument>
    decreases |ps|
  {
    if ps == [] then []
    else
      var p := ps[|ps| - 1];
      Matching(ps[..|ps| - 1], cat) + (if InCategory(p, cat) then [p] else [])
  }

  function Rows(ps: seq<PropertyDocument>): string
    decreases |ps|
  {
    if ps == [] then "" else Rows(ps[..|ps| - 1]) + CategoryRow(ps[|ps| - 1])
  }

  /** The category rows are one row for each matching property, in order. */
  lemma {:induction false} CategoryRowsAreMatching(ps: seq<PropertyDocument>, cat: string)
    ensures CategoryRows(ps, cat) == Rows(Matching(ps, cat))
    decreases |ps|
  {
    if ps != [] {
      var init, p := ps[..|ps| - 1], ps[|ps| - 1];
      CategoryRowsAreMatching(init, cat);
      var mi := Matching(init, cat);
      if InCategory(p, cat) {
        assert (mi + [p])[..|mi + [p]| - 1] == mi;
      } else {
        assert mi + [] == mi;
      }
    }
  }

  /** Each property occurs among the matching ones as often as in the list
      when it is in the category, and not at all otherwise. */
  lemma {:induction false} MatchingCounts(ps: seq<PropertyDocument>, cat: string, x: PropertyDocument)
    ensures multiset(Matching(ps, cat))[x] == if InCategory(x, cat) then multiset(ps)[x] else 0
    decreases |ps|
  {
    if ps != [] {
      var init, p := ps[..|ps| - 1], ps[|ps| - 1];
      MatchingCounts(init, cat, x);
      assert ps == init + [p];
    }
  }

  /** Sorting the properties first does not change which rows a category
      page gets, nor how often: the matching properties of the sorted list
      are a permutation of those of the stored list. */
  lemma SortedMatchingIsPermutation(ps: seq<PropertyDocument>, cat: string)
    ensures multiset(Matching(SortProperties(ps), cat)) == multiset(Matching(ps, cat))
  {
    forall x ensures multiset(Matching(SortProperties(ps), cat))[x] == multiset(Matching(ps, cat))[x] {
      MatchingCounts(SortProperties(ps), cat, x);
      MatchingCounts(ps, cat, x);
    }
  }

  const CategoryTableHeader: string :=
    "<table>\n<tr><th>Name</th><th>Type</th><th>Category</th><th>TootTip</th></tr>\n"

  /** A blueprint's part of a category page: a heading holding a link to its
      page, then a table of the matching properties; nothing when none match. */
  function CategorySection(bp: BlueprintDocument, cat: string): string {
    var rows := CategoryRows(SortProperties(bp.properties), cat);
    if rows == "" then "" else Heading(2, Link(bp.name)) + CategoryTableHeader + rows + "</table>"
  }

  /** A blueprint has a section on a category page exactly when one of its
      properties is in the category. */
  lemma CategorySectionIff(bp: BlueprintDocument, cat: string)
    ensures CategorySection(bp, cat) != "" <==> exists p :: p in bp.properties && InCategory(p, cat)
  {
    SortedRowsIff(bp.properties, cat);
  }

  lemma SortedRowsIff(ps: seq<PropertyDocument>, cat: string)
    ensures CategoryRows(SortProperties(ps), cat) != "" <==> exists p :: p in ps && InCategory(p, cat)
  {
    var s := SortProperties(ps);
    if exists p :: p in ps && InCategory(p, cat) {
      var p :| p in ps && InCategory(p, cat);
      assert p in multiset(s);
      var i :| 0 <= i < |s| && s[i] == p;
    }
    if CategoryRows(s, cat) != "" {
      var i :| 0 <= i < |s| && InCategory(s[i], cat);
      assert s[i] in multiset(ps);
    }
  }

  function CategoryBody(bps: seq<BlueprintDocument>, cat: string): string
    decreases |bps|
  {
    if bps == [] then "" else CategoryBody(bps[..|bps| - 1], cat) + CategorySection(bps[|bps| - 1], cat)
  }

  function CategoryPagePath(cat: string): string {
    "blueprint/" + cat + ".html"
  }

  /** A category that names "Stats" picks up "Stats - Health" and, as the
      search ignores case, "stats"; it does not pick up "Stat". */
  lemma CategoryScenario(p: PropertyDocument)
    ensures InCategory(p.(category := "Stats - Health"), "Stats")
    ensures InCategory(p.(category := "stats"), "Stats")
    ensures !InCategory(p.(category := "Stat"), "Stats")
  {
    assert MatchAt("Stats - Health", "Stats", 0) by {
      assert "Stats - Health"[0..5] == "Stats";
    }
    assert MatchAt("stats", "Stats", 0) by {
      assert "stats"[0..5] == "stats";
      assert Lower("stats") == Lower("Stats");
    }
    forall j ensures !MatchAt("Stat", "Stats", j) { }
  }
}
