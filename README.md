# BlueprintToDoc document builder, modelled in Dafny

BlueprintToDoc is an Unreal Engine 4 editor plugin. It walks a project's
blueprint assets and writes a set of cross-linked HTML pages.
- Each blueprint gets its own page.
- Each event, macro and function graph gets its own page.
- There is one table of contents.
- Each configured category gets a page.

This project models the plugin's document builder (`UBlueprintToDocUtil`). It
has two halves.
- **Extraction**: `BlueprintToDoc_Exec` and `MakeEdGraphDocument` turn engine
  metadata into the record types `FEdGraphPinDocument`, `FEdGraphDocument`,
  `FPropertyDocument`, `FBlueprintDocument` and `FDocument`.
- **Rendering**: `DocumentToHTML`, `EdGraphTableHTML`, `PropertiesTableHTML`,
  `CategoryPageHTML` and their helpers produce the pages.

Files:
- `records.dfy` (modules `Wrappers`, `Records`): the record types.
  - Most records are datatypes.
  - `FDocument` is a class, because it is passed by reference, appended to and
    sorted in place.
  - A pin map (`TMap<FString, FEdGraphPinDocument>`) is a key order plus a map.
    Its keys are compared ignoring case, as `FString` keys hash and compare,
    so adding a pin named like an existing one up to case replaces that pair.
- `fstring.dfy` (`FString`): the engine string operations the code relies on,
  all case-insensitive as the engine defaults them: `Find`, `Replace`, `==`
  and `<`.
- `badges.dfy` (`Badges`): the work done by `AddLine` calls.
  - It decodes the flag masks into badge lines.
  - It holds the replication-condition labels.
- `sorting.dfy` (`Sorting`): the three sorter structs and the sort.
- `pages.dfy` (`Pages`): the content of every page, as functions, and the
  properties proved about them.
- `renderer.dfy` (`Renderer`): the rendering procedures as methods.
  - They append to their output strings in loops, as the source does.
  - Each is proved to produce exactly what `Pages` specifies.
- `extraction.dfy` (`Extraction`): the extraction rules, as functions and as
  the loop methods, proved to agree.
  - The engine's answers come in as plain input records: asset path, cast
    result, generated class, graphs with their callable metadata and nodes,
    pins, and properties with their kind and metadata.

Saving a file is modelled as an update of a map from relative path to page
content. A later save to the same path replaces the earlier one.

## Model

| member | source | states |
|---|---|---|
| Records.PinMap.Add | Plugins/BlueprintToDoc/Source/BlueprintToDoc/Public/BlueprintToDocUtil.h:50-53 | `TMap::Add` stores the pin under the exact key given. A pair whose key equals it ignoring case is replaced in place, key and pin together. No key outside that case class gains, loses or changes its pin. No key other than the given one is added. |
| Records.KeyIndex | Plugins/BlueprintToDoc/Source/BlueprintToDoc/Public/BlueprintToDocUtil.h:50-53 | The position found is the first key equal to the given one ignoring case, or the end when none is. |
| Records.AddInPlace | Plugins/BlueprintToDoc/Source/BlueprintToDoc/Public/BlueprintToDocUtil.h:50-53 | Each position keeps its key up to case. The key order grows by one, at the end, exactly when no key equals the new one ignoring case, and never by more. |
| Records.AddHasKey | Plugins/BlueprintToDoc/Source/BlueprintToDoc/Public/BlueprintToDocUtil.h:50-53 | After an `Add`, a name is found ignoring case exactly when it equals the added key ignoring case or was found before. |
| Records.AddKeepsValid | Plugins/BlueprintToDoc/Source/BlueprintToDoc/Public/BlueprintToDocUtil.h:50-53 | `Add` keeps a pin map well-formed: keys distinct ignoring case, and exactly the map's domain. The added key is then the only key of its case class. |
| Records.Document.constructor | Plugins/BlueprintToDoc/Source/BlueprintToDoc/Public/BlueprintToDocUtil.h:139-143 | A fresh document has the given root path and no blueprints. |
| Records.Document.Add | Plugins/BlueprintToDoc/Source/BlueprintToDoc/Private/BlueprintToDocUtil.cpp:217 | Appends the blueprint at the end, keeping insertion order. The root path is unchanged. |
| FString.Find | Plugins/BlueprintToDoc/Source/BlueprintToDoc/Private/BlueprintToDocUtil.cpp:138-141 | The result is -1 or an index where the non-empty pattern occurs ignoring case. No earlier index matches. |
| FString.FindNone | Plugins/BlueprintToDoc/Source/BlueprintToDoc/Private/BlueprintToDocUtil.cpp:689 | `Find` gives -1 (INDEX_NONE) exactly when the pattern is empty or occurs nowhere. |
| FString.EqualsIgnoreCaseIsLower | Plugins/BlueprintToDoc/Source/BlueprintToDoc/Private/BlueprintToDocUtil.cpp:337 | Two strings compare equal exactly when their case-folded forms are identical. |
| FString.ReplaceCharLength | Plugins/BlueprintToDoc/Source/BlueprintToDoc/Private/BlueprintToDocUtil.cpp:424-427 | Replacing a non-letter character changes the length by (replacement length - 1) per occurrence. |
| FString.ReplaceCharRemoves | Plugins/BlueprintToDoc/Source/BlueprintToDoc/Private/BlueprintToDocUtil.cpp:248 | When the replacement does not contain the character, no occurrence of it is left. |
| FString.ReplaceCharAbsent | Plugins/BlueprintToDoc/Source/BlueprintToDoc/Private/BlueprintToDocUtil.cpp:205 | Replacing a character that does not occur leaves the string unchanged. |
| FString.Remove | Plugins/BlueprintToDoc/Source/BlueprintToDoc/Private/BlueprintToDocUtil.cpp:457 | Dropping a character leaves none of it, and shortens the string by exactly its number of occurrences. |
| FString.ReplaceByNothing | Plugins/BlueprintToDoc/Source/BlueprintToDoc/Private/BlueprintToDocUtil.cpp:457 | `Replace(c, "")` for a non-letter `c` is dropping `c`. |
| FString.LessIsStrictWeakOrder | Plugins/BlueprintToDoc/Source/BlueprintToDoc/Private/BlueprintToDocUtil.cpp:26-47 | The sorters' `<` is irreflexive and transitive. Two strings are unordered exactly when they are equal ignoring case. |
| FString.NotLessTransitive | Plugins/BlueprintToDoc/Source/BlueprintToDoc/Private/BlueprintToDocUtil.cpp:26-47 | "Not less than" is transitive. |
| FString.LessAsymmetric | Plugins/BlueprintToDoc/Source/BlueprintToDoc/Private/BlueprintToDocUtil.cpp:26-47 | `a < b` excludes `b < a`. |
| Badges.BadgeLines | Plugins/BlueprintToDoc/Source/BlueprintToDoc/Private/BlueprintToDocUtil.cpp:429-435 | A block of `AddLine` calls writes nothing exactly when none of its bits is set. |
| Badges.BadgeLinesAreSetLabels | Plugins/BlueprintToDoc/Source/BlueprintToDoc/Private/BlueprintToDocUtil.cpp:483-513 | A badge block is `label</br>\n` for exactly the table entries whose bit is set, in table order. A label listed twice is written twice. |
| Badges.SetLabelMembership | Plugins/BlueprintToDoc/Source/BlueprintToDoc/Private/BlueprintToDocUtil.cpp:483-513 | A label is written exactly when some entry carrying it has its bit set. |
| Badges.RequiredApiListedTwice | Plugins/BlueprintToDoc/Source/BlueprintToDoc/Private/BlueprintToDocUtil.cpp:494-497 | A set RequiredAPI bit yields the RequiredAPI line exactly twice in the FunctionFlag block. A clear bit yields it never. |
| Badges.LifetimeConditionToString | Plugins/BlueprintToDoc/Source/BlueprintToDoc/Private/BlueprintToDocUtil.cpp:725-750 | The label is empty exactly for `COND_Max` and for values outside the named ones. |
| Badges.LifetimeLabelRoundTrip | Plugins/BlueprintToDoc/Source/BlueprintToDoc/Private/BlueprintToDocUtil.cpp:730-743 | The fourteen labels are distinct. Reading a non-empty label back gives its condition, and every label read back is the label of that condition. |
| Badges.PropertyAccessCell | Plugins/BlueprintToDoc/Source/BlueprintToDoc/Private/BlueprintToDocUtil.cpp:649 | The property Access cell is either empty or `Protected</br>\n`. It is non-empty exactly when CPF_Protected is set. |
| Badges.PropertyNetCellEndsWithCondition | Plugins/BlueprintToDoc/Source/BlueprintToDoc/Private/BlueprintToDocUtil.cpp:646-658 | The Net cell always ends with the condition's label and a line break, even when the label is empty. What precedes it is empty exactly when none of Net, RepSkip and RepNotify is set. |
| Sorting.SortBy | Plugins/BlueprintToDoc/Source/BlueprintToDoc/Private/BlueprintToDocUtil.cpp:318 | The sorted list is a permutation of the input (same multiset). |
| Sorting.SortBySorted | Plugins/BlueprintToDoc/Source/BlueprintToDoc/Private/BlueprintToDocUtil.cpp:318 | The sorted list is in non-decreasing key order under the sorters' case-insensitive `<`. |
| Sorting.SortIsOrderedPermutation | Plugins/BlueprintToDoc/Source/BlueprintToDoc/Private/BlueprintToDocUtil.cpp:318 | The sorted list has the same length and members as the input, and is ordered. |
| Sorting.SortSortedIdentity | Plugins/BlueprintToDoc/Source/BlueprintToDoc/Private/BlueprintToDocUtil.cpp:677 | Sorting an already ordered list leaves it unchanged in this model. So the category pages' re-sort keeps the order `DocumentToHTML` produced. |
| Sorting.SortBlueprints | Plugins/BlueprintToDoc/Source/BlueprintToDoc/Private/BlueprintToDocUtil.cpp:318 | `FBlueprintSorter`: a permutation of the blueprints. |
| Sorting.SortGraphs | Plugins/BlueprintToDoc/Source/BlueprintToDoc/Private/BlueprintToDocUtil.cpp:331-333 | `FGraphSorter`: a permutation of the graphs. |
| Sorting.SortProperties | Plugins/BlueprintToDoc/Source/BlueprintToDoc/Private/BlueprintToDocUtil.cpp:334 | `FPropertySorter`: a permutation of the properties. |
| Sorting.SortsAreOrdered | Plugins/BlueprintToDoc/Source/BlueprintToDoc/Private/BlueprintToDocUtil.cpp:26-47 | Blueprints end up ordered by content path. Graphs and properties end up ordered by category. |
| Pages.HTMLPageParts | Plugins/BlueprintToDoc/Source/BlueprintToDoc/Private/BlueprintToDocUtil.cpp:82 | `Printf(HTMLTemplate, body)` is the fixed head, the body, then the fixed tail. The body can be cut back out. |
| Pages.HTMLPageInjective | Plugins/BlueprintToDoc/Source/BlueprintToDoc/Private/BlueprintToDocUtil.cpp:82 | Two pages are equal only when their bodies are. |
| Pages.NatString | Plugins/BlueprintToDoc/Source/BlueprintToDoc/Private/BlueprintToDocUtil.cpp:420 | `%d` of a level writes at least one digit and only digits. |
| Pages.NatStringRoundTrip | Plugins/BlueprintToDoc/Source/BlueprintToDoc/Private/BlueprintToDocUtil.cpp:420 | Reading back the digits written for `n` gives `n`. |
| Pages.DecimalString | Plugins/BlueprintToDoc/Source/BlueprintToDoc/Private/BlueprintToDocUtil.cpp:420 | `%d` of an `int32` is non-empty and starts with `-` exactly for a negative number. |
| Pages.HeadingLevels | Plugins/BlueprintToDoc/Source/BlueprintToDoc/Private/BlueprintToDocUtil.cpp:418-421 | `TopicHTML` at levels 1, 2 and 3 writes `<hN>contents</hN>` and a line break. |
| Pages.ReplaceHTMLReturenCode | Plugins/BlueprintToDoc/Source/BlueprintToDoc/Private/BlueprintToDocUtil.cpp:424-427 | Every line break becomes `</br>` plus a line break, so the text grows by 5 per line break. A text without line breaks is unchanged. |
| Pages.NormaliseCategory | Plugins/BlueprintToDoc/Source/BlueprintToDoc/Private/BlueprintToDocUtil.cpp:248 | The `\|` to ` - ` rewrite leaves no `\|` and grows the text by 2 per `\|`. |
| Pages.NormaliseCategoryIdempotent | Plugins/BlueprintToDoc/Source/BlueprintToDoc/Private/BlueprintToDocUtil.cpp:205 | Applying the category rewrite twice gives the same result as applying it once. |
| Pages.WithoutSpaces | Plugins/BlueprintToDoc/Source/BlueprintToDoc/Private/BlueprintToDocUtil.cpp:457 | `Name.Replace(" ", "")` drops every space and keeps every other character, in order. |
| Pages.EveryPinListed | Plugins/BlueprintToDoc/Source/BlueprintToDoc/Private/BlueprintToDocUtil.cpp:533-582 | Every pin of a well-formed pin map has its row in the graph page's table and its summary in the blueprint page's cell. |
| Pages.PinDefaultNotRendered | Plugins/BlueprintToDoc/Source/BlueprintToDoc/Public/BlueprintToDocUtil.h:24 | A pin's default value never changes its row or its summary. |
| Pages.TodoSection | Plugins/BlueprintToDoc/Source/BlueprintToDoc/Private/BlueprintToDocUtil.cpp:473-480 | The Todo section is written exactly when the to-do list is non-empty. |
| Pages.OptionalSection | Plugins/BlueprintToDoc/Source/BlueprintToDoc/Private/BlueprintToDocUtil.cpp:516-530 | A badge section is absent exactly when its lines are empty. Otherwise it is its level-2 heading followed by the lines. |
| Pages.GraphRowLinksToGraphPage | Plugins/BlueprintToDoc/Source/BlueprintToDoc/Private/BlueprintToDocUtil.cpp:457-458 | A graph's table row (line 594) links to exactly `Parent_Name.html`, the file its page is saved as under `blueprint/`. |
| Pages.WriteEachPaths | Plugins/BlueprintToDoc/Source/BlueprintToDoc/Private/BlueprintToDocUtil.cpp:586-590 | After saving a list of pages, the paths present are the old ones plus one per item. Each item's path holds the last content saved there. |
| Pages.GraphLinksResolve | Plugins/BlueprintToDoc/Source/BlueprintToDoc/Private/BlueprintToDocUtil.cpp:586-590 | After a graph table is written, every graph's page exists. The only new paths are graph page paths. |
| Pages.GraphRowCellsAlwaysPresent | Plugins/BlueprintToDoc/Source/BlueprintToDoc/Private/BlueprintToDocUtil.cpp:591-600 | The Access, Net and Flag cells of a graph's row are always written, even when empty. |
| Pages.GraphSectionsFollowFlags | Plugins/BlueprintToDoc/Source/BlueprintToDoc/Private/BlueprintToDocUtil.cpp:516-530 | The Access, Net and FunctionFlag sections of a graph page are written exactly when some bit of their block is set. |
| Pages.NoFlagsNoSections | Plugins/BlueprintToDoc/Source/BlueprintToDoc/Private/BlueprintToDocUtil.cpp:516-530 | A graph with no flag bits set has no badge section: its page is the top part followed by the two pin tables. |
| Pages.PropertyDefaultNotRendered | Plugins/BlueprintToDoc/Source/BlueprintToDoc/Public/BlueprintToDocUtil.h:82 | A property's default value never changes its row. |
| Pages.SortedViewIsPermutation | Plugins/BlueprintToDoc/Source/BlueprintToDoc/Private/BlueprintToDocUtil.cpp:327-334 | The loop copy keeps the blueprint's name, tooltip, path and parent. Its graphs and properties are permutations of the stored lists, each ordered by category. |
| Pages.WriteBlueprintKeeps | Plugins/BlueprintToDoc/Source/BlueprintToDoc/Private/BlueprintToDocUtil.cpp:371-376 | Writing one blueprint adds its page and keeps every file already present. |
| Pages.EveryBlueprintPageWritten | Plugins/BlueprintToDoc/Source/BlueprintToDoc/Private/BlueprintToDocUtil.cpp:327-377 | Once all blueprints are written, every blueprint's page exists and no earlier file is dropped. |
| Pages.TocBody | Plugins/BlueprintToDoc/Source/BlueprintToDoc/Private/BlueprintToDocUtil.cpp:321-342 | The table of contents starts with the category links. The blueprint entries follow them. |
| Pages.CategoryLinksListed | Plugins/BlueprintToDoc/Source/BlueprintToDoc/Private/BlueprintToDocUtil.cpp:321-324 | Every configured category has its link among the leading category links. |
| Pages.EveryBlueprintLinked | Plugins/BlueprintToDoc/Source/BlueprintToDoc/Private/BlueprintToDocUtil.cpp:342 | Every blueprint has its link in the table of contents. |
| Pages.TocHeadingsDistinct | Plugins/BlueprintToDoc/Source/BlueprintToDoc/Private/BlueprintToDocUtil.cpp:336-341 | In the sorted list, no two `<h3>` headings carry the same path ignoring case. |
| Pages.TocEveryPathHeaded | Plugins/BlueprintToDoc/Source/BlueprintToDoc/Private/BlueprintToDocUtil.cpp:336-341 | Every blueprint is listed under a heading for its own path, ignoring case. The exception is a leading run of empty paths: the running value starts as "". |
| Pages.CategoryRows | Plugins/BlueprintToDoc/Source/BlueprintToDoc/Private/BlueprintToDocUtil.cpp:687-698 | A blueprint's category rows are empty exactly when none of its properties has a category containing the name. |
| Pages.CategoryRowsAreMatching | Plugins/BlueprintToDoc/Source/BlueprintToDoc/Private/BlueprintToDocUtil.cpp:687-698 | The rows are one row per matching property, in list order. |
| Pages.MatchingCounts | Plugins/BlueprintToDoc/Source/BlueprintToDoc/Private/BlueprintToDocUtil.cpp:687-698 | A property occurs among the matching ones as often as in the list when it is in the category, and not at all otherwise. |
| Pages.SortedMatchingIsPermutation | Plugins/BlueprintToDoc/Source/BlueprintToDoc/Private/BlueprintToDocUtil.cpp:685 | Sorting the properties first does not change which rows a category page gets, nor how often. |
| Pages.CategorySectionIff | Plugins/BlueprintToDoc/Source/BlueprintToDoc/Private/BlueprintToDocUtil.cpp:699-712 | A blueprint has a section on a category page exactly when one of its properties is in the category. |
| Pages.SortedRowsIff | Plugins/BlueprintToDoc/Source/BlueprintToDoc/Private/BlueprintToDocUtil.cpp:685-699 | After the property sort, rows exist exactly when some stored property is in the category. |
| Pages.CategoryScenario | Plugins/BlueprintToDoc/Source/BlueprintToDoc/Private/BlueprintToDocUtil.cpp:689 | Category "Stats" picks up "Stats - Health" and, ignoring case, "stats". It does not pick up "Stat". |
| Renderer.PinTablesHTML | Plugins/BlueprintToDoc/Source/BlueprintToDoc/Private/BlueprintToDocUtil.cpp:535-555 | The pin loop writes exactly the pin rows and the pin summaries, in key order. A key without an entry is skipped. |
| Renderer.TodoHTML | Plugins/BlueprintToDoc/Source/BlueprintToDoc/Private/BlueprintToDocUtil.cpp:476-479 | The to-do loop appends `todo</br>` for each entry, in order. |
| Renderer.GraphTopHTML | Plugins/BlueprintToDoc/Source/BlueprintToDoc/Private/BlueprintToDocUtil.cpp:468-480 | The top of a graph page is the title, the tooltip with its line breaks rewritten, the category and the optional Todo section. |
| Renderer.SectionHTML | Plugins/BlueprintToDoc/Source/BlueprintToDoc/Private/BlueprintToDocUtil.cpp:516-530 | A badge section is appended only for non-empty lines. |
| Renderer.PinSectionHTML | Plugins/BlueprintToDoc/Source/BlueprintToDoc/Private/BlueprintToDocUtil.cpp:532-556 | An Input or Output section is its heading, the pin table and the footer, plus the summary for the row. |
| Renderer.GraphPageHTML | Plugins/BlueprintToDoc/Source/BlueprintToDoc/Private/BlueprintToDocUtil.cpp:468-581 | A graph page body is the top, the badge sections and the two pin sections, exactly as `Pages.GraphPage` specifies. The Input and Output summaries for the row are gathered along the way. |
| Renderer.GraphHTML | Plugins/BlueprintToDoc/Source/BlueprintToDoc/Private/BlueprintToDocUtil.cpp:457-600 | One graph's page body and table row are exactly those `Pages` specifies. The lemmas above give their properties. |
| Renderer.GraphTableEntryHTML | Plugins/BlueprintToDoc/Source/BlueprintToDoc/Private/BlueprintToDocUtil.cpp:455-601 | One pass of the graph loop appends exactly the next graph's row and saves exactly its page at its path. It keeps the loop's invariant. |
| Renderer.EdGraphTableHTML | Plugins/BlueprintToDoc/Source/BlueprintToDoc/Private/BlueprintToDocUtil.cpp:437-603 | `EdGraphTableHTML` appends the header, one row per graph in order, and the footer. It saves one page per graph, as `Pages.GraphTable` / `Pages.WriteGraphPages` specify. |
| Renderer.PropertyRowHTML | Plugins/BlueprintToDoc/Source/BlueprintToDoc/Private/BlueprintToDocUtil.cpp:620-668 | The nine appends of one property row, a cell at a time, add exactly `Pages.PropertyRow`. |
| Renderer.PropertiesTableHTML | Plugins/BlueprintToDoc/Source/BlueprintToDoc/Private/BlueprintToDocUtil.cpp:607-671 | `PropertiesTableHTML` appends the header, one row per property in order, and the footer. |
| Renderer.BlueprintHTML | Plugins/BlueprintToDoc/Source/BlueprintToDoc/Private/BlueprintToDocUtil.cpp:344-369 | A blueprint page body is title, tooltip, path, parent and the four tables. The graph pages of its three graph lists are saved. |
| Renderer.WriteBlueprintHTML | Plugins/BlueprintToDoc/Source/BlueprintToDoc/Private/BlueprintToDocUtil.cpp:327-377 | One blueprint's pass over its sorted copy saves exactly its graph pages and then its own page. |
| Renderer.CategoryLinksHTML | Plugins/BlueprintToDoc/Source/BlueprintToDoc/Private/BlueprintToDocUtil.cpp:321-324 | The category links, in configuration order. |
| Renderer.TocEntryHTML | Plugins/BlueprintToDoc/Source/BlueprintToDoc/Private/BlueprintToDocUtil.cpp:336-342 | A heading is written exactly when the path differs, ignoring case, from the running last path. The running value then holds this blueprint's path. |
| Renderer.SaveDocumentPages | Plugins/BlueprintToDoc/Source/BlueprintToDoc/Private/BlueprintToDocUtil.cpp:326-384 | The blueprint loop and the table-of-contents save write exactly `Pages.DocumentFiles`. |
| Renderer.DocumentToHTML | Plugins/BlueprintToDoc/Source/BlueprintToDoc/Private/BlueprintToDocUtil.cpp:311-386 | The document's blueprints are sorted in place by content path and the root path is unchanged. The files written are exactly `Pages.DocumentFiles` of the sorted list. |
| Renderer.CategoryRowsHTML | Plugins/BlueprintToDoc/Source/BlueprintToDoc/Private/BlueprintToDocUtil.cpp:687-698 | The property loop of a category page writes exactly the matching rows. |
| Renderer.CategoryBodyHTML | Plugins/BlueprintToDoc/Source/BlueprintToDoc/Private/BlueprintToDocUtil.cpp:680-713 | The blueprint loop of a category page writes exactly `Pages.CategoryBody`. |
| Renderer.CategoryPageHTML | Plugins/BlueprintToDoc/Source/BlueprintToDoc/Private/BlueprintToDocUtil.cpp:673-723 | The blueprints are re-sorted in place and the root path is unchanged. Exactly one page is saved, at `blueprint/<category>.html`, even when nothing matches. |
| Extraction.PinsIntoValid | Plugins/BlueprintToDoc/Source/BlueprintToDoc/Public/BlueprintToDocUtil.h:50-53 | Adding pins one by one keeps a pin map well-formed. |
| Extraction.PinsIntoKeys | Plugins/BlueprintToDoc/Source/BlueprintToDoc/Private/BlueprintToDocUtil.cpp:296-303 | After adding pins, a name is found ignoring case exactly when it was found before or some added pin has it, ignoring case. |
| Extraction.PinsIntoKeysExact | Plugins/BlueprintToDoc/Source/BlueprintToDoc/Private/BlueprintToDocUtil.cpp:296-303 | Every key after adding pins is an old key or the exact name of an added pin. |
| Extraction.PinsIntoLastWins | Plugins/BlueprintToDoc/Source/BlueprintToDoc/Public/BlueprintToDocUtil.h:50-53 | A pin that no later pin matches ignoring case is stored under its own exact name with its own record. In a well-formed map it is then the only key of its case class, so earlier case variants were replaced. |
| Extraction.CaseVariantReplaces | Plugins/BlueprintToDoc/Source/BlueprintToDoc/Private/BlueprintToDocUtil.cpp:296-298 | Two pins named alike up to case (such as "Amount", then "amount") leave one pair: the later name and its record, in the first one's place. |
| Extraction.EntryPinsMembership | Plugins/BlueprintToDoc/Source/BlueprintToDoc/Private/BlueprintToDocUtil.cpp:296-299 | A pin reaches Input exactly when it belongs to a node whose name contains `FunctionEntry`. |
| Extraction.ResultPinsMembership | Plugins/BlueprintToDoc/Source/BlueprintToDoc/Private/BlueprintToDocUtil.cpp:300-303 | A pin reaches Output exactly when it belongs to a node whose name contains `FunctionResult` but not `FunctionEntry`. Entry wins. |
| Extraction.AddNodesKeeps | Plugins/BlueprintToDoc/Source/BlueprintToDoc/Private/BlueprintToDocUtil.cpp:266-305 | The node loop never changes the graph's name, parent, category, flag or to-do list. |
| Extraction.AddNodesToolTips | Plugins/BlueprintToDoc/Source/BlueprintToDoc/Private/BlueprintToDocUtil.cpp:276-279 | Entry-node comments are appended to the tooltip in node order, with no separator. |
| Extraction.AddNodesInput | Plugins/BlueprintToDoc/Source/BlueprintToDoc/Private/BlueprintToDocUtil.cpp:296-299 | Input receives the entry nodes' pins, in node and pin order. |
| Extraction.AddNodesOutput | Plugins/BlueprintToDoc/Source/BlueprintToDoc/Private/BlueprintToDocUtil.cpp:300-303 | Output receives the pins of the other result nodes, in node and pin order. |
| Extraction.Widen | Plugins/BlueprintToDoc/Source/BlueprintToDoc/Private/BlueprintToDocUtil.cpp:250 | `(uint64)FunctionFlags` has zero upper 32 bits. Its low 32 bits are the function flags. |
| Extraction.GraphDocuments | Plugins/BlueprintToDoc/Source/BlueprintToDoc/Private/BlueprintToDocUtil.cpp:234-307 | One record per graph, in graph order. |
| Extraction.GraphDocumentRules | Plugins/BlueprintToDoc/Source/BlueprintToDoc/Private/BlueprintToDocUtil.cpp:234-307 | See the rules below this table. |
| Extraction.PinRouting | Plugins/BlueprintToDoc/Source/BlueprintToDoc/Private/BlueprintToDocUtil.cpp:269-303 | A name is found in Input, ignoring case, exactly when some entry pin has it up to case. It is found in Output exactly when some non-entry result pin has it up to case. Every key is the exact name of such a pin. |
| Extraction.EntryPinRecorded | Plugins/BlueprintToDoc/Source/BlueprintToDoc/Private/BlueprintToDocUtil.cpp:281-299 | The last entry pin of a name, up to case, is stored under its own exact name with its name and tooltip, as the only key of that case class. Its type is the sub-category object's name when there is one, otherwise the pin category. |
| Extraction.NoTodoSection | Plugins/BlueprintToDoc/Source/BlueprintToDoc/Public/BlueprintToDocUtil.h:59 | No extracted graph has a to-do entry, so no graph page has a Todo section. |
| Extraction.MakeGraphHeader | Plugins/BlueprintToDoc/Source/BlueprintToDoc/Private/BlueprintToDocUtil.cpp:236-264 | The callable / schema branches produce exactly `GraphHeader`, whose properties `GraphDocumentRules` states. |
| Extraction.AddNodeHTML | Plugins/BlueprintToDoc/Source/BlueprintToDoc/Private/BlueprintToDocUtil.cpp:267-304 | One node's pin loop produces exactly `AddNode`. |
| Extraction.MakeGraph | Plugins/BlueprintToDoc/Source/BlueprintToDoc/Private/BlueprintToDocUtil.cpp:234-307 | One graph's record is exactly `GraphDocumentOf`. |
| Extraction.MakeEdGraphDocument | Plugins/BlueprintToDoc/Source/BlueprintToDoc/Private/BlueprintToDocUtil.cpp:229-309 | `MakeEdGraphDocument` appends exactly one record per graph, in order, to what the array already held. |
| Extraction.KeepPropertyIff | Plugins/BlueprintToDoc/Source/BlueprintToDoc/Private/BlueprintToDocUtil.cpp:180 | A property is kept exactly when its group name has at least two characters, the second-last is `_` and the last is `C` or `c`. |
| Extraction.PropertyDocumentRules | Plugins/BlueprintToDoc/Source/BlueprintToDoc/Private/BlueprintToDocUtil.cpp:182-210 | See the rules below this table. |
| Extraction.TypeNameExample | Plugins/BlueprintToDoc/Source/BlueprintToDoc/Private/BlueprintToDocUtil.cpp:199-202 | An `IntProperty` shows as `Int`. |
| Extraction.PropertiesKept | Plugins/BlueprintToDoc/Source/BlueprintToDoc/Private/BlueprintToDocUtil.cpp:175-215 | A record is among the blueprint's properties exactly when it is the record of a kept property. |
| Extraction.CollectProperties | Plugins/BlueprintToDoc/Source/BlueprintToDoc/Private/BlueprintToDocUtil.cpp:175-215 | The property loop produces exactly `PropertyDocuments`, in field order. |
| Extraction.BlueprintDocumentOf | Plugins/BlueprintToDoc/Source/BlueprintToDoc/Private/BlueprintToDocUtil.cpp:150-216 | Every blueprint record carries the asset's name and package path and no components. |
| Extraction.ExtractedBlueprints | Plugins/BlueprintToDoc/Source/BlueprintToDoc/Private/BlueprintToDocUtil.cpp:134-218 | A record is extracted exactly when it is the record of an asset whose path has no `/Engine/` and whose blueprint cast succeeded. |
| Extraction.ExtractedBlueprintsOutsideEngine | Plugins/BlueprintToDoc/Source/BlueprintToDoc/Private/BlueprintToDocUtil.cpp:138-141 | No extracted blueprint has `/Engine/` in its path, ignoring case. None has components. |
| Extraction.NullClassRead | Plugins/BlueprintToDoc/Source/BlueprintToDoc/Private/BlueprintToDocUtil.cpp:155-160 | See Findings. As written, a blueprint without a generated class faults. The corrected record is the bare one with name and path. With a class, the two agree. |
| Extraction.MakeBlueprintDocument | Plugins/BlueprintToDoc/Source/BlueprintToDoc/Private/BlueprintToDocUtil.cpp:150-216 | One asset's record is exactly `BlueprintDocumentOf`. |
| Extraction.AddBlueprints | Plugins/BlueprintToDoc/Source/BlueprintToDoc/Private/BlueprintToDocUtil.cpp:134-218 | The asset loop appends exactly the extracted records, in registry order. The root path is unchanged. |
| Extraction.CategoryPathInjective | Plugins/BlueprintToDoc/Source/BlueprintToDoc/Private/BlueprintToDocUtil.cpp:716 | Different categories have different page paths. |
| Extraction.CategoryPageWritten | Plugins/BlueprintToDoc/Source/BlueprintToDoc/Private/BlueprintToDocUtil.cpp:223-226 | Every configured category has its page, listing that category's properties. |
| Extraction.CategoryPagesKeep | Plugins/BlueprintToDoc/Source/BlueprintToDoc/Private/BlueprintToDocUtil.cpp:223-226 | The category pages leave every other file as it was. |
| Extraction.BlueprintToDocExec | Plugins/BlueprintToDoc/Source/BlueprintToDoc/Private/BlueprintToDocUtil.cpp:110-227 | A failed registry query changes nothing. Otherwise the document ends as the sort of (old blueprints + extracted records). The files are `DocumentFiles` of it, then one page per configured category. This relies on the category pages' re-sort changing nothing. |
| Extraction.ResolveRootPathIff | Plugins/BlueprintToDoc/Source/BlueprintToDoc/Private/BlueprintToDocUtil.cpp:60-74 | The configured root is used as given exactly when its characters 1 and 2 are `:/`. The project's `Doc` directory is used exactly when nothing is configured. |
| Extraction.RootPathEntryPointsAgree | Plugins/BlueprintToDoc/Source/BlueprintToDoc/Private/BlueprintToDocUtil.cpp:94-101 | The editor command, which skips the `:/` test, writes to the same place as the automation test exactly when no path is configured or the path has `:/` at index 1. |

`Extraction.GraphDocumentRules` states these rules for one extracted graph:
- The name is the offered display name, or the raw graph name when that is empty.
- The parent is the generated class's name.
- A category exists only when a function was found, and then it has no `|`. Otherwise it is empty.
- The tooltip is the found one followed by the entry comments.
- The flag is the widened function flags. With no function found, it is whatever the field held.
- Input and Output are the well-formed maps of the entry pins and of the other result pins.
- There are no to-do entries.

`Extraction.PropertyDocumentRules` states these rules for one kept property:
- Name, flags, condition and tooltip are copied.
- The category is rewritten and has no `|`.
- The type is the struct's or class's name, or the property class's name with `Property` removed.
- The default value is empty.

## Left out

- File output: saving is a map update. Disk errors and their log lines are not modelled, and neither is the copying of `index.html` and `Layout.css` with its project/engine directory fallback (cpp:388-415).
- The root path is not joined to the file paths. The `/` path join and `FPaths::NormalizeDirectoryName` are engine functions, so page paths are relative to the root.
- The asset registry query and its filter: the result is an input, `None` for a failed query.
- Engine reflection: `GetMetaData`, `FindFunction`, `TFieldIterator`, `Cast`, `GetSchema`, `GetAllPins` and `GetName`. Their answers are fields of the input records, and `GetSuperStruct()` is taken to be present.
- Case-insensitive comparison folds ASCII letters only. The engine's folding of other characters is not modelled.
- The numeric values of the `FUNC_*` and `CPF_*` flags are abstract parameters (`FlagMasks`). No lemma assumes they are distinct.
- `Sorting.SortBy`: `TArray::Sort` is not stable and the engine's algorithm is not visible. The model uses one deterministic insertion sort and claims only ordered plus permutation. It does not claim a tie order.
- `Sorting.SortSortedIdentity` is a property of the model's sort. With the engine's unstable sort, the category pages' re-sort could reorder blueprints with equal paths. The model does not capture that.
- `Renderer.PinTablesHTML`: the Output loop reuses the `PinKeys` array filled for Input (cpp:561). The model takes the keys to be exactly Output's keys in insertion order. Whether `GetKeys` clears the array first is engine behaviour not visible here. A key without an entry is skipped, as the guard at cpp:564-568 does.
- The graph `Flag` of a graph with no matching function is never assigned (cpp:254-264). It is the input field `unassignedFlag`, not zero.
- The editor menu command `BlueprintToDoc()` is modelled only for its root-path rule (`ResolveRootPathFromMenu`). Its message box, and the rest of the editor module glue, are not modelled.
- `Printf` is modelled as concatenation around the template.
- The table of contents is saved as `blueprint\toc.html`, with the backslash the code uses.

## Findings

| source | as written | input that shows it | evidently intended | confidence | as-written member | corrected member |
|---|---|---|---|---|---|---|
| Plugins/BlueprintToDoc/Source/BlueprintToDoc/Private/BlueprintToDocUtil.cpp:155-160 | The tooltip is read through `GeneratedClass` at line 155, before the class is null-checked at lines 159-160. | An asset that casts to a blueprint whose `GeneratedClass` is null. | Read the tooltip only once the class is known to be present (the check at 160 shows a null class is expected). The record then keeps only its name and path. | medium; not executed | Extraction.BlueprintDocumentAsWritten (shown by Extraction.NullClassRead) | Extraction.BlueprintDocumentOf |
