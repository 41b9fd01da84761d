/** The extraction side of the document builder: how BlueprintToDoc_Exec and
    MakeEdGraphDocument turn what the engine reports about a blueprint into
    the records of `Records`. The engine's reflection and asset registry are
    not modelled; what they answer is given as plain input records. */
module Extraction {
  import opened Wrappers
  import opened FString
  import opened Records
  import opened Badges
  import opened Sorting
  import Pages
  import Renderer

  // ---------------------------------------------------------------------
  // What the engine reports

  /** A pin of a node: its name, the name of its sub-category object when
      there is one, its category, its default value as text and its tooltip. */
  datatype PinInfo = PinInfo(pinName: string, subCategoryObject: Option<string>, pinCategory: string,
                             defaultAsString: string, pinToolTip: string)

  /** A node of a graph: its object name, its comment and all its pins. */
  datatype NodeInfo = NodeInfo(nodeName: string, nodeComment: string, pins: seq<PinInfo>)

  /** The metadata of the function the class finds under the graph's name:
      display name, category, tooltip and the 32-bit function flags. */
  datatype CallableInfo = CallableInfo(displayName: string, category: string, toolTip: string, functionFlags: bv32)

  /** A graph: its raw name, the function found under that name (if any),
      the display name and tooltip its schema gives, and its nodes. When no
      function is found the source never assigns the flag field, so that
      field keeps whatever value it had: `unassignedFlag`. */
  datatype GraphInfo = GraphInfo(graphName: string, callable: Option<CallableInfo>,
                                 schemaDisplayName: string, schemaTooltip: string,
                                 nodes: seq<NodeInfo>, unassignedFlag: bv64)

  /** What the casts of a property find: a struct property and its struct's
      name, an object property and its class's name, or another property
      and the name of its own property class (such as "IntProperty"). */
  datatype PropertyKind =
    | StructProperty(structName: string)
    | ObjectProperty(className: string)
    | OtherProperty(propertyClassName: string)

  /** A property of the generated class. */
  datatype PropertyInfo = PropertyInfo(name: string, fullGroupName: string, kind: PropertyKind,
                                       categoryMeta: string, toolTipMeta: string,
                                       flags: int64, condition: LifetimeCondition)

  /** A blueprint's generated class. */
  datatype ClassInfo = ClassInfo(className: string, toolTipMeta: string, superName: string,
                                 eventGraphs: seq<GraphInfo>, macroGraphs: seq<GraphInfo>,
                                 functionGraphs: seq<GraphInfo>, properties: seq<PropertyInfo>)

  /** An asset that was cast to a blueprint; its generated class may be missing. */
  datatype BlueprintAsset = BlueprintAsset(generatedClass: Option<ClassInfo>)

  /** One asset the registry returned: package path, asset name and the
      blueprint the cast found, if any. */
  datatype AssetInfo = AssetInfo(packagePath: string, assetName: string, blueprint: Option<BlueprintAsset>)

  // ---------------------------------------------------------------------
  // Pins and nodes

  /** The pin record: the type is the sub-category object's name when there
      is one, and the pin category otherwise. */
  function PinDocumentOf(p: PinInfo): PinDocument {
    PinDocument(p.pinName,
                if p.subCategoryObject.Some? then p.subCategoryObject.value else p.pinCategory,
                p.defaultAsString, p.pinToolTip)
  }

  /** The node name contains "FunctionEntry" (ignoring case). */
  predicate IsEntry(n: NodeInfo) {
    Contains(n.nodeName, "FunctionEntry")
  }

  /** The node name contains "FunctionResult" (ignoring case). */
  predicate IsResult(n: NodeInfo) {
    Contains(n.nodeName, "FunctionResult")
  }

  /** The pins added to a pin map one after another, keyed by pin name. */
  function PinsInto(pm: PinMap, pins: seq<PinInfo>): PinMap
    decreases |pins|
  {
    if pins == [] then pm
    else
      var p := pins[|pins| - 1];
      PinsInto(pm, pins[..|pins| - 1]).Add(p.pinName, PinDocumentOf(p))
  }

  /** Adding pins keeps a well-formed map well-formed. */
  lemma {:induction false} PinsIntoValid(pm: PinMap, pins: seq<PinInfo>)
    requires pm.Valid()
    ensures PinsInto(pm, pins).Valid()
    decreases |pins|
  {
    if pins != [] {
      var last := pins[|pins| - 1];
      PinsIntoValid(pm, pins[..|pins| - 1]);
      AddKeepsValid(PinsInto(pm, pins[..|pins| - 1]), last.pinName, PinDocumentOf(last));
    }
  }

  /** After the pins are added, a name is found (ignoring case) exactly when
      it was found before or some added pin has it ignoring case. */
  lemma {:induction false} PinsIntoKeys(pm: PinMap, pins: seq<PinInfo>, k: string)
    ensures PinsInto(pm, pins).HasKey(k) <==>
              pm.HasKey(k) || exists p :: p in pins && Lower(p.pinName) == Lower(k)
    decreases |pins|
  {
    if pins != [] {
      var init, last := pins[..|pins| - 1], pins[|pins| - 1];
      PinsIntoKeys(pm, init, k);
      AddHasKey(PinsInto(pm, init), last.pinName, PinDocumentOf(last), k);
      PinNamedSnoc(pins, k);
    }
  }

  lemma PinNamedSnoc(pins: seq<PinInfo>, k: string)
    requires pins != []
    ensures (exists p :: p in pins && Lower(p.pinName) == Lower(k)) <==>
              (exists p :: p in pins[..|pins| - 1] && Lower(p.pinName) == Lower(k))
              || Lower(pins[|pins| - 1].pinName) == Lower(k)
  {
    assert pins == pins[..|pins| - 1] + [pins[|pins| - 1]];
  }

  /** Every key after the pins are added is an old key or the exact name of
      an added pin. */
  lemma {:induction false} PinsIntoKeysExact(pm: PinMap, pins: seq<PinInfo>, k: string)
    ensures k in PinsInto(pm, pins).entries ==> k in pm.entries || exists p :: p in pins && p.pinName == k
    decreases |pins|
  {
    if pins != [] {
      var init, last := pins[..|pins| - 1], pins[|pins| - 1];
      PinsIntoKeysExact(pm, init, k);
      assert pins == init + [last];
      if k in PinsInto(pm, pins).entries && k != last.pinName {
        assert k in PinsInto(pm, init).entries;
      }
    }
  }

  /** A name that no later pin equals ignoring case holds its own pin's
      record; in a well-formed map it is then the only key of its case
      class, so an earlier pin named the same up to case was replaced. */
  lemma {:induction false} PinsIntoLastWins(pm: PinMap, pins: seq<PinInfo>, i: nat)
    requires i < |pins|
    requires forall j :: i < j < |pins| ==> Lower(pins[j].pinName) != Lower(pins[i].pinName)
    ensures pins[i].pinName in PinsInto(pm, pins).entries
    ensures PinsInto(pm, pins).entries[pins[i].pinName] == PinDocumentOf(pins[i])
    ensures pm.Valid() ==>
              forall k :: k in PinsInto(pm, pins).entries && Lower(k) == Lower(pins[i].pinName) ==> k == pins[i].pinName
    decreases |pins|
  {
    var init, last := pins[..|pins| - 1], pins[|pins| - 1];
    var prev := PinsInto(pm, init);
    if pm.Valid() {
      PinsIntoValid(pm, init);
      AddKeepsValid(prev, last.pinName, PinDocumentOf(last));
    }
    if i < |pins| - 1 {
      assert init[i] == pins[i];
      forall j | i < j < |init| ensures Lower(init[j].pinName) != Lower(init[i].pinName) {
        assert init[j] == pins[j];
      }
      PinsIntoLastWins(pm, init, i);
    }
  }

  /** Two pins whose names are equal ignoring case ("Amount", then
      "amount") leave one pair: the later name and pin, in the place of the
      first. */
  lemma CaseVariantReplaces(a: PinInfo, b: PinInfo)
    requires Lower(a.pinName) == Lower(b.pinName)
    ensures PinsInto(EmptyPinMap, [a, b]) == PinMap([b.pinName], map[b.pinName := PinDocumentOf(b)])
  {
    var da, db := PinDocumentOf(a), PinDocumentOf(b);
    assert [a, b][..1] == [a] && [a][..0] == [];
    var one := EmptyPinMap.Add(a.pinName, da);
    assert PinsInto(EmptyPinMap, [a]) == one;
    assert PinsInto(EmptyPinMap, [a, b]) == one.Add(b.pinName, db);
    assert one == PinMap([a.pinName], map[a.pinName := da]);
    assert KeyIndex(one.keys, b.pinName) == 0;
    assert map[a.pinName := da] - {a.pinName} == map[];
    assert [a.pinName][0 := b.pinName] == [b.pinName];
  }

  lemma {:induction false} PinsIntoAppend(pm: PinMap, a: seq<PinInfo>, b: seq<PinInfo>)
    ensures PinsInto(pm, a + b) == PinsInto(PinsInto(pm, a), b)
    decreases |b|
  {
    if b == [] {
      assert a + b == a;
    } else {
      var init := b[..|b| - 1];
      assert (a + b)[..|a + b| - 1] == a + init;
      assert (a + b)[|a + b| - 1] == b[|b| - 1];
      PinsIntoAppend(pm, a, init);
    }
  }

  /** What one node contributes: an entry node appends its comment to the
      tooltip and adds its pins to Input; any other node whose name
      contains "FunctionResult" adds its pins to Output; other nodes add
      nothing. */
  function AddNode(d: EdGraphDocument, n: NodeInfo): EdGraphDocument {
    if IsEntry(n) then
      d.(toolTips := if n.nodeComment != "" then d.toolTips + n.nodeComment else d.toolTips,
         input := PinsInto(d.input, n.pins))
    else if IsResult(n) then d.(output := PinsInto(d.output, n.pins))
    else d
  }

  function AddNodes(d: EdGraphDocument, nodes: seq<NodeInfo>): EdGraphDocument
    decreases |nodes|
  {
    if nodes == [] then d else AddNode(AddNodes(d, nodes[..|nodes| - 1]), nodes[|nodes| - 1])
  }

  /** The comments of the entry nodes, in node order, with no separator. */
  function EntryComments(nodes: seq<NodeInfo>): string
    decreases |nodes|
  {
    if nodes == [] then ""
    else
      var n := nodes[|nodes| - 1];
      EntryComments(nodes[..|nodes| - 1]) + (if IsEntry(n) then n.nodeComment else "")
  }

  /** The pins of the entry nodes, in node order. */
  function EntryPins(nodes: seq<NodeInfo>): seq<PinInfo>
    decreases |nodes|
  {
    if nodes == [] then []
    else
      var n := nodes[|nodes| - 1];
      EntryPins(nodes[..|nodes| - 1]) + (if IsEntry(n) then n.pins else [])
  }

  /** The pins of the result nodes that are not also entry nodes, in node order. */
  function ResultPins(nodes: seq<NodeInfo>): seq<PinInfo>
    decreases |nodes|
  {
    if nodes == [] then []
    else
      var n := nodes[|nodes| - 1];
      ResultPins(nodes[..|nodes| - 1]) + (if !IsEntry(n) && IsResult(n) then n.pins else [])
  }

  /** The pins of the nodes that `keep` selects, in node order. */
  function PinsWhere(nodes: seq<NodeInfo>, keep: NodeInfo -> bool): seq<PinInfo>
    decreases |nodes|
  {
    if nodes == [] then []
    else
      var n := nodes[|nodes| - 1];
      PinsWhere(nodes[..|nodes| - 1], keep) + (if keep(n) then n.pins else [])
  }

  lemma {:induction false} PinsWhereSound(nodes: seq<NodeInfo>, keep: NodeInfo -> bool, p: PinInfo)
    requires p in PinsWhere(nodes, keep)
    ensures exists n :: n in nodes && keep(n) && p in n.pins
    decreases |nodes|
  {
    var init, last := nodes[..|nodes| - 1], nodes[|nodes| - 1];
    assert nodes == init + [last];
    if p in PinsWhere(init, keep) {
      PinsWhereSound(init, keep, p);
      var n :| n in init && keep(n) && p in n.pins;
      assert n in nodes;
    } else {
      assert last in nodes;
    }
  }

  lemma {:induction false} PinsWhereComplete(nodes: seq<NodeInfo>, keep: NodeInfo -> bool, n: NodeInfo, p: PinInfo)
    requires n in nodes && keep(n) && p in n.pins
    ensures p in PinsWhere(nodes, keep)
    decreases |nodes|
  {
    var init, last := nodes[..|nodes| - 1], nodes[|nodes| - 1];
    assert nodes == init + [last];
    if n != last {
      assert n in init;
      PinsWhereComplete(init, keep, n, p);
    }
  }

  /** A pin is selected exactly when a selected node has it. */
  lemma PinsWhereMembership(nodes: seq<NodeInfo>, keep: NodeInfo -> bool, p: PinInfo)
    ensures p in PinsWhere(nodes, keep) <==> exists n :: n in nodes && keep(n) && p in n.pins
  {
    if p in PinsWhere(nodes, keep) {
      PinsWhereSound(nodes, keep, p);
    }
    if exists n :: n in nodes && keep(n) && p in n.pins {
      var n :| n in nodes && keep(n) && p in n.pins;
      PinsWhereComplete(nodes, keep, n, p);
    }
  }

  lemma {:induction false} EntryPinsWhere(nodes: seq<NodeInfo>)
    ensures EntryPins(nodes) == PinsWhere(nodes, IsEntry)
    decreases |nodes|
  {
    if nodes != [] {
      EntryPinsWhere(nodes[..|nodes| - 1]);
    }
  }

  /** A pin reaches the entry pins exactly when one of the entry nodes has it. */
  lemma EntryPinsMembership(nodes: seq<NodeInfo>, p: PinInfo)
    ensures p in EntryPins(nodes) <==> exists n :: n in nodes && IsEntry(n) && p in n.pins
  {
    EntryPinsWhere(nodes);
    PinsWhereMembership(nodes, IsEntry, p);
  }

  /** A node's pins go to Output when it is a result node and not an entry node. */
  predicate ToOutput(n: NodeInfo) {
    !IsEntry(n) && IsResult(n)
  }

  lemma {:induction false} ResultPinsWhere(nodes: seq<NodeInfo>)
    ensures ResultPins(nodes) == PinsWhere(nodes, ToOutput)
    decreases |nodes|
  {
    if nodes != [] {
      ResultPinsWhere(nodes[..|nodes| - 1]);
    }
  }

  /** A pin reaches the result pins exactly when a result node that is not
      an entry node has it: an entry node's pins never go to Output. */
  lemma ResultPinsMembership(nodes: seq<NodeInfo>, p: PinInfo)
    ensures p in ResultPins(nodes) <==> exists n :: n in nodes && !IsEntry(n) && IsResult(n) && p in n.pins
  {
    ResultPinsWhere(nodes);
    PinsWhereMembership(nodes, ToOutput, p);
    if exists n :: n in nodes && ToOutput(n) && p in n.pins {
      var n :| n in nodes && ToOutput(n) && p in n.pins;
    }
    if exists n :: n in nodes && !IsEntry(n) && IsResult(n) && p in n.pins {
      var n :| n in nodes && !IsEntry(n) && IsResult(n) && p in n.pins;
      assert ToOutput(n);
    }
  }

  /** One node changes only the tooltip (by an entry node's comment) and
      one pin map: Input for an entry node, Output for a result node that
      is not one. */
  lemma AddNodeFacts(d: EdGraphDocument, n: NodeInfo)
    ensures var r := AddNode(d, n);
            && r.name == d.name && r.parent == d.parent && r.category == d.category
            && r.flag == d.flag && r.todoList == d.todoList
            && r.toolTips == d.toolTips + (if IsEntry(n) then n.nodeComment else "")
            && r.input == PinsInto(d.input, if IsEntry(n) then n.pins else [])
            && r.output == PinsInto(d.output, if !IsEntry(n) && IsResult(n) then n.pins else [])
  {
    assert d.toolTips + "" == d.toolTips;
  }

  /** Nodes leave the name, parent, category, flag and to-do list alone. */
  lemma {:induction false} AddNodesKeeps(d: EdGraphDocument, nodes: seq<NodeInfo>)
    ensures var r := AddNodes(d, nodes);
            && r.name == d.name && r.parent == d.parent && r.category == d.category
            && r.flag == d.flag && r.todoList == d.todoList
    decreases |nodes|
  {
    if nodes != [] {
      var init := nodes[..|nodes| - 1];
      AddNodesKeeps(d, init);
      AddNodeFacts(AddNodes(d, init), nodes[|nodes| - 1]);
    }
  }

  /** The entry nodes' comments are appended to the tooltip in node order. */
  lemma {:induction false} AddNodesToolTips(d: EdGraphDocument, nodes: seq<NodeInfo>)
    ensures AddNodes(d, nodes).toolTips == d.toolTips + EntryComments(nodes)
    decreases |nodes|
  {
    if nodes == [] {
      assert d.toolTips + "" == d.toolTips;
    } else {
      var init, n := nodes[..|nodes| - 1], nodes[|nodes| - 1];
      AddNodesToolTips(d, init);
      AddNodeFacts(AddNodes(d, init), n);
      var c := if IsEntry(n) then n.nodeComment else "";
      assert d.toolTips + EntryComments(init) + c == d.toolTips + (EntryComments(init) + c);
    }
  }

  /** Input receives the entry nodes' pins in node order. */
  lemma {:induction false} AddNodesInput(d: EdGraphDocument, nodes: seq<NodeInfo>)
    ensures AddNodes(d, nodes).input == PinsInto(d.input, EntryPins(nodes))
    decreases |nodes|
  {
    if nodes != [] {
      var init, n := nodes[..|nodes| - 1], nodes[|nodes| - 1];
      AddNodesInput(d, init);
      AddNodeFacts(AddNodes(d, init), n);
      PinsIntoAppend(d.input, EntryPins(init), if IsEntry(n) then n.pins else []);
    }
  }

  /** Output receives the other result nodes' pins in node order. */
  lemma {:induction false} AddNodesOutput(d: EdGraphDocument, nodes: seq<NodeInfo>)
    ensures AddNodes(d, nodes).output == PinsInto(d.output, ResultPins(nodes))
    decreases |nodes|
  {
    if nodes != [] {
      var init, n := nodes[..|nodes| - 1], nodes[|nodes| - 1];
      AddNodesOutput(d, init);
      AddNodeFacts(AddNodes(d, init), n);
      PinsIntoAppend(d.output, ResultPins(init), if !IsEntry(n) && IsResult(n) then n.pins else []);
    }
  }

  // ---------------------------------------------------------------------
  // Graphs

  /** The display name a graph is offered: the function's, or the schema's
      when no function is found. */
  function OfferedName(gi: GraphInfo): string {
    if gi.callable.Some? then gi.callable.value.displayName else gi.schemaDisplayName
  }

  /** `(uint64)FunctionFlags`: the 32-bit flags zero-extended to 64 bits. */
  function Widen(x: bv32): (r: bv64)
    ensures r < 0x1_0000_0000 && r as bv32 == x
  {
    x as bv64
  }

  /** The graph record before its nodes are read. */
  function GraphHeader(parent: string, gi: GraphInfo): EdGraphDocument {
    var name := if OfferedName(gi) != "" then OfferedName(gi) else gi.graphName;
    match gi.callable
    case Some(c) =>
      EdGraphDocument(name, parent, Pages.NormaliseCategory(c.category), Widen(c.functionFlags),
                      EmptyPinMap, EmptyPinMap, c.toolTip, [])
    case None =>
      EdGraphDocument(name, parent, "", gi.unassignedFlag, EmptyPinMap, EmptyPinMap, gi.schemaTooltip, [])
  }

  /** The record MakeEdGraphDocument builds for one graph. */
  function GraphDocumentOf(parent: string, gi: GraphInfo): EdGraphDocument {
    AddNodes(GraphHeader(parent, gi), gi.nodes)
  }

  /** The records for the graphs, in order. */
  function GraphDocuments(parent: string, gs: seq<GraphInfo>): (r: seq<EdGraphDocument>)
    ensures |r| == |gs|
    ensures forall i :: 0 <= i < |gs| ==> r[i] == GraphDocumentOf(parent, gs[i])
    decreases |gs|
  {
    if gs == [] then [] else GraphDocuments(parent, gs[..|gs| - 1]) + [GraphDocumentOf(parent, gs[|gs| - 1])]
  }

  /** The rules MakeEdGraphDocument follows for one graph. */
  lemma GraphDocumentRules(parent: string, gi: GraphInfo)
    ensures var g := GraphDocumentOf(parent, gi);
            // name: the offered display name unless it is empty
            && (OfferedName(gi) != "" ==> g.name == OfferedName(gi))
            && (OfferedName(gi) == "" ==> g.name == gi.graphName)
            // parent: the generated class's name
            && g.parent == parent
            // category: only a found function gives one, with every `|` rewritten
            && (gi.callable.Some? ==> g.category == Pages.NormaliseCategory(gi.callable.value.category) && '|' !in g.category)
            && (gi.callable.None? ==> g.category == "")
            // tooltip: the found one, then every entry node's comment, no separator
            && g.toolTips == (if gi.callable.Some? then gi.callable.value.toolTip else gi.schemaTooltip) + EntryComments(gi.nodes)
            // flag: the 32-bit function flags widened, or left as it was
            && (gi.callable.Some? ==> g.flag == Widen(gi.callable.value.functionFlags))
            && (gi.callable.None? ==> g.flag == gi.unassignedFlag)
            // pins: entry pins in Input, the other result pins in Output
            && g.input == PinsInto(EmptyPinMap, EntryPins(gi.nodes)) && g.input.Valid()
            && g.output == PinsInto(EmptyPinMap, ResultPins(gi.nodes)) && g.output.Valid()
            // no to-do entries are ever recorded
            && g.todoList == []
  {
    AddNodesKeeps(GraphHeader(parent, gi), gi.nodes);
    AddNodesToolTips(GraphHeader(parent, gi), gi.nodes);
    AddNodesInput(GraphHeader(parent, gi), gi.nodes);
    AddNodesOutput(GraphHeader(parent, gi), gi.nodes);
    PinsIntoValid(EmptyPinMap, EntryPins(gi.nodes));
    PinsIntoValid(EmptyPinMap, ResultPins(gi.nodes));
  }

  /** A pin name is found in Input (ignoring case) exactly when some entry
      node has a pin of that name up to case, and in Output exactly when some
      result node that is not an entry node has one; every key is the exact
      name of such a pin. */
  lemma PinRouting(parent: string, gi: GraphInfo, k: string)
    ensures GraphDocumentOf(parent, gi).input.HasKey(k) <==>
              exists p :: p in EntryPins(gi.nodes) && Lower(p.pinName) == Lower(k)
    ensures GraphDocumentOf(parent, gi).output.HasKey(k) <==>
              exists p :: p in ResultPins(gi.nodes) && Lower(p.pinName) == Lower(k)
    ensures k in GraphDocumentOf(parent, gi).input.entries ==> exists p :: p in EntryPins(gi.nodes) && p.pinName == k
    ensures k in GraphDocumentOf(parent, gi).output.entries ==> exists p :: p in ResultPins(gi.nodes) && p.pinName == k
  {
    AddNodesInput(GraphHeader(parent, gi), gi.nodes);
    AddNodesOutput(GraphHeader(parent, gi), gi.nodes);
    PinsIntoKeys(EmptyPinMap, EntryPins(gi.nodes), k);
    PinsIntoKeys(EmptyPinMap, ResultPins(gi.nodes), k);
    PinsIntoKeysExact(EmptyPinMap, EntryPins(gi.nodes), k);
    PinsIntoKeysExact(EmptyPinMap, ResultPins(gi.nodes), k);
  }

  /** The last entry pin of a name (up to case) is the one Input holds, under
      its own exact name and as the only key of that name up to case, with
      its type taken from the sub-category object when there is one and from
      the pin category otherwise. */
  lemma EntryPinRecorded(parent: string, gi: GraphInfo, i: nat)
    requires i < |EntryPins(gi.nodes)|
    requires var ep := EntryPins(gi.nodes);
             forall j :: i < j < |ep| ==> Lower(ep[j].pinName) != Lower(ep[i].pinName)
    ensures var p, input := EntryPins(gi.nodes)[i], GraphDocumentOf(parent, gi).input;
            && p.pinName in input.entries
            && input.entries[p.pinName].name == p.pinName
            && input.entries[p.pinName].typeName ==
                 (if p.subCategoryObject.Some? then p.subCategoryObject.value else p.pinCategory)
            && input.entries[p.pinName].toolTips == p.pinToolTip
            && forall k :: k in input.entries && Lower(k) == Lower(p.pinName) ==> k == p.pinName
  {
    AddNodesInput(GraphHeader(parent, gi), gi.nodes);
    PinsIntoLastWins(EmptyPinMap, EntryPins(gi.nodes), i);
  }

  /** A graph's page never has a Todo section: nothing fills the list. */
  lemma NoTodoSection(parent: string, gi: GraphInfo)
    ensures Pages.TodoSection(GraphDocumentOf(parent, gi).todoList) == ""
  {
    GraphDocumentRules(parent, gi);
  }

  /** The graph record before its nodes are read, as the branches of the
      source set it. */
  method MakeGraphHeader(parent: string, gi: GraphInfo) returns (d: EdGraphDocument)
    ensures d == GraphHeader(parent, gi)
  {
    d := EdGraphDocument("", parent, "", gi.unassignedFlag, EmptyPinMap, EmptyPinMap, "", []);
    if gi.callable.Some? {
      var c := gi.callable.value;
      d := d.(name := c.displayName);
      if d.name == "" {
        d := d.(name := gi.graphName);
      }
      d := d.(category := Replace(c.category, "|", " - "), toolTips := c.toolTip, flag := Widen(c.functionFlags));
    } else {
      d := d.(name := gi.schemaDisplayName);
      if d.name == "" {
        d := d.(name := gi.graphName);
      }
      d := d.(toolTips := gi.schemaTooltip);
    }
  }

  /** One more pin: the map with that pin added. */
  lemma PinsIntoStep(pm: PinMap, pins: seq<PinInfo>, k: nat)
    requires k < |pins|
    ensures PinsInto(pm, pins[..k + 1]) == PinsInto(pm, pins[..k]).Add(pins[k].pinName, PinDocumentOf(pins[k]))
  {
    assert pins[..k + 1][..k] == pins[..k];
  }

  /** The pin loop for one node: every pin added to Input (entry node) or
      Output (result node). */
  method AddNodeHTML(d: EdGraphDocument, n: NodeInfo) returns (d': EdGraphDocument)
    ensures d' == AddNode(d, n)
  {
    var isEntry := Find(n.nodeName, "FunctionEntry") != -1;
    var isResult := Find(n.nodeName, "FunctionResult") != -1;
    d' := d;
    if isEntry || isResult {
      if isEntry && n.nodeComment != "" {
        d' := d'.(toolTips := d'.toolTips + n.nodeComment);
      }
      for k := 0 to |n.pins|
        invariant isEntry ==> d' == AddNode(d, n).(input := PinsInto(d.input, n.pins[..k]))
        invariant !isEntry ==> d' == d.(output := PinsInto(d.output, n.pins[..k]))
      {
        PinsIntoStep(d.input, n.pins, k);
        PinsIntoStep(d.output, n.pins, k);
        var pin := n.pins[k];
        var pd := PinDocument(pin.pinName, "", pin.defaultAsString, pin.pinToolTip);
        if pin.subCategoryObject.Some? {
          pd := pd.(typeName := pin.subCategoryObject.value);
        } else {
          pd := pd.(typeName := pin.pinCategory);
        }
        if isEntry {
          d' := d'.(input := d'.input.Add(pd.name, pd));
        } else if isResult {
          d' := d'.(output := d'.output.Add(pd.name, pd));
        }
      }
      assert n.pins[..|n.pins|] == n.pins;
    }
  }

  /** One more node: its contribution added. */
  lemma AddNodesStep(d: EdGraphDocument, nodes: seq<NodeInfo>, k: nat)
    requires k < |nodes|
    ensures AddNodes(d, nodes[..k + 1]) == AddNode(AddNodes(d, nodes[..k]), nodes[k])
  {
    assert nodes[..k + 1][..k] == nodes[..k];
  }

  /** One graph: its header, then its nodes in order. */
  method MakeGraph(parent: string, gi: GraphInfo) returns (d: EdGraphDocument)
    ensures d == GraphDocumentOf(parent, gi)
  {
    var header := MakeGraphHeader(parent, gi);
    d := header;
    for k := 0 to |gi.nodes|
      invariant d == AddNodes(header, gi.nodes[..k])
    {
      AddNodesStep(header, gi.nodes, k);
      d := AddNodeHTML(d, gi.nodes[k]);
    }
    assert gi.nodes[..|gi.nodes|] == gi.nodes;
  }

  /** MakeEdGraphDocument: appends one record per graph, in order. */
  method MakeEdGraphDocument(out: seq<EdGraphDocument>, parent: string, graphs: seq<GraphInfo>)
    returns (out': seq<EdGraphDocument>)
    ensures out' == out + GraphDocuments(parent, graphs)
  {
    out' := out;
    for i := 0 to |graphs|
      invariant out' == out + GraphDocuments(parent, graphs[..i])
    {
      assert graphs[..i + 1][..i] == graphs[..i];
      var d := MakeGraph(parent, graphs[i]);
      out' := out' + [d];
    }
    assert graphs[..|graphs|] == graphs;
  }

  // ---------------------------------------------------------------------
  // Properties

  /** `Right(n)`: the last `n` characters, or the whole string when it is shorter. */
  function Right(s: string, n: nat): string {
    if n <= |s| then s[|s| - n..] else s
  }

  /** `Right(n)` is the suffix of length min(n, |s|). */
  lemma RightIsSuffix(s: string, n: nat)
    ensures var r := Right(s, n);
            |r| == (if n <= |s| then n else |s|) && r == s[|s| - |r|..]
  {
  }

  /** Only the properties declared by the blueprint itself are kept: those
      whose full group name ends in "_C" (ignoring case). */
  predicate KeepProperty(pi: PropertyInfo) {
    EqualsIgnoreCase(Right(pi.fullGroupName, 2), "_C")
  }

  /** The kept names are exactly those whose last two characters are an
      underscore and a C of either case. */
  lemma KeepPropertyIff(pi: PropertyInfo)
    ensures var g := pi.fullGroupName;
            KeepProperty(pi) <==> |g| >= 2 && g[|g| - 2] == '_' && (g[|g| - 1] == 'C' || g[|g| - 1] == 'c')
  {
    var g := pi.fullGroupName;
    RightIsSuffix(g, 2);
    if |g| >= 2 {
      var r := Right(g, 2);
      assert r[0] == g[|g| - 2] && r[1] == g[|g| - 1];
      FoldNonLetter('_', r[0]);
    }
  }

  /** The type shown for a property: the struct's or class's name, or the
      property class's name with "Property" removed. */
  function TypeNameOf(kind: PropertyKind): string {
    match kind
    case StructProperty(n) => n
    case ObjectProperty(n) => n
    case OtherProperty(n) => Replace(n, "Property", "")
  }

  /** The record for one kept property. The record is fresh, so its name is
      always empty when tested and always set; the default value is never
      filled in. */
  function PropertyDocumentOf(pi: PropertyInfo): PropertyDocument
  {
    PropertyDocument(pi.name, TypeNameOf(pi.kind), Pages.NormaliseCategory(pi.categoryMeta),
                     pi.flags, "", pi.toolTipMeta, pi.condition)
  }

  /** The record keeps the property's name, flags and condition, shows the
      struct's or class's name or the property class's name without
      "Property", has a category without `|`, and no default value. */
  lemma PropertyDocumentRules(pi: PropertyInfo)
    ensures var r := PropertyDocumentOf(pi);
            && r.name == pi.name && r.propertyFlg == pi.flags && r.lifetimeCondition == pi.condition
            && r.toolTips == pi.toolTipMeta
            && r.category == Pages.NormaliseCategory(pi.categoryMeta) && '|' !in r.category
            && (pi.kind.StructProperty? ==> r.typeName == pi.kind.structName)
            && (pi.kind.ObjectProperty? ==> r.typeName == pi.kind.className)
            && (pi.kind.OtherProperty? ==> r.typeName == Replace(pi.kind.propertyClassName, "Property", ""))
            && r.defaultValue == ""
  {
  }

  /** An integer property shows as "Int". */
  lemma TypeNameExample()
    ensures TypeNameOf(OtherProperty("IntProperty")) == "Int"
  {
    var s, f := "IntProperty", "Property";
    ReplaceSkip(s, f, "");
    ReplaceSkip(s[1..], f, "");
    ReplaceSkip(s[2..], f, "");
    assert s[1..][1..] == s[2..] && s[2..][1..] == s[3..] && s[3..] == f;
    ReplaceWhole(f, "");
  }

  /** The records for the kept properties, in order. */
  function PropertyDocuments(ps: seq<PropertyInfo>): seq<PropertyDocument>
    decreases |ps|
  {
    if ps == [] then []
    else
      var p := ps[|ps| - 1];
      PropertyDocuments(ps[..|ps| - 1]) + (if KeepProperty(p) then [PropertyDocumentOf(p)] else [])
  }

  /** The images under `f` of the items that `keep` selects, in order. */
  function MapWhere<A, B>(xs: seq<A>, keep: A -> bool, f: A -> B): seq<B>
    decreases |xs|
  {
    if xs == [] then []
    else
      var x := xs[|xs| - 1];
      MapWhere(xs[..|xs| - 1], keep, f) + (if keep(x) then [f(x)] else [])
  }

  lemma {:induction false} MapWhereMembership<A, B>(xs: seq<A>, keep: A -> bool, f: A -> B, y: B)
    ensures y in MapWhere(xs, keep, f) <==> exists x :: x in xs && keep(x) && y == f(x)
    decreases |xs|
  {
    if xs != [] {
      var init, last := xs[..|xs| - 1], xs[|xs| - 1];
      MapWhereMembership(init, keep, f, y);
      assert xs == init + [last];
      if exists x :: x in xs && keep(x) && y == f(x) {
        var x :| x in xs && keep(x) && y == f(x);
        if x != last {
          assert x in init;
        }
      }
    }
  }

  lemma {:induction false} PropertyDocumentsWhere(ps: seq<PropertyInfo>)
    ensures PropertyDocuments(ps) == MapWhere(ps, KeepProperty, PropertyDocumentOf)
    decreases |ps|
  {
    if ps != [] {
      PropertyDocumentsWhere(ps[..|ps| - 1]);
    }
  }

  /** A record is among the blueprint's properties exactly when it is the
      record of a kept property. */
  lemma PropertiesKept(ps: seq<PropertyInfo>, x: PropertyDocument)
    ensures x in PropertyDocuments(ps) <==> exists p :: p in ps && KeepProperty(p) && x == PropertyDocumentOf(p)
  {
    PropertyDocumentsWhere(ps);
    MapWhereMembership(ps, KeepProperty, PropertyDocumentOf, x);
  }

  /** The property loop of BlueprintToDoc_Exec. */
  method CollectProperties(ps: seq<PropertyInfo>) returns (out: seq<PropertyDocument>)
    ensures out == PropertyDocuments(ps)
  {
    out := [];
    for i := 0 to |ps|
      invariant out == PropertyDocuments(ps[..i])
    {
      assert ps[..i + 1][..i] == ps[..i];
      var pi := ps[i];
      if EqualsIgnoreCase(Right(pi.fullGroupName, 2), "_C") {
        var pd := PropertyDocument("", "", "", pi.flags, "", "", pi.condition);
        if pd.name == "" {
          pd := pd.(name := pi.name);
        }
        match pi.kind {
          case StructProperty(n) => pd := pd.(typeName := n);
          case ObjectProperty(n) => pd := pd.(typeName := n);
          case OtherProperty(n) => pd := pd.(typeName := Replace(n, "Property", ""));
        }
        pd := pd.(category := Replace(pi.categoryMeta, "|", " - "), toolTips := pi.toolTipMeta);
        out := out + [pd];
      }
    }
    assert ps[..|ps|] == ps;
  }

  // ---------------------------------------------------------------------
  // Blueprints

  /** The record for one blueprint asset. The tooltip, the parent and every
      graph and property are read only when the generated class is present
      (see BlueprintDocumentAsWritten for the order the source reads them in);
      components are never filled in. */
  function BlueprintDocumentOf(a: AssetInfo, b: BlueprintAsset): (r: BlueprintDocument)
    ensures r.name == a.assetName && r.contentPath == a.packagePath && r.components == []
  {
    match b.generatedClass
    case None => BlueprintDocument(a.assetName, "", "", a.packagePath, [], [], [], [], [])
    case Some(c) =>
      BlueprintDocument(a.assetName, c.toolTipMeta, c.superName, a.packagePath,
                        GraphDocuments(c.className, c.eventGraphs),
                        GraphDocuments(c.className, c.macroGraphs),
                        GraphDocuments(c.className, c.functionGraphs),
                        [], PropertyDocuments(c.properties))
  }

  /** An asset is documented when its package path does not contain
      "/Engine/" (ignoring case) and the cast to a blueprint succeeded. */
  predicate Eligible(a: AssetInfo) {
    !Contains(a.packagePath, "/Engine/") && a.blueprint.Some?
  }

  /** The blueprint records, in the order the registry returned the assets. */
  function ExtractBlueprints(assets: seq<AssetInfo>): seq<BlueprintDocument>
    decreases |assets|
  {
    if assets == [] then []
    else
      var a := assets[|assets| - 1];
      ExtractBlueprints(assets[..|assets| - 1]) + (if Eligible(a) then [BlueprintDocumentOf(a, a.blueprint.value)] else [])
  }

  /** The record of an asset that has a blueprint (the bare record otherwise). */
  function AssetRecord(a: AssetInfo): BlueprintDocument {
    match a.blueprint
    case Some(b) => BlueprintDocumentOf(a, b)
    case None => BlueprintDocument(a.assetName, "", "", a.packagePath, [], [], [], [], [])
  }

  lemma {:induction false} ExtractBlueprintsWhere(assets: seq<AssetInfo>)
    ensures ExtractBlueprints(assets) == MapWhere(assets, Eligible, AssetRecord)
    decreases |assets|
  {
    if assets != [] {
      ExtractBlueprintsWhere(assets[..|assets| - 1]);
    }
  }

  /** A record is extracted exactly when it is the record of an eligible
      asset; so no extracted blueprint lives under "/Engine/". */
  lemma ExtractedBlueprints(assets: seq<AssetInfo>, x: BlueprintDocument)
    ensures x in ExtractBlueprints(assets) <==>
              exists a :: a in assets && Eligible(a) && x == BlueprintDocumentOf(a, a.blueprint.value)
  {
    ExtractBlueprintsWhere(assets);
    MapWhereMembership(assets, Eligible, AssetRecord, x);
    if exists a :: a in assets && Eligible(a) && x == AssetRecord(a) {
      var a :| a in assets && Eligible(a) && x == AssetRecord(a);
      assert x == BlueprintDocumentOf(a, a.blueprint.value);
    }
    if exists a :: a in assets && Eligible(a) && x == BlueprintDocumentOf(a, a.blueprint.value) {
      var a :| a in assets && Eligible(a) && x == BlueprintDocumentOf(a, a.blueprint.value);
      assert x == AssetRecord(a);
    }
  }

  /** No extracted blueprint lives under "/Engine/", and none has components. */
  lemma ExtractedBlueprintsOutsideEngine(assets: seq<AssetInfo>, x: BlueprintDocument)
    requires x in ExtractBlueprints(assets)
    ensures !Contains(x.contentPath, "/Engine/") && x.components == []
  {
    ExtractedBlueprints(assets, x);
  }

  /** The record as the asset loop is written: the tooltip is read through
      the generated class before the class is checked, so an asset without
      one faults (`None`) instead of producing a record. */
  function BlueprintDocumentAsWritten(a: AssetInfo, b: BlueprintAsset): Option<BlueprintDocument> {
    if b.generatedClass.None? then None else Some(BlueprintDocumentOf(a, b))
  }

  /** A blueprint whose generated class is missing gets past the class
      check's guard in name only: as written it faults, while the corrected
      record (the tooltip read moved under the check) is the bare record
      with its name and path. With a class the two agree. */
  lemma NullClassRead(a: AssetInfo, c: ClassInfo)
    ensures BlueprintDocumentAsWritten(a, BlueprintAsset(None)) == None
    ensures BlueprintDocumentOf(a, BlueprintAsset(None)) ==
              BlueprintDocument(a.assetName, "", "", a.packagePath, [], [], [], [], [])
    ensures BlueprintDocumentAsWritten(a, BlueprintAsset(Some(c))) == Some(BlueprintDocumentOf(a, BlueprintAsset(Some(c))))
  {
  }

  /** One asset of the loop: the record for it. */
  method MakeBlueprintDocument(a: AssetInfo, b: BlueprintAsset) returns (bd: BlueprintDocument)
    ensures bd == BlueprintDocumentOf(a, b)
  {
    bd := BlueprintDocument(a.assetName, "", "", a.packagePath, [], [], [], [], []);
    if b.generatedClass.Some? {
      var c := b.generatedClass.value;
      bd := bd.(toolTips := c.toolTipMeta, parentName := c.superName);
      var events := MakeEdGraphDocument([], c.className, c.eventGraphs);
      var macros := MakeEdGraphDocument([], c.className, c.macroGraphs);
      var functions := MakeEdGraphDocument([], c.className, c.functionGraphs);
      var properties := CollectProperties(c.properties);
      bd := bd.(events := events, macros := macros, functions := functions, properties := properties);
    }
  }

  /** The asset loop of BlueprintToDoc_Exec: every eligible asset's record
      added to the document, in order. */
  method AddBlueprints(doc: Document, assets: seq<AssetInfo>)
    modifies doc
    ensures doc.blueprints == old(doc.blueprints) + ExtractBlueprints(assets)
    ensures doc.rootPath == old(doc.rootPath)
  {
    for i := 0 to |assets|
      invariant doc.blueprints == old(doc.blueprints) + ExtractBlueprints(assets[..i])
      invariant doc.rootPath == old(doc.rootPath)
    {
      assert assets[..i + 1][..i] == assets[..i];
      var a := assets[i];
      if Find(a.packagePath, "/Engine/") != -1 {
        continue;
      }
      if a.blueprint.None? {
        continue;
      }
      var bd := MakeBlueprintDocument(a, a.blueprint.value);
      doc.Add(bd);
    }
    assert assets[..|assets|] == assets;
  }

  // ---------------------------------------------------------------------
  // The whole run

  /** The category pages written one after another over `files`; each
      page lists the given (sorted) blueprints' properties of that category. */
  function CategoryFiles(files: map<string, string>, bps: seq<BlueprintDocument>, cats: seq<string>): map<string, string>
    decreases |cats|
  {
    if cats == [] then files
    else
      var c := cats[|cats| - 1];
      CategoryFiles(files, bps, cats[..|cats| - 1])[Pages.CategoryPagePath(c) := Pages.HTMLPage(Pages.CategoryBody(bps, c))]
  }

  /** Different categories have different page paths. */
  lemma CategoryPathInjective(a: string, b: string)
    requires Pages.CategoryPagePath(a) == Pages.CategoryPagePath(b)
    ensures a == b
  {
    var p := Pages.CategoryPagePath(a);
    assert a == p[10..|p| - 5];
    assert b == p[10..|p| - 5];
  }

  /** Every configured category has its page, listing that category's
      properties. */
  lemma {:induction false} CategoryPageWritten(files: map<string, string>, bps: seq<BlueprintDocument>, cats: seq<string>, c: string)
    requires c in cats
    ensures Pages.CategoryPagePath(c) in CategoryFiles(files, bps, cats)
    ensures CategoryFiles(files, bps, cats)[Pages.CategoryPagePath(c)] == Pages.HTMLPage(Pages.CategoryBody(bps, c))
    decreases |cats|
  {
    var init, last := cats[..|cats| - 1], cats[|cats| - 1];
    assert cats == init + [last];
    if Pages.CategoryPagePath(last) == Pages.CategoryPagePath(c) {
      CategoryPathInjective(last, c);
    } else {
      CategoryPageWritten(files, bps, init, c);
    }
  }

  /** Writing the category pages leaves every other file as it was. */
  lemma {:induction false} CategoryPagesKeep(files: map<string, string>, bps: seq<BlueprintDocument>, cats: seq<string>, k: string)
    requires forall c :: c in cats ==> Pages.CategoryPagePath(c) != k
    ensures k in CategoryFiles(files, bps, cats) <==> k in files
    ensures k in files ==> CategoryFiles(files, bps, cats)[k] == files[k]
    decreases |cats|
  {
    if cats != [] {
      var init, last := cats[..|cats| - 1], cats[|cats| - 1];
      assert cats == init + [last];
      CategoryPagesKeep(files, bps, init, k);
    }
  }

  /** The category step of BlueprintToDoc_Exec: it keeps the blueprints
      as they are once they are sorted. */
  lemma CategoryStep(files: map<string, string>, bps: seq<BlueprintDocument>, cats: seq<string>, i: nat)
    requires i < |cats|
    ensures CategoryFiles(files, bps, cats[..i + 1]) ==
              CategoryFiles(files, bps, cats[..i])[Pages.CategoryPagePath(cats[i]) := Pages.HTMLPage(Pages.CategoryBody(bps, cats[i]))]
  {
    assert cats[..i + 1][..i] == cats[..i];
  }

  /** BlueprintToDoc_Exec: when the registry query fails nothing happens;
      otherwise every eligible asset's record is added, the document is
      sorted by content path and written out, and then one page per
      configured category. `cats` are the configured categories in order;
      they also head the table of contents. */
  method BlueprintToDocExec(doc: Document, assets: Option<seq<AssetInfo>>, cats: seq<string>,
                            m: FlagMasks, files: map<string, string>)
    returns (files': map<string, string>)
    modifies doc
    ensures doc.rootPath == old(doc.rootPath)
    ensures assets.None? ==> doc.blueprints == old(doc.blueprints) && files' == files
    ensures assets.Some? ==>
              doc.blueprints == SortBlueprints(old(doc.blueprints) + ExtractBlueprints(assets.value))
    ensures assets.Some? ==>
              files' == CategoryFiles(Pages.DocumentFiles(files, doc.blueprints, cats, m), doc.blueprints, cats)
  {
    files' := files;
    if assets.None? {
      return;
    }
    AddBlueprints(doc, assets.value);
    files' := Renderer.DocumentToHTML(doc, cats, m, files');
    ghost var sorted := doc.blueprints;
    ghost var written := files';
    SortsAreOrdered(old(doc.blueprints) + ExtractBlueprints(assets.value), [], []);
    SortSortedIdentity(sorted, ContentPathKey);
    for i := 0 to |cats|
      invariant doc.blueprints == sorted && doc.rootPath == old(doc.rootPath)
      invariant files' == CategoryFiles(written, sorted, cats[..i])
    {
      CategoryStep(written, sorted, cats, i);
      files' := Renderer.CategoryPageHTML(doc, cats[i], files');
    }
    assert cats[..|cats|] == cats;
  }

  // ---------------------------------------------------------------------
  // The root path

  /** Where the document is written: the project's "Doc" directory, the
      configured path as it stands, or the configured path under the
      project directory. */
  datatype RootPath = ProjectDoc | AsGiven(path: string) | ProjectRelative(path: string)

  /** The rule of the automation test's set-up: a path counts as absolute
      when ":/" is first found at index 1. */
  function ResolveRootPath(configured: string): RootPath {
    if configured == "" then ProjectDoc
    else if Find(configured, ":/") != 1 then ProjectRelative(configured)
    else AsGiven(configured)
  }

  /** The rule of the editor command BlueprintToDoc: any configured path
      is used as it stands. */
  function ResolveRootPathFromMenu(configured: string): RootPath {
    if configured == "" then ProjectDoc else AsGiven(configured)
  }

  /** The two entry points write to the same place exactly when no path is
      configured or the configured one is absolute. */
  lemma RootPathEntryPointsAgree(configured: string)
    ensures ResolveRootPath(configured) == ResolveRootPathFromMenu(configured) <==>
              configured == "" || (|configured| >= 3 && configured[1] == ':' && configured[2] == '/')
  {
    ResolveRootPathIff(configured);
  }

  /** A configured path is taken as absolute exactly when it has a drive
      letter (any character) followed by ":/". */
  lemma ResolveRootPathIff(configured: string)
    ensures ResolveRootPath(configured).AsGiven? <==>
              |configured| >= 3 && configured[1] == ':' && configured[2] == '/'
    ensures ResolveRootPath(configured) == ProjectDoc <==> configured == ""
  {
    var s := configured;
    assert Lower(":/") == ":/";
    if |s| >= 3 && s[1] == ':' && s[2] == '/' {
      assert s[1..3] == ":/";
      assert MatchAt(s, ":/", 1);
      assert !MatchAt(s, ":/", 0) by {
        FoldNonLetter('/', s[1]);
        assert Lower(s[0..2])[1] == LowerChar(s[1]);
      }
    }
    if ResolveRootPath(s).AsGiven? {
      assert MatchAt(s, ":/", 1);
      assert Lower(s[1..3]) == ":/";
      assert Lower(s[1..3])[0] == LowerChar(s[1]) && Lower(s[1..3])[1] == LowerChar(s[2]);
      FoldNonLetter(':', s[1]);
      FoldNonLetter('/', s[2]);
    }
  }
}
