/** Decoding of flag masks into badge lines (the AddLine blocks of the graph
    and property tables) and the replication-condition label table. The
    engine's FUNC_* and CPF_* mask values are not part of this model; they
    are taken as parameters, and nothing here depends on their values. */
module Badges {
  import opened Wrappers
  import opened Records

  /** The bit pattern of a signed 64-bit mask (two's complement), which is
      what `PropertyFlg & CPF_x` tests. */
  function Bits(x: int64): bv64 {
    (if x < 0 then x as int + 0x1_0000_0000_0000_0000 else x as int) as bv64
  }

  /** `(Flag & Mask) != 0`. */
  predicate IsSet(flag: bv64, mask: bv64) {
    flag & mask != 0
  }

  /** One line of a badge block: the mask tested and the label written. */
  datatype Badge = Badge(mask: bv64, name: string)

  const LineEnd: string := "</br>\n"

  /** AddLine: appends `add` and a line break when `result` holds. */
  function AddLine(s: string, result: bool, add: string): string {
    if result then s + add + LineEnd else s
  }

  /** A block of AddLine calls over `table`, in table order, starting from
      the empty string. */
  function BadgeLines(flag: bv64, table: seq<Badge>): (r: string)
    ensures r == "" <==> forall i :: 0 <= i < |table| ==> !IsSet(flag, table[i].mask)
    decreases |table|
  {
    if table == [] then ""
    else
      var last := table[|table| - 1];
      AddLine(BadgeLines(flag, table[..|table| - 1]), IsSet(flag, last.mask), last.name)
  }

  /** The labels whose bits are set, in table order (an independent
      reference for what a badge block writes). */
  function SetLabels(flag: bv64, table: seq<Badge>): seq<string>
    decreases |table|
  {
    if table == [] then []
    else
      var last := table[|table| - 1];
      SetLabels(flag, table[..|table| - 1]) + (if IsSet(flag, last.mask) then [last.name] else [])
  }

  /** One line per label, in order. */
  function Lines(labels: seq<string>): string {
    if labels == [] then "" else labels[0] + LineEnd + Lines(labels[1..])
  }

  lemma {:induction false} LinesAppend(a: seq<string>, l: string)
    ensures Lines(a + [l]) == Lines(a) + l + LineEnd
    decreases |a|
  {
    if a != [] {
      assert (a + [l])[1..] == a[1..] + [l];
      LinesAppend(a[1..], l);
    }
  }

  /** A badge block writes `label</br>\n` for exactly the entries whose bit
      is set, in table order: a label listed twice in the table is written
      twice. */
  lemma {:induction false} BadgeLinesAreSetLabels(flag: bv64, table: seq<Badge>)
    ensures BadgeLines(flag, table) == Lines(SetLabels(flag, table))
    decreases |table|
  {
    if table != [] {
      var init, last := table[..|table| - 1], table[|table| - 1];
      BadgeLinesAreSetLabels(flag, init);
      if IsSet(flag, last.mask) {
        LinesAppend(SetLabels(flag, init), last.name);
      } else {
        assert SetLabels(flag, table) == SetLabels(flag, init);
      }
    }
  }

  /** A label is written exactly when some entry carrying it has its bit set. */
  lemma {:induction false} SetLabelMembership(flag: bv64, table: seq<Badge>, l: string)
    ensures l in SetLabels(flag, table) <==>
            exists i :: 0 <= i < |table| && table[i].name == l && IsSet(flag, table[i].mask)
    decreases |table|
  {
    if table != [] {
      var init := table[..|table| - 1];
      SetLabelMembership(flag, init, l);
      if l in SetLabels(flag, init) {
        var i :| 0 <= i < |init| && init[i].name == l && IsSet(flag, init[i].mask);
        assert table[i] == init[i];
      }
      if exists i :: 0 <= i < |table| && table[i].name == l && IsSet(flag, table[i].mask) {
        var i :| 0 <= i < |table| && table[i].name == l && IsSet(flag, table[i].mask);
        if i < |init| {
          assert init[i] == table[i];
        }
      }
    }
  }

  /** The engine's function-flag masks (FUNC_*) the tables test. */
  datatype FunctionFlagMasks = FunctionFlagMasks(
    FUNC_Public: bv64, FUNC_Private: bv64, FUNC_Protected: bv64,
    FUNC_NetResponse: bv64, FUNC_NetServer: bv64, FUNC_NetMulticast: bv64,
    FUNC_NetRequest: bv64, FUNC_NetClient: bv64, FUNC_NetReliable: bv64,
    FUNC_Final: bv64, FUNC_RequiredAPI: bv64, FUNC_BlueprintAuthorityOnly: bv64,
    FUNC_BlueprintCosmetic: bv64, FUNC_Exec: bv64, FUNC_Native: bv64,
    FUNC_Event: bv64, FUNC_Static: bv64, FUNC_MulticastDelegate: bv64,
    FUNC_BlueprintCallable: bv64, FUNC_BlueprintEvent: bv64, FUNC_BlueprintPure: bv64,
    FUNC_EditorOnly: bv64, FUNC_Const: bv64, FUNC_NetValidate: bv64,
    FUNC_Delegate: bv64, FUNC_HasOutParms: bv64, FUNC_HasDefaults: bv64,
    FUNC_DLLImport: bv64)

  /** The engine's property-flag masks (CPF_*) the tables test. */
  datatype PropertyFlagMasks = PropertyFlagMasks(
    CPF_Edit: bv64, CPF_ConstParm: bv64, CPF_BlueprintVisible: bv64,
    CPF_ExportObject: bv64, CPF_Parm: bv64, CPF_ZeroConstructor: bv64,
    CPF_DisableEditOnTemplate: bv64, CPF_Transient: bv64, CPF_Config: bv64,
    CPF_DisableEditOnInstance: bv64, CPF_EditConst: bv64, CPF_GlobalConfig: bv64,
    CPF_InstancedReference: bv64, CPF_DuplicateTransient: bv64,
    CPF_SubobjectReference: bv64, CPF_SaveGame: bv64, CPF_ReferenceParm: bv64,
    CPF_Deprecated: bv64, CPF_IsPlainOldData: bv64,
    CPF_Net: bv64, CPF_RepSkip: bv64, CPF_RepNotify: bv64,
    CPF_Protected: bv64,
    CPF_ExposeOnSpawn: bv64, CPF_EditorOnly: bv64, CPF_Interp: bv64,
    CPF_NonTransactional: bv64, CPF_BlueprintCallable: bv64,
    CPF_BlueprintAuthorityOnly: bv64)

  datatype FlagMasks = FlagMasks(func: FunctionFlagMasks, prop: PropertyFlagMasks)

  /** The graph Access block. */
  function FunctionAccessTable(m: FunctionFlagMasks): seq<Badge> {
    [Badge(m.FUNC_Public, "Public"), Badge(m.FUNC_Private, "Private"), Badge(m.FUNC_Protected, "Protected")]
  }

  /** The graph Net block. */
  function FunctionNetTable(m: FunctionFlagMasks): seq<Badge> {
    [ Badge(m.FUNC_NetResponse, "NetResponse"), Badge(m.FUNC_NetServer, "NetServer"),
      Badge(m.FUNC_NetMulticast, "NetMulticast"), Badge(m.FUNC_NetRequest, "NetRequest"),
      Badge(m.FUNC_NetClient, "NetClient"), Badge(m.FUNC_NetReliable, "NetReliable") ]
  }

  /** The graph FunctionFlag block. RequiredAPI is tested twice, as the
      fourth line repeats the second. */
  function FunctionFlagHead(m: FunctionFlagMasks): seq<Badge> {
    [ Badge(m.FUNC_Final, "Final"), Badge(m.FUNC_RequiredAPI, "RequiredAPI"),
      Badge(m.FUNC_BlueprintAuthorityOnly, "BlueprintAuthorityOnly"),
      Badge(m.FUNC_RequiredAPI, "RequiredAPI") ]
  }

  function FunctionFlagTail(m: FunctionFlagMasks): seq<Badge> {
    [ Badge(m.FUNC_BlueprintCosmetic, "BlueprintCosmetic"), Badge(m.FUNC_Exec, "Exec"),
      Badge(m.FUNC_Native, "Native"), Badge(m.FUNC_Event, "Event"), Badge(m.FUNC_Static, "Static"),
      Badge(m.FUNC_MulticastDelegate, "MulticastDelegate"),
      Badge(m.FUNC_BlueprintCallable, "BlueprintCallable"),
      Badge(m.FUNC_BlueprintEvent, "BlueprintEvent"), Badge(m.FUNC_BlueprintPure, "BlueprintPure"),
      Badge(m.FUNC_EditorOnly, "EditorOnly"), Badge(m.FUNC_Const, "Const"),
      Badge(m.FUNC_NetValidate, "NetValidate"), Badge(m.FUNC_Delegate, "Delegate"),
      Badge(m.FUNC_HasOutParms, "HasOutParms"), Badge(m.FUNC_HasDefaults, "HasDefaults"),
      Badge(m.FUNC_DLLImport, "DLLImport") ]
  }

  function FunctionFlagTable(m: FunctionFlagMasks): seq<Badge> {
    FunctionFlagHead(m) + FunctionFlagTail(m)
  }

  /** The property Flag block: the lines before the Net, RepSkip, RepNotify
      and Protected tests, then the lines after them. */
  function PropertyFlagTable(m: PropertyFlagMasks): seq<Badge> {
    [ Badge(m.CPF_Edit, "Edit"), Badge(m.CPF_ConstParm, "ConstParm"),
      Badge(m.CPF_BlueprintVisible, "BlueprintVisible"), Badge(m.CPF_ExportObject, "ExportObject"),
      Badge(m.CPF_Parm, "Parm"), Badge(m.CPF_ZeroConstructor, "ZeroConstructor"),
      Badge(m.CPF_DisableEditOnTemplate, "DisableEditOnTemplate"),
      Badge(m.CPF_Transient, "Transient"), Badge(m.CPF_Config, "Config"),
      Badge(m.CPF_DisableEditOnInstance, "DisableEditOnInstance"),
      Badge(m.CPF_EditConst, "EditConst"), Badge(m.CPF_GlobalConfig, "GlobalConfig"),
      Badge(m.CPF_InstancedReference, "InstancedReference"),
      Badge(m.CPF_DuplicateTransient, "DuplicateTransient"),
      Badge(m.CPF_SubobjectReference, "SubobjectReference"), Badge(m.CPF_SaveGame, "SaveGame"),
      Badge(m.CPF_ReferenceParm, "ReferenceParm"), Badge(m.CPF_Deprecated, "Deprecated"),
      Badge(m.CPF_IsPlainOldData, "IsPlainOldData") ]
    +
    [ Badge(m.CPF_ExposeOnSpawn, "ExposeOnSpawn"), Badge(m.CPF_EditorOnly, "EditorOnly"),
      Badge(m.CPF_Interp, "Interp"), Badge(m.CPF_NonTransactional, "NonTransactional"),
      Badge(m.CPF_BlueprintCallable, "BlueprintCallable"),
      Badge(m.CPF_BlueprintAuthorityOnly, "BlueprintAuthorityOnly") ]
  }

  /** The property Net block (before the replication condition is added). */
  function PropertyNetTable(m: PropertyFlagMasks): seq<Badge> {
    [Badge(m.CPF_Net, "Net"), Badge(m.CPF_RepSkip, "RepSkip"), Badge(m.CPF_RepNotify, "RepNotify")]
  }

  /** The property Access block: Protected is its only line. */
  function PropertyAccessTable(m: PropertyFlagMasks): seq<Badge> {
    [Badge(m.CPF_Protected, "Protected")]
  }

  /** How many entries of `table` carry the label `l` and have their bit set. */
  function LabelCount(flag: bv64, table: seq<Badge>, l: string): nat
    decreases |table|
  {
    if table == [] then 0
    else (if table[0].name == l && IsSet(flag, table[0].mask) then 1 else 0) + LabelCount(flag, table[1..], l)
  }

  /** A label is written as many times as the entries counted for it. */
  lemma {:induction false} SetLabelsCount(flag: bv64, table: seq<Badge>, l: string)
    ensures multiset(SetLabels(flag, table))[l] == LabelCount(flag, table, l)
    decreases |table|
  {
    if table != [] {
      var init, last := table[..|table| - 1], table[|table| - 1];
      SetLabelsCount(flag, init, l);
      assert table == init + [last] && [last] == [last] + [];
      LabelCountAppend(flag, init, [last], l);
      LabelCountCons(flag, last, [], l);
      var h := if IsSet(flag, last.mask) then [last.name] else [];
      assert multiset(SetLabels(flag, table)) == multiset(SetLabels(flag, init)) + multiset(h);
    }
  }

  lemma LabelCountCons(flag: bv64, x: Badge, rest: seq<Badge>, l: string)
    ensures LabelCount(flag, [x] + rest, l) == (if x.name == l && IsSet(flag, x.mask) then 1 else 0) + LabelCount(flag, rest, l)
  {
    assert ([x] + rest)[1..] == rest;
  }

  lemma {:induction false} LabelCountAppend(flag: bv64, a: seq<Badge>, b: seq<Badge>, l: string)
    ensures LabelCount(flag, a + b, l) == LabelCount(flag, a, l) + LabelCount(flag, b, l)
    decreases |a|
  {
    if a != [] {
      assert a + b == [a[0]] + (a[1..] + b);
      assert a == [a[0]] + a[1..];
      LabelCountCons(flag, a[0], a[1..] + b, l);
      LabelCountCons(flag, a[0], a[1..], l);
      LabelCountAppend(flag, a[1..], b, l);
    } else {
      assert a + b == b;
    }
  }

  lemma {:induction false} LabelCountAbsent(flag: bv64, table: seq<Badge>, l: string)
    requires forall i :: 0 <= i < |table| ==> table[i].name != l
    ensures LabelCount(flag, table, l) == 0
    decreases |table|
  {
    if table != [] {
      assert forall i :: 0 <= i < |table[1..]| ==> table[1..][i] == table[i + 1];
      LabelCountAbsent(flag, table[1..], l);
    }
  }

  lemma TailHasNoRequiredApi(m: FunctionFlagMasks)
    ensures forall i :: 0 <= i < |FunctionFlagTail(m)| ==> FunctionFlagTail(m)[i].name != "RequiredAPI"
  {
  }

  /** Four entries of which the second and fourth carry the label. */
  lemma LabelCountTwice(flag: bv64, a: Badge, r: Badge, b: Badge, l: string)
    requires a.name != l && r.name == l && b.name != l
    ensures LabelCount(flag, [a, r, b, r], l) == if IsSet(flag, r.mask) then 2 else 0
  {
    LabelCountCons(flag, r, [], l);
    assert [r] == [r] + [];
    LabelCountCons(flag, b, [r], l);
    assert [b, r] == [b] + [r];
    LabelCountCons(flag, r, [b, r], l);
    assert [r, b, r] == [r] + [b, r];
    LabelCountCons(flag, a, [r, b, r], l);
    assert [a, r, b, r] == [a] + [r, b, r];
  }

  /** The head of the FunctionFlag block tests RequiredAPI twice. */
  lemma HeadListsRequiredApiTwice(flag: bv64, m: FunctionFlagMasks)
    ensures LabelCount(flag, FunctionFlagHead(m), "RequiredAPI") == if IsSet(flag, m.FUNC_RequiredAPI) then 2 else 0
  {
    LabelCountTwice(flag, Badge(m.FUNC_Final, "Final"), Badge(m.FUNC_RequiredAPI, "RequiredAPI"),
                    Badge(m.FUNC_BlueprintAuthorityOnly, "BlueprintAuthorityOnly"), "RequiredAPI");
  }

  /** A set RequiredAPI bit yields the RequiredAPI line twice; a clear one, never. */
  lemma RequiredApiListedTwice(flag: bv64, m: FunctionFlagMasks)
    ensures multiset(SetLabels(flag, FunctionFlagTable(m)))["RequiredAPI"] ==
            if IsSet(flag, m.FUNC_RequiredAPI) then 2 else 0
  {
    SetLabelsCount(flag, FunctionFlagTable(m), "RequiredAPI");
    LabelCountAppend(flag, FunctionFlagHead(m), FunctionFlagTail(m), "RequiredAPI");
    HeadListsRequiredApiTwice(flag, m);
    TailHasNoRequiredApi(m);
    LabelCountAbsent(flag, FunctionFlagTail(m), "RequiredAPI");
  }

  /** LifetimeConditionToString: the fixed label of each named condition;
      the sentinel and any other byte give the empty string. */
  function LifetimeConditionToString(c: LifetimeCondition): (r: string)
    ensures r == "" <==> (c.CondMax? || c.CondOther?)
  {
    match c
    case CondNone => "None"
    case CondInitialOnly => "Initial Only"
    case CondOwnerOnly => "Owner Only"
    case CondSkipOwner => "Skip Owner"
    case CondSimulatedOnly => "Simulated Only"
    case CondAutonomousOnly => "Autonomous Only"
    case CondSimulatedOrPhysics => "Simulated Or Physics"
    case CondInitialOrOwner => "Initial Or Owner"
    case CondCustom => "Custom"
    case CondReplayOrOwner => "Replay Or Owner"
    case CondReplayOnly => "Replay Only"
    case CondSimulatedOnlyNoReplay => "Simulated Only No Replay"
    case CondSimulatedOrPhysicsNoReplay => "Simulated Or Physics No Replay"
    case CondSkipReplay => "Skip Replay"
    case CondMax => ""
    case CondOther(_) => ""
  }

  /** The inverse of the label table, on the fourteen labels. */
  function LifetimeConditionOfLabel(s: string): Option<LifetimeCondition> {
    if s == "None" then Some(CondNone)
    else if s == "Initial Only" then Some(CondInitialOnly)
    else if s == "Owner Only" then Some(CondOwnerOnly)
    else if s == "Skip Owner" then Some(CondSkipOwner)
    else if s == "Simulated Only" then Some(CondSimulatedOnly)
    else if s == "Autonomous Only" then Some(CondAutonomousOnly)
    else if s == "Simulated Or Physics" then Some(CondSimulatedOrPhysics)
    else if s == "Initial Or Owner" then Some(CondInitialOrOwner)
    else if s == "Custom" then Some(CondCustom)
    else if s == "Replay Or Owner" then Some(CondReplayOrOwner)
    else if s == "Replay Only" then Some(CondReplayOnly)
    else if s == "Simulated Only No Replay" then Some(CondSimulatedOnlyNoReplay)
    else if s == "Simulated Or Physics No Replay" then Some(CondSimulatedOrPhysicsNoReplay)
    else if s == "Skip Replay" then Some(CondSkipReplay)
    else None
  }

  lemma LabelIdentifiesCondition(c: LifetimeCondition)
    ensures LifetimeConditionToString(c) != "" ==>
              LifetimeConditionOfLabel(LifetimeConditionToString(c)) == Some(c)
  {
    match c
    case CondNone =>
    case CondInitialOnly =>
    case CondOwnerOnly =>
    case CondSkipOwner =>
    case CondSimulatedOnly =>
    case CondAutonomousOnly =>
    case CondSimulatedOrPhysics =>
    case CondInitialOrOwner =>
    case CondCustom =>
    case CondReplayOrOwner =>
    case CondReplayOnly =>
    case CondSimulatedOnlyNoReplay =>
    case CondSimulatedOrPhysicsNoReplay =>
    case CondSkipReplay =>
    case CondMax =>
    case CondOther(_) =>
  }

  lemma LabelReadBack(s: string)
    ensures LifetimeConditionOfLabel(s).Some? ==>
              LifetimeConditionToString(LifetimeConditionOfLabel(s).value) == s
  {
    if s == "None" {
    } else if s == "Initial Only" {
    } else if s == "Owner Only" {
    } else if s == "Skip Owner" {
    } else if s == "Simulated Only" {
    } else if s == "Autonomous Only" {
    } else if s == "Simulated Or Physics" {
    } else if s == "Initial Or Owner" {
    } else if s == "Custom" {
    } else if s == "Replay Or Owner" {
    } else if s == "Replay Only" {
    } else if s == "Simulated Only No Replay" {
    } else if s == "Simulated Or Physics No Replay" {
    } else if s == "Skip Replay" {
    }
  }

  /** The fourteen labels are distinct: a non-empty label identifies its
      condition, and every label read back is the label of that condition. */
  lemma LifetimeLabelRoundTrip(c: LifetimeCondition, s: string)
    ensures LifetimeConditionToString(c) != "" ==>
              LifetimeConditionOfLabel(LifetimeConditionToString(c)) == Some(c)
    ensures LifetimeConditionOfLabel(s).Some? ==>
              LifetimeConditionToString(LifetimeConditionOfLabel(s).value) == s
  {
    LabelIdentifiesCondition(c);
    LabelReadBack(s);
  }

  /** The Access cell of a property row. */
  function PropertyAccessCell(flg: int64, m: PropertyFlagMasks): (r: string)
    ensures r == "" || r == "Protected" + LineEnd
    ensures r != "" <==> IsSet(Bits(flg), m.CPF_Protected)
  {
    BadgeLines(Bits(flg), PropertyAccessTable(m))
  }

  lemma AddLineTail(s: string, add: string)
    ensures var r, tail := AddLine(s, true, add), add + LineEnd;
            |r| >= |tail| && r[|r| - |tail|..] == tail && r[..|r| - |tail|] == s
  {
    var r, tail := AddLine(s, true, add), add + LineEnd;
    assert r == s + tail;
  }

  lemma NetLinesEmpty(f: bv64, m: PropertyFlagMasks)
    ensures BadgeLines(f, PropertyNetTable(m)) == "" <==>
              !IsSet(f, m.CPF_Net) && !IsSet(f, m.CPF_RepSkip) && !IsSet(f, m.CPF_RepNotify)
  {
    var t := PropertyNetTable(m);
    assert t[0].mask == m.CPF_Net && t[1].mask == m.CPF_RepSkip && t[2].mask == m.CPF_RepNotify;
  }

  lemma NetCellParts(f: bv64, m: PropertyFlagMasks, l: string)
    ensures var r, tail := AddLine(BadgeLines(f, PropertyNetTable(m)), true, l), l + LineEnd;
            |r| >= |tail| && r[|r| - |tail|..] == tail &&
            (r[..|r| - |tail|] == "" <==>
              !IsSet(f, m.CPF_Net) && !IsSet(f, m.CPF_RepSkip) && !IsSet(f, m.CPF_RepNotify))
  {
    NetLinesEmpty(f, m);
    AddLineTail(BadgeLines(f, PropertyNetTable(m)), l);
  }

  /** The Net cell of a property row: the Net, RepSkip and RepNotify lines,
      then the condition's label and a line break, added unconditionally. */
  function PropertyNetCell(flg: int64, c: LifetimeCondition, m: PropertyFlagMasks): string {
    AddLine(BadgeLines(Bits(flg), PropertyNetTable(m)), true, LifetimeConditionToString(c))
  }

  /** The Net cell always ends with the condition's label and a line break,
      even when the label is empty, and what precedes it is empty exactly
      when none of Net, RepSkip and RepNotify is set. */
  lemma PropertyNetCellEndsWithCondition(flg: int64, c: LifetimeCondition, m: PropertyFlagMasks)
    ensures var r, tail := PropertyNetCell(flg, c, m), LifetimeConditionToString(c) + LineEnd;
            |r| >= |tail| && r[|r| - |tail|..] == tail &&
            (r[..|r| - |tail|] == "" <==>
              !IsSet(Bits(flg), m.CPF_Net) && !IsSet(Bits(flg), m.CPF_RepSkip) && !IsSet(Bits(flg), m.CPF_RepNotify))
  {
    NetCellParts(Bits(flg), m, LifetimeConditionToString(c));
  }

  /** The Flag cell of a property row. */
  function PropertyFlagCell(flg: int64, m: PropertyFlagMasks): string {
    BadgeLines(Bits(flg), PropertyFlagTable(m))
  }
}
