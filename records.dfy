/** Option, for values the engine may or may not supply. */
module Wrappers {
  datatype Option<+T> = None | Some(value: T)
}

/** The record types of the documentation model (BlueprintToDocUtil.h). */
module Records {
  import opened FString

  /** A signed 64-bit integer (`int64`). */
  newtype int64 = x: int | -0x8000_0000_0000_0000 <= x < 0x8000_0000_0000_0000

  /** ELifetimeCondition, held in a byte (`TEnumAsByte`). The named values
      are those the label table knows; `CondMax` is the sentinel and
      `CondOther` stands for any other byte the field may hold: its `raw`
      is a byte that none of the named values uses, never the byte of one
      of them (the model does not fix the enumerators' numbering, and no
      operation inspects `raw`). */
  datatype LifetimeCondition =
    | CondNone | CondInitialOnly | CondOwnerOnly | CondSkipOwner
    | CondSimulatedOnly | CondAutonomousOnly | CondSimulatedOrPhysics
    | CondInitialOrOwner | CondCustom | CondReplayOrOwner | CondReplayOnly
    | CondSimulatedOnlyNoReplay | CondSimulatedOrPhysicsNoReplay | CondSkipReplay
    | CondMax
    | CondOther(raw: bv8)

  /** FEdGraphPinDocument: one pin of a graph's entry or result node. */
  datatype PinDocument = PinDocument(name: string, typeName: string, defaultValue: string, toolTips: string)

  /** The position of the first key equal to `key` ignoring case (FString
      `==`, see FString.EqualsIgnoreCaseIsLower), or |keys| when none is. */
  function KeyIndex(keys: seq<string>, key: string): (i: nat)
    ensures i <= |keys|
    ensures i < |keys| ==> Lower(keys[i]) == Lower(key)
    ensures forall j :: 0 <= j < i ==> Lower(keys[j]) != Lower(key)
  {
    if keys == [] then 0
    else if Lower(keys[0]) == Lower(key) then 0
    else 1 + KeyIndex(keys[1..], key)
  }

  /** TMap<FString, FEdGraphPinDocument>: the pins keyed by name, with the
      keys in the order in which they were first added. The map hashes and
      compares its FString keys ignoring case. */
  datatype PinMap = PinMap(keys: seq<string>, entries: map<string, PinDocument>)
  {
    /** No two keys are equal ignoring case, and the listed keys are exactly
        those with an entry. */
    predicate Valid() {
      && (forall i, j :: 0 <= i < j < |keys| ==> Lower(keys[i]) != Lower(keys[j]))
      && (forall k | k in entries :: k in keys)
      && (forall k | k in keys :: k in entries)
    }

    /** `Find(key) != nullptr`: some key is equal to `key` ignoring case. */
    predicate HasKey(key: string) {
      exists k :: k in entries && Lower(k) == Lower(key)
    }

    /** `Add(key, pin)`: when a key equal to `key` ignoring case is present,
        that pair is replaced in its place by `key` and `pin`; otherwise the
        pair is appended. Either way `key` now holds `pin`, and every key not
        equal to it ignoring case keeps its entry. */
    function Add(key: string, pin: PinDocument): (r: PinMap)
      ensures key in r.entries && r.entries[key] == pin
      ensures forall k :: k in r.entries ==> k == key || k in entries
      ensures forall k :: Lower(k) != Lower(key) ==>
                (k in r.entries <==> k in entries) && (k in entries ==> r.entries[k] == entries[k])
    {
      var i := KeyIndex(keys, key);
      if i < |keys| then PinMap(keys[i := key], (entries - {keys[i]})[key := pin])
      else PinMap(keys + [key], entries[key := pin])
    }
  }

  /** Adding keeps every position's key (up to case) and appends only a key
      not yet present: a replaced pair stays in its place. */
  lemma AddInPlace(pm: PinMap, key: string, pin: PinDocument)
    ensures var r := pm.Add(key, pin);
            && |r.keys| >= |pm.keys|
            && (forall j :: 0 <= j < |pm.keys| ==> Lower(r.keys[j]) == Lower(pm.keys[j]))
            && (|r.keys| > |pm.keys| <==> forall j :: 0 <= j < |pm.keys| ==> Lower(pm.keys[j]) != Lower(key))
            && (|r.keys| > |pm.keys| ==> r.keys == pm.keys + [key])
            && |r.keys| <= |pm.keys| + 1
  {
  }

  /** Replacing the pair at position `i` by a key equal to it ignoring case. */
  lemma ReplaceKeepsValid(pm: PinMap, i: nat, key: string, pin: PinDocument)
    requires pm.Valid() && i < |pm.keys| && Lower(pm.keys[i]) == Lower(key)
    ensures var r := PinMap(pm.keys[i := key], (pm.entries - {pm.keys[i]})[key := pin]);
            && r.Valid()
            && (forall k :: k in r.entries && Lower(k) == Lower(key) ==> k == key)
  {
    var keys, old_k := pm.keys[i := key], pm.keys[i];
    var entries := (pm.entries - {old_k})[key := pin];
    forall a, b | 0 <= a < b < |keys| ensures Lower(keys[a]) != Lower(keys[b]) {
      assert Lower(keys[a]) == Lower(pm.keys[a]) && Lower(keys[b]) == Lower(pm.keys[b]);
    }
    forall k | k in entries ensures k in keys && (Lower(k) == Lower(key) ==> k == key) {
      if k != key {
        assert k in pm.entries && k != old_k;
        var j :| 0 <= j < |pm.keys| && pm.keys[j] == k;
        assert j != i && keys[j] == k;
      } else {
        assert keys[i] == key;
      }
    }
    forall k | k in keys ensures k in entries {
      var j :| 0 <= j < |keys| && keys[j] == k;
      if j != i {
        assert pm.keys[j] == k && Lower(pm.keys[j]) != Lower(old_k);
      }
    }
  }

  /** Appending a key that no key equals ignoring case. */
  lemma AppendKeepsValid(pm: PinMap, key: string, pin: PinDocument)
    requires pm.Valid() && forall j :: 0 <= j < |pm.keys| ==> Lower(pm.keys[j]) != Lower(key)
    ensures var r := PinMap(pm.keys + [key], pm.entries[key := pin]);
            && r.Valid()
            && (forall k :: k in r.entries && Lower(k) == Lower(key) ==> k == key)
  {
    var keys := pm.keys + [key];
    forall a, b | 0 <= a < b < |keys| ensures Lower(keys[a]) != Lower(keys[b]) {
      assert keys[a] == pm.keys[a];
    }
    forall k | k in pm.entries ensures Lower(k) != Lower(key) {
      var j :| 0 <= j < |pm.keys| && pm.keys[j] == k;
    }
  }

  /** A name is found after an insertion exactly when it equals the
      inserted key ignoring case or was found before. */
  lemma AddHasKey(pm: PinMap, key: string, pin: PinDocument, k: string)
    ensures pm.Add(key, pin).HasKey(k) <==> Lower(key) == Lower(k) || pm.HasKey(k)
  {
    var r := pm.Add(key, pin);
    if Lower(key) != Lower(k) {
      if r.HasKey(k) {
        var k' :| k' in r.entries && Lower(k') == Lower(k);
        assert k' in pm.entries;
      }
      if pm.HasKey(k) {
        var k' :| k' in pm.entries && Lower(k') == Lower(k);
        assert k' in r.entries;
      }
    } else {
      assert key in r.entries;
    }
  }

  /** Adding to a well-formed map keeps it well-formed, and afterwards `key`
      is the only key of its case class. */
  lemma AddKeepsValid(pm: PinMap, key: string, pin: PinDocument)
    requires pm.Valid()
    ensures var r := pm.Add(key, pin);
            && r.Valid()
            && (forall k :: k in r.entries && Lower(k) == Lower(key) ==> k == key)
  {
    var i := KeyIndex(pm.keys, key);
    if i < |pm.keys| {
      ReplaceKeepsValid(pm, i, key, pin);
    } else {
      AppendKeepsValid(pm, key, pin);
    }
  }

  const EmptyPinMap: PinMap := PinMap([], map[])

  /** FEdGraphDocument: one event, macro or function graph. `flag` is the
      unsigned 64-bit function-flag mask. `todoList` and, on the blueprint,
      `components` are declared but never filled in by the extraction. */
  datatype EdGraphDocument = EdGraphDocument(
    name: string,
    parent: string,
    category: string,
    flag: bv64,
    input: PinMap,
    output: PinMap,
    toolTips: string,
    todoList: seq<string>)

  /** FPropertyDocument: one variable of a blueprint. `propertyFlg` is the
      signed 64-bit property-flag mask. */
  datatype PropertyDocument = PropertyDocument(
    name: string,
    typeName: string,
    category: string,
    propertyFlg: int64,
    defaultValue: string,
    toolTips: string,
    lifetimeCondition: LifetimeCondition)

  /** FBlueprintDocument: one documented blueprint. */
  datatype BlueprintDocument = BlueprintDocument(
    name: string,
    toolTips: string,
    parentName: string,
    contentPath: string,
    events: seq<EdGraphDocument>,
    macros: seq<EdGraphDocument>,
    functions: seq<EdGraphDocument>,
    components: seq<EdGraphDocument>,
    properties: seq<PropertyDocument>)

  /** FDocument: the output root and the blueprints in the order they were
      added. It is passed by reference and sorted in place by the renderer,
      so it is an object; the records it holds are copied by value. */
  class Document {
    var rootPath: string
    var blueprints: seq<BlueprintDocument>

    constructor (rootPath: string)
      ensures this.rootPath == rootPath && blueprints == []
    {
      this.rootPath := rootPath;
      blueprints := [];
    }

    /** `Blueprints.Add`: appends, keeping insertion order. */
    method Add(bp: BlueprintDocument)
      modifies this
      ensures blueprints == old(blueprints) + [bp]
      ensures rootPath == old(rootPath)
    {
      blueprints := blueprints + [bp];
    }
  }
}
