/** The three sorter structs (FBlueprintSorter, FGraphSorter,
    FPropertySorter) and the sort they are handed to. The engine's sort is
    not stable and its algorithm is not part of this model: `SortBy` is one
    deterministic sort (insertion by the strings' case-insensitive `<`), and
    what is proved of it is what holds of every result the engine's sort may
    give: the output is ordered by the key and is a permutation of the
    input. */
module Sorting {
  import opened FString
  import opened Records

  /** `s` is in non-decreasing key order under the case-insensitive `<`. */
  ghost predicate SortedBy<T>(s: seq<T>, key: T -> string) {
    forall i, j :: 0 <= i < j < |s| ==> !Less(key(s[j]), key(s[i]))
  }

  /** `x` placed before the first element whose key is not less than its own. */
  function Insert<T>(x: T, s: seq<T>, key: T -> string): (r: seq<T>)
    ensures multiset(r) == multiset(s) + multiset{x}
    decreases |s|
  {
    if s == [] || !Less(key(s[0]), key(x)) then [x] + s
    else
      assert s == [s[0]] + s[1..];
      [s[0]] + Insert(x, s[1..], key)
  }

  lemma SortedTail<T>(s: seq<T>, key: T -> string)
    requires s != [] && SortedBy(s, key)
    ensures SortedBy(s[1..], key)
  {
    forall i, j | 0 <= i < j < |s[1..]| ensures !Less(key(s[1..][j]), key(s[1..][i])) {
      assert s[1..][i] == s[i + 1] && s[1..][j] == s[j + 1];
    }
  }

  /** An element whose key is not above any key of a sorted list can go in front of it. */
  lemma SortedCons<T>(y: T, s: seq<T>, key: T -> string)
    requires SortedBy(s, key) && forall j :: 0 <= j < |s| ==> !Less(key(s[j]), key(y))
    ensures SortedBy([y] + s, key)
  {
    var r := [y] + s;
    forall i, j | 0 <= i < j < |r| ensures !Less(key(r[j]), key(r[i])) {
      assert r[j] == s[j - 1];
      if i > 0 {
        assert r[i] == s[i - 1];
      }
    }
  }

  lemma {:induction false} InsertSorted<T>(x: T, s: seq<T>, key: T -> string)
    requires SortedBy(s, key)
    ensures SortedBy(Insert(x, s, key), key)
    decreases |s|
  {
    if s != [] && Less(key(s[0]), key(x)) {
      var t := Insert(x, s[1..], key);
      SortedTail(s, key);
      InsertSorted(x, s[1..], key);
      forall j | 0 <= j < |t| ensures !Less(key(t[j]), key(s[0])) {
        assert t[j] in multiset(t);
        if t[j] in multiset(s[1..]) {
          var k :| 0 <= k < |s[1..]| && s[1..][k] == t[j];
          assert s[k + 1] == t[j];
        } else {
          LessAsymmetric(key(s[0]), key(x));
        }
      }
      SortedCons(s[0], t, key);
    } else {
      forall j | 0 <= j < |s| ensures !Less(key(s[j]), key(x)) {
        if j > 0 {
          NotLessTransitive(key(x), key(s[0]), key(s[j]));
        }
      }
      SortedCons(x, s, key);
    }
  }

  /** The model's sort: every element inserted into the sorted rest. */
  function SortBy<T>(s: seq<T>, key: T -> string): (r: seq<T>)
    ensures multiset(r) == multiset(s)
    decreases |s|
  {
    if s == [] then []
    else
      assert s == [s[0]] + s[1..];
      Insert(s[0], SortBy(s[1..], key), key)
  }

  /** The sorted list is in key order. */
  lemma {:induction false} SortBySorted<T>(s: seq<T>, key: T -> string)
    ensures SortedBy(SortBy(s, key), key)
    decreases |s|
  {
    if s != [] {
      SortBySorted(s[1..], key);
      InsertSorted(s[0], SortBy(s[1..], key), key);
    }
  }

  /** Sorting a list that is already in order leaves it as it is; so the
      second sort of the blueprints (by the category pages) changes nothing
      in this model. */
  lemma {:induction false} SortSortedIdentity<T>(s: seq<T>, key: T -> string)
    requires SortedBy(s, key)
    ensures SortBy(s, key) == s
    decreases |s|
  {
    if s != [] {
      SortedTail(s, key);
      SortSortedIdentity(s[1..], key);
      if |s| > 1 {
        assert s[1..][0] == s[1];
      }
      assert s == [s[0]] + s[1..];
    }
  }

  /** The sorted list has the same elements, each as often, and is ordered;
      in particular it has the same length and the same set of members. */
  lemma SortIsOrderedPermutation<T>(s: seq<T>, key: T -> string)
    ensures |SortBy(s, key)| == |s|
    ensures forall x :: x in SortBy(s, key) <==> x in s
    ensures SortedBy(SortBy(s, key), key)
  {
    var r := SortBy(s, key);
    SortBySorted(s, key);
    assert |r| == |multiset(r)| == |multiset(s)| == |s|;
    forall x ensures x in r <==> x in s {
      assert x in r <==> x in multiset(r);
      assert x in s <==> x in multiset(s);
    }
  }

  /** FBlueprintSorter: by ContentPath. */
  function ContentPathKey(b: BlueprintDocument): string {
    b.contentPath
  }

  /** FGraphSorter: by Category. */
  function GraphCategoryKey(g: EdGraphDocument): string {
    g.category
  }

  /** FPropertySorter: by Category. */
  function PropertyCategoryKey(p: PropertyDocument): string {
    p.category
  }

  function SortBlueprints(bps: seq<BlueprintDocument>): (r: seq<BlueprintDocument>)
    ensures multiset(r) == multiset(bps)
  {
    SortBy(bps, ContentPathKey)
  }

  function SortGraphs(gs: seq<EdGraphDocument>): (r: seq<EdGraphDocument>)
    ensures multiset(r) == multiset(gs)
  {
    SortBy(gs, GraphCategoryKey)
  }

  function SortProperties(ps: seq<PropertyDocument>): (r: seq<PropertyDocument>)
    ensures multiset(r) == multiset(ps)
  {
    SortBy(ps, PropertyCategoryKey)
  }

  /** Each of the three sorts puts its list in its sorter's order. */
  lemma SortsAreOrdered(bps: seq<BlueprintDocument>, gs: seq<EdGraphDocument>, ps: seq<PropertyDocument>)
    ensures SortedBy(SortBlueprints(bps), ContentPathKey)
    ensures SortedBy(SortGraphs(gs), GraphCategoryKey)
    ensures SortedBy(SortProperties(ps), PropertyCategoryKey)
  {
    SortBySorted(bps, ContentPathKey);
    SortBySorted(gs, GraphCategoryKey);
    SortBySorted(ps, PropertyCategoryKey);
  }
}
