/** The engine string operations the document builder relies on. The engine's
    `Find`, `Replace`, `==`, `!=` and `<` on strings all default to
    case-insensitive comparison; this model folds the ASCII letters A-Z onto
    a-z and compares every other character by its code. */
module FString {

  /** Case folding of one character (ASCII letters only). */
  function LowerChar(c: char): char {
    if 'A' <= c <= 'Z' then (c as int + 32) as char else c
  }

  predicate IsAsciiLetter(c: char) {
    ('A' <= c <= 'Z') || ('a' <= c <= 'z')
  }

  function Lower(s: string): (r: string)
    ensures |r| == |s|
    ensures forall i :: 0 <= i < |s| ==> r[i] == LowerChar(s[i])
  {
    seq(|s|, i requires 0 <= i < |s| => LowerChar(s[i]))
  }

  /** A character that is not a letter folds onto itself, and only one character does. */
  lemma FoldNonLetter(c: char, x: char)
    requires !IsAsciiLetter(c)
    ensures LowerChar(c) == c
    ensures LowerChar(x) == c <==> x == c
  {
  }

  /** `==` and `!=` on engine strings. */
  predicate EqualsIgnoreCase(a: string, b: string) {
    |a| == |b| && forall i :: 0 <= i < |a| ==> LowerChar(a[i]) == LowerChar(b[i])
  }

  /** Equal ignoring case means equal once folded. */
  lemma EqualsIgnoreCaseIsLower(a: string, b: string)
    ensures EqualsIgnoreCase(a, b) <==> Lower(a) == Lower(b)
  {
    if Lower(a) == Lower(b) {
      assert |a| == |Lower(a)|;
      forall i | 0 <= i < |a| ensures LowerChar(a[i]) == LowerChar(b[i]) {
        assert Lower(a)[i] == Lower(b)[i];
      }
    }
  }

  /** `sub` occurs in `s` starting at index `i`, ignoring case. */
  predicate MatchAt(s: string, sub: string, i: int) {
    0 <= i && i + |sub| <= |s| && Lower(s[i..i + |sub|]) == Lower(sub)
  }

  /** `sub` occurs in `s` at `i` exactly (no case folding). */
  predicate OccursAt(s: string, sub: string, i: int) {
    0 <= i && i + |sub| <= |s| && s[i..i + |sub|] == sub
  }

  /** `sub` is a contiguous part of `s`, character for character. */
  predicate Occurs(sub: string, s: string) {
    exists i :: 0 <= i <= |s| && OccursAt(s, sub, i)
  }

  /** `sub` occurs in any text that has it as a middle part. */
  lemma OccursMiddle(a: string, sub: string, b: string)
    ensures Occurs(sub, a + sub + b)
  {
    var s := a + sub + b;
    assert s[|a|..|a| + |sub|] == sub;
    assert OccursAt(s, sub, |a|);
  }

  lemma OccursExtend(sub: string, s: string, a: string, b: string)
    requires Occurs(sub, s)
    ensures Occurs(sub, a + s + b)
  {
    var i :| 0 <= i <= |s| && OccursAt(s, sub, i);
    var t := a + s + b;
    assert t[|a| + i..|a| + i + |sub|] == s[i..i + |sub|];
    assert OccursAt(t, sub, |a| + i);
  }

  function FindFrom(s: string, sub: string, i: nat): (r: int)
    requires i <= |s|
    ensures r == -1 || (i <= r && MatchAt(s, sub, r))
    ensures r != -1 ==> forall j :: i <= j < r ==> !MatchAt(s, sub, j)
    ensures r == -1 <==> forall j :: i <= j ==> !MatchAt(s, sub, j)
    decreases |s| - i
  {
    if MatchAt(s, sub, i) then i
    else if i == |s| then -1
    else FindFrom(s, sub, i + 1)
  }

  /** `Find` from the start: the first index at which `sub` occurs, or -1
      (INDEX_NONE) when it occurs nowhere. The engine's case-insensitive
      search compares against the pattern's first character, so an empty
      `sub` is found nowhere. */
  function Find(s: string, sub: string): (r: int)
    ensures r == -1 || (0 < |sub| && MatchAt(s, sub, r))
    ensures r != -1 ==> forall j :: 0 <= j < r ==> !MatchAt(s, sub, j)
  {
    if |sub| == 0 then -1 else FindFrom(s, sub, 0)
  }

  /** `Find` answers -1 exactly when `sub` is empty or occurs nowhere. */
  lemma FindNone(s: string, sub: string)
    ensures Find(s, sub) == -1 <==> |sub| == 0 || forall j :: !MatchAt(s, sub, j)
  {
    var r := FindFrom(s, sub, 0);
    assert r == -1 <==> forall j :: 0 <= j ==> !MatchAt(s, sub, j);
  }

  /** The source's `Find(sub) != -1` test. */
  predicate Contains(s: string, sub: string) {
    Find(s, sub) != -1
  }

  /** `Replace(from, to)`: scanning left to right, every occurrence of `from`
      (ignoring case) is replaced by `to`, occurrences do not overlap, and an
      empty `from` leaves the string as it is. */
  function Replace(s: string, from: string, to: string): string
    decreases |s|
  {
    if |from| == 0 || |s| < |from| then s
    else if MatchAt(s, from, 0) then to + Replace(s[|from|..], from, to)
    else [s[0]] + Replace(s[1..], from, to)
  }

  /** A text whose first character differs from the pattern's (ignoring
      case) keeps that character and is replaced from the next one on. */
  lemma ReplaceSkip(s: string, from: string, to: string)
    requires 0 < |from| <= |s| && LowerChar(s[0]) != LowerChar(from[0])
    ensures Replace(s, from, to) == [s[0]] + Replace(s[1..], from, to)
  {
    assert Lower(s[0..|from|])[0] != Lower(from)[0];
  }

  /** The pattern itself is replaced whole. */
  lemma ReplaceWhole(from: string, to: string)
    requires 0 < |from|
    ensures Replace(from, from, to) == to
  {
    assert from[0..|from|] == from;
    assert from[|from|..] == "";
  }

  /** Number of occurrences of the character `c` in `s`. */
  function Count(s: string, c: char): nat {
    if s == [] then 0 else (if s[0] == c then 1 else 0) + Count(s[1..], c)
  }

  lemma MatchOneChar(s: string, c: char)
    requires !IsAsciiLetter(c) && |s| >= 1
    ensures MatchAt(s, [c], 0) <==> s[0] == c
  {
    FoldNonLetter(c, s[0]);
    assert Lower(s[0..1]) == [LowerChar(s[0])];
    assert Lower([c]) == [c];
  }

  /** Replacing a non-letter character: every occurrence of `c` turns into
      `to`, so the length changes by |to| - 1 per occurrence. */
  lemma {:induction false} ReplaceCharLength(s: string, c: char, to: string)
    requires !IsAsciiLetter(c)
    ensures |Replace(s, [c], to)| == |s| + Count(s, c) * (|to| - 1)
    decreases |s|
  {
    if |s| >= 1 {
      MatchOneChar(s, c);
      ReplaceCharLength(s[1..], c, to);
      var k, w := Count(s[1..], c), |to| - 1;
      if s[0] == c {
        assert Replace(s, [c], to) == to + Replace(s[1..], [c], to);
        assert (k + 1) * w == k * w + w;
      } else {
        assert Replace(s, [c], to) == [s[0]] + Replace(s[1..], [c], to);
      }
    }
  }

  /** After replacing a non-letter `c` by a text that does not contain it, no `c` is left. */
  lemma {:induction false} ReplaceCharRemoves(s: string, c: char, to: string)
    requires !IsAsciiLetter(c) && c !in to
    ensures c !in Replace(s, [c], to)
    decreases |s|
  {
    if |s| >= 1 {
      MatchOneChar(s, c);
      ReplaceCharRemoves(s[1..], c, to);
    }
  }

  /** `s` with every `c` dropped and every other character kept in order. */
  function Remove(s: string, c: char): (r: string)
    ensures c !in r
    ensures |r| == |s| - Count(s, c)
    decreases |s|
  {
    if s == [] then [] else (if s[0] == c then [] else [s[0]]) + Remove(s[1..], c)
  }

  /** Replacing a non-letter by nothing is dropping it. */
  lemma {:induction false} ReplaceByNothing(s: string, c: char)
    requires !IsAsciiLetter(c)
    ensures Replace(s, [c], "") == Remove(s, c)
    decreases |s|
  {
    if |s| >= 1 {
      MatchOneChar(s, c);
      ReplaceByNothing(s[1..], c);
    }
  }

  lemma OccursLeft(sub: string, a: string, b: string)
    requires Occurs(sub, a)
    ensures Occurs(sub, a + b)
  {
    OccursExtend(sub, a, "", b);
    assert "" + a + b == a + b;
  }

  lemma OccursRight(sub: string, a: string, b: string)
    requires Occurs(sub, b)
    ensures Occurs(sub, a + b)
  {
    OccursExtend(sub, b, a, "");
    assert a + b + "" == a + b;
  }

  lemma OccursSelf(sub: string)
    ensures Occurs(sub, sub)
  {
    assert OccursAt(sub, sub, 0);
  }

  /** Only the empty string is equal to "" ignoring case. */
  lemma EqualsEmpty(s: string)
    requires EqualsIgnoreCase("", s)
    ensures s == ""
  {
    assert |Lower(s)| == |Lower("")| == 0;
  }

  /** Replacing a non-letter that does not occur changes nothing. */
  lemma {:induction false} ReplaceCharAbsent(s: string, c: char, to: string)
    requires !IsAsciiLetter(c) && c !in s
    ensures Replace(s, [c], to) == s
    decreases |s|
  {
    if |s| >= 1 {
      MatchOneChar(s, c);
      ReplaceCharAbsent(s[1..], c, to);
      assert s == [s[0]] + s[1..];
    }
  }

  /** Lexicographic order on character codes; a proper prefix comes first. */
  predicate LexLess(a: string, b: string)
    decreases |a|
  {
    |b| > 0 && (|a| == 0 || a[0] < b[0] || (a[0] == b[0] && LexLess(a[1..], b[1..])))
  }

  /** `<` on engine strings (case-insensitive, as the sorter structs use it). */
  predicate Less(a: string, b: string) {
    LexLess(Lower(a), Lower(b))
  }

  lemma {:induction false} LexLessIrreflexive(a: string)
    ensures !LexLess(a, a)
    decreases |a|
  {
    if |a| > 0 {
      LexLessIrreflexive(a[1..]);
    }
  }

  lemma {:induction false} LexLessTransitive(a: string, b: string, c: string)
    requires LexLess(a, b) && LexLess(b, c)
    ensures LexLess(a, c)
    decreases |a|
  {
    if |a| > 0 && a[0] == b[0] && b[0] == c[0] {
      LexLessTransitive(a[1..], b[1..], c[1..]);
    }
  }

  lemma {:induction false} LexLessTotal(a: string, b: string)
    ensures LexLess(a, b) || LexLess(b, a) || a == b
    decreases |a|
  {
    if |a| > 0 && |b| > 0 && a[0] == b[0] {
      LexLessTotal(a[1..], b[1..]);
      if a[1..] == b[1..] {
        assert a == [a[0]] + a[1..] && b == [b[0]] + b[1..];
      }
    }
  }

  /** The sorters' comparison is a strict weak order: irreflexive, transitive,
      and two strings are unordered exactly when they are equal ignoring case. */
  lemma LessIsStrictWeakOrder(a: string, b: string, c: string)
    ensures !Less(a, a)
    ensures Less(a, b) && Less(b, c) ==> Less(a, c)
    ensures !Less(a, b) && !Less(b, a) <==> EqualsIgnoreCase(a, b)
  {
    LexLessIrreflexive(Lower(a));
    LexLessTotal(Lower(a), Lower(b));
    if Less(a, b) && Less(b, c) {
      LexLessTransitive(Lower(a), Lower(b), Lower(c));
    }
    EqualsIgnoreCaseIsLower(a, b);
    if EqualsIgnoreCase(a, b) {
      LexLessIrreflexive(Lower(b));
    }
  }

  /** "Not less" is transitive, which is what sorting relies on. */
  lemma NotLessTransitive(a: string, b: string, c: string)
    requires !Less(b, a) && !Less(c, b)
    ensures !Less(c, a)
  {
    LexLessTotal(Lower(a), Lower(b));
    if Less(c, a) {
      if Less(a, b) {
        LexLessTransitive(Lower(c), Lower(a), Lower(b));
      }
    }
  }

  lemma LessAsymmetric(a: string, b: string)
    requires Less(a, b)
    ensures !Less(b, a)
  {
    if Less(b, a) {
      LexLessTransitive(Lower(a), Lower(b), Lower(a));
      LexLessIrreflexive(Lower(a));
    }
  }
}
