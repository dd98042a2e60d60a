/**
 * Binary order on text. SQLite compares TEXT values with its BINARY
 * collation (memcmp over UTF-8, a proper prefix first), and UTF-8 byte order
 * coincides with code-point order, so on Dafny strings it is the
 * lexicographic order of characters.
 */
module Strings {

  /** `a` sorts strictly before `b` under the binary collation. */
  predicate LexLess(a: string, b: string)
    decreases |a|
  {
    if |a| == 0 then |b| > 0
    else if |b| == 0 then false
    else if a[0] != b[0] then a[0] < b[0]
    else LexLess(a[1..], b[1..])
  }

  predicate LexLeq(a: string, b: string)
  {
    a == b || LexLess(a, b)
  }

  /** Reading `LexLeq` off facts about its two cases. */
  lemma LexLeqCases(a: string, b: string, less: bool, same: bool)
    requires (LexLess(a, b) <==> less) && (a == b <==> same)
    ensures LexLeq(a, b) <==> less || same
  {
  }

  lemma {:induction false} LexLessIrreflexive(a: string)
    ensures !LexLess(a, a)
  {
    if |a| > 0 {
      LexLessIrreflexive(a[1..]);
    }
  }

  lemma {:induction false} LexLessTransitive(a: string, b: string, c: string)
    requires LexLess(a, b) && LexLess(b, c)
    ensures LexLess(a, c)
  {
    if |a| > 0 && |b| > 0 && |c| > 0 && a[0] == b[0] && b[0] == c[0] {
      LexLessTransitive(a[1..], b[1..], c[1..]);
    }
  }

  /** Any two strings are equal or ordered one way: the collation is total. */
  lemma {:induction false} LexTrichotomy(a: string, b: string)
    ensures LexLess(a, b) || a == b || LexLess(b, a)
  {
    if |a| > 0 && |b| > 0 && a[0] == b[0] {
      LexTrichotomy(a[1..], b[1..]);
      if a[1..] == b[1..] {
        assert a == [a[0]] + a[1..] && b == [b[0]] + b[1..];
      }
    }
  }

  /**
   * Comparing two strings that start with equally long prefixes: the
   * prefixes decide unless they are equal, and then the rests decide.
   */
  lemma {:induction false} LexLessAppend(p1: string, r1: string, p2: string, r2: string)
    requires |p1| == |p2|
    ensures LexLess(p1 + r1, p2 + r2) == if p1 == p2 then LexLess(r1, r2) else LexLess(p1, p2)
  {
    if |p1| == 0 {
      assert p1 + r1 == r1 && p2 + r2 == r2;
    } else {
      assert (p1 + r1)[0] == p1[0] && (p2 + r2)[0] == p2[0];
      assert (p1 + r1)[1..] == p1[1..] + r1;
      assert (p2 + r2)[1..] == p2[1..] + r2;
      LexLessAppend(p1[1..], r1, p2[1..], r2);
      if p1[0] == p2[0] && p1[1..] == p2[1..] {
        assert p1 == [p1[0]] + p1[1..] && p2 == [p2[0]] + p2[1..];
      }
    }
  }
}
