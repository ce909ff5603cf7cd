/**
 * Python's comparison operators on `str` and on 2-tuples of `str`.
 * Strings compare code point by code point, a proper prefix being smaller;
 * tuples compare their first components and fall back to the second on a tie.
 */
module Lexicographic {

  /** `a < b` on Python strings. */
  predicate Less(a: string, b: string)
    decreases |a|
  {
    |b| > 0 && (|a| == 0 || a[0] < b[0] || (a[0] == b[0] && Less(a[1..], b[1..])))
  }

  lemma {:induction false} LessIrreflexive(a: string)
    ensures !Less(a, a)
  {
    if |a| > 0 {
      LessIrreflexive(a[1..]);
    }
  }

  lemma {:induction false} LessTransitive(a: string, b: string, c: string)
    requires Less(a, b) && Less(b, c)
    ensures Less(a, c)
  {
    if |a| > 0 && a[0] == b[0] && b[0] == c[0] {
      LessTransitive(a[1..], b[1..], c[1..]);
    }
  }

  /** Any two strings are equal or ordered one way or the other. */
  lemma {:induction false} LessTrichotomy(a: string, b: string)
    ensures a == b || Less(a, b) || Less(b, a)
  {
    if |a| > 0 && |b| > 0 && a[0] == b[0] {
      LessTrichotomy(a[1..], b[1..]);
      if a[1..] == b[1..] {
        assert a == [a[0]] + a[1..] && b == [b[0]] + b[1..];
      }
    }
  }

  lemma LessAsymmetric(a: string, b: string)
    requires Less(a, b)
    ensures !Less(b, a)
  {
    if Less(b, a) {
      LessTransitive(a, b, a);
      LessIrreflexive(a);
    }
  }

  /** A pair of strings, compared as a Python tuple. */
  type Pair = (string, string)

  /** `a < b` on Python 2-tuples of strings. */
  predicate PairLess(a: Pair, b: Pair)
  {
    Less(a.0, b.0) || (a.0 == b.0 && Less(a.1, b.1))
  }

  lemma PairLessIrreflexive(a: Pair)
    ensures !PairLess(a, a)
  {
    LessIrreflexive(a.0);
    LessIrreflexive(a.1);
  }

  lemma PairLessTransitive(a: Pair, b: Pair, c: Pair)
    requires PairLess(a, b) && PairLess(b, c)
    ensures PairLess(a, c)
  {
    if Less(a.0, b.0) && Less(b.0, c.0) {
      LessTransitive(a.0, b.0, c.0);
    } else if a.0 == b.0 && b.0 == c.0 {
      LessTransitive(a.1, b.1, c.1);
    }
  }

  lemma PairLessTrichotomy(a: Pair, b: Pair)
    ensures a == b || PairLess(a, b) || PairLess(b, a)
  {
    LessTrichotomy(a.0, b.0);
    LessTrichotomy(a.1, b.1);
  }

  lemma PairLessAsymmetric(a: Pair, b: Pair)
    requires PairLess(a, b)
    ensures !PairLess(b, a)
  {
    if PairLess(b, a) {
      PairLessTransitive(a, b, a);
      PairLessIrreflexive(a);
    }
  }
}
