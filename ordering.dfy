/**
 * The two orderings the web UI applies before rendering: `sort_by_key`, which
 * rebuilds a dict with its keys in ascending order, and the newest-first order
 * of the experiment list.
 */
module Ordering {
  import opened Lexicographic
  import opened Repository

  // ---------------------------------------------------------------------------
  // sort_by_key
  // ---------------------------------------------------------------------------

  /** Keys strictly ascending in Python string order. */
  predicate KeysAscending<V>(d: seq<(string, V)>)
  {
    forall i, j :: 0 <= i < j < |d| ==> Less(d[i].0, d[j].0)
  }

  lemma AscendingKeysAreDistinct<V>(d: seq<(string, V)>)
    requires KeysAscending(d)
    ensures DistinctKeys(d)
  {
    forall i, j | 0 <= i < j < |d|
      ensures d[i].0 != d[j].0
    {
      LessIrreflexive(d[i].0);
    }
  }

  /** Putting an item in front of an ascending dict whose first key is larger keeps it ascending. */
  lemma AscendingCons<V>(kv: (string, V), d: seq<(string, V)>)
    requires KeysAscending(d)
    requires d != [] ==> Less(kv.0, d[0].0)
    ensures KeysAscending([kv] + d)
  {
    var r := [kv] + d;
    forall i, j | 0 <= i < j < |r|
      ensures Less(r[i].0, r[j].0)
    {
      if i == 0 && j > 1 {
        LessTransitive(kv.0, d[0].0, d[j - 1].0);
      }
    }
  }

  /** An item of a sequence is one of its elements, at some index. */
  lemma InMultisetAt<T>(x: T, s: seq<T>) returns (k: nat)
    requires x in multiset(s)
    ensures k < |s| && s[k] == x
  {
    assert x in s;
    k :| 0 <= k < |s| && s[k] == x;
  }

  /** One insertion step of the sort: `kv` goes before the first larger key. */
  function InsertByKey<V>(kv: (string, V), d: seq<(string, V)>): (r: seq<(string, V)>)
    requires KeysAscending(d)
    requires forall i :: 0 <= i < |d| ==> d[i].0 != kv.0
    ensures KeysAscending(r)
    ensures multiset(r) == multiset(d) + multiset{kv}
  {
    if d == [] then
      [kv]
    else if Less(kv.0, d[0].0) then
      AscendingCons(kv, d);
      [kv] + d
    else
      var rest := InsertByKey(kv, d[1..]);
      InsertedHeadAbove(kv, d, rest);
      AscendingCons(d[0], rest);
      assert d == [d[0]] + d[1..];
      [d[0]] + rest
  }

  /** The first key of the recursive insertion's result lies above `d[0]`. */
  lemma InsertedHeadAbove<V>(kv: (string, V), d: seq<(string, V)>, rest: seq<(string, V)>)
    requires d != [] && KeysAscending(d)
    requires kv.0 != d[0].0 && !Less(kv.0, d[0].0)
    requires multiset(rest) == multiset(d[1..]) + multiset{kv}
    ensures rest != [] ==> Less(d[0].0, rest[0].0)
  {
    if rest != [] {
      assert rest[0] in multiset(rest);
      if rest[0] == kv {
        LessTrichotomy(kv.0, d[0].0);
      } else {
        var k := InMultisetAt(rest[0], d[1..]);
        assert d[1..][k] == d[k + 1];
      }
    }
  }

  /** `sort_by_key(d)`: `dict(sorted(d.items()))`. */
  function SortByKey<V>(d: seq<(string, V)>): (r: seq<(string, V)>)
    requires DistinctKeys(d)
    ensures KeysAscending(r)
    ensures multiset(r) == multiset(d)
  {
    if d == [] then
      []
    else
      var rest := SortByKey(d[1..]);
      KeyNotInRest(d, rest);
      assert d == [d[0]] + d[1..];
      InsertByKey(d[0], rest)
  }

  /** The first key of a dict is not among the keys of (a permutation of) the rest. */
  lemma KeyNotInRest<V>(d: seq<(string, V)>, rest: seq<(string, V)>)
    requires d != [] && DistinctKeys(d)
    requires multiset(rest) == multiset(d[1..])
    ensures forall i :: 0 <= i < |rest| ==> rest[i].0 != d[0].0
  {
    forall i | 0 <= i < |rest|
      ensures rest[i].0 != d[0].0
    {
      assert rest[i] in multiset(rest);
      var k := InMultisetAt(rest[i], d[1..]);
      assert d[1..][k] == d[k + 1];
    }
  }

  /** Two ascending dicts with the same items are the same dict. */
  lemma {:induction false} AscendingUnique<V>(a: seq<(string, V)>, b: seq<(string, V)>)
    requires KeysAscending(a) && KeysAscending(b)
    requires multiset(a) == multiset(b)
    ensures a == b
  {
    if a == [] {
      assert |b| == |multiset(b)| == 0;
    } else {
      assert |b| == |multiset(b)| == |multiset(a)| == |a|;
      assert a[0] in multiset(b) && b[0] in multiset(a);
      var j := InMultisetAt(a[0], b);
      var i := InMultisetAt(b[0], a);
      if j > 0 {
        // b[0] < b[j] == a[0], and a[0] <= a[i] == b[0]
        if i > 0 {
          LessAsymmetric(b[0].0, a[0].0);
        } else {
          LessIrreflexive(b[0].0);
        }
      }
      assert a[0] == b[0];
      assert a == [a[0]] + a[1..] && b == [b[0]] + b[1..];
      assert multiset(a) == multiset{a[0]} + multiset(a[1..]);
      assert multiset(b) == multiset{b[0]} + multiset(b[1..]);
      assert multiset(a[1..]) == multiset(a) - multiset{a[0]} == multiset(b) - multiset{b[0]} == multiset(b[1..]);
      AscendingUnique(a[1..], b[1..]);
    }
  }

  /**
   * `sort_by_key` is fully determined by what it promises: any ascending
   * rearrangement of the items of `d` is `SortByKey(d)`.
   */
  lemma SortByKeyUnique<V>(d: seq<(string, V)>, r: seq<(string, V)>)
    requires DistinctKeys(d)
    requires KeysAscending(r) && multiset(r) == multiset(d)
    ensures r == SortByKey(d)
  {
    AscendingUnique(r, SortByKey(d));
  }

  /** Sorting an already sorted dict leaves it as it is; so sorting twice is sorting once. */
  lemma SortByKeyIdempotent<V>(d: seq<(string, V)>)
    requires DistinctKeys(d)
    ensures DistinctKeys(SortByKey(d))
    ensures SortByKey(SortByKey(d)) == SortByKey(d)
  {
    var s := SortByKey(d);
    AscendingKeysAreDistinct(s);
    SortByKeyUnique(s, s);
  }

  /** The same key maps to the same value before and after sorting. */
  lemma SortByKeySameMapping<V>(d: seq<(string, V)>, k: string, v: V)
    requires DistinctKeys(d)
    ensures (k, v) in SortByKey(d) <==> (k, v) in d
  {
    var r := SortByKey(d);
    assert (k, v) in r <==> (k, v) in multiset(r);
    assert (k, v) in d <==> (k, v) in multiset(d);
  }

  // ---------------------------------------------------------------------------
  // list_experiments: sorted([(created, short_id) ...], reverse=True)
  // ---------------------------------------------------------------------------

  /** No later entry is greater than an earlier one. */
  predicate NonIncreasing(s: seq<Pair>)
  {
    forall i, j :: 0 <= i < j < |s| ==> !PairLess(s[i], s[j])
  }

  lemma NonIncreasingCons(e: Pair, s: seq<Pair>)
    requires NonIncreasing(s)
    requires s != [] ==> !PairLess(e, s[0])
    ensures NonIncreasing([e] + s)
  {
    var r := [e] + s;
    forall i, j | 0 <= i < j < |r|
      ensures !PairLess(r[i], r[j])
    {
      if i == 0 && j > 1 {
        var x := s[j - 1];
        PairLessTrichotomy(s[0], x);
        if PairLess(e, x) && PairLess(x, s[0]) {
          PairLessTransitive(e, x, s[0]);
        }
      }
    }
  }

  /** One insertion step: `e` goes before the first entry not greater than it. */
  function InsertDescending(e: Pair, s: seq<Pair>): (r: seq<Pair>)
    requires NonIncreasing(s)
    ensures NonIncreasing(r)
    ensures multiset(r) == multiset(s) + multiset{e}
  {
    if s == [] then
      [e]
    else if !PairLess(e, s[0]) then
      NonIncreasingCons(e, s);
      [e] + s
    else
      var rest := InsertDescending(e, s[1..]);
      InsertedHeadBelow(e, s, rest);
      NonIncreasingCons(s[0], rest);
      assert s == [s[0]] + s[1..];
      [s[0]] + rest
  }

  lemma InsertedHeadBelow(e: Pair, s: seq<Pair>, rest: seq<Pair>)
    requires s != [] && NonIncreasing(s) && PairLess(e, s[0])
    requires multiset(rest) == multiset(s[1..]) + multiset{e}
    ensures rest != [] ==> !PairLess(s[0], rest[0])
  {
    if rest != [] {
      assert rest[0] in multiset(rest);
      if rest[0] == e {
        PairLessAsymmetric(e, s[0]);
      } else {
        var k := InMultisetAt(rest[0], s[1..]);
        assert s[1..][k] == s[k + 1];
      }
    }
  }

  /** `sorted(s, reverse=True)` on (created, short id) tuples. */
  function SortDescending(s: seq<Pair>): (r: seq<Pair>)
    ensures NonIncreasing(r)
    ensures multiset(r) == multiset(s)
  {
    if s == [] then
      []
    else
      assert s == [s[0]] + s[1..];
      InsertDescending(s[0], SortDescending(s[1..]))
  }

  /** Two non-increasing rearrangements of the same entries are the same list. */
  lemma {:induction false} NonIncreasingUnique(a: seq<Pair>, b: seq<Pair>)
    requires NonIncreasing(a) && NonIncreasing(b)
    requires multiset(a) == multiset(b)
    ensures a == b
  {
    if a == [] {
      assert |b| == |multiset(b)| == 0;
    } else {
      assert |b| == |multiset(b)| == |multiset(a)| == |a|;
      assert a[0] in multiset(b) && b[0] in multiset(a);
      var j := InMultisetAt(a[0], b);
      var i := InMultisetAt(b[0], a);
      // b[j] == a[0] is not above b[0], and a[i] == b[0] is not above a[0]
      PairLessIrreflexive(a[0]);
      PairLessIrreflexive(b[0]);
      assert !PairLess(b[0], b[j]) && !PairLess(a[0], a[i]);
      PairLessTrichotomy(a[0], b[0]);
      assert a[0] == b[0];
      assert a == [a[0]] + a[1..] && b == [b[0]] + b[1..];
      assert multiset(a) == multiset{a[0]} + multiset(a[1..]);
      assert multiset(b) == multiset{b[0]} + multiset(b[1..]);
      assert multiset(a[1..]) == multiset(a) - multiset{a[0]} == multiset(b) - multiset{b[0]} == multiset(b[1..]);
      NonIncreasingUnique(a[1..], b[1..]);
    }
  }

  /** The (created, short id) tuple of each listed experiment, in listing order. */
  function Entries(experiments: seq<Experiment>): (r: seq<Pair>)
    ensures |r| == |experiments|
    ensures forall i :: 0 <= i < |r| ==> r[i] == (experiments[i].created, experiments[i].shortId)
  {
    seq(|experiments|, i requires 0 <= i < |experiments| => (experiments[i].created, experiments[i].shortId))
  }

  /**
   * The rows of the experiment list: newest first, and among experiments
   * created at the same instant, greater short id first.
   */
  function ExperimentList(experiments: seq<Experiment>): (r: seq<Pair>)
    ensures multiset(r) == multiset(Entries(experiments))
    ensures forall i, j :: 0 <= i < j < |r| ==> !Less(r[i].0, r[j].0)
    ensures forall i, j :: 0 <= i < j < |r| && r[i].0 == r[j].0 ==> !Less(r[i].1, r[j].1)
  {
    SortDescending(Entries(experiments))
  }

  /** The experiment list is the one non-increasing arrangement of the experiments' entries. */
  lemma ExperimentListUnique(experiments: seq<Experiment>, r: seq<Pair>)
    requires NonIncreasing(r) && multiset(r) == multiset(Entries(experiments))
    ensures r == ExperimentList(experiments)
  {
    NonIncreasingUnique(r, ExperimentList(experiments));
  }
}
