/**
 * Python's `sorted(s, key=f)`: a stable sort by ascending integer key. Items
 * with equal keys keep the order they had in the input; the model is an
 * insertion sort that places each element in front of the elements of equal
 * key that follow it. The rankings sort with `key=lambda x: -x[1]`, that is
 * by descending score.
 */
module Sorting {
  import opened Plays

  /** Keys never decrease from front to back. */
  predicate SortedBy<T>(s: seq<T>, key: T -> int)
  {
    forall i, j :: 0 <= i < j < |s| ==> key(s[i]) <= key(s[j])
  }

  /** Inserts e into t in front of the first element whose key is not below e's. */
  function Insert<T>(e: T, t: seq<T>, key: T -> int): (r: seq<T>)
    ensures multiset(r) == multiset(t) + multiset{e}
    ensures |r| == |t| + 1
  {
    if t == [] || key(e) <= key(t[0]) then [e] + t
    else
      assert t == [t[0]] + t[1..];
      [t[0]] + Insert(e, t[1..], key)
  }

  /** Insertion keeps a sorted sequence sorted. */
  lemma {:induction false} InsertSorted<T>(e: T, t: seq<T>, key: T -> int)
    requires SortedBy(t, key)
    ensures SortedBy(Insert(e, t, key), key)
    ensures Insert(e, t, key)[0] == e || Insert(e, t, key)[0] == t[0]
  {
    if t != [] && key(e) > key(t[0]) {
      var r' := Insert(e, t[1..], key);
      InsertSorted(e, t[1..], key);
      assert key(r'[0]) >= key(t[0]);
      var r := [t[0]] + r';
      forall i, j | 0 <= i < j < |r|
        ensures key(r[i]) <= key(r[j])
      {
        if i == 0 {
          assert key(r[j]) >= key(r'[0]);
        } else {
          assert r[i] == r'[i - 1] && r[j] == r'[j - 1];
        }
      }
    }
  }

  /** Stable sort by ascending key. */
  function SortBy<T>(s: seq<T>, key: T -> int): (r: seq<T>)
    ensures multiset(r) == multiset(s)
    ensures |r| == |s|
    ensures SortedBy(r, key)
  {
    if s == [] then []
    else
      assert s == [s[0]] + s[1..];
      InsertSorted(s[0], SortBy(s[1..], key), key);
      Insert(s[0], SortBy(s[1..], key), key)
  }

  /** The elements of s whose key is v, in order. */
  function WithKey<T>(s: seq<T>, key: T -> int, v: int): seq<T>
  {
    if s == [] then [] else (if key(s[0]) == v then [s[0]] else []) + WithKey(s[1..], key, v)
  }

  lemma WithKeyCons<T>(e: T, t: seq<T>, key: T -> int, v: int)
    ensures WithKey([e] + t, key, v) == (if key(e) == v then [e] else []) + WithKey(t, key, v)
  {
    assert ([e] + t)[0] == e && ([e] + t)[1..] == t;
  }

  lemma {:induction false} InsertWithKey<T>(e: T, t: seq<T>, key: T -> int, v: int)
    requires SortedBy(t, key)
    ensures WithKey(Insert(e, t, key), key, v) == (if key(e) == v then [e] else []) + WithKey(t, key, v)
  {
    if t == [] || key(e) <= key(t[0]) {
      WithKeyCons(e, t, key, v);
    } else {
      InsertWithKey(e, t[1..], key, v);
      WithKeyCons(t[0], Insert(e, t[1..], key), key, v);
      WithKeyCons(t[0], t[1..], key, v);
      assert [t[0]] + t[1..] == t;
    }
  }

  /**
   * Stability: for every key, the elements carrying that key appear in the
   * sorted result in the same relative order as in the input.
   */
  lemma {:induction false} SortByStable<T>(s: seq<T>, key: T -> int, v: int)
    ensures WithKey(SortBy(s, key), key, v) == WithKey(s, key, v)
  {
    if s != [] {
      SortByStable(s[1..], key, v);
      InsertWithKey(s[0], SortBy(s[1..], key), key, v);
    }
  }

  /** The sort key of the rankings: `lambda x: -x[1]`. */
  function NegScore(e: Entry): int
  {
    -e.1
  }

  /** `sorted(s, key=lambda x: -x[1])`: entries by descending score, stably. */
  function SortDesc(s: seq<Entry>): (r: seq<Entry>)
    ensures multiset(r) == multiset(s)
    ensures |r| == |s|
    ensures SortedDesc(r)
  {
    var r := SortBy(s, NegScore);
    assert forall i, j :: 0 <= i < j < |r| ==> NegScore(r[i]) <= NegScore(r[j]);
    r
  }

  /** Two sequences with the same entries have the same items. */
  lemma ItemsOfPermutation(a: seq<Entry>, b: seq<Entry>)
    requires multiset(a) == multiset(b)
    ensures ItemsOf(a) == ItemsOf(b)
  {
    forall x | x in ItemsOf(a)
      ensures x in ItemsOf(b)
    {
      var d :| d in a && d.0 == x;
      assert d in multiset(b);
    }
    forall x | x in ItemsOf(b)
      ensures x in ItemsOf(a)
    {
      var d :| d in b && d.0 == x;
      assert d in multiset(a);
    }
  }

  /** Sorting keeps the set of items, and keeps them distinct. */
  lemma SortDescItems(s: seq<Entry>)
    ensures ItemsOf(SortDesc(s)) == ItemsOf(s)
    ensures DistinctItems(s) ==> DistinctItems(SortDesc(s))
  {
    var r := SortDesc(s);
    ItemsOfPermutation(r, s);
    if DistinctItems(s) {
      DistinctItemsCard(s);
      DistinctByCard(r);
    }
  }

  /** A sequence with as many items as entries has no repeated item. */
  lemma {:induction false} DistinctByCard(s: seq<Entry>)
    requires |ItemsOf(s)| == |s|
    ensures DistinctItems(s)
  {
    if s != [] {
      var t := s[..|s| - 1];
      var last := s[|s| - 1];
      assert s == t + [last];
      ItemsOfAppend(t, last);
      ItemsOfCard(t);
      assert last.0 !in ItemsOf(t);
      DistinctByCard(t);
      forall p | 0 <= p < |t|
        ensures s[p].0 != last.0
      {
        assert s[p] == t[p] && t[p] in t;
      }
    }
  }
}
