/**
 * Values shared by the rank-aggregation engine: item keys, scored entries,
 * the error raised by the aggregation, and a few operations on sequences
 * of entries.
 */
module Plays {

  /** A song is identified by its title together with its performer. */
  datatype Item = Item(title: string, performer: string)

  /** A list (one per channel) is named by the channel. */
  type ListId = string

  /** An (item, play count) pair, as in a ranking. */
  type Entry = (Item, int)

  datatype Option<T> = None | Some(value: T)

  /** `max()` of an empty sequence raises: the only failure of the aggregation. */
  datatype Error = EmptyDatabase

  datatype Result<T> = Success(value: T) | Failure(error: Error)

  function Min(a: int, b: int): int { if a <= b then a else b }

  function Max(a: int, b: int): int { if a >= b then a else b }

  /** The items that occur in a sequence of entries. */
  function ItemsOf(s: seq<Entry>): set<Item>
  {
    set e | e in s :: e.0
  }

  /** No item occurs twice. */
  predicate DistinctItems(s: seq<Entry>)
  {
    forall i, j :: 0 <= i < j < |s| ==> s[i].0 != s[j].0
  }

  /** Scores are non-increasing from front to back. */
  predicate SortedDesc(s: seq<Entry>)
  {
    forall i, j :: 0 <= i < j < |s| ==> s[i].1 >= s[j].1
  }

  /** No element occurs twice. */
  predicate NoDuplicates<T(==)>(s: seq<T>)
  {
    forall i, j :: 0 <= i < j < |s| ==> s[i] != s[j]
  }

  /** End index of the Python slice `s[:k]` on a sequence of length n. */
  function SliceEnd(n: nat, k: int): (e: nat)
    ensures e <= n
  {
    if k >= 0 then Min(k, n) else Max(0, n + k)
  }

  /** The Python slice `s[:k]`; a negative k drops the last -k elements. */
  function Take<T>(s: seq<T>, k: int): seq<T>
  {
    s[..SliceEnd(|s|, k)]
  }

  /**
   * `s[:k]` is a prefix of s. For k >= 0 it holds the first min(k, |s|)
   * elements, so all of s once k reaches its length; for negative k it is
   * what remains after removing the last min(-k, |s|) elements.
   */
  lemma TakePrefix<T>(s: seq<T>, k: int)
    ensures var r := Take(s, k);
      && |r| <= |s|
      && (forall i :: 0 <= i < |r| ==> r[i] == s[i])
      && (k >= 0 ==> |r| == Min(k, |s|))
      && (k >= |s| ==> r == s)
      && (k < 0 ==> s == r + s[|r|..] && |s| - |r| == Min(-k, |s|))
  {
    var r := Take(s, k);
    assert s == r + s[|r|..];
  }

  /** Item set of a one-element extension. */
  lemma ItemsOfAppend(s: seq<Entry>, e: Entry)
    ensures ItemsOf(s + [e]) == ItemsOf(s) + {e.0}
  {
    assert forall d :: d in s + [e] <==> d in s || d == e;
  }

  /** A sequence of distinct items has exactly as many items as entries. */
  lemma {:induction false} DistinctItemsCard(s: seq<Entry>)
    requires DistinctItems(s)
    ensures |ItemsOf(s)| == |s|
  {
    if s != [] {
      var t := s[..|s| - 1];
      assert s == t + [s[|s| - 1]];
      DistinctItemsCard(t);
      ItemsOfAppend(t, s[|s| - 1]);
      forall e | e in t
        ensures e.0 != s[|s| - 1].0
      {
        var p :| 0 <= p < |t| && t[p] == e;
        assert s[p] == e;
      }
    }
  }

  /** A prefix of length n holds at most n items. */
  lemma {:induction false} ItemsOfCard(s: seq<Entry>)
    ensures |ItemsOf(s)| <= |s|
  {
    if s != [] {
      var t := s[..|s| - 1];
      assert s == t + [s[|s| - 1]];
      ItemsOfCard(t);
      ItemsOfAppend(t, s[|s| - 1]);
    }
  }

  /** A sequence without duplicates that lies within a set is no longer than the set. */
  lemma {:induction false} NoDuplicatesCard<T>(s: seq<T>, S: set<T>)
    requires NoDuplicates(s)
    requires forall x :: x in s ==> x in S
    ensures |s| <= |S|
    ensures |s| == |S| ==> (set x | x in s) == S
  {
    if s != [] {
      var t := s[1..];
      assert forall x :: x in t ==> x in s;
      forall p | 0 <= p < |t|
        ensures t[p] != s[0]
      {
        assert t[p] == s[p + 1];
      }
      NoDuplicatesCard(t, S - {s[0]});
      assert (set x | x in s) == (set x | x in t) + {s[0]};
    }
  }

  /** A subset is no larger than its superset. */
  lemma {:induction false} SubsetCard<T>(A: set<T>, B: set<T>)
    requires A <= B
    ensures |A| <= |B|
    decreases B
  {
    if A != {} {
      var x :| x in A;
      SubsetCard(A - {x}, B - {x});
    }
  }

  /** A set of one element holds nothing else. */
  lemma SingletonKeys<T>(K: set<T>, a: T)
    requires |K| == 1 && a in K
    ensures K == {a}
  {
    var R := K - {a};
    assert K == R + {a};
    assert |R| == 0;
  }
}
