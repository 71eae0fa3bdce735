/**
 * What Fagin's algorithm promises: the k items of highest aggregate score,
 * with their exact aggregates, in descending order. The module defines that
 * property, an exhaustive reference that sums every item over every list,
 * shows that all answers with the property carry the same scores, and proves
 * the facts about sorted access that make the stopping rule sound.
 */
module Fagin {
  import opened Plays
  import opened Sorting
  import opened Sums
  import opened Access

  /**
   * r is a top-k answer for m: exact totals of distinct items of m, highest
   * first, min(k, |items of m|) of them, and no item left out scores higher
   * than an item returned.
   */
  ghost predicate IsTopK(m: Db, k: nat, r: seq<Entry>)
  {
    && (forall j :: 0 <= j < |r| ==> r[j].0 in Universe(m) && r[j].1 == Total(m, r[j].0))
    && DistinctItems(r)
    && SortedDesc(r)
    && |r| == Min(k, |Universe(m)|)
    && (forall y, j :: y in Universe(m) && y !in ItemsOf(r) && 0 <= j < |r| ==> Total(m, y) <= r[j].1)
  }

  /** The scores of a ranking, in order. */
  function Scores(s: seq<Entry>): (r: seq<int>)
    ensures |r| == |s|
    ensures forall p :: 0 <= p < |s| ==> r[p] == s[p].1
  {
    seq(|s|, p requires 0 <= p < |s| => s[p].1)
  }

  // -----------------------------------------------------------------------
  // The exhaustive reference

  /** The items of U in some order, each once. */
  ghost function Enumerate(U: set<Item>): (s: seq<Item>)
    ensures NoDuplicates(s)
    ensures forall x :: x in s <==> x in U
    decreases U
  {
    if U == {} then []
    else
      var x :| x in U;
      var rest := Enumerate(U - {x});
      assert forall p :: 0 <= p < |rest| ==> rest[p] != x;
      [x] + rest
  }

  /** Each item of xs paired with its aggregate score. */
  ghost function WithTotals(m: Db, xs: seq<Item>): (r: seq<Entry>)
    ensures |r| == |xs|
    ensures forall p :: 0 <= p < |xs| ==> r[p] == (xs[p], Total(m, xs[p]))
  {
    seq(|xs|, p requires 0 <= p < |xs| => (xs[p], Total(m, xs[p])))
  }

  /** Sum every item over every list, sort by descending total, keep k. */
  ghost function Exhaustive(m: Db, k: nat): seq<Entry>
  {
    Take(SortDesc(WithTotals(m, Enumerate(Universe(m)))), k)
  }

  /**
   * Sorting entries that carry exact totals and keeping the first k gives a
   * ranking whose omitted entries score no higher than any kept one.
   */
  lemma PrefixOfTotals(m: Db, P: seq<Entry>, k: int)
    requires DistinctItems(P)
    requires forall a :: 0 <= a < |P| ==> P[a].0 in Universe(m) && P[a].1 == Total(m, P[a].0)
    ensures var top := SortDesc(P);
      && (forall j :: 0 <= j < |top| ==> top[j].0 in Universe(m) && top[j].1 == Total(m, top[j].0))
      && DistinctItems(top)
      && ItemsOf(top) == ItemsOf(P)
    ensures var r := Take(SortDesc(P), k);
      && (forall j :: 0 <= j < |r| ==> r[j].0 in Universe(m) && r[j].1 == Total(m, r[j].0))
      && DistinctItems(r)
      && SortedDesc(r)
      && |r| == SliceEnd(|P|, k)
      && (forall y, j :: y in ItemsOf(P) && y !in ItemsOf(r) && 0 <= j < |r| ==> Total(m, y) <= r[j].1)
  {
    var top := SortDesc(P);
    var r := Take(top, k);
    SortDescItems(P);
    forall j | 0 <= j < |top|
      ensures top[j].0 in Universe(m) && top[j].1 == Total(m, top[j].0)
    {
      assert top[j] in multiset(P);
      var a :| 0 <= a < |P| && P[a] == top[j];
    }
    forall y, j | y in ItemsOf(P) && y !in ItemsOf(r) && 0 <= j < |r|
      ensures Total(m, y) <= r[j].1
    {
      var q := PositionOf(top, y);
      forall q' | 0 <= q' < |r|
        ensures top[q'].0 != y
      {
        assert r[q'] == top[q'] && r[q'] in r;
      }
      assert r[j] == top[j];
    }
  }

  /** The exhaustive reference is a top-k answer. */
  lemma ExhaustiveIsTopK(m: Db, k: nat)
    ensures IsTopK(m, k, Exhaustive(m, k))
  {
    var xs := Enumerate(Universe(m));
    var P := WithTotals(m, xs);
    forall a, b | 0 <= a < b < |P|
      ensures P[a].0 != P[b].0
    {
    }
    forall x | x in Universe(m)
      ensures x in ItemsOf(P)
    {
      var a :| 0 <= a < |xs| && xs[a] == x;
      assert P[a] in P;
    }
    assert ItemsOf(P) == Universe(m);
    DistinctItemsCard(P);
    PrefixOfTotals(m, P, k);
  }

  /** A sequence of more distinct items than b has entries holds an item b lacks. */
  lemma NewItem(a: seq<Entry>, b: seq<Entry>) returns (z: Item)
    requires DistinctItems(a) && |b| < |a|
    ensures z in ItemsOf(a) && z !in ItemsOf(b)
  {
    var X, Q := ItemsOf(a), ItemsOf(b);
    DistinctItemsCard(a);
    ItemsOfCard(b);
    SubsetCard(X, (X - Q) + Q);
    z :| z in X - Q;
  }

  /** An item missing from the first j entries of r sits at position j or later. */
  lemma NotBefore(r: seq<Entry>, j: nat, z: Item) returns (q: nat)
    requires j <= |r| && z in ItemsOf(r) && z !in ItemsOf(r[..j])
    ensures j <= q < |r| && r[q].0 == z
  {
    q := PositionOf(r, z);
    forall q' | 0 <= q' < j
      ensures r[q'].0 != z
    {
      assert r[..j][q'] == r[q'] && r[q'] in r[..j];
    }
  }

  /**
   * Against any top-k answer r, the j-th score of another top-k answer r' is
   * no higher: among the first j + 1 items of r' one is not among the first j
   * of r, and that one scores at most r[j].
   */
  lemma RankBound(m: Db, k: nat, r: seq<Entry>, r': seq<Entry>, j: nat)
    requires IsTopK(m, k, r) && IsTopK(m, k, r') && j < |r|
    ensures r'[j].1 <= r[j].1
  {
    var z := NewItem(r'[..j + 1], r[..j]);
    var q := PositionOf(r'[..j + 1], z);
    assert r'[q] == r'[..j + 1][q];
    assert Total(m, z) >= r'[j].1;
    if z in ItemsOf(r) {
      var q2 := NotBefore(r, j, z);
    } else {
      assert z in Universe(m);
    }
  }

  /** All top-k answers carry the same scores, rank by rank. */
  lemma TopKScores(m: Db, k: nat, r: seq<Entry>, r': seq<Entry>)
    requires IsTopK(m, k, r) && IsTopK(m, k, r')
    ensures Scores(r) == Scores(r')
  {
    forall j | 0 <= j < |r|
      ensures r[j].1 == r'[j].1
    {
      RankBound(m, k, r, r', j);
      RankBound(m, k, r', r, j);
    }
  }

  /**
   * Raising k only extends the scores: the scores of a top-k answer are the
   * first scores of any top-k' answer with k <= k'. (Which of several tied
   * items is kept may differ between the two.)
   */
  lemma TopKPrefix(m: Db, k: nat, k': nat, r: seq<Entry>, r': seq<Entry>)
    requires IsTopK(m, k, r) && IsTopK(m, k', r') && k <= k'
    ensures |r| <= |r'| && Scores(r) == Scores(r')[..|r|]
  {
    var t := r'[..|r|];
    forall y, j | y in Universe(m) && y !in ItemsOf(t) && 0 <= j < |t|
      ensures Total(m, y) <= t[j].1
    {
      assert t[j] == r'[j];
      if y in ItemsOf(r') {
        var q := NotBefore(r', |t|, y);
      }
    }
    forall j | 0 <= j < |t|
      ensures t[j].0 in Universe(m) && t[j].1 == Total(m, t[j].0)
    {
      assert t[j] == r'[j];
    }
    assert IsTopK(m, k, t);
    TopKScores(m, k, r, t);
  }

  // -----------------------------------------------------------------------
  // Why the stopping rule is sound

  /** Every item sorted access touched occurs in some list. */
  lemma TouchedInUniverse(m: Db, S: Lists, order: seq<ListId>, i: nat,
                          items: map<Item, Record>, seen: seq<Item>)
    requires Readable(S, m) && Tracks(m, S, order, i, 0, items, seen)
    ensures items.Keys <= Universe(m)
  {
    forall x | x in items
      ensures x in Universe(m)
    {
      var l := items[x].lists[0];
      assert Reached(S, order, i, 0, l, x);
      var p := Position(S[l], x);
      assert S[l][p].0 == x;
    }
  }

  /** Once i has reached the longest list, every item of every list was touched. */
  lemma AllReached(m: Db, S: Lists, order: seq<ListId>, i: nat,
                   items: map<Item, Record>, seen: seq<Item>)
    requires RankedLists(S, m) && Enumeration(order, S.Keys)
    requires Tracks(m, S, order, i, 0, items, seen)
    ensures i >= MaxLen(S, order) ==> Universe(m) <= items.Keys
  {
    if i >= MaxLen(S, order) {
      forall x | x in Universe(m)
        ensures x in items
      {
        var l :| l in m && x in m[l];
        PositionFound(S[l], x);
        assert Reached(S, order, i, 0, l, x);
      }
    }
  }

  /** An item seen in all lists was met in each of them before position i. */
  lemma FullyReached(m: Db, S: Lists, order: seq<ListId>, i: nat,
                     items: map<Item, Record>, seen: seq<Item>, z: Item, l: ListId)
    requires Tracks(m, S, order, i, 0, items, seen)
    requires z in FullSet(items, |S|) && l in S
    ensures Position(S[l], z) < i && Position(S[l], z) < |S[l]|
  {
    TracksWithin(m, S, order, i, 0, items, seen);
    NoDuplicatesCard(items[z].lists, S.Keys);
    assert l in ListSet(items[z].lists);
    assert Reached(S, order, i, 0, l, z);
  }

  /**
   * An item sorted access never touched scores, in every list, no more than
   * an item seen in all lists: where it occurs it sits below position i and
   * the other above it; where it does not occur it contributes nothing, which
   * is no more than a non-negative score (with a single list it occurs there).
   */
  lemma Dominated(m: Db, S: Lists, order: seq<ListId>, i: nat,
                  items: map<Item, Record>, seen: seq<Item>, y: Item, z: Item)
    requires RankedLists(S, m) && Tracks(m, S, order, i, 0, items, seen)
    requires NonNegative(m) || |m| == 1
    requires y in Universe(m) && y !in items && z in FullSet(items, |S|)
    ensures Total(m, y) <= Total(m, z)
  {
    var l0 :| l0 in m && y in m[l0];
    if |m| == 1 {
      SingletonKeys(m.Keys, l0);
    }
    forall l | l in m.Keys
      ensures Contribution(m, l, y) <= Contribution(m, l, z)
    {
      FullyReached(m, S, order, i, items, seen, z, l);
      var pz := Position(S[l], z);
      if y in m[l] {
        PositionFound(S[l], y);
        var py := Position(S[l], y);
        assert !Reached(S, order, i, 0, l, y);
        assert S[l][py].1 <= S[l][pz].1;
      } else {
        assert S[l][pz] in S[l];
      }
    }
    SetSumMonotone(m, m.Keys, y, z);
  }

  /** If F holds k items of top, one of them sits at position k - 1 or later. */
  lemma Pigeonhole(top: seq<Entry>, F: set<Item>, k: nat) returns (q: nat)
    requires 1 <= k <= |F| && F <= ItemsOf(top)
    ensures q < |top| && top[q].0 in F && k - 1 <= q
  {
    ItemsOfCard(top);
    SubsetCard(F, ItemsOf(top));
    var Q := ItemsOf(top[..k - 1]);
    ItemsOfCard(top[..k - 1]);
    SubsetCard(F, (F - Q) + Q);
    var z :| z in F - Q;
    q := NotBefore(top, k - 1, z);
  }

  /**
   * What sorted access leaves behind when it stops at round i: the touched
   * items occur in m; either k items were seen in every list or every item
   * of m was touched; and with non-negative scores (or a single list) no
   * untouched item outscores an item seen in every list.
   */
  lemma StopFacts(m: Db, S: Lists, order: seq<ListId>, i: nat,
                  touched: map<Item, Record>, seen: seq<Item>, k: int)
    requires RankedLists(S, m) && Enumeration(order, S.Keys)
    requires Tracks(m, S, order, i, 0, touched, seen)
    requires |FullSet(touched, |S|)| >= k || i >= MaxLen(S, order)
    ensures touched.Keys <= Universe(m)
    ensures |FullSet(touched, |S|)| >= k || Universe(m) <= touched.Keys
    ensures NonNegative(m) || |m| == 1 ==> Dominates(m, touched.Keys, FullSet(touched, |S|))
  {
    TouchedInUniverse(m, S, order, i, touched, seen);
    AllReached(m, S, order, i, touched, seen);
    if NonNegative(m) || |m| == 1 {
      forall y, z | y in Universe(m) && y !in touched.Keys && z in FullSet(touched, |S|)
        ensures Total(m, y) <= Total(m, z)
      {
        Dominated(m, S, order, i, touched, seen, y, z);
      }
    }
  }

  /** No item of m outside T has a higher total than an item of F. */
  ghost predicate Dominates(m: Db, T: set<Item>, F: set<Item>)
  {
    forall y, z :: y in Universe(m) && y !in T && z in F ==> Total(m, y) <= Total(m, z)
  }

  /** The items of a record map, in first-seen order, paired with their scores. */
  lemma PairsItems(m: Db, seen: seq<Item>, items: map<Item, Record>)
    requires (forall x :: x in items <==> x in seen) && NoDuplicates(seen)
    requires items.Keys <= Universe(m)
    requires forall x :: x in items ==> items[x].score == Total(m, x)
    ensures var P := Pairs(seen, items);
      && DistinctItems(P)
      && (forall a :: 0 <= a < |P| ==> P[a].0 in Universe(m) && P[a].1 == Total(m, P[a].0))
      && ItemsOf(P) == items.Keys
      && |P| == |items.Keys|
  {
    var P := Pairs(seen, items);
    forall x | x in items
      ensures x in ItemsOf(P)
    {
      var a :| 0 <= a < |seen| && seen[a] == x;
      assert P[a] in P;
    }
    forall x | x in ItemsOf(P)
      ensures x in items
    {
      var e :| e in P && e.0 == x;
      var a :| 0 <= a < |P| && P[a] == e;
    }
    assert ItemsOf(P) == items.Keys;
    DistinctItemsCard(P);
  }

  /**
   * The shape of the answer: the touched items with their exact totals,
   * sorted, cut at k as Python slices. For k >= 0 its length is
   * min(k, |items of m|): either k items were seen in every list, or every
   * item was touched.
   */
  lemma AnswerShape(m: Db, seen: seq<Item>, items: map<Item, Record>, F: set<Item>, k: int)
    requires (forall x :: x in items <==> x in seen) && NoDuplicates(seen)
    requires items.Keys <= Universe(m) && F <= items.Keys
    requires |F| >= k || Universe(m) <= items.Keys
    requires forall x :: x in items ==> items[x].score == Total(m, x)
    ensures var top := SortDesc(Pairs(seen, items));
      && (forall j :: 0 <= j < |top| ==> top[j].0 in Universe(m) && top[j].1 == Total(m, top[j].0))
      && ItemsOf(top) == items.Keys
    ensures var r := Take(SortDesc(Pairs(seen, items)), k);
      && (forall j :: 0 <= j < |r| ==> r[j].0 in Universe(m) && r[j].1 == Total(m, r[j].0))
      && DistinctItems(r)
      && SortedDesc(r)
      && (k >= 0 ==> |r| == Min(k, |Universe(m)|))
      && (forall y, j :: y in items && y !in ItemsOf(r) && 0 <= j < |r| ==> Total(m, y) <= r[j].1)
  {
    var P := Pairs(seen, items);
    PairsItems(m, seen, items);
    PrefixOfTotals(m, P, k);
    if k >= 0 {
      AnswerSize(Universe(m), items.Keys, F, k);
    }
  }

  /**
   * Cutting the touched items T at k gives as many as cutting all items U
   * would, when either k items were fully seen or every item was touched.
   */
  lemma AnswerSize(U: set<Item>, T: set<Item>, F: set<Item>, k: nat)
    requires T <= U && F <= T && (|F| >= k || U <= T)
    ensures Min(k, |T|) == Min(k, |U|)
  {
    SubsetCard(T, U);
    if U <= T {
      SubsetCard(U, T);
    } else {
      SubsetCard(F, T);
    }
  }

  /**
   * Fagin's theorem for this implementation: when no untouched item outscores
   * an item seen in every list, the touched items with their exact totals,
   * sorted and cut at k, are a top-k answer.
   */
  lemma AnswerIsTopK(m: Db, seen: seq<Item>, items: map<Item, Record>, F: set<Item>, k: nat)
    requires (forall x :: x in items <==> x in seen) && NoDuplicates(seen)
    requires items.Keys <= Universe(m) && F <= items.Keys
    requires |F| >= k || Universe(m) <= items.Keys
    requires forall x :: x in items ==> items[x].score == Total(m, x)
    requires Dominates(m, items.Keys, F)
    ensures IsTopK(m, k, Take(SortDesc(Pairs(seen, items)), k))
  {
    AnswerShape(m, seen, items, F, k);
    var top := SortDesc(Pairs(seen, items));
    var r := Take(top, k);
    forall y, j | y in Universe(m) && y !in ItemsOf(r) && 0 <= j < |r|
      ensures Total(m, y) <= r[j].1
    {
      if y !in items {
        assert r[j] == top[j];
        Outscored(m, items.Keys, F, top, k, y, j);
      }
    }
  }

  /**
   * An item of m that was never touched scores no higher than any of the
   * first k entries of the sorted touched items, when k items of those were
   * seen in every list and dominate it.
   */
  lemma Outscored(m: Db, T: set<Item>, F: set<Item>, top: seq<Entry>, k: nat, y: Item, j: nat)
    requires ItemsOf(top) == T && F <= T && Dominates(m, T, F)
    requires forall q :: 0 <= q < |top| ==> top[q].1 == Total(m, top[q].0)
    requires SortedDesc(top)
    requires y in Universe(m) && y !in T && (|F| >= k || Universe(m) <= T)
    requires j < k && j < |top|
    ensures Total(m, y) <= top[j].1
  {
    var q := Pigeonhole(top, F, k);
    assert Total(m, y) <= Total(m, top[q].0);
  }
}
