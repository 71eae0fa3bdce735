/**
 * Fagin's algorithm for the top-k items over several ranked lists
 * (plays/topk.py): `_get_sorted_lists`, and `fa` split into its three
 * phases, sorted access, random access and the final sort and slice.
 */
module TopK {
  import opened Plays
  import opened Sorting
  import opened Sums
  import opened Access
  import opened Fagin

  // -----------------------------------------------------------------------
  // _get_sorted_lists

  /** The append loop over one dictionary: its pairs, in some iteration order. */
  method ListEntries(d: map<Item, int>) returns (s: seq<Entry>)
    ensures Enumerates(s, d)
  {
    s := [];
    var todo := d.Keys;
    while todo != {}
      invariant todo <= d.Keys
      invariant DistinctItems(s)
      invariant forall p :: 0 <= p < |s| ==> s[p].0 in d && d[s[p].0] == s[p].1
      invariant ItemsOf(s) == d.Keys - todo
    {
      var key :| key in todo;
      ItemsOfAppend(s, (key, d[key]));
      s := s + [(key, d[key])];
      todo := todo - {key};
    }
  }

  /** Sorting an enumeration of a dictionary gives an enumeration of it. */
  lemma SortDescEnumerates(s: seq<Entry>, d: map<Item, int>)
    requires Enumerates(s, d)
    ensures Enumerates(SortDesc(s), d)
  {
    var r := SortDesc(s);
    SortDescItems(s);
    forall p | 0 <= p < |r|
      ensures r[p].0 in d && d[r[p].0] == r[p].1
    {
      assert r[p] in multiset(s);
      var q :| 0 <= q < |s| && s[q] == r[p];
    }
  }

  /**
   * `_get_sorted_lists`: for every list of m, its (item, score) pairs sorted
   * by descending score.
   */
  method GetSortedLists(m: Db) returns (sorted: Lists)
    ensures RankedLists(sorted, m)
  {
    sorted := map[];
    var todo := m.Keys;
    while todo != {}
      invariant todo <= m.Keys
      invariant sorted.Keys == m.Keys - todo
      invariant forall l :: l in sorted ==> l in m && Enumerates(sorted[l], m[l]) && SortedDesc(sorted[l])
    {
      var lKey :| lKey in todo;
      var s := ListEntries(m[lKey]);
      SortDescEnumerates(s, m[lKey]);
      sorted := sorted[lKey := SortDesc(s)];
      todo := todo - {lKey};
    }
  }

  // -----------------------------------------------------------------------
  // fa

  /**
   * One round of sorted access (topk.py lines 45-52): every list, in the
   * dictionary's iteration order `order`, is read at position i if it is that
   * long; the item there gets the score added and the list recorded, and the
   * count of items seen in every list goes up when the item has now been seen
   * in all of them.
   */
  method ReadRound(m: Db, S: Lists, order: seq<ListId>, i: nat,
                   items0: map<Item, Record>, seen0: seq<Item>, common0: nat)
    returns (items: map<Item, Record>, seen: seq<Item>, commonItems: nat)
    requires Readable(S, m) && Enumeration(order, S.Keys)
    requires Tracks(m, S, order, i, 0, items0, seen0)
    requires common0 == |FullSet(items0, |S|)|
    ensures Tracks(m, S, order, i, |order|, items, seen)
    ensures commonItems == |FullSet(items, |S|)|
  {
    items, seen, commonItems := items0, seen0, common0;
    var listCount := |S|;
    var j := 0;
    while j < |order|
      invariant 0 <= j <= |order|
      invariant Tracks(m, S, order, i, j, items, seen)
      invariant commonItems == |FullSet(items, listCount)|
    {
      var lKey := order[j];
      ghost var items1, seen1 := items, seen;
      if i < |S[lKey]| {
        var item, score := S[lKey][i].0, S[lKey][i].1;
        var rec := if item in items then items[item] else Record(0, []);
        if item !in items {
          seen := seen + [item];
        }
        var updated := Record(rec.score + score, rec.lists + [lKey]);
        items := items[item := updated];
        TracksVisit(m, S, order, i, j, j + 1, items1, seen1, item, score, rec, items, seen);
        if |updated.lists| == listCount {
          commonItems := commonItems + 1;
        }
      } else {
        TracksSkip(m, S, order, i, j, j + 1, items, seen);
      }
      j := j + 1;
    }
  }

  /**
   * Sorted access (topk.py lines 38-56): rounds of reading every list at
   * position i until, after some round, k items have been seen in every list
   * or i has reached the longest list. At least one round always runs.
   */
  method SortedAccess(m: Db, S: Lists, order: seq<ListId>, k: int)
    returns (items: map<Item, Record>, seen: seq<Item>, rounds: nat)
    requires Readable(S, m) && Enumeration(order, S.Keys) && |S| > 0
    ensures 1 <= rounds <= Max(1, MaxLen(S, order))
    ensures Tracks(m, S, order, rounds, 0, items, seen)
    ensures |FullSet(items, |S|)| >= k || rounds >= MaxLen(S, order)
    ensures k <= 0 ==> rounds == 1
  {
    items := map[];
    seen := [];
    var i: nat := 0;
    var commonItems: nat := 0;
    var maxListSize := MaxLen(S, order);
    var stop := false;
    TracksStart(m, S, order);
    while !stop
      invariant Tracks(m, S, order, i, 0, items, seen)
      invariant commonItems == |FullSet(items, |S|)|
      invariant !stop ==> i == 0 || i < maxListSize
      invariant stop ==> 1 <= i && (commonItems >= k || i >= maxListSize)
      invariant i <= Max(1, maxListSize)
      invariant k <= 0 ==> i <= 1
      invariant k <= 0 && !stop ==> i == 0
      decreases if stop then 0 else maxListSize + 1 - i
    {
      items, seen, commonItems := ReadRound(m, S, order, i, items, seen, commonItems);
      TracksRoundEnd(m, S, order, i, i + 1, items, seen);
      i := i + 1;
      if commonItems >= k || i >= maxListSize {
        stop := true;
      }
    }
    rounds := i;
  }

  /**
   * The inner loop of random access for one item (topk.py lines 65-69): the
   * lists it was not seen in, visited in some order, each adding the item's
   * score when the list holds it. Starting from the sum over the lists it was
   * seen in, the result is its exact total.
   */
  method LookUpMissing(m: Db, K: set<ListId>, key: Item, lists: seq<ListId>, score0: int)
    returns (score: int)
    requires K == m.Keys
    requires forall l :: l in lists ==> l in K
    requires score0 == SetSum(m, ListSet(lists), key)
    ensures score == Total(m, key)
  {
    score := score0;
    var unvisitedLists := K - ListSet(lists);
    assert K - unvisitedLists == ListSet(lists);
    while unvisitedLists != {}
      invariant unvisitedLists <= K
      invariant score == SetSum(m, K - unvisitedLists, key)
    {
      var unvisited :| unvisited in unvisitedLists;
      SetSumAdd(m, K - unvisitedLists, key, unvisited);
      assert K - (unvisitedLists - {unvisited}) == (K - unvisitedLists) + {unvisited};
      if key in m[unvisited] {
        score := score + m[unvisited][key];
      }
      unvisitedLists := unvisitedLists - {unvisited};
    }
    assert K - unvisitedLists == m.Keys;
  }

  /**
   * Random access (topk.py lines 58-69): for every item not seen in all lists,
   * look its score up directly in each list it was not seen in, and add it
   * when present. Afterwards every item's score is its exact total; the
   * records of items seen in every list are left as they were.
   */
  method RandomAccess(m: Db, S: Lists, items0: map<Item, Record>, seen: seq<Item>)
    returns (items: map<Item, Record>)
    requires S.Keys == m.Keys
    requires Indexed(items0, seen) && Sound(m, items0) && Within(S.Keys, items0)
    ensures items.Keys == items0.Keys
    ensures forall x :: x in items ==> items[x].lists == items0[x].lists
    ensures forall x :: x in items ==> items[x].score == Total(m, x)
    ensures forall x :: x in items && |items0[x].lists| == |S| ==> items[x] == items0[x]
  {
    items := items0;
    var listCount := |S|;
    var p := 0;
    while p < |seen|
      invariant p <= |seen|
      invariant items.Keys == items0.Keys
      invariant forall x :: x in items ==> items[x].lists == items0[x].lists
      invariant forall q :: 0 <= q < p ==> items[seen[q]].score == Total(m, seen[q])
      invariant forall q :: p <= q < |seen| ==> items[seen[q]] == items0[seen[q]]
      invariant forall x :: x in items && |items0[x].lists| == listCount ==> items[x] == items0[x]
    {
      var key := seen[p];
      var value := items[key];
      if |value.lists| == listCount {
        NoDuplicatesCard(value.lists, S.Keys);
        assert ListSet(value.lists) == m.Keys;
      } else {
        var score := LookUpMissing(m, S.Keys, key, value.lists, value.score);
        items := items[key := value.(score := score)];
        forall q | 0 <= q < |seen| && q != p
          ensures seen[q] != key
        {
        }
      }
      p := p + 1;
    }
  }

  /** The iteration order of `sorted_lists.items()`: each list once, in some order. */
  method KeyOrder(S: Lists) returns (order: seq<ListId>)
    ensures Enumeration(order, S.Keys)
  {
    order := [];
    var todo := S.Keys;
    while todo != {}
      invariant todo <= S.Keys
      invariant NoDuplicates(order)
      invariant forall l :: l in order <==> l in S.Keys - todo
    {
      var l :| l in todo;
      forall p | 0 <= p < |order|
        ensures order[p] != l
      {
        assert order[p] in order;
      }
      order := order + [l];
      todo := todo - {l};
    }
  }

  /**
   * `fa(m, k)` (topk.py lines 17-75). An empty m makes `max()` raise. Otherwise
   * the answer lists touched items with their exact totals, highest first,
   * without repeats, cut at k as a Python slice; for k >= 0 it holds
   * min(k, number of items of m) entries, none when k is 0. With non-negative
   * scores, or a single list, it is a top-k answer, and with non-negative
   * scores its scores are those of the exhaustive sum-and-sort.
   */
  method Fa(m: Db, k: int) returns (r: Result<seq<Entry>>)
    ensures r.Failure? <==> |m| == 0
    ensures r.Success? ==> forall j :: 0 <= j < |r.value| ==>
      r.value[j].0 in Universe(m) && r.value[j].1 == Total(m, r.value[j].0)
    ensures r.Success? ==> DistinctItems(r.value) && SortedDesc(r.value)
    ensures r.Success? && k >= 0 ==> |r.value| == Min(k, |Universe(m)|)
    ensures r.Success? && k == 0 ==> r.value == []
    ensures r.Success? && k >= 0 && (NonNegative(m) || |m| == 1) ==> IsTopK(m, k, r.value)
    ensures r.Success? && k >= 0 && NonNegative(m) ==> Scores(r.value) == Scores(Exhaustive(m, k))
  {
    if |m| == 0 {
      return Failure(EmptyDatabase);
    }
    var sortedLists := GetSortedLists(m);
    var order := KeyOrder(sortedLists);
    assert sortedLists.Keys == m.Keys;
    var touched, seen, rounds := SortedAccess(m, sortedLists, order, k);
    TracksWithin(m, sortedLists, order, rounds, 0, touched, seen);
    var items := RandomAccess(m, sortedLists, touched, seen);
    var topKItems := Pairs(seen, items);
    topKItems := SortDesc(topKItems);
    r := Success(Take(topKItems, k));

    StopFacts(m, sortedLists, order, rounds, touched, seen, k);
    var F := FullSet(touched, |sortedLists|);
    AnswerShape(m, seen, items, F, k);
    if k >= 0 && (NonNegative(m) || |m| == 1) {
      AnswerIsTopK(m, seen, items, F, k);
      if NonNegative(m) {
        ExhaustiveIsTopK(m, k);
        TopKScores(m, k, r.value, Exhaustive(m, k));
      }
    }
  }
}
