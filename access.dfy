/**
 * The state of Fagin's algorithm and the facts about it that the methods of
 * module TopK rely on: what sorted access has reached after a number of
 * rounds, the per-item working record, and why the stopping rule is sound.
 */
module Access {
  import opened Plays
  import opened Sorting
  import opened Sums

  /** Each list rendered as a sequence of (item, score) pairs. */
  type Lists = map<ListId, seq<Entry>>

  /** Every entry of s is a pair of d, and no item occurs twice. */
  predicate Consistent(s: seq<Entry>, d: map<Item, int>)
  {
    && DistinctItems(s)
    && (forall p :: 0 <= p < |s| ==> s[p].0 in d && d[s[p].0] == s[p].1)
  }

  /** s lists every (item, score) pair of d, each item exactly once. */
  predicate Enumerates(s: seq<Entry>, d: map<Item, int>)
  {
    Consistent(s, d) && ItemsOf(s) == d.Keys
  }

  /** S holds, for every list of m, that list's pairs in descending order of score. */
  predicate RankedLists(S: Lists, m: Db)
  {
    && S.Keys == m.Keys
    && forall l :: l in S ==> l in m && Enumerates(S[l], m[l]) && SortedDesc(S[l])
  }

  /** What sorted access relies on: S has m's lists, each made of m's pairs. */
  predicate Readable(S: Lists, m: Db)
  {
    && S.Keys == m.Keys
    && forall l :: l in S ==> l in m && Consistent(S[l], m[l])
  }

  /** order is one iteration order of the keys K of a dictionary. */
  ghost predicate Enumeration(order: seq<ListId>, K: set<ListId>)
  {
    NoDuplicates(order) && forall l :: l in order <==> l in K
  }

  /** Every score in m is a non-negative play count. */
  predicate NonNegative(m: Db)
  {
    forall l, x :: l in m && x in m[l] ==> m[l][x] >= 0
  }

  /** Every item that occurs in some list of m. */
  function Universe(m: Db): set<Item>
  {
    set l, x | l in m && x in m[l] :: x
  }

  /** The working record of one item: running score and lists it was seen in. */
  datatype Record = Record(score: int, lists: seq<ListId>)

  function ListSet(ls: seq<ListId>): set<ListId>
  {
    set l | l in ls
  }

  /** Index of the first entry of s for item x; |s| when x does not occur. */
  function Position(s: seq<Entry>, x: Item): (r: nat)
    ensures r <= |s|
    ensures r < |s| ==> s[r].0 == x
  {
    if s == [] then 0 else if s[0].0 == x then 0 else 1 + Position(s[1..], x)
  }

  /** Index of the first occurrence of l in order; |order| when it is absent. */
  function IndexOf(order: seq<ListId>, l: ListId): (r: nat)
    ensures r <= |order|
    ensures r < |order| ==> order[r] == l
  {
    if order == [] then 0 else if order[0] == l then 0 else 1 + IndexOf(order[1..], l)
  }

  /** In a list with distinct items, the item at position p is found at p. */
  lemma {:induction false} PositionDistinct(s: seq<Entry>, p: nat)
    requires DistinctItems(s) && p < |s|
    ensures Position(s, s[p].0) == p
  {
    if p > 0 {
      assert s[0].0 != s[p].0;
      assert s[1..][p - 1] == s[p];
      PositionDistinct(s[1..], p - 1);
    }
  }

  /** In a sequence without duplicates, the list at index p is found at p. */
  lemma {:induction false} IndexOfDistinct(order: seq<ListId>, p: nat)
    requires NoDuplicates(order) && p < |order|
    ensures IndexOf(order, order[p]) == p
  {
    if p > 0 {
      assert order[0] != order[p];
      assert order[1..][p - 1] == order[p];
      IndexOfDistinct(order[1..], p - 1);
    }
  }

  /** Every entry before x's position is for another item. */
  lemma {:induction false} PositionFirst(s: seq<Entry>, x: Item, p: nat)
    requires p < |s| && s[p].0 == x
    ensures Position(s, x) <= p
  {
    if p > 0 && s[0].0 != x {
      PositionFirst(s[1..], x, p - 1);
    }
  }

  /** An item that occurs in s is found in it. */
  lemma PositionFound(s: seq<Entry>, x: Item)
    requires x in ItemsOf(s)
    ensures Position(s, x) < |s| && s[Position(s, x)].0 == x
  {
    var p := PositionOf(s, x);
    PositionFirst(s, x, p);
  }

  /** Every list of order is found within it. */
  lemma {:induction false} IndexOfIn(order: seq<ListId>, l: ListId)
    requires l in order
    ensures IndexOf(order, l) < |order|
  {
    if order[0] != l {
      IndexOfIn(order[1..], l);
    }
  }

  /**
   * In round i, once the lists order[..j] have been read at position i: has
   * sorted access met item x in list l? It has when x sits in l before
   * position i, or at position i of a list read earlier in the round.
   */
  predicate Reached(S: Lists, order: seq<ListId>, i: nat, j: nat, l: ListId, x: Item)
  {
    && l in S
    && Position(S[l], x) < |S[l]|
    && (Position(S[l], x) < i || (Position(S[l], x) == i && IndexOf(order, l) < j))
  }

  /** seen lists the keys of items, each once: the order in which they were first met. */
  ghost predicate Indexed(items: map<Item, Record>, seen: seq<Item>)
  {
    (forall x :: x in items <==> x in seen) && NoDuplicates(seen)
  }

  /** Each record names some lists, each once, and its score is the sum over them. */
  ghost predicate Sound(m: Db, items: map<Item, Record>)
  {
    forall x :: x in items ==>
      && NoDuplicates(items[x].lists)
      && items[x].lists != []
      && items[x].score == SetSum(m, ListSet(items[x].lists), x)
  }

  /** An item has a record naming list l exactly when it has been reached in l. */
  ghost predicate Covers(S: Lists, order: seq<ListId>, i: nat, j: nat, items: map<Item, Record>)
  {
    forall x, l {:trigger Reached(S, order, i, j, l, x)} :: Reached(S, order, i, j, l, x) <==> x in items && l in items[x].lists
  }

  /**
   * items and seen are what sorted access has built at that point: an item
   * has a record exactly when it has been reached, its record names the lists
   * it was reached in (each once), and its score is the sum over those lists.
   */
  ghost predicate Tracks(m: Db, S: Lists, order: seq<ListId>, i: nat, j: nat,
                         items: map<Item, Record>, seen: seq<Item>)
  {
    Indexed(items, seen) && Sound(m, items) && Covers(S, order, i, j, items)
  }

  /** The items seen in all n lists. */
  function FullSet(items: map<Item, Record>, n: nat): set<Item>
  {
    set x | x in items && |items[x].lists| == n
  }

  /** `[(key, value['score']) for key, value in items.items()]`, in first-seen order. */
  function Pairs(seen: seq<Item>, items: map<Item, Record>): (r: seq<Entry>)
    requires forall x :: x in seen ==> x in items
    ensures |r| == |seen|
    ensures forall p :: 0 <= p < |r| ==> r[p] == (seen[p], items[seen[p]].score)
  {
    seq(|seen|, p requires 0 <= p < |seen| => (seen[p], items[seen[p]].score))
  }

  // ---------------------------------------------------------------------
  // Facts about single lists

  /** An item sits at one position of a list with distinct items. */
  lemma PositionOf(s: seq<Entry>, x: Item) returns (p: nat)
    requires x in ItemsOf(s)
    ensures p < |s| && s[p].0 == x
  {
    var e :| e in s && e.0 == x;
    p :| p < |s| && s[p] == e;
  }

  /** The score of x as recorded in the list equals its score in the dictionary. */
  lemma EntryContribution(m: Db, S: Lists, l: ListId, p: nat)
    requires Readable(S, m) && l in S && p < |S[l]|
    ensures Contribution(m, l, S[l][p].0) == S[l][p].1
  {
  }

  // ---------------------------------------------------------------------
  // Sorted access: one visit, and the end of a round

  /** Reading list order[j] at position i reaches exactly one more (list, item) pair. */
  lemma ReachedStep(S: Lists, order: seq<ListId>, i: nat, j: nat, j': nat, l: ListId, x: Item)
    requires NoDuplicates(order) && j < |order| && j' == j + 1
    requires order[j] in S && i < |S[order[j]]| ==> DistinctItems(S[order[j]])
    ensures Reached(S, order, i, j', l, x) <==>
      Reached(S, order, i, j, l, x) || (l == order[j] && l in S && i < |S[l]| && S[l][i].0 == x)
  {
    IndexOfDistinct(order, j);
    if l == order[j] && l in S && i < |S[l]| {
      PositionDistinct(S[l], i);
    }
  }

  /** Before the first round nothing has been reached. */
  lemma TracksStart(m: Db, S: Lists, order: seq<ListId>)
    ensures Tracks(m, S, order, 0, 0, map[], [])
  {
  }

  /** After every list has been read at position i, round i + 1 begins. */
  lemma ReachedRoundEnd(S: Lists, order: seq<ListId>, i: nat, i': nat, l: ListId, x: Item)
    requires Enumeration(order, S.Keys) && i' == i + 1
    ensures Reached(S, order, i, |order|, l, x) <==> Reached(S, order, i', 0, l, x)
  {
    if l in S {
      IndexOfIn(order, l);
    }
  }

  /** Tracks carries over from the end of round i to the start of round i + 1. */
  lemma TracksRoundEnd(m: Db, S: Lists, order: seq<ListId>, i: nat, i': nat,
                       items: map<Item, Record>, seen: seq<Item>)
    requires Enumeration(order, S.Keys) && i' == i + 1
    requires Tracks(m, S, order, i, |order|, items, seen)
    ensures Tracks(m, S, order, i', 0, items, seen)
  {
    forall x, l
      ensures Reached(S, order, i', 0, l, x) <==> x in items && l in items[x].lists
    {
      ReachedRoundEnd(S, order, i, i', l, x);
    }
  }

  /** Reading a list already past its end changes nothing. */
  lemma TracksSkip(m: Db, S: Lists, order: seq<ListId>, i: nat, j: nat, j': nat,
                   items: map<Item, Record>, seen: seq<Item>)
    requires NoDuplicates(order) && j < |order| && j' == j + 1 && (order[j] in S ==> i >= |S[order[j]]|)
    requires Tracks(m, S, order, i, j, items, seen)
    ensures Tracks(m, S, order, i, j', items, seen)
  {
    forall x, l
      ensures Reached(S, order, i, j', l, x) <==> x in items && l in items[x].lists
    {
      ReachedStep(S, order, i, j, j', l, x);
    }
  }

  /** Before list order[j] is read at position i, the item there has not been reached in it. */
  lemma NotYetReached(m: Db, S: Lists, order: seq<ListId>, i: nat, j: nat)
    requires Readable(S, m) && Enumeration(order, S.Keys)
    requires j < |order| && order[j] in S && i < |S[order[j]]|
    ensures !Reached(S, order, i, j, order[j], S[order[j]][i].0)
  {
    PositionDistinct(S[order[j]], i);
    IndexOfDistinct(order, j);
  }

  /** A record's lists, extended by one list it does not hold, stay within S and distinct. */
  lemma ExtendLists(S: Lists, ls: seq<ListId>, l: ListId)
    requires NoDuplicates(ls) && l !in ls && l in S
    requires forall l' :: l' in ls ==> l' in S
    ensures NoDuplicates(ls + [l])
    ensures |ls| < |S|
    ensures ListSet(ls + [l]) == ListSet(ls) + {l}
  {
    var ls' := ls + [l];
    forall a, b | 0 <= a < b < |ls'|
      ensures ls'[a] != ls'[b]
    {
      if b == |ls'| - 1 {
        assert ls'[a] in ls;
      } else {
        assert ls'[a] == ls[a] && ls'[b] == ls[b];
      }
    }
    NoDuplicatesCard(ls', S.Keys);
  }

  /** The record after the visit: score and lists updated together. */
  lemma VisitRecord(m: Db, S: Lists, order: seq<ListId>, i: nat, j: nat,
                    items: map<Item, Record>, seen: seq<Item>, rec: Record)
    requires Readable(S, m) && Enumeration(order, S.Keys)
    requires j < |order| && order[j] in S && i < |S[order[j]]|
    requires Tracks(m, S, order, i, j, items, seen)
    requires var x := S[order[j]][i].0;
      rec == if x in items then items[x] else Record(0, [])
    ensures var l, x := order[j], S[order[j]][i].0;
      && NoDuplicates(rec.lists + [l])
      && |rec.lists| < |S|
      && rec.score + S[l][i].1 == SetSum(m, ListSet(rec.lists + [l]), x)
  {
    var l, x := order[j], S[order[j]][i].0;
    NotYetReached(m, S, order, i, j);
    forall l' | l' in rec.lists
      ensures l' in S
    {
      assert Reached(S, order, i, j, l', x);
    }
    ExtendLists(S, rec.lists, l);
    SetSumAdd(m, ListSet(rec.lists), x, l);
    EntryContribution(m, S, l, i);
    if x !in items {
      assert ListSet(rec.lists) == {};
    }
  }

  /** The reached pairs after the visit: those before, plus (l, x). */
  lemma VisitReached(S: Lists, order: seq<ListId>, i: nat, j: nat, j': nat, x: Item,
                     items: map<Item, Record>, items': map<Item, Record>)
    requires NoDuplicates(order) && j < |order| && j' == j + 1 && order[j] in S && i < |S[order[j]]|
    requires DistinctItems(S[order[j]])
    requires x == S[order[j]][i].0
    requires forall y, l' :: Reached(S, order, i, j, l', y) <==> y in items && l' in items[y].lists
    requires x in items' && items'[x].lists == (if x in items then items[x].lists else []) + [order[j]]
    requires forall y :: y != x ==> (y in items' <==> y in items)
    requires forall y :: y != x && y in items ==> items'[y] == items[y]
    ensures forall y, l' :: Reached(S, order, i, j', l', y) <==> y in items' && l' in items'[y].lists
  {
    forall y, l'
      ensures Reached(S, order, i, j', l', y) <==> y in items' && l' in items'[y].lists
    {
      ReachedStep(S, order, i, j, j', l', y);
    }
  }

  /** seen gains x exactly when x is new, and stays free of duplicates. */
  lemma VisitSeen(x: Item, items: map<Item, Record>, seen: seq<Item>,
                  items': map<Item, Record>, seen': seq<Item>)
    requires forall y :: y in items <==> y in seen
    requires NoDuplicates(seen)
    requires items'.Keys == items.Keys + {x}
    requires seen' == if x in items then seen else seen + [x]
    ensures forall y :: y in items' <==> y in seen'
    ensures NoDuplicates(seen')
  {
    if x !in items {
      forall a, b | 0 <= a < b < |seen'|
        ensures seen'[a] != seen'[b]
      {
        if b == |seen| {
          assert seen'[a] in seen;
        }
      }
    }
  }

  /**
   * Reading list l = order[j] at position i, where item x sits with score s:
   * the item's record gains s and l, a new item is appended to seen, and the
   * set of fully seen items gains x exactly when x has now been seen in every
   * list (it was not fully seen before).
   */
  lemma TracksVisit(m: Db, S: Lists, order: seq<ListId>, i: nat, j: nat, j': nat,
                    items: map<Item, Record>, seen: seq<Item>,
                    x: Item, s: int, rec: Record,
                    items': map<Item, Record>, seen': seq<Item>)
    requires Readable(S, m) && Enumeration(order, S.Keys)
    requires j < |order| && j' == j + 1 && order[j] in S && i < |S[order[j]]|
    requires Tracks(m, S, order, i, j, items, seen)
    requires x == S[order[j]][i].0 && s == S[order[j]][i].1
    requires rec == if x in items then items[x] else Record(0, [])
    requires items' == items[x := Record(rec.score + s, rec.lists + [order[j]])]
    requires seen' == if x in items then seen else seen + [x]
    ensures Tracks(m, S, order, i, j', items', seen')
    ensures |FullSet(items', |S|)| == |FullSet(items, |S|)| + (if |items'[x].lists| == |S| then 1 else 0)
  {
    VisitRecord(m, S, order, i, j, items, seen, rec);
    VisitReached(S, order, i, j, j', x, items, items');
    VisitSeen(x, items, seen, items', seen');
    VisitSound(m, x, items, items');
    VisitFull(x, |S|, items, items', rec.lists);
  }

  /** Replacing x's record by a sound one keeps every record sound. */
  lemma VisitSound(m: Db, x: Item, items: map<Item, Record>, items': map<Item, Record>)
    requires Sound(m, items)
    requires x in items' && NoDuplicates(items'[x].lists) && items'[x].lists != []
    requires items'[x].score == SetSum(m, ListSet(items'[x].lists), x)
    requires forall y :: y != x ==> (y in items' <==> y in items)
    requires forall y :: y != x && y in items ==> items'[y] == items[y]
    ensures Sound(m, items')
  {
  }

  /** The fully seen items gain x exactly when its extended record covers every list. */
  lemma VisitFull(x: Item, n: nat, items: map<Item, Record>, items': map<Item, Record>, ls: seq<ListId>)
    requires x in items' && |ls| < n && (x in items ==> items[x].lists == ls)
    requires forall y :: y != x ==> (y in items' <==> y in items)
    requires forall y :: y != x && y in items ==> items'[y] == items[y]
    ensures |FullSet(items', n)| == |FullSet(items, n)| + (if |items'[x].lists| == n then 1 else 0)
  {
    var F, F' := FullSet(items, n), FullSet(items', n);
    var G := if |items'[x].lists| == n then F + {x} else F;
    assert x !in F;
    forall y | y in F'
      ensures y in G
    {
      if y != x {
        assert y in items && |items[y].lists| == n;
      }
    }
    forall y | y in G
      ensures y in F'
    {
      if y != x {
        assert y in items && |items[y].lists| == n;
      }
    }
    assert F' == G;
  }

  /** Every list named by a record belongs to K. */
  ghost predicate Within(K: set<ListId>, items: map<Item, Record>)
  {
    forall x, l :: x in items && l in items[x].lists ==> l in K
  }

  /** The lists an item was reached in are lists of S. */
  lemma TracksWithin(m: Db, S: Lists, order: seq<ListId>, i: nat, j: nat,
                     items: map<Item, Record>, seen: seq<Item>)
    requires Tracks(m, S, order, i, j, items, seen)
    ensures Within(S.Keys, items)
  {
    forall x, l | x in items && l in items[x].lists
      ensures l in S.Keys
    {
      assert Reached(S, order, i, j, l, x);
    }
  }

  // ---------------------------------------------------------------------
  // The longest list

  /** `max([len(l) for l in sorted_lists.values()])` over a non-empty set of lists. */
  function MaxLen(S: Lists, ls: seq<ListId>): (r: nat)
    requires forall l :: l in ls ==> l in S
    ensures forall l :: l in ls ==> |S[l]| <= r
  {
    if ls == [] then 0
    else
      var rest := MaxLen(S, ls[1..]);
      assert forall l :: l in ls[1..] ==> l in ls;
      if |S[ls[0]]| >= rest then |S[ls[0]]| else rest
  }

  /** The bound is attained: some list of ls is exactly that long. */
  lemma {:induction false} MaxLenAttained(S: Lists, ls: seq<ListId>) returns (l: ListId)
    requires forall l :: l in ls ==> l in S
    requires ls != []
    ensures l in ls && |S[l]| == MaxLen(S, ls)
  {
    if |ls| == 1 || |S[ls[0]]| >= MaxLen(S, ls[1..]) {
      l := ls[0];
    } else {
      assert forall l' :: l' in ls[1..] ==> l' in ls;
      l := MaxLenAttained(S, ls[1..]);
    }
  }
}
