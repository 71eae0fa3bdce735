/**
 * The ranking endpoint `get_top` (plays/api.py): the top songs of a time
 * window over a set of channels, each annotated with its rank and plays in
 * the same window one week earlier. Instants are whole seconds; the play
 * counts of a window come from a query that is a parameter of the model.
 */
module Api {
  import opened Plays
  import opened Sorting
  import opened Sums
  import opened Access
  import opened Fagin
  import opened TopK

  /** `timedelta(days=7)`, in seconds. */
  const WeekShift: int := 7 * 24 * 60 * 60

  /** One entry of the answer, with the fields of the JSON object. */
  datatype Row = Row(rank: nat, title: string, performer: string, plays: int,
                     previousPlays: int, previousRank: Option<nat>)

  /** One entry of the previous week's index. */
  datatype PastRow = PastRow(rank: nat, plays: int)

  /** The item a row describes. */
  function RowItem(row: Row): Item
  {
    Item(row.title, row.performer)
  }

  /**
   * p is the last position of x in s: the index a dictionary built by
   * enumerating s keeps for x, since later keys overwrite earlier ones.
   */
  predicate LastAt(s: seq<Entry>, x: Item, p: int)
  {
    0 <= p < |s| && s[p].0 == x && forall q :: p < q < |s| ==> s[q].0 != x
  }

  /** A position is the last one of at most one item, and an item has at most one last position. */
  lemma LastAtUnique(s: seq<Entry>, x: Item, y: Item, p: int, q: int)
    requires LastAt(s, x, p) && LastAt(s, y, q)
    ensures p == q <==> x == y
  {
  }

  // -----------------------------------------------------------------------
  // The two dictionaries (plays/api.py lines 181-197)

  /** Appending an entry makes it the last of its item and leaves the others' last positions. */
  lemma LastAtSnoc(s: seq<Entry>, e: Entry)
    ensures forall x, p :: LastAt(s, x, p) && x != e.0 ==> LastAt(s + [e], x, p)
    ensures LastAt(s + [e], e.0, |s|)
    ensures ItemsOf(s + [e]) == ItemsOf(s) + {e.0}
  {
    ItemsOfAppend(s, e);
  }

  /**
   * `current_top_dict`: every item of the ranking, at its (last) position,
   * with its plays, its title and performer split out, and no previous week.
   */
  function CurrentIndex(top: seq<Entry>): (d: map<Item, Row>)
    ensures d.Keys == ItemsOf(top)
    ensures forall x :: x in d ==>
      && LastAt(top, x, d[x].rank)
      && RowItem(d[x]) == x
      && d[x].plays == top[d[x].rank].1
      && d[x].previousPlays == 0 && d[x].previousRank == None
  {
    if top == [] then map[]
    else
      var n := |top| - 1;
      var e := top[n];
      var d' := CurrentIndex(top[..n]);
      assert top == top[..n] + [e];
      LastAtSnoc(top[..n], e);
      d'[e.0 := Row(n, e.0.title, e.0.performer, e.1, 0, None)]
  }

  /** `past_top_dict`: every item of the previous ranking, at its (last) position, with its plays. */
  function PastIndex(top: seq<Entry>): (d: map<Item, PastRow>)
    ensures d.Keys == ItemsOf(top)
    ensures forall x :: x in d ==> LastAt(top, x, d[x].rank) && d[x].plays == top[d[x].rank].1
  {
    if top == [] then map[]
    else
      var n := |top| - 1;
      var e := top[n];
      var d' := PastIndex(top[..n]);
      assert top == top[..n] + [e];
      LastAtSnoc(top[..n], e);
      d'[e.0 := PastRow(n, e.1)]
  }

  // -----------------------------------------------------------------------
  // The merge (plays/api.py lines 200-203)

  /**
   * The loop over the items of both weeks: each such entry of `current`
   * gets the previous week's rank and plays; entries of items absent from
   * `past` stay as they were, and no entry is added or removed.
   */
  method ApplyPrevious(current: map<Item, Row>, past: map<Item, PastRow>)
    returns (merged: map<Item, Row>)
    ensures merged.Keys == current.Keys
    ensures forall x :: x in merged && x in past ==>
      merged[x] == current[x].(previousRank := Some(past[x].rank), previousPlays := past[x].plays)
    ensures forall x :: x in merged && x !in past ==> merged[x] == current[x]
  {
    merged := current;
    var sharedItems := past.Keys * current.Keys;
    var todo := sharedItems;
    while todo != {}
      invariant todo <= sharedItems
      invariant merged.Keys == current.Keys
      invariant forall x :: x in merged && x in sharedItems - todo ==>
        merged[x] == current[x].(previousRank := Some(past[x].rank), previousPlays := past[x].plays)
      invariant forall x :: x in merged && x !in sharedItems - todo ==> merged[x] == current[x]
    {
      var item :| item in todo;
      var row := merged[item].(previousRank := Some(past[item].rank));
      row := row.(previousPlays := past[item].plays);
      merged := merged[item := row];
      todo := todo - {item};
    }
  }

  /** `current_top_dict.values()`, in some iteration order, beside the matching keys. */
  method Values(d: map<Item, Row>) returns (keys: seq<Item>, vs: seq<Row>)
    ensures NoDuplicates(keys) && |keys| == |d.Keys|
    ensures forall x :: x in keys <==> x in d
    ensures |vs| == |keys| && forall p :: 0 <= p < |keys| ==> keys[p] in d && vs[p] == d[keys[p]]
  {
    keys, vs := [], [];
    var todo := d.Keys;
    while todo != {}
      invariant todo <= d.Keys
      invariant NoDuplicates(keys) && |keys| == |d.Keys - todo|
      invariant forall x :: x in keys <==> x in d.Keys - todo
      invariant |vs| == |keys| && forall p :: 0 <= p < |keys| ==> keys[p] in d && vs[p] == d[keys[p]]
    {
      var x :| x in todo;
      forall p | 0 <= p < |keys|
        ensures keys[p] != x
      {
        assert keys[p] in keys;
      }
      assert d.Keys - (todo - {x}) == (d.Keys - todo) + {x};
      keys, vs := keys + [x], vs + [d[x]];
      todo := todo - {x};
    }
  }

  // -----------------------------------------------------------------------
  // The sort by rank (plays/api.py line 206)

  /** The sort key `lambda x: x['rank']`. */
  function RankKey(row: Row): int
  {
    row.rank
  }

  /** Ranks strictly increase from front to back. */
  predicate StrictlyRanked(rows: seq<Row>)
  {
    forall i, j :: 0 <= i < j < |rows| ==> rows[i].rank < rows[j].rank
  }

  /** Two equal elements at different positions occur at least twice. */
  lemma CountTwo<T>(s: seq<T>, i: nat, j: nat)
    requires i < j < |s| && s[i] == s[j]
    ensures multiset(s)[s[i]] >= 2
  {
    assert s == s[..j] + s[j..];
    assert s[i] == s[..j][i];
    assert s[j] == s[j..][0];
  }

  /** In a sequence without repeats every element occurs at most once. */
  lemma {:induction false} CountOne<T>(s: seq<T>, v: T)
    requires NoDuplicates(s)
    ensures multiset(s)[v] <= 1
  {
    if s != [] {
      assert s == [s[0]] + s[1..];
      CountOne(s[1..], v);
      if v == s[0] {
        assert v !in s[1..];
      }
    }
  }

  /**
   * Sorting rows whose ranks are pairwise different by rank gives strictly
   * increasing ranks.
   */
  lemma SortedRanksStrict(vs: seq<Row>, rows: seq<Row>)
    requires multiset(rows) == multiset(vs) && SortedBy(rows, RankKey)
    requires forall p, q :: 0 <= p < q < |vs| ==> vs[p].rank != vs[q].rank
    ensures StrictlyRanked(rows)
  {
    forall i, j | 0 <= i < j < |rows|
      ensures rows[i].rank < rows[j].rank
    {
      assert RankKey(rows[i]) <= RankKey(rows[j]);
      if rows[i].rank == rows[j].rank {
        assert rows[i] in multiset(vs) && rows[j] in multiset(vs);
        var p :| 0 <= p < |vs| && vs[p] == rows[i];
        var q :| 0 <= q < |vs| && vs[q] == rows[j];
        assert p == q;
        CountTwo(rows, i, j);
        CountOne(vs, rows[i]);
        assert false;
      }
    }
  }

  /** The i-th of strictly increasing natural ranks is at least i. */
  lemma {:induction false} RankAtLeast(rows: seq<Row>, i: nat)
    requires StrictlyRanked(rows) && i < |rows|
    ensures rows[i].rank >= i
  {
    if i > 0 {
      RankAtLeast(rows, i - 1);
    }
  }

  /** With every rank below n, the i-th rank leaves room for the ones after it. */
  lemma {:induction false} RankAtMost(rows: seq<Row>, n: nat, i: nat)
    requires StrictlyRanked(rows) && i < |rows|
    requires forall j :: 0 <= j < |rows| ==> rows[j].rank < n
    ensures rows[i].rank <= n - (|rows| - i)
    decreases |rows| - i
  {
    if i + 1 < |rows| {
      RankAtMost(rows, n, i + 1);
    }
  }

  /** n strictly increasing ranks below n are 0, 1, ..., n - 1. */
  lemma RanksAreIndices(rows: seq<Row>)
    requires StrictlyRanked(rows)
    requires forall j :: 0 <= j < |rows| ==> rows[j].rank < |rows|
    ensures forall i :: 0 <= i < |rows| ==> rows[i].rank == i
  {
    forall i | 0 <= i < |rows|
      ensures rows[i].rank == i
    {
      RankAtLeast(rows, i);
      RankAtMost(rows, |rows|, i);
    }
  }

  // -----------------------------------------------------------------------
  // The whole merge

  /**
   * What an answer row says about the two rankings: it stands for the item
   * at its rank in the current ranking, with that ranking's plays; it has a
   * previous rank exactly when its item is in the previous ranking, and then
   * that rank is the item's position there and the previous plays its score
   * there; otherwise the previous plays are 0.
   */
  predicate MergedRow(currentTop: seq<Entry>, pastTop: seq<Entry>, row: Row)
  {
    && LastAt(currentTop, RowItem(row), row.rank)
    && row.plays == currentTop[row.rank].1
    && (row.previousRank.Some? <==> RowItem(row) in ItemsOf(pastTop))
    && (row.previousRank.Some? ==>
          LastAt(pastTop, RowItem(row), row.previousRank.value)
          && row.previousPlays == pastTop[row.previousRank.value].1)
    && (row.previousRank.None? ==> row.previousPlays == 0)
  }

  /** Every entry of the merged dictionary is a merged row for its own key. */
  lemma MergedEntries(currentTop: seq<Entry>, pastTop: seq<Entry>,
                      cur: map<Item, Row>, past: map<Item, PastRow>, merged: map<Item, Row>)
    requires cur == CurrentIndex(currentTop) && past == PastIndex(pastTop)
    requires merged.Keys == cur.Keys
    requires forall x :: x in merged && x in past ==>
      merged[x] == cur[x].(previousRank := Some(past[x].rank), previousPlays := past[x].plays)
    requires forall x :: x in merged && x !in past ==> merged[x] == cur[x]
    ensures forall x :: x in merged ==> RowItem(merged[x]) == x && MergedRow(currentTop, pastTop, merged[x])
  {
  }

  /**
   * The values of the merged dictionary, listed under distinct keys, carry
   * pairwise different ranks: a rank is the last position of its key.
   */
  lemma DistinctRanks(currentTop: seq<Entry>, pastTop: seq<Entry>,
                      merged: map<Item, Row>, keys: seq<Item>, vs: seq<Row>)
    requires forall x :: x in merged ==> RowItem(merged[x]) == x && MergedRow(currentTop, pastTop, merged[x])
    requires NoDuplicates(keys) && (forall x :: x in keys ==> x in merged)
    requires |vs| == |keys| && forall p :: 0 <= p < |keys| ==> vs[p] == merged[keys[p]]
    ensures forall p, q :: 0 <= p < q < |vs| ==> vs[p].rank != vs[q].rank
  {
    forall p, q | 0 <= p < q < |vs|
      ensures vs[p].rank != vs[q].rank
    {
      assert keys[p] in keys && keys[q] in keys;
      LastAtUnique(currentTop, keys[p], keys[q], vs[p].rank, vs[q].rank);
    }
  }

  /**
   * The merge of `get_top` (plays/api.py lines 181-206): index both rankings
   * by item, copy the previous week's rank and plays onto the items of both,
   * and list the entries by current rank. The answer has one row per item of
   * the current ranking, in strictly increasing rank; each row is a merged
   * row for the two rankings. When the current ranking has no repeated item,
   * row i is its i-th entry.
   */
  method RankMerge(currentTop: seq<Entry>, pastTop: seq<Entry>) returns (top: seq<Row>)
    ensures StrictlyRanked(top)
    ensures forall i :: 0 <= i < |top| ==> MergedRow(currentTop, pastTop, top[i])
    ensures |top| == |ItemsOf(currentTop)|
    ensures DistinctItems(currentTop) ==>
      |top| == |currentTop| && forall i :: 0 <= i < |top| ==> top[i].rank == i
  {
    var cur := CurrentIndex(currentTop);
    var past := PastIndex(pastTop);
    var merged := ApplyPrevious(cur, past);
    var keys, vs := Values(merged);
    top := SortBy(vs, RankKey);

    MergedEntries(currentTop, pastTop, cur, past, merged);
    DistinctRanks(currentTop, pastTop, merged, keys, vs);
    SortedRanksStrict(vs, top);
    RowsOfValues(currentTop, pastTop, merged, keys, vs, top);
    RanksOfDistinct(currentTop, pastTop, top);
  }

  /** A reordering of the merged values consists of merged rows. */
  lemma RowsOfValues(currentTop: seq<Entry>, pastTop: seq<Entry>,
                     merged: map<Item, Row>, keys: seq<Item>, vs: seq<Row>, rows: seq<Row>)
    requires forall x :: x in merged ==> MergedRow(currentTop, pastTop, merged[x])
    requires |vs| == |keys| && forall p :: 0 <= p < |keys| ==> keys[p] in merged && vs[p] == merged[keys[p]]
    requires multiset(rows) == multiset(vs)
    ensures forall i :: 0 <= i < |rows| ==> MergedRow(currentTop, pastTop, rows[i])
  {
    forall i | 0 <= i < |rows|
      ensures MergedRow(currentTop, pastTop, rows[i])
    {
      assert rows[i] in multiset(vs);
      var p :| 0 <= p < |vs| && vs[p] == rows[i];
    }
  }

  /**
   * When the current ranking has no repeated item, as many strictly ranked
   * merged rows as it has items are ranked 0, 1, ..., n - 1.
   */
  lemma RanksOfDistinct(currentTop: seq<Entry>, pastTop: seq<Entry>, rows: seq<Row>)
    requires StrictlyRanked(rows) && |rows| == |ItemsOf(currentTop)|
    requires forall i :: 0 <= i < |rows| ==> MergedRow(currentTop, pastTop, rows[i])
    ensures DistinctItems(currentTop) ==>
      |rows| == |currentTop| && forall i :: 0 <= i < |rows| ==> rows[i].rank == i
  {
    if DistinctItems(currentTop) {
      DistinctItemsCard(currentTop);
      RanksAreIndices(rows);
    }
  }

  /** The (item, plays) pairs of the answer rows. */
  function Entries(rows: seq<Row>): (r: seq<Entry>)
    ensures |r| == |rows|
    ensures forall i :: 0 <= i < |rows| ==> r[i] == (RowItem(rows[i]), rows[i].plays)
  {
    seq(|rows|, i requires 0 <= i < |rows| => (RowItem(rows[i]), rows[i].plays))
  }

  /** Row i of a merge of a ranking without repeats restates that ranking's i-th entry. */
  lemma MergedEntriesAreCurrent(currentTop: seq<Entry>, pastTop: seq<Entry>, top: seq<Row>)
    requires DistinctItems(currentTop) && |top| == |currentTop|
    requires forall i :: 0 <= i < |top| ==> top[i].rank == i && MergedRow(currentTop, pastTop, top[i])
    ensures Entries(top) == currentTop
  {
  }

  // -----------------------------------------------------------------------
  // get_top

  /**
   * `get_top` (plays/api.py lines 165-206). `query(channels, start, end)`
   * stands for `PlayByChannel.get_song_counts`: per channel with plays in the
   * window, the play count of every song. The week before is the same window
   * shifted back by seven days, and both rankings use the same limit. Either
   * ranking failing on an empty database fails the request. Otherwise row i
   * has rank i, is the i-th song of the current top ranking with its exact
   * plays over the channels, and carries the previous week's rank and plays
   * of that song exactly when it is in the previous week's top ranking.
   */
  method GetTop(query: (seq<ListId>, int, int) -> Db, channels: seq<ListId>,
                start: int, end: int, limit: int)
    returns (r: Result<seq<Row>>)
    ensures var current := query(channels, start, end);
            var past := query(channels, start - WeekShift, end - WeekShift);
            r.Failure? <==> |current| == 0 || |past| == 0
    ensures r.Success? ==>
      var current := query(channels, start, end);
      var past := query(channels, start - WeekShift, end - WeekShift);
      var rows := r.value;
      && (forall i :: 0 <= i < |rows| ==> rows[i].rank == i)
      && (forall i :: 0 <= i < |rows| ==> RowItem(rows[i]) in Universe(current))
      && (forall i :: 0 <= i < |rows| ==> rows[i].plays == Total(current, RowItem(rows[i])))
      && DistinctItems(Entries(rows)) && SortedDesc(Entries(rows))
      && (limit >= 0 ==> |rows| == Min(limit, |Universe(current)|))
      && (limit >= 0 && (NonNegative(current) || |current| == 1) ==> IsTopK(current, limit, Entries(rows)))
      && (forall i :: 0 <= i < |rows| && rows[i].previousRank.Some? ==>
            rows[i].previousPlays == Total(past, RowItem(rows[i])))
      && (forall i :: 0 <= i < |rows| && rows[i].previousRank.None? ==> rows[i].previousPlays == 0)
    ensures r.Success? ==>
      var past := query(channels, start - WeekShift, end - WeekShift);
      exists pastTop: seq<Entry> ::
        && DistinctItems(pastTop) && SortedDesc(pastTop)
        && (forall j :: 0 <= j < |pastTop| ==>
              pastTop[j].0 in Universe(past) && pastTop[j].1 == Total(past, pastTop[j].0))
        && (limit >= 0 ==> |pastTop| == Min(limit, |Universe(past)|))
        && (limit >= 0 && (NonNegative(past) || |past| == 1) ==> IsTopK(past, limit, pastTop))
        && (forall i :: 0 <= i < |r.value| ==>
              var row := r.value[i];
              && (row.previousRank.Some? <==> RowItem(row) in ItemsOf(pastTop))
              && (row.previousRank.Some? ==>
                    (row.previousRank.value < |pastTop| && pastTop[row.previousRank.value].0 == RowItem(row))))
  {
    var currentSongs := query(channels, start, end);
    var pastSongs := query(channels, start - WeekShift, end - WeekShift);
    var currentTop := Fa(currentSongs, limit);
    if currentTop.Failure? {
      return Failure(currentTop.error);
    }
    var pastTop := Fa(pastSongs, limit);
    if pastTop.Failure? {
      return Failure(pastTop.error);
    }
    var rows := RankMerge(currentTop.value, pastTop.value);
    r := Success(rows);
    MergedEntriesAreCurrent(currentTop.value, pastTop.value, rows);
    forall i | 0 <= i < |rows| && rows[i].previousRank.Some?
      ensures rows[i].previousPlays == Total(pastSongs, RowItem(rows[i]))
    {
      assert MergedRow(currentTop.value, pastTop.value, rows[i]);
    }
  }
}
