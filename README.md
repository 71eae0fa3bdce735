# Rank aggregation of plays-api, in Dafny

This project models the rank-aggregation core of the plays-api service. The
service records radio plays per channel and answers "which songs were played
most over these channels in this window, and how did they do the week
before?".

The model covers two parts.

- **Fagin's algorithm** (`plays/topk.py`). Each channel is a list that maps a
  song, keyed by (title, performer), to its play count in the window.
  - `_get_sorted_lists` turns every list into a sequence sorted by
    descending count.
  - `fa(m, k)` reads those sequences round by round (sorted access) until k
    songs have been seen in every list or the longest list is exhausted.
  - It then looks up the missing counts of every touched song directly in
    the lists (random access).
  - Finally it sorts the touched songs by total and keeps the first k.
- **The weekly comparison** in `get_top` (`plays/api.py`).
  - It runs `fa` on the current window and on the same window shifted back
    seven days, with the same limit.
  - It indexes both rankings by song and copies the previous rank and plays
    onto the songs present in both.
  - It lists the result by current rank.

Modules, in dependency order:

| file | module | contents |
|---|---|---|
| `plays.dfy` | `Plays` | songs, entries, `Result`, Python's `s[:k]` slice, counting lemmas |
| `sorting.dfy` | `Sorting` | Python's stable `sorted(s, key=f)` as an insertion sort, and its properties |
| `sums.dfy` | `Sums` | the database type and a song's total over a set of lists |
| `access.dfy` | `Access` | the state of sorted access and the invariant that it is exact |
| `fagin.dfy` | `Fagin` | the top-k property, the exhaustive reference, and why the stopping rule is sound |
| `topk.dfy` | `TopK` | `_get_sorted_lists` and `fa`, phase by phase, as methods with loops |
| `api.dfy` | `Api` | the two dictionaries, the merge loop, the sort by rank, and `get_top` |

The main results are these.

- `TopK.Fa` returns every touched song with its exact total over all lists.
  The songs are distinct, highest total first, and cut like a Python slice.
- For k >= 0 the answer has min(k, number of songs) entries, and none when
  k = 0.
- With non-negative counts, or with a single list, the answer is a top-k
  answer (`Fagin.IsTopK`).
- With non-negative counts, its scores are those of an exhaustive
  sum-and-sort over all lists (`Fagin.Exhaustive`). Which of several tied
  songs is kept may differ.
- `Api.GetTop` answers one row per song of the current top-k.
  - Row i has rank i and that song's exact plays.
  - A song also in the previous week's top-k gets its rank and plays from
    that ranking. Any other song gets no previous rank and 0 previous plays.

Edge cases follow the code.

- An empty database (no channel had plays) makes `max()` at
  `plays/topk.py:41` raise. The model returns `Failure(EmptyDatabase)`, and
  `get_top` fails with it, instead of giving an empty ranking.
- `k` is whatever integer the request carries. A negative k cuts the answer
  as the Python slice `[:k]` does, dropping the last -k entries.
- With k = 0 one full round of sorted access still runs before the stop test
  fires.
- Negative counts are not rejected. The top-k theorems assume non-negative
  counts, or a single list; the exactness of totals holds for any integers.

Dictionary iteration order is unspecified in the Python 2 code. The model
leaves it open wherever it matters.

- Lists are read in an arbitrary order of channels.
- Dictionaries are enumerated in an arbitrary order.
- The touched songs are listed in first-seen order before the final stable
  sort. This modelling choice fixes the order among equal totals.

## Model

| member | source | states |
|---|---|---|
| `Plays.TakePrefix` | plays/topk.py:75 | `s[:k]` is a prefix of s: the first min(k, n) elements for k >= 0 (all of s once k >= n), and s without its last min(-k, n) elements for negative k |
| `Sorting.SortBy` | plays/topk.py:74 | `sorted` returns a permutation of its input (same multiset, same length) ordered by non-decreasing key |
| `Sorting.InsertSorted` | plays/topk.py:74 | inserting into a sorted sequence keeps it sorted |
| `Sorting.SortByStable` | plays/api.py:206 | the sort is stable: for every key value, the elements with that key keep their input order |
| `Sorting.SortDesc` | plays/topk.py:74 | `sorted(s, key=lambda x: -x[1])` is a permutation of s with non-increasing scores |
| `Sorting.SortDescItems` | plays/topk.py:74 | sorting keeps the set of songs, and keeps them distinct |
| `Sums.SetSumRemove` | plays/topk.py:66-69 | a total splits at any list, so it does not depend on the order the lists are visited in |
| `Sums.SetSumAdd` | plays/topk.py:68-69 | visiting one more list adds that list's count (0 when the song is absent) |
| `Sums.SetSumMonotone` | plays/topk.py:17-22 | a song that gets no more than another from every list has no larger total |
| `Access.MaxLen` | plays/topk.py:41 | `max_list_size` bounds the length of every list |
| `Access.MaxLenAttained` | plays/topk.py:41 | some list has exactly length `max_list_size` |
| `Fagin.PairsItems` | plays/topk.py:73 | the (song, score) pairs list every touched song exactly once, each with its exact total |
| `Access.TracksStart` | plays/topk.py:36-39 | before any round the empty records are exact |
| `Access.TracksVisit` | plays/topk.py:46-52 | reading one list at position i adds its score and list to the song's record, keeps every record exact, and raises the count of fully seen songs exactly when this song is now in every list |
| `Access.TracksSkip` | plays/topk.py:46 | a list shorter than i is skipped without changing the records |
| `Access.TracksRoundEnd` | plays/topk.py:54 | after all lists were read at position i, the records are those of round i + 1 |
| `Access.TracksWithin` | plays/topk.py:49 | every list a record names is a list of the database |
| `Fagin.ExhaustiveIsTopK` | plays/topk.py:17-22 | summing every song over every list, sorting and cutting at k gives a top-k answer |
| `Fagin.TopKScores` | plays/topk.py:17-22 | all top-k answers carry the same scores rank by rank |
| `Fagin.TopKPrefix` | plays/topk.py:73-75 | raising k only extends the answer's scores: a top-k answer's scores are the first scores of any top-k' answer with k <= k' |
| `Fagin.RankBound` | plays/topk.py:17-22 | against one top-k answer, the j-th score of another is no higher |
| `Fagin.PrefixOfTotals` | plays/topk.py:73-75 | sorting exact totals and cutting at k keeps exact, distinct, descending totals, and nothing dropped outscores anything kept |
| `Fagin.TouchedInUniverse` | plays/topk.py:44-49 | every touched song occurs in some list |
| `Fagin.AllReached` | plays/topk.py:55 | once i reaches the longest list, every song of every list was touched |
| `Fagin.FullyReached` | plays/topk.py:51-52 | a song seen in every list was met in each of them above position i |
| `Fagin.Dominated` | plays/topk.py:44-56 | with non-negative counts, or one list, an untouched song scores no more than a song seen in every list |
| `Fagin.StopFacts` | plays/topk.py:55-56 | when sorted access stops, either k songs were seen in every list or every song was touched, and untouched songs are dominated |
| `Fagin.AnswerShape` | plays/topk.py:73-75 | the sorted, cut answer has exact distinct descending totals and min(k, number of songs) entries for k >= 0 |
| `Fagin.AnswerSize` | plays/topk.py:55-75 | cutting the touched songs at k gives as many as cutting all songs would |
| `Fagin.Pigeonhole` | plays/topk.py:55 | k fully seen songs cannot all sit among the first k - 1 entries |
| `Fagin.AnswerIsTopK` | plays/topk.py:55-75 | when untouched songs are dominated, the answer is a top-k answer |
| `Fagin.Outscored` | plays/topk.py:55-75 | an untouched song scores no more than any kept entry |
| `TopK.ListEntries` | plays/topk.py:105-107 | the append loop lists every (song, count) pair of a dictionary once |
| `TopK.SortDescEnumerates` | plays/topk.py:108 | the sorted list still lists exactly the dictionary's pairs |
| `TopK.GetSortedLists` | plays/topk.py:99-109 | for every channel, a permutation of its pairs in non-increasing count |
| `TopK.KeyOrder` | plays/topk.py:45 | `sorted_lists.items()` visits every list once |
| `TopK.ReadRound` | plays/topk.py:45-52 | one round keeps the records exact and `common_items` equal to the number of songs seen in every list |
| `TopK.SortedAccess` | plays/topk.py:38-56 | at least one round runs, at most max(1, longest length); on exit k songs are seen in every list or the longest list is exhausted; k <= 0 stops after one round |
| `TopK.LookUpMissing` | plays/topk.py:65-69 | adding the counts of the unvisited lists to the sorted-access score gives the song's total over all lists |
| `TopK.RandomAccess` | plays/topk.py:58-69 | afterwards every touched song's score is its exact total; records of fully seen songs are untouched |
| `TopK.Fa` | plays/topk.py:17-75 | failure exactly on an empty database; otherwise exact distinct descending totals, min(k, songs) of them for k >= 0, none for k = 0, a top-k answer with non-negative counts or one list, and the exhaustive scores with non-negative counts |
| `Api.LastAtSnoc` | plays/api.py:181-197 | a later key overwrites an earlier one in a dictionary built by enumeration |
| `Api.LastAtUnique` | plays/api.py:181-190 | a last position belongs to one song, and a song has one last position |
| `Api.CurrentIndex` | plays/api.py:181-190 | `current_top_dict` has one entry per song of the ranking, at its last position, with its plays, title and performer, no previous rank and 0 previous plays |
| `Api.PastIndex` | plays/api.py:192-197 | `past_top_dict` has one entry per song of the previous ranking, at its last position, with its plays |
| `Api.ApplyPrevious` | plays/api.py:200-203 | songs in both dictionaries get the previous rank and plays; all other entries are unchanged; no entry is added |
| `Api.Values` | plays/api.py:206 | `values()` lists each entry once, in some order |
| `Api.CountTwo` | plays/api.py:206 | an element at two positions occurs at least twice |
| `Api.CountOne` | plays/api.py:206 | in a sequence without repeats each element occurs at most once |
| `Api.SortedRanksStrict` | plays/api.py:206 | sorting rows with pairwise different ranks by rank gives strictly increasing ranks |
| `Api.RankAtLeast` | plays/api.py:206 | the i-th of strictly increasing ranks is at least i |
| `Api.RankAtMost` | plays/api.py:206 | with all ranks below n, the i-th leaves room for the ones after it |
| `Api.RanksAreIndices` | plays/api.py:181-206 | n strictly increasing ranks below n are exactly 0 to n - 1 |
| `Api.MergedEntries` | plays/api.py:181-203 | every merged entry describes its own song, at its current rank and plays, with previous data exactly when the song was ranked before |
| `Api.DistinctRanks` | plays/api.py:181-190 | entries of different songs have different ranks |
| `Api.RowsOfValues` | plays/api.py:206 | the sorted rows are merged rows |
| `Api.RanksOfDistinct` | plays/api.py:181-206 | for a ranking without repeats, the rows are ranked 0 to n - 1 |
| `Api.RankMerge` | plays/api.py:181-206 | one row per song of the current ranking, in strictly increasing rank, each a merged row; for a ranking without repeats row i has rank i |
| `Api.MergedEntriesAreCurrent` | plays/api.py:181-190 | row i restates the current ranking's i-th (song, plays) |
| `Api.GetTop` | plays/api.py:165-206 | fails exactly when either window has no plays; otherwise row i has rank i and is a song of the current window with its exact plays; with non-negative counts or one channel the rows form a top-k answer; a previous rank is the song's index in the previous ranking, which is sorted with exact totals of songs of that window, and the previous plays are the song's exact total there; otherwise the previous plays are 0 |

## Left out

- Flask routing, request parsing and `jsonify`. The other routes of `plays/api.py` are not part of this model.
- The request defaults of `plays/schemas.py`, which set end = start + 7 days and limit = 40. `GetTop` takes the window and the limit as given.
- `PlayByChannel.get_song_counts` (`plays/models.py`) is the `query` parameter of `GetTop`. Its Cassandra futures, JSON key decoding and per-channel concurrency are left out. A channel without plays is omitted from the map, so the map may be empty.
- Datetimes are integers (seconds), and the seven-day shift is the constant `WeekShift`.
- The stubs `ta`, `bpa` and `bpa2` only raise `NotImplementedError`.
- `TopK.LookUpMissing`: accumulates the looked-up counts in a local and writes the record once. The code adds to the record list by list; the resulting score is the same.
- `TopK.Fa`: for a single list the answer is proved to be a top-k answer of that list. It is not proved to equal the first min(k, n) entries of the sorted list literally, because the model does not track the order in which sorted access first meets the songs.
- `TopK.Fa`: the top-k theorems are stated for non-negative counts or a single list. With negative counts the answer is still exact, distinct and sorted, but need not be the true top k.
- `Fagin.TopKScores`: states that the scores agree. Which of several songs tied at the cut is kept depends on iteration order and is not pinned.
- Python 2 dictionary iteration order is not modelled. Each iteration picks an arbitrary order; only the first-seen order of touched songs is fixed.
