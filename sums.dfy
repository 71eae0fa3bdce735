/**
 * Aggregate scores: the sum of an item's scores over a set of lists. A list
 * that does not contain the item contributes nothing, as in the random-access
 * phase of Fagin's algorithm. Sums are taken over sets of list identifiers,
 * so they do not depend on the order in which lists are visited.
 */
module Sums {
  import opened Plays

  /** Per-channel play counts: list identifier to (item to score). */
  type Db = map<ListId, map<Item, int>>

  /** What list l contributes to x's total. */
  function Contribution(m: Db, l: ListId, x: Item): int
  {
    if l in m && x in m[l] then m[l][x] else 0
  }

  /** The sum of x's contributions over the lists of T. */
  ghost function SetSum(m: Db, T: set<ListId>, x: Item): int
    decreases T
  {
    if T == {} then 0
    else
      var l :| l in T;
      Contribution(m, l, x) + SetSum(m, T - {l}, x)
  }

  /** x's true aggregate score: the sum over every list of m. */
  ghost function Total(m: Db, x: Item): int
  {
    SetSum(m, m.Keys, x)
  }

  /** The sum can be split at any list of T, whichever one the definition picks. */
  lemma {:induction false} SetSumRemove(m: Db, T: set<ListId>, x: Item, l: ListId)
    requires l in T
    ensures SetSum(m, T, x) == Contribution(m, l, x) + SetSum(m, T - {l}, x)
    decreases T
  {
    var l' :| l' in T && SetSum(m, T, x) == Contribution(m, l', x) + SetSum(m, T - {l'}, x);
    if l' != l {
      SetSumRemove(m, T - {l'}, x, l);
      SetSumRemove(m, T - {l}, x, l');
      assert T - {l'} - {l} == T - {l} - {l'};
    }
  }

  /** Adding one more list to T adds that list's contribution. */
  lemma SetSumAdd(m: Db, T: set<ListId>, x: Item, l: ListId)
    requires l !in T
    ensures SetSum(m, T + {l}, x) == SetSum(m, T, x) + Contribution(m, l, x)
  {
    SetSumRemove(m, T + {l}, x, l);
    assert T + {l} - {l} == T;
  }

  /** Sums are monotone when every list contributes no more for x than for z. */
  lemma {:induction false} SetSumMonotone(m: Db, T: set<ListId>, x: Item, z: Item)
    requires forall l :: l in T ==> Contribution(m, l, x) <= Contribution(m, l, z)
    ensures SetSum(m, T, x) <= SetSum(m, T, z)
    decreases T
  {
    if T != {} {
      var l :| l in T;
      SetSumRemove(m, T, x, l);
      SetSumRemove(m, T, z, l);
      SetSumMonotone(m, T - {l}, x, z);
    }
  }
}
