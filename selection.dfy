/**
 * Elitist truncation: the population map, from tour to distance, is sorted by
 * distance and cut back to a fixed number of entries, keeping the shortest.
 * Ties between equal distances may fall either way.
 */
module Selection {
  import opened Collections

  function Min(a: int, b: int): int
  {
    if a < b then a else b
  }

  function Max(a: int, b: int): int
  {
    if a < b then b else a
  }

  /** order lists every route of m once, by non-decreasing distance. */
  ghost predicate SortedByDistance(order: seq<seq<int>>, m: map<seq<int>, int>)
  {
    && Distinct(order)
    && Elems(order) == m.Keys
    && (forall i :: 0 <= i < |order| ==> order[i] in m)
    && forall i, j :: 0 <= i < j < |order| ==> m[order[i]] <= m[order[j]]
  }

  /**
   * after is before cut back to keep entries by distance: a sub-map of before
   * with the same distances, of size min(|before|, keep), where no route that
   * was dropped is shorter than any route that was kept.
   */
  ghost predicate ElitistShrink(before: map<seq<int>, int>, after: map<seq<int>, int>, keep: nat)
  {
    && after.Keys <= before.Keys
    && (forall r :: r in after ==> after[r] == before[r])
    && |after| == Min(|before|, keep)
    && forall r, s :: r in after && s in before && s !in after ==> before[r] <= before[s]
  }

  /** Every non-empty set of routes has one of least distance. */
  lemma {:induction false} LeastExists(m: map<seq<int>, int>, s: set<seq<int>>) returns (r: seq<int>)
    requires s != {} && s <= m.Keys
    ensures r in s && forall q :: q in s ==> m[r] <= m[q]
    decreases s
  {
    var x :| x in s;
    if s == {x} {
      r := x;
    } else {
      var r' := LeastExists(m, s - {x});
      r := if m[x] <= m[r'] then x else r';
    }
  }

  /**
   * The source's sort of the map's entries by distance: repeatedly take a
   * route of least distance among those not yet listed.
   */
  method SortByDistance(m: map<seq<int>, int>) returns (order: seq<seq<int>>)
    ensures SortedByDistance(order, m)
  {
    order := [];
    var rest := m.Keys;
    while rest != {}
      invariant Distinct(order) && Elems(order) !! rest && Elems(order) + rest == m.Keys
      invariant forall i :: 0 <= i < |order| ==> order[i] in m
      invariant forall i, j :: 0 <= i < j < |order| ==> m[order[i]] <= m[order[j]]
      invariant forall i, q :: 0 <= i < |order| && q in rest ==> m[order[i]] <= m[q]
      decreases rest
    {
      ghost var least := LeastExists(m, rest);
      var r :| r in rest && forall q :: q in rest ==> m[r] <= m[q];
      assert Elems(order + [r]) == Elems(order) + {r};
      order := order + [r];
      rest := rest - {r};
    }
  }

  /**
   * Dropping every route from rank keep onward of a distance-sorted list is
   * an elitist shrink to keep entries.
   */
  lemma TruncationIsElitist(before: map<seq<int>, int>, order: seq<seq<int>>, keep: nat)
    requires SortedByDistance(order, before)
    ensures ElitistShrink(before, before - Elems(order[Min(keep, |order|)..]), keep)
  {
    var k := Min(keep, |order|);
    TruncationSize(before, order, k);
    TruncationOrder(before, order, k);
  }

  /** No route dropped from rank k onward is shorter than a route kept. */
  lemma TruncationOrder(before: map<seq<int>, int>, order: seq<seq<int>>, k: nat)
    requires SortedByDistance(order, before) && k <= |order|
    ensures forall r, s ::
      r in before - Elems(order[k..]) && s in before && s !in before - Elems(order[k..]) ==> before[r] <= before[s]
  {
    var after := before - Elems(order[k..]);
    DistinctSplit(order, k);
    forall r, s | r in after && s in before && s !in after
      ensures before[r] <= before[s]
    {
      var a :| 0 <= a < k && order[..k][a] == r;
      var b :| 0 <= b < |order| - k && order[k..][b] == s;
      assert order[a] == r && order[k + b] == s;
    }
  }

  /** Dropping the routes from rank k onward leaves k routes. */
  lemma TruncationSize(before: map<seq<int>, int>, order: seq<seq<int>>, k: nat)
    requires SortedByDistance(order, before) && k <= |order|
    ensures |before - Elems(order[k..])| == k
  {
    var after := before - Elems(order[k..]);
    DistinctSplit(order, k);
    DistinctCard(order);
    DistinctCard(order[k..]);
    DifferenceCard(before.Keys, Elems(order[k..]));
    assert after.Keys == before.Keys - Elems(order[k..]);
  }

  /** A non-empty map has a route of least distance. */
  lemma LeastIn(m: map<seq<int>, int>)
    requires |m| > 0
    ensures exists r :: r in m && forall q :: q in m ==> m[r] <= m[q]
  {
    assert m.Keys != {};
    var r := LeastExists(m, m.Keys);
  }

  /** The least distance among the routes of a non-empty map. */
  ghost function Best(m: map<seq<int>, int>): int
    requires |m| > 0
  {
    LeastIn(m);
    var r :| r in m && forall q :: q in m ==> m[r] <= m[q];
    m[r]
  }

  /** When before holds a route, after holds one too, and its best distance is no worse. */
  ghost predicate NoWorse(before: map<seq<int>, int>, after: map<seq<int>, int>)
  {
    |before| > 0 ==> |after| > 0 && Best(after) <= Best(before)
  }

  /** Best is the distance of some route and no route is shorter. */
  lemma BestFacts(m: map<seq<int>, int>)
    requires |m| > 0
    ensures exists r :: r in m && m[r] == Best(m)
    ensures forall r :: r in m ==> Best(m) <= m[r]
  {
  }

  /**
   * An elitist shrink that keeps at least one route never loses the best
   * distance: if the best route is dropped, any kept one is as short.
   */
  lemma ShrinkKeepsBest(before: map<seq<int>, int>, after: map<seq<int>, int>, keep: nat)
    requires ElitistShrink(before, after, keep) && keep >= 1 && |before| > 0
    ensures |after| > 0 && Best(after) <= Best(before)
  {
    BestFacts(before);
    var b :| b in before && before[b] == Best(before);
    assert |after| > 0;
    BestFacts(after);
    if b in after {
      assert Best(after) <= after[b];
    } else {
      var q :| q in after;
      assert Best(after) <= after[q] == before[q] <= before[b];
    }
  }
}
