/**
 * Mutation: when the mutation draw fires, swap the cities at two distinct
 * interior positions of a child tour, in place. Positions 0 and n, which hold
 * the closing city, are never touched.
 */
module Mutation {
  import opened Collections
  import opened Tours
  import opened Draws

  /** t with the entries at positions i and j exchanged. */
  ghost function Swapped(t: seq<int>, i: nat, j: nat): seq<int>
    requires i < |t| && j < |t|
  {
    t[i := t[j]][j := t[i]]
  }

  /** What mutation makes of a child tour t over n cities under the draw d. */
  ghost function Mutated(t: seq<int>, d: SwapDraw, n: nat): seq<int>
    requires |t| == n + 1 && ValidSwapDraw(d, n)
  {
    if d.fire then Swapped(t, d.firstPoint, FirstOther(d.firstPoint, d.secondPoints)) else t
  }

  /** Exchanging two interior cities of a tour gives a tour again. */
  lemma SwapKeepsTour(t: seq<int>, i: nat, j: nat, n: nat)
    requires IsTour(t, n) && 1 <= i <= n - 1 && 1 <= j <= n - 1
    ensures IsTour(Swapped(t, i, j), n)
  {
    var s := Swapped(t, i, j);
    forall a, b | 0 <= a < b < n
      ensures s[a] != s[b]
    {
      var a' := if a == i then j else if a == j then i else a;
      var b' := if b == i then j else if b == j then i else b;
      assert s[a] == t[a'] && s[b] == t[b'] && a' != b';
    }
    assert s[..n] == t[..n][i := t[j]][j := t[i]];
  }

  /**
   * Mutation keeps a child a tour. When it fires it exchanges exactly two
   * distinct positions in [1, n-1] and leaves every other position, the
   * first and the last included, as it was; when it does not fire the child
   * is unchanged.
   */
  lemma MutationKeepsTour(t: seq<int>, d: SwapDraw, n: nat)
    requires IsTour(t, n) && ValidSwapDraw(d, n)
    ensures IsTour(Mutated(t, d, n), n)
    ensures !d.fire ==> Mutated(t, d, n) == t
    ensures d.fire ==>
      var i, j := d.firstPoint, FirstOther(d.firstPoint, d.secondPoints);
      && i != j && 1 <= i <= n - 1 && 1 <= j <= n - 1
      && Mutated(t, d, n)[i] == t[j] && Mutated(t, d, n)[j] == t[i]
      && forall k :: 0 <= k <= n && k != i && k != j ==> Mutated(t, d, n)[k] == t[k]
  {
    if d.fire {
      var j := FirstOther(d.firstPoint, d.secondPoints);
      var k :| 0 <= k < |d.secondPoints| && d.secondPoints[k] == j;
      SwapKeepsTour(t, d.firstPoint, j, n);
    }
  }

  /**
   * The source's mutate: if the draw fires, draw a first position, redraw a
   * second until it differs, and swap the two cells of the child in place.
   */
  method Mutate(child: array<int>, d: SwapDraw, ghost n: nat)
    requires child.Length == n + 1 && ValidSwapDraw(d, n)
    modifies child
    ensures child[..] == Mutated(old(child[..]), d, n)
  {
    if d.fire {
      var firstPoint := d.firstPoint;
      var secondPoint := RedrawUntilDistinct(firstPoint, d.secondPoints);
      ghost var k :| 0 <= k < |d.secondPoints| && d.secondPoints[k] == secondPoint;
      var tmp := child[firstPoint];
      child[firstPoint] := child[secondPoint];
      child[secondPoint] := tmp;
    }
  }
}
