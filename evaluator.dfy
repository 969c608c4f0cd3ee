/**
 * The evaluator: the total travel cost of a route under a distance matrix.
 *
 * The matrix is an n-by-n table of integers, matrix[i][j] being the cost of
 * travelling from city i to city j. Costs are unbounded integers here; the
 * source sums 32-bit ints.
 */
module Evaluator {
  import opened Tours

  /** m is an n-by-n table. */
  ghost predicate IsMatrix(m: seq<seq<int>>, n: nat)
  {
    |m| == n && forall i :: 0 <= i < n ==> |m[i]| == n
  }

  /** No travel cost in m is negative. */
  ghost predicate NonNegative(m: seq<seq<int>>)
  {
    forall i, j :: 0 <= i < |m| && 0 <= j < |m[i]| ==> m[i][j] >= 0
  }

  /**
   * The sum of m[r[i]][r[i+1]] over the consecutive pairs of r, built up
   * edge by edge from the start of the route.
   */
  ghost function RouteDistance(m: seq<seq<int>>, r: seq<int>): int
    requires IsMatrix(m, |m|) && OnCities(r, |m|)
    decreases |r|
  {
    if |r| <= 1 then 0
    else RouteDistance(m, r[..|r| - 1]) + m[r[|r| - 2]][r[|r| - 1]]
  }

  /** With non-negative costs, every route costs at least nothing. */
  lemma {:induction false} DistanceNonNegative(m: seq<seq<int>>, r: seq<int>)
    requires IsMatrix(m, |m|) && OnCities(r, |m|) && NonNegative(m)
    ensures RouteDistance(m, r) >= 0
    decreases |r|
  {
    if |r| > 1 {
      DistanceNonNegative(m, r[..|r| - 1]);
    }
  }

  /**
   * The cost of a route split in two is the cost of each part plus the edge
   * joining them; in particular the cost is the sum of its edges whichever
   * end it is summed from.
   */
  lemma {:induction false} DistanceAppend(m: seq<seq<int>>, a: seq<int>, b: seq<int>)
    requires IsMatrix(m, |m|) && OnCities(a, |m|) && OnCities(b, |m|)
    requires |a| >= 1 && |b| >= 1
    ensures OnCities(a + b, |m|)
    ensures RouteDistance(m, a + b)
         == RouteDistance(m, a) + m[a[|a| - 1]][b[0]] + RouteDistance(m, b)
    decreases |b|
  {
    var ab := a + b;
    if |b| == 1 {
      assert ab[..|ab| - 1] == a;
    } else {
      var b' := b[..|b| - 1];
      DistanceAppend(m, a, b');
      assert ab[..|ab| - 1] == a + b';
    }
  }

  /**
   * The source's accumulator loop: it adds the cost of each edge
   * r[i] -> r[i+1] in turn, for i from 0 to |r| - 2.
   */
  method CalculateRouteDistance(m: seq<seq<int>>, route: seq<int>) returns (distance: int)
    requires IsMatrix(m, |m|) && OnCities(route, |m|)
    ensures distance == RouteDistance(m, route)
    ensures |route| <= 1 ==> distance == 0
  {
    distance := 0;
    var i := 0;
    while i < |route| - 1
      invariant i == 0 || i < |route|
      invariant distance == RouteDistance(m, route[..if |route| == 0 then 0 else i + 1])
    {
      assert route[..i + 2][..i + 1] == route[..i + 1];
      distance := distance + m[route[i]][route[i + 1]];
      i := i + 1;
    }
    assert route[..if |route| == 0 then 0 else i + 1] == route;
  }
}
