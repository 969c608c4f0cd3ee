/**
 * Tours: closed travelling-salesman routes over the cities 0..n-1.
 *
 * A route is a list of city indices. A tour over n cities has n + 1 entries:
 * every city exactly once in positions 0..n-1, and the first city repeated in
 * position n to close the loop.
 */
module Tours {
  import opened Collections

  /** The set {0, ..., n-1} of city indices. */
  ghost function Cities(n: nat): (cs: set<int>)
    ensures forall c :: c in cs <==> 0 <= c < n
  {
    if n == 0 then {} else Cities(n - 1) + {n - 1}
  }

  /** Every entry of r is a city index below n. */
  ghost predicate OnCities(r: seq<int>, n: nat)
  {
    forall i :: 0 <= i < |r| ==> 0 <= r[i] < n
  }

  /** s lists each of the cities 0..n-1 exactly once (a shuffle of 0..n-1). */
  ghost predicate IsPermutation(s: seq<int>, n: nat)
  {
    |s| == n && OnCities(s, n) && Distinct(s)
  }

  /**
   * A closed tour over n cities: n + 1 city indices below n, no city twice
   * among the first n, and the last entry repeating the first.
   */
  ghost predicate IsTour(t: seq<int>, n: nat)
  {
    n >= 1 && |t| == n + 1 && t[n] == t[0] && OnCities(t, n) && Distinct(t[..n])
  }

  /** Closes an open route by returning to its first city. */
  function Close(s: seq<int>): (t: seq<int>)
    requires |s| >= 1
    ensures |t| == |s| + 1 && t[..|s|] == s && t[|s|] == t[0]
  {
    s + [s[0]]
  }

  lemma {:induction false} CitiesCard(n: nat)
    ensures |Cities(n)| == n
  {
    if n > 0 {
      CitiesCard(n - 1);
    }
  }

  /** A permutation of 0..n-1 visits every one of the n cities. */
  lemma PermutationCovers(s: seq<int>, n: nat)
    requires IsPermutation(s, n)
    ensures Elems(s) == Cities(n)
  {
    DistinctCard(s);
    CitiesCard(n);
    SubsetSameCard(Elems(s), Cities(n));
  }

  /** A tour visits every city, and nothing but cities. */
  lemma TourCovers(t: seq<int>, n: nat)
    requires IsTour(t, n)
    ensures IsPermutation(t[..n], n)
    ensures Elems(t) == Elems(t[..n]) == Cities(n)
  {
    assert IsPermutation(t[..n], n);
    PermutationCovers(t[..n], n);
    assert t == t[..n] + [t[0]];
  }

  /** Closing a shuffle of the n cities gives a tour. */
  lemma CloseIsTour(s: seq<int>, n: nat)
    requires n >= 1 && IsPermutation(s, n)
    ensures IsTour(Close(s), n)
  {
    assert Close(s)[..n] == s;
  }
}
