/**
 * The seeder: the initial population, drawn as random closed tours until the
 * wanted number of distinct ones has been collected.
 *
 * The shuffles are an input stream: shuffles(k) is the k-th shuffle of the
 * city list 0..n-1. The source repeats until its set is large enough, which
 * never happens if fewer distinct tours exist than are wanted; the model
 * covers the runs that return, those whose stream yields enough distinct
 * tours in some finite prefix.
 */
module Seeder {
  import opened Collections
  import opened Tours

  /** The distinct tours that the first k shuffles close into. */
  ghost function Seeds(shuffles: nat -> seq<int>, n: nat, k: nat): set<seq<int>>
    requires n >= 1 && forall i :: IsPermutation(shuffles(i), n)
  {
    set i: nat | i < k && IsPermutation(shuffles(i), n) :: Close(shuffles(i))
  }

  /**
   * The source's getRandomPermutations: shuffle the cities, close the tour
   * by repeating its first city, and add it to a set, until the set holds
   * population tours.
   */
  method GetRandomPermutations(n: nat, population: nat, shuffles: nat -> seq<int>)
    returns (permutations: set<seq<int>>)
    requires forall i :: IsPermutation(shuffles(i), n)
    requires population > 0 ==> n >= 1 && exists k :: population <= |Seeds(shuffles, n, k)|
    ensures |permutations| == population
    ensures forall r :: r in permutations ==> IsTour(r, n)
    ensures population > 0 ==> exists k :: permutations == Seeds(shuffles, n, k)
  {
    permutations := {};
    var drawn := 0;
    ghost var enough: nat := 0;
    if population > 0 {
      enough :| population <= |Seeds(shuffles, n, enough)|;
      assert Seeds(shuffles, n, 0) == {};
    }
    while |permutations| < population
      invariant population > 0 ==> permutations == Seeds(shuffles, n, drawn)
      invariant |permutations| <= population && drawn <= enough
      invariant forall r :: r in permutations ==> IsTour(r, n)
      decreases enough - drawn
    {
      assert drawn < enough;
      var toShuffle := shuffles(drawn);
      toShuffle := toShuffle + [toShuffle[0]];
      CloseIsTour(shuffles(drawn), n);
      SeedsStep(shuffles, n, drawn);
      UnionCard(permutations, {toShuffle});
      permutations := permutations + {toShuffle};
      drawn := drawn + 1;
    }
  }

  /** One more shuffle adds its closed tour to the seeds. */
  lemma SeedsStep(shuffles: nat -> seq<int>, n: nat, k: nat)
    requires n >= 1 && forall i :: IsPermutation(shuffles(i), n)
    ensures Seeds(shuffles, n, k + 1) == Seeds(shuffles, n, k) + {Close(shuffles(k))}
  {
  }
}
