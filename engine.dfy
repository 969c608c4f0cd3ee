/**
 * The engine: a population of closed tours kept in a map from tour to its
 * distance, seeded at construction and evolved generation by generation.
 *
 * A generation snapshots the map's routes into a breeding pool, and while
 * two or more remain, removes two parents at random, draws two distinct cut
 * points and adds both children of the pair. Adding children inserts the
 * mutated offspring into the map and immediately shrinks the map back to
 * population + 1 entries, keeping the shortest routes.
 */
module Engine {
  import opened Collections
  import opened Tours
  import opened Evaluator
  import opened Draws
  import opened Crossover
  import opened Mutation
  import opened Selection
  import opened Seeder

  /** Every route of routes is a tour over the n cities of matrix, mapped to its distance. */
  ghost predicate Evaluated(routes: map<seq<int>, int>, matrix: seq<seq<int>>, n: nat)
  {
    && IsMatrix(matrix, n)
    && forall r :: r in routes ==> IsTour(r, n) && routes[r] == RouteDistance(matrix, r)
  }

  /**
   * One child of a pair: crossed over from own and other at cut points
   * lo..hi, then mutated under the draw d. It is a tour again.
   */
  ghost function Offspring(own: seq<int>, other: seq<int>, lo: nat, hi: nat, d: SwapDraw, n: nat): (c: seq<int>)
    requires IsTour(own, n) && IsTour(other, n) && 1 <= lo < hi <= n - 1 && ValidSwapDraw(d, n)
    ensures IsTour(c, n)
  {
    ChildIsTour(own, other, lo, hi, n);
    MutationKeepsTour(ChildSpec(own, other, lo, hi, n), d, n);
    Mutated(ChildSpec(own, other, lo, hi, n), d, n)
  }

  /**
   * What breeding a pair needs: two parent tours over n cities, two
   * distinct cut points in [1, n-1], and a mutation draw for each child.
   */
  ghost predicate PairFits(p1: seq<int>, p2: seq<int>, firstPoint: int, secondPoint: int,
                           m1: SwapDraw, m2: SwapDraw, n: nat)
  {
    && IsTour(p1, n) && IsTour(p2, n)
    && 1 <= firstPoint <= n - 1 && 1 <= secondPoint <= n - 1 && firstPoint != secondPoint
    && ValidSwapDraw(m1, n) && ValidSwapDraw(m2, n)
  }

  /**
   * The map once both children of the pair p1, p2 are put in, before the
   * shrink, the cut points taken in increasing order. It keeps every old
   * route, grows by at most two, and when the old map held true distances so
   * does the new one, with the old routes' values unchanged.
   */
  ghost function Bred(routes: map<seq<int>, int>, matrix: seq<seq<int>>, p1: seq<int>, p2: seq<int>,
                      firstPoint: int, secondPoint: int, m1: SwapDraw, m2: SwapDraw): (grown: map<seq<int>, int>)
    requires IsMatrix(matrix, |matrix|) && PairFits(p1, p2, firstPoint, secondPoint, m1, m2, |matrix|)
    ensures routes.Keys <= grown.Keys && |grown| <= |routes| + 2
    ensures Evaluated(routes, matrix, |matrix|) ==>
      Evaluated(grown, matrix, |matrix|) && forall r :: r in routes ==> grown[r] == routes[r]
  {
    var n := |matrix|;
    var lo, hi := Min(firstPoint, secondPoint), Max(firstPoint, secondPoint);
    var once := Put(routes, matrix, Offspring(p1, p2, lo, hi, m1, n));
    Put(once, matrix, Offspring(p2, p1, lo, hi, m2, n))
  }

  /**
   * The map's put of a tour with its distance: it keeps every old route,
   * grows by at most one, and keeps the map evaluated, with the old routes'
   * values unchanged when they were true distances.
   */
  ghost function Put(routes: map<seq<int>, int>, matrix: seq<seq<int>>, c: seq<int>): (grown: map<seq<int>, int>)
    requires IsMatrix(matrix, |matrix|) && IsTour(c, |matrix|)
    ensures routes.Keys <= grown.Keys && |grown| <= |routes| + 1 && c in grown
    ensures Evaluated(routes, matrix, |matrix|) ==>
      Evaluated(grown, matrix, |matrix|) && forall r :: r in routes ==> grown[r] == routes[r]
  {
    routes[c := RouteDistance(matrix, c)]
  }

  /** Removing the routes of ranks k..i and then the one of rank i is removing ranks k..i+1. */
  lemma RemoveNext(before: map<seq<int>, int>, order: seq<seq<int>>, k: nat, i: nat)
    requires k <= i < |order|
    ensures before - Elems(order[k..i + 1]) == (before - Elems(order[k..i])) - {order[i]}
  {
    assert order[k..i + 1] == order[k..i] + [order[i]];
    assert Elems(order[k..i + 1]) == Elems(order[k..i]) + {order[i]};
  }

  /**
   * Growing an evaluated map by new evaluated routes and then shrinking it
   * elitistly to keep >= 1 routes leaves it evaluated, of at most keep
   * routes, and with a best distance no worse than before the growth.
   */
  lemma GrowThenShrink(before: map<seq<int>, int>, grown: map<seq<int>, int>, after: map<seq<int>, int>,
                       matrix: seq<seq<int>>, keep: nat)
    requires Evaluated(grown, matrix, |matrix|) && ElitistShrink(grown, after, keep) && keep >= 1
    requires before.Keys <= grown.Keys && forall r :: r in before ==> grown[r] == before[r]
    ensures Evaluated(after, matrix, |matrix|) && |after| <= keep
    ensures NoWorse(before, after)
  {
    if |before| > 0 {
      BestFacts(before);
      var b :| b in before && before[b] == Best(before);
      assert b in grown;
      BestFacts(grown);
      ShrinkKeepsBest(grown, after, keep);
    }
  }

  /** A repetition-free list without the entry at position i keeps the rest, each once. */
  lemma RemoveAtFacts(s: seq<seq<int>>, i: nat)
    requires i < |s|
    ensures Distinct(s) ==> Distinct(s[..i] + s[i + 1..]) && Elems(s[..i] + s[i + 1..]) == Elems(s) - {s[i]}
  {
    var r := s[..i] + s[i + 1..];
    assert forall k :: 0 <= k < |r| ==> r[k] == s[if k < i then k else k + 1];
    if Distinct(s) {
      forall x | x in Elems(s) - {s[i]}
        ensures x in Elems(r)
      {
        var k :| 0 <= k < |s| && s[k] == x;
        assert r[if k < i then k else k - 1] == x;
      }
    }
  }

  /**
   * The list's remove(int): s without its entry at position i. On a
   * repetition-free list it leaves every other entry, each once.
   */
  function RemoveAt(s: seq<seq<int>>, i: nat): (r: seq<seq<int>>)
    requires i < |s|
    ensures |r| == |s| - 1
    ensures Distinct(s) ==> Distinct(r) && Elems(r) == Elems(s) - {s[i]}
  {
    RemoveAtFacts(s, i);
    s[..i] + s[i + 1..]
  }

  /**
   * The list's remove(Object): s without the first occurrence of x, or s
   * itself when x does not occur.
   */
  function RemoveFirst(s: seq<seq<int>>, x: seq<int>): (r: seq<seq<int>>)
    ensures x !in s ==> r == s
    ensures x in s ==> |r| == |s| - 1 && multiset(r) == multiset(s) - multiset{x}
    decreases |s|
  {
    if s == [] then []
    else if s[0] == x then
      assert s == [s[0]] + s[1..];
      s[1..]
    else
      assert s == [s[0]] + s[1..];
      [s[0]] + RemoveFirst(s[1..], x)
  }

  /** The map's keys listed once each, in an order left open (the hash order of the source). */
  method KeyList(m: map<seq<int>, int>) returns (keys: seq<seq<int>>)
    ensures Distinct(keys) && Elems(keys) == m.Keys && |keys| == |m|
  {
    keys := [];
    var rest := m.Keys;
    while rest != {}
      invariant Distinct(keys) && Elems(keys) !! rest && Elems(keys) + rest == m.Keys
      decreases rest
    {
      var r :| r in rest;
      assert Elems([r]) == {r};
      DistinctConcat(keys, [r]);
      keys := keys + [r];
      rest := rest - {r};
    }
    DistinctCard(keys);
  }

  /**
   * The collection of a set of tours into a map from each tour to the
   * distance the evaluator computes for it.
   */
  method CollectDistances(matrix: seq<seq<int>>, tours: set<seq<int>>) returns (routes: map<seq<int>, int>)
    requires IsMatrix(matrix, |matrix|) && forall r :: r in tours ==> IsTour(r, |matrix|)
    ensures routes.Keys == tours && Evaluated(routes, matrix, |matrix|)
  {
    routes := map[];
    var rest := tours;
    while rest != {}
      invariant rest <= tours && routes.Keys == tours - rest
      invariant Evaluated(routes, matrix, |matrix|)
      decreases rest
    {
      var route :| route in rest;
      var distance := CalculateRouteDistance(matrix, route);
      routes := routes[route := distance];
      rest := rest - {route};
    }
  }

  /**
   * How a generation takes a pair out of its pool under the draw d: the
   * first parent sits at the first drawn index reduced to the pool's size,
   * the second at the second drawn index reduced to the size of what is
   * left, and the pool goes on without both, in its old order.
   */
  function FirstPick(pool: seq<seq<int>>, d: PairDraw): (p: seq<int>)
    requires |pool| >= 2
    ensures p in pool
  {
    pool[d.firstParent % |pool|]
  }

  function SecondPick(pool: seq<seq<int>>, d: PairDraw): (p: seq<int>)
    requires |pool| >= 2
    ensures Distinct(pool) ==> p in pool && p != FirstPick(pool, d)
  {
    var left := RemoveAt(pool, d.firstParent % |pool|);
    assert Distinct(pool) ==> left[d.secondParent % |left|] in Elems(left);
    left[d.secondParent % |left|]
  }

  function PoolAfter(pool: seq<seq<int>>, d: PairDraw): (rest: seq<seq<int>>)
    requires |pool| >= 2
    ensures |rest| == |pool| - 2
    ensures Distinct(pool) ==>
      Distinct(rest) && Elems(rest) == Elems(pool) - {FirstPick(pool, d), SecondPick(pool, d)}
  {
    var left := RemoveAt(pool, d.firstParent % |pool|);
    RemoveAt(left, d.secondParent % |left|)
  }

  /**
   * What adding the children of p1 and p2 under the draw d makes of the map
   * before: the cut points are the draw's first point and the first of its
   * redraws that differs, and after is the elitist shrink to keep routes of
   * the map grown by both children.
   */
  ghost predicate ChildrenAdded(before: map<seq<int>, int>, after: map<seq<int>, int>, matrix: seq<seq<int>>,
                                keep: nat, p1: seq<int>, p2: seq<int>, d: PairDraw)
  {
    && IsMatrix(matrix, |matrix|) && IsTour(p1, |matrix|) && IsTour(p2, |matrix|)
    && ValidPairDraw(d, |matrix|)
    && (FirstOtherInterior(d.firstPoint, d.secondPoints, |matrix|);
        ElitistShrink(
          Bred(before, matrix, p1, p2, d.firstPoint, FirstOther(d.firstPoint, d.secondPoints),
               d.firstMutation, d.secondMutation),
          after, keep))
  }

  /** The redrawn point is, like every draw, in [1, n-1]. */
  lemma FirstOtherInterior(first: int, seconds: seq<int>, n: nat)
    requires InteriorDraws(first, seconds, n)
    ensures 1 <= FirstOther(first, seconds) <= n - 1
  {
    var r := FirstOther(first, seconds);
    var k :| 0 <= k < |seconds| && seconds[k] == r;
  }

  /**
   * One pair bred within a generation: the pair is picked out of pool by the
   * draw d, pool' is what is left of the pool, and m' is the map m once the
   * pair's children are added.
   */
  ghost predicate PairBred(pool: seq<seq<int>>, pool': seq<seq<int>>, m: map<seq<int>, int>,
                           m': map<seq<int>, int>, d: PairDraw, matrix: seq<seq<int>>, keep: nat)
  {
    && |pool| >= 2 && pool' == PoolAfter(pool, d)
    && ChildrenAdded(m, m', matrix, keep, FirstPick(pool, d), SecondPick(pool, d), d)
  }

  /**
   * A relation between a pool and what is left of it, the map before and
   * after, and the draw, that one bred pair may satisfy.
   */
  type BreedStep = (seq<seq<int>>, seq<seq<int>>, map<seq<int>, int>, map<seq<int>, int>, PairDraw) -> bool

  /** The breeding step of the engine on matrix, keeping keep routes: PairBred. */
  ghost function Breeding(matrix: seq<seq<int>>, keep: nat): BreedStep
  {
    (pool, pool', m, m', d) => PairBred(pool, pool', m, m', d, matrix, keep)
  }

  /** Every pair bred on matrix, keeping keep routes, is a step of step. */
  ghost predicate Covers(step: BreedStep, matrix: seq<seq<int>>, keep: nat)
  {
    forall pool, pool', m, m', d {:trigger PairBred(pool, pool', m, m', d, matrix, keep)} ::
      PairBred(pool, pool', m, m', d, matrix, keep) ==> step(pool, pool', m, m', d)
  }

  /** The engine's own breeding step covers itself. */
  lemma BreedingCovers(matrix: seq<seq<int>>, keep: nat)
    ensures Covers(Breeding(matrix, keep), matrix, keep)
  {
  }

  /**
   * The trace of a generation so far: pools[j] is the breeding pool and
   * maps[j] the map before the j-th pair, which is bred by step under the
   * draw draws(cursor + j).
   */
  ghost predicate PairTrace(pools: seq<seq<seq<int>>>, maps: seq<map<seq<int>, int>>, cursor: nat,
                            draws: nat -> PairDraw, step: BreedStep)
  {
    && |pools| == |maps| >= 1
    && forall j :: 0 <= j < |maps| - 1 ==> step(pools[j], pools[j + 1], maps[j], maps[j + 1], draws(cursor + j))
  }

  /** One more pair, bred from the last pool and map of the trace, at its end. */
  lemma PairTraceExtend(pools: seq<seq<seq<int>>>, maps: seq<map<seq<int>, int>>, cursor: nat,
                        draws: nat -> PairDraw, step: BreedStep,
                        pool: seq<seq<int>>, pool': seq<seq<int>>, m: map<seq<int>, int>, m': map<seq<int>, int>,
                        next: nat)
    requires PairTrace(pools, maps, cursor, draws, step)
    requires pools[|pools| - 1] == pool && maps[|maps| - 1] == m && next == cursor + |maps| - 1
    requires step(pool, pool', m, m', draws(next))
    ensures PairTrace(pools + [pool'], maps + [m'], cursor, draws, step)
  {
    var pools2, maps2 := pools + [pool'], maps + [m'];
    forall j | 0 <= j < |maps2| - 1
      ensures step(pools2[j], pools2[j + 1], maps2[j], maps2[j + 1], draws(cursor + j))
    {
      if j < |maps| - 1 {
        assert pools2[j] == pools[j] && pools2[j + 1] == pools[j + 1];
        assert maps2[j] == maps[j] && maps2[j + 1] == maps[j + 1];
      }
    }
  }

  /**
   * A whole generation from m to m', its pairs drawn from draws(cursor) on,
   * as traced by pools and maps: the first pool lists m's routes once each,
   * |m| / 2 pairs are bred one after the other, at most one route is left
   * unpaired, and the last map is m'.
   */
  ghost predicate GenerationTrace(m: map<seq<int>, int>, m': map<seq<int>, int>,
                                  pools: seq<seq<seq<int>>>, maps: seq<map<seq<int>, int>>, cursor: nat,
                                  draws: nat -> PairDraw, step: BreedStep)
  {
    && PairTrace(pools, maps, cursor, draws, step)
    && Distinct(pools[0]) && Elems(pools[0]) == m.Keys
    && maps[0] == m && maps[|maps| - 1] == m'
    && |maps| == |m| / 2 + 1 && |pools[|pools| - 1]| <= 1
  }

  /** m' is where one generation from m, drawing from draws(cursor) on, can lead. */
  ghost predicate Generated(m: map<seq<int>, int>, m': map<seq<int>, int>, cursor: nat,
                            draws: nat -> PairDraw, step: BreedStep)
  {
    exists pools, maps :: GenerationTrace(m, m', pools, maps, cursor, draws, step)
  }

  /**
   * The trace of a run of generations: gens[g] is the map before the g-th
   * generation, which starts on the draw draws(cursors[g]) and consumes one
   * draw per pair.
   */
  ghost predicate GenerationsTrace(gens: seq<map<seq<int>, int>>, cursors: seq<nat>,
                                   draws: nat -> PairDraw, step: BreedStep)
  {
    && |gens| == |cursors| >= 1
    && forall g :: 0 <= g < |gens| - 1 ==>
         && cursors[g + 1] == cursors[g] + |gens[g]| / 2
         && Generated(gens[g], gens[g + 1], cursors[g], draws, step)
  }

  /** One more generation at the end of a run's trace. */
  lemma GenerationsTraceExtend(gens: seq<map<seq<int>, int>>, cursors: seq<nat>,
                               draws: nat -> PairDraw, step: BreedStep, m': map<seq<int>, int>, next: nat)
    requires GenerationsTrace(gens, cursors, draws, step)
    requires next == cursors[|cursors| - 1] + |gens[|gens| - 1]| / 2
    requires Generated(gens[|gens| - 1], m', cursors[|cursors| - 1], draws, step)
    ensures GenerationsTrace(gens + [m'], cursors + [next], draws, step)
  {
    var gens2, cursors2 := gens + [m'], cursors + [next];
    forall g | 0 <= g < |gens2| - 1
      ensures cursors2[g + 1] == cursors2[g] + |gens2[g]| / 2
      ensures Generated(gens2[g], gens2[g + 1], cursors2[g], draws, step)
    {
      if g < |gens| - 1 {
        assert gens2[g] == gens[g] && gens2[g + 1] == gens[g + 1];
        assert cursors2[g] == cursors[g] && cursors2[g + 1] == cursors[g + 1];
      }
    }
  }

  /**
   * One bred pair keeps an evaluated map evaluated, within keep routes, and
   * no worse in best distance: the children only add routes, and the
   * elitist shrink keeps at least one of the shortest.
   */
  lemma PairNoWorse(pool: seq<seq<int>>, pool': seq<seq<int>>, m: map<seq<int>, int>, m': map<seq<int>, int>,
                    d: PairDraw, matrix: seq<seq<int>>, keep: nat)
    requires PairBred(pool, pool', m, m', d, matrix, keep) && Evaluated(m, matrix, |matrix|) && keep >= 1
    ensures Evaluated(m', matrix, |matrix|) && |m'| <= keep && NoWorse(m, m')
  {
    FirstOtherInterior(d.firstPoint, d.secondPoints, |matrix|);
    var grown := Bred(m, matrix, FirstPick(pool, d), SecondPick(pool, d), d.firstPoint,
                      FirstOther(d.firstPoint, d.secondPoints), d.firstMutation, d.secondMutation);
    GrowThenShrink(m, grown, m', matrix, keep);
  }

  /**
   * A pair bred out of a repetition-free pool leaves the pool without both
   * parents, still repetition-free.
   */
  lemma PairDropsParents(pool: seq<seq<int>>, pool': seq<seq<int>>, m: map<seq<int>, int>, m': map<seq<int>, int>,
                         d: PairDraw, matrix: seq<seq<int>>, keep: nat)
    requires PairBred(pool, pool', m, m', d, matrix, keep) && Distinct(pool)
    ensures |pool| >= 2 && Distinct(pool')
    ensures Elems(pool') == Elems(pool) - {FirstPick(pool, d), SecondPick(pool, d)}
  {
  }

  /**
   * Every step of step keeps an evaluated map evaluated, within keep
   * routes, and no worse in best distance.
   */
  ghost predicate KeepsBest(step: BreedStep, matrix: seq<seq<int>>, keep: nat)
  {
    forall pool, pool', m, m', d ::
      step(pool, pool', m, m', d) && Evaluated(m, matrix, |matrix|) ==>
        Evaluated(m', matrix, |matrix|) && |m'| <= keep && NoWorse(m, m')
  }

  /**
   * Every step of step takes a repetition-free pool to that pool without
   * the two parents it picks, still repetition-free.
   */
  ghost predicate DropsParents(step: BreedStep)
  {
    forall pool, pool', m, m', d ::
      step(pool, pool', m, m', d) && Distinct(pool) ==>
        && |pool| >= 2 && Distinct(pool')
        && Elems(pool') == Elems(pool) - {FirstPick(pool, d), SecondPick(pool, d)}
  }

  /** The engine's breeding step, keeping at least one route, keeps the best distance. */
  lemma BreedingKeepsBest(matrix: seq<seq<int>>, keep: nat)
    requires keep >= 1
    ensures KeepsBest(Breeding(matrix, keep), matrix, keep)
  {
    forall pool, pool', m, m', d | Breeding(matrix, keep)(pool, pool', m, m', d) && Evaluated(m, matrix, |matrix|)
      ensures Evaluated(m', matrix, |matrix|) && |m'| <= keep && NoWorse(m, m')
    {
      PairNoWorse(pool, pool', m, m', d, matrix, keep);
    }
  }

  /** The engine's breeding step takes both parents out of the pool. */
  lemma BreedingDropsParents(matrix: seq<seq<int>>, keep: nat)
    ensures DropsParents(Breeding(matrix, keep))
  {
    forall pool, pool', m, m', d | Breeding(matrix, keep)(pool, pool', m, m', d) && Distinct(pool)
      ensures |pool| >= 2 && Distinct(pool')
      ensures Elems(pool') == Elems(pool) - {FirstPick(pool, d), SecondPick(pool, d)}
    {
      PairDropsParents(pool, pool', m, m', d, matrix, keep);
    }
  }

  /** A best distance no worse than one that is no worse than the first is no worse than the first. */
  lemma NoWorseTrans(a: map<seq<int>, int>, b: map<seq<int>, int>, c: map<seq<int>, int>)
    requires NoWorse(a, b) && NoWorse(b, c)
    ensures NoWorse(a, c)
  {
  }

  /**
   * Along a generation's trace from an evaluated map, by a step that keeps
   * the best distance, every map is evaluated, within keep routes after the
   * first pair, and no worse in best distance than the first.
   */
  lemma {:induction false} PairTraceNoWorse(pools: seq<seq<seq<int>>>, maps: seq<map<seq<int>, int>>, cursor: nat,
                                            draws: nat -> PairDraw, step: BreedStep,
                                            matrix: seq<seq<int>>, keep: nat, j: nat)
    requires PairTrace(pools, maps, cursor, draws, step) && KeepsBest(step, matrix, keep)
    requires Evaluated(maps[0], matrix, |matrix|) && j < |maps|
    ensures Evaluated(maps[j], matrix, |matrix|) && NoWorse(maps[0], maps[j])
    ensures j >= 1 ==> |maps[j]| <= keep
  {
    if j >= 1 {
      PairTraceNoWorse(pools, maps, cursor, draws, step, matrix, keep, j - 1);
      assert step(pools[j - 1], pools[j], maps[j - 1], maps[j], draws(cursor + (j - 1)));
      NoWorseTrans(maps[0], maps[j - 1], maps[j]);
    }
  }

  /** Every pool of a generation's trace repeats no route and holds only routes of the first. */
  lemma {:induction false} PoolsShrink(pools: seq<seq<seq<int>>>, maps: seq<map<seq<int>, int>>, cursor: nat,
                                       draws: nat -> PairDraw, step: BreedStep, k: nat)
    requires PairTrace(pools, maps, cursor, draws, step) && DropsParents(step) && Distinct(pools[0])
    requires k < |pools|
    ensures Distinct(pools[k]) && Elems(pools[k]) <= Elems(pools[0])
  {
    if k >= 1 {
      PoolsShrink(pools, maps, cursor, draws, step, k - 1);
      assert step(pools[k - 1], pools[k], maps[k - 1], maps[k], draws(cursor + (k - 1)));
    }
  }

  /**
   * In a generation's trace by a step that drops the parents from the
   * pool, every pool repeats no route and holds only routes of every
   * earlier pool, and the pair picked out of pool j appears in no later
   * pool. So each route of the snapshot is a parent at most once.
   */
  lemma {:induction false} ParentsUsedOnce(pools: seq<seq<seq<int>>>, maps: seq<map<seq<int>, int>>, cursor: nat,
                                           draws: nat -> PairDraw, step: BreedStep, j: nat, k: nat)
    requires PairTrace(pools, maps, cursor, draws, step) && DropsParents(step) && Distinct(pools[0])
    requires j < k < |pools|
    ensures Distinct(pools[k]) && Elems(pools[k]) <= Elems(pools[j]) && |pools[j]| >= 2
    ensures FirstPick(pools[j], draws(cursor + j)) !in Elems(pools[k])
    ensures SecondPick(pools[j], draws(cursor + j)) !in Elems(pools[k])
    decreases k - j
  {
    PoolsShrink(pools, maps, cursor, draws, step, j);
    assert step(pools[j], pools[j + 1], maps[j], maps[j + 1], draws(cursor + j));
    if k > j + 1 {
      ParentsUsedOnce(pools, maps, cursor, draws, step, j + 1, k);
    }
  }

  /**
   * A generation from an evaluated map, by a step that keeps the best
   * distance, leaves it evaluated and no worse in best distance; when it
   * bred a pair the map holds at most keep routes.
   */
  lemma GenerationNoWorse(m: map<seq<int>, int>, m': map<seq<int>, int>, cursor: nat,
                          draws: nat -> PairDraw, step: BreedStep, matrix: seq<seq<int>>, keep: nat)
    requires Generated(m, m', cursor, draws, step) && KeepsBest(step, matrix, keep)
    requires Evaluated(m, matrix, |matrix|)
    ensures Evaluated(m', matrix, |matrix|) && NoWorse(m, m')
    ensures |m| >= 2 ==> |m'| <= keep
  {
    var pools, maps :| GenerationTrace(m, m', pools, maps, cursor, draws, step);
    PairTraceNoWorse(pools, maps, cursor, draws, step, matrix, keep, |maps| - 1);
  }

  /**
   * A run of generations from an evaluated map, by a step that keeps the
   * best distance, leaves it evaluated after every generation, and the
   * best distance is never worse than before the run.
   */
  lemma {:induction false} RunNoWorse(gens: seq<map<seq<int>, int>>, cursors: seq<nat>, draws: nat -> PairDraw,
                                      step: BreedStep, matrix: seq<seq<int>>, keep: nat, g: nat)
    requires GenerationsTrace(gens, cursors, draws, step) && KeepsBest(step, matrix, keep)
    requires Evaluated(gens[0], matrix, |matrix|) && g < |gens|
    ensures Evaluated(gens[g], matrix, |matrix|) && NoWorse(gens[0], gens[g])
  {
    if g >= 1 {
      RunNoWorse(gens, cursors, draws, step, matrix, keep, g - 1);
      GenerationNoWorse(gens[g - 1], gens[g], cursors[g - 1], draws, step, matrix, keep);
      NoWorseTrans(gens[0], gens[g - 1], gens[g]);
    }
  }

  /**
   * The engine's runs never lose the best distance: along a run of
   * generations bred by the engine's own step from an evaluated map, the
   * last map is evaluated and its best distance is no worse than the
   * first's.
   */
  lemma RunKeepsBest(gens: seq<map<seq<int>, int>>, cursors: seq<nat>, draws: nat -> PairDraw,
                     matrix: seq<seq<int>>, keep: nat)
    requires GenerationsTrace(gens, cursors, draws, Breeding(matrix, keep))
    requires Evaluated(gens[0], matrix, |matrix|) && keep >= 1
    ensures Evaluated(gens[|gens| - 1], matrix, |matrix|) && NoWorse(gens[0], gens[|gens| - 1])
  {
    BreedingKeepsBest(matrix, keep);
    RunNoWorse(gens, cursors, draws, Breeding(matrix, keep), matrix, keep, |gens| - 1);
  }

  /** How many generations iterate runs: the given number, or none when it is zero or less. */
  function Generations(numberOfIterations: int): nat
  {
    if numberOfIterations <= 0 then 0 else numberOfIterations
  }

  /**
   * The pool's remove at the drawn index, reduced to the pool's size,
   * followed by its remove of the route just taken, which finds nothing
   * since the pool repeats no route.
   */
  method TakeParent(pool: seq<seq<int>>, draw: nat) returns (parent: seq<int>, rest: seq<seq<int>>)
    requires |pool| >= 1 && Distinct(pool)
    ensures parent == pool[draw % |pool|] && rest == RemoveAt(pool, draw % |pool|)
    ensures Distinct(rest) && Elems(rest) == Elems(pool) - {parent} && |rest| == |pool| - 1
  {
    var index := draw % |pool|;
    parent := pool[index];
    rest := RemoveAt(pool, index);
    assert parent !in Elems(rest);
    rest := RemoveFirst(rest, parent);
  }

  /**
   * One child of the pair as addChildren makes it: crossed over from own
   * and other at lo..hi, closed, then mutated in place under the draw d.
   */
  method MakeChild(own: seq<int>, other: seq<int>, lo: nat, hi: nat, d: SwapDraw, ghost n: nat)
    returns (child: seq<int>)
    requires IsTour(own, n) && IsTour(other, n) && 1 <= lo < hi <= n - 1 && ValidSwapDraw(d, n)
    ensures child == Offspring(own, other, lo, hi, d, n)
    ensures IsTour(child, n)
  {
    ChildLayout(own, other, lo, hi, n);
    var cells := BuildChild(own, other, lo, hi, n);
    Mutate(cells, d, n);
    child := cells[..];
  }

  class GeneticAlgorithm {
    const population: nat
    const distancesMatrix: seq<seq<int>>
    var routesDistancesMap: map<seq<int>, int>

    /** The number of cities: the side of the distance matrix. */
    function NumberOfCities(): nat
    {
      |distancesMatrix|
    }

    /**
     * Every route in the map is a tour over the cities, mapped to its
     * distance, and the map holds at most population + 1 routes.
     */
    ghost predicate Valid()
      reads this
    {
      && Evaluated(routesDistancesMap, distancesMatrix, NumberOfCities())
      && |routesDistancesMap| <= population + 1
    }

    /**
     * Seeds the map with population distinct random tours, each mapped to
     * its distance.
     */
    constructor (distancesMatrix: seq<seq<int>>, population: nat, shuffles: nat -> seq<int>)
      requires IsMatrix(distancesMatrix, |distancesMatrix|)
      requires forall i :: IsPermutation(shuffles(i), |distancesMatrix|)
      requires population > 0 ==>
        |distancesMatrix| >= 1 && exists k :: population <= |Seeds(shuffles, |distancesMatrix|, k)|
      ensures this.population == population && this.distancesMatrix == distancesMatrix
      ensures Valid() && |routesDistancesMap| == population
      ensures population > 0 ==> exists k :: routesDistancesMap.Keys == Seeds(shuffles, |distancesMatrix|, k)
    {
      this.population := population;
      this.distancesMatrix := distancesMatrix;
      var n := |distancesMatrix|;
      var permutations := GetRandomPermutations(n, population, shuffles);
      var routes := CollectDistances(distancesMatrix, permutations);
      routesDistancesMap := routes;
    }

    /** A copy of the map: every route a tour, mapped to its distance. */
    method GetDistances() returns (distances: map<seq<int>, int>)
      requires Valid()
      ensures distances == routesDistancesMap
      ensures forall r :: r in distances ==>
        IsTour(r, NumberOfCities()) && distances[r] == RouteDistance(distancesMatrix, r)
      ensures |distances| <= population + 1
    {
      distances := routesDistancesMap;
    }

    /**
     * Sorts the routes by distance and removes every one from rank
     * population + 1 onward: an elitist shrink to population + 1 routes.
     */
    method ShrinkRoutesTable()
      modifies this
      ensures ElitistShrink(old(routesDistancesMap), routesDistancesMap, population + 1)
    {
      var sortedRoutes := SortByDistance(routesDistancesMap);
      TruncationIsElitist(routesDistancesMap, sortedRoutes, population + 1);
      RemoveFromRank(sortedRoutes, population + 1);
    }

    /** The shrink's loop: removes from the map every route of order from rank first onward. */
    method RemoveFromRank(order: seq<seq<int>>, first: nat)
      modifies this
      ensures routesDistancesMap == old(routesDistancesMap) - Elems(order[Min(first, |order|)..])
    {
      ghost var keep := Min(first, |order|);
      var i := first;
      while i < |order|
        invariant first <= i && (i == first || i <= |order|)
        invariant routesDistancesMap == old(routesDistancesMap) - Elems(order[keep..Min(i, |order|)])
      {
        RemoveNext(old(routesDistancesMap), order, keep, i);
        routesDistancesMap := routesDistancesMap - {order[i]};
        i := i + 1;
      }
      assert order[keep..Min(i, |order|)] == order[keep..];
    }

    /** The map's put of a tour with the distance the evaluator computes for it. */
    method PutRoute(route: seq<int>)
      requires IsMatrix(distancesMatrix, NumberOfCities()) && IsTour(route, NumberOfCities())
      modifies this
      ensures routesDistancesMap == Put(old(routesDistancesMap), distancesMatrix, route)
    {
      var distance := CalculateRouteDistance(distancesMatrix, route);
      routesDistancesMap := routesDistancesMap[route := distance];
    }

    /**
     * The first part of addChildren: with the cut points taken in increasing
     * order, builds both children of the pair, mutates each under its draw
     * and puts them in the map with their distances.
     */
    method PutChildren(firstParent: seq<int>, secondParent: seq<int>, firstPoint: int, secondPoint: int,
                       firstMutation: SwapDraw, secondMutation: SwapDraw)
      requires IsMatrix(distancesMatrix, NumberOfCities())
      requires PairFits(firstParent, secondParent, firstPoint, secondPoint, firstMutation, secondMutation,
                        NumberOfCities())
      modifies this
      ensures routesDistancesMap == Bred(old(routesDistancesMap), distancesMatrix, firstParent, secondParent,
                                         firstPoint, secondPoint, firstMutation, secondMutation)
    {
      var n := NumberOfCities();
      var lo, hi := firstPoint, secondPoint;
      if lo > hi {
        lo, hi := hi, lo;
      }
      var firstChild := MakeChild(firstParent, secondParent, lo, hi, firstMutation, n);
      var secondChild := MakeChild(secondParent, firstParent, lo, hi, secondMutation, n);
      PutRoute(firstChild);
      PutRoute(secondChild);
    }

    /**
     * Breeds the pair firstParent, secondParent at the cut points and
     * shrinks the map. The result is an elitist shrink of the grown map,
     * which holds the old routes and at most the two children besides, so
     * the map stays valid and its best distance does not get worse.
     */
    method AddChildren(firstParent: seq<int>, secondParent: seq<int>, firstPoint: int, secondPoint: int,
                       firstMutation: SwapDraw, secondMutation: SwapDraw)
      requires Valid()
      requires PairFits(firstParent, secondParent, firstPoint, secondPoint, firstMutation, secondMutation,
                        NumberOfCities())
      modifies this
      ensures Valid()
      ensures ElitistShrink(
        Bred(old(routesDistancesMap), distancesMatrix, firstParent, secondParent,
             firstPoint, secondPoint, firstMutation, secondMutation),
        routesDistancesMap, population + 1)
      ensures NoWorse(old(routesDistancesMap), routesDistancesMap)
    {
      PutChildren(firstParent, secondParent, firstPoint, secondPoint, firstMutation, secondMutation);
      ghost var grown := routesDistancesMap;
      ShrinkRoutesTable();
      GrowThenShrink(old(routesDistancesMap), grown, routesDistancesMap, distancesMatrix, population + 1);
    }

    /**
     * The body of a generation's loop: takes two parents out of the pool at
     * the drawn indices, draws the second cut point until it differs from
     * the first, and adds the pair's children. The parents and the rest of
     * the pool together are the old pool, without repetition, and the new
     * map is the elitist shrink of the old one grown by the pair's children.
     */
    method BreedFromPool(pool: seq<seq<int>>, d: PairDraw)
      returns (firstParent: seq<int>, secondParent: seq<int>, rest: seq<seq<int>>)
      requires Valid()
      requires |pool| >= 2 && Distinct(pool) && forall r :: r in Elems(pool) ==> IsTour(r, NumberOfCities())
      requires ValidPairDraw(d, NumberOfCities())
      modifies this
      ensures Valid()
      ensures firstParent == FirstPick(pool, d) && secondParent == SecondPick(pool, d) && rest == PoolAfter(pool, d)
      ensures Distinct([firstParent, secondParent] + rest) && Elems([firstParent, secondParent] + rest) == Elems(pool)
      ensures |rest| == |pool| - 2
      ensures ChildrenAdded(old(routesDistancesMap), routesDistancesMap, distancesMatrix, population + 1,
                            FirstPick(pool, d), SecondPick(pool, d), d)
      ensures NoWorse(old(routesDistancesMap), routesDistancesMap)
    {
      var rest';
      firstParent, rest' := TakeParent(pool, d.firstParent);
      secondParent, rest := TakeParent(rest', d.secondParent);
      PairStep(pool, firstParent, rest', secondParent, rest);
      var firstPoint := d.firstPoint;
      var secondPoint := RedrawUntilDistinct(firstPoint, d.secondPoints);
      AddChildren(firstParent, secondParent, firstPoint, secondPoint, d.firstMutation, d.secondMutation);
    }

    /**
     * One pass of a generation's loop: BreedFromPool on the last pool of
     * the trace, which then goes on by one pair. The pair is seen through a
     * relation step that covers every bred pair; since the engine's own
     * Breeding covers every pair, this loses nothing, and it keeps the
     * details of a pair out of the generation's loop.
     */
    method BreedNextPair(pool: seq<seq<int>>, draws: nat -> PairDraw, cursor: nat, next: nat, ghost step: BreedStep,
                         ghost pools: seq<seq<seq<int>>>, ghost maps: seq<map<seq<int>, int>>)
      returns (rest: seq<seq<int>>, ghost pools': seq<seq<seq<int>>>, ghost maps': seq<map<seq<int>, int>>)
      requires Valid()
      requires |pool| >= 2 && Distinct(pool) && forall r :: r in Elems(pool) ==> IsTour(r, NumberOfCities())
      requires forall i :: ValidPairDraw(draws(i), NumberOfCities())
      requires Covers(step, distancesMatrix, population + 1)
      requires PairTrace(pools, maps, cursor, draws, step)
      requires pools[|pools| - 1] == pool && maps[|maps| - 1] == routesDistancesMap && next == cursor + |maps| - 1
      modifies this
      ensures Valid()
      ensures Distinct(rest) && (forall r :: r in Elems(rest) ==> IsTour(r, NumberOfCities())) && |rest| == |pool| - 2
      ensures pools' == pools + [rest] && maps' == maps + [routesDistancesMap]
      ensures PairTrace(pools', maps', cursor, draws, step)
    {
      var d := draws(next);
      var firstParent, secondParent;
      firstParent, secondParent, rest := BreedFromPool(pool, d);
      assert PairBred(pool, rest, old(routesDistancesMap), routesDistancesMap, d, distancesMatrix, population + 1);
      PairTraceExtend(pools, maps, cursor, draws, step, pool, rest, old(routesDistancesMap), routesDistancesMap, next);
      pools', maps' := pools + [rest], maps + [routesDistancesMap];
    }

    /**
     * One generation: snapshot the routes into a pool, and while two or
     * more remain, breed a pair taken out of it. With k routes at the start
     * it breeds k / 2 pairs, consuming one draw per pair, and uses every
     * parent at most once. The ghost pools and maps trace the generation:
     * the pool and the map before each pair, and after the last.
     */
    method Generation(draws: nat -> PairDraw, cursor: nat, ghost step: BreedStep)
      returns (next: nat, ghost pools: seq<seq<seq<int>>>, ghost maps: seq<map<seq<int>, int>>)
      requires Valid()
      requires |routesDistancesMap| >= 2 ==> forall i :: ValidPairDraw(draws(i), NumberOfCities())
      requires Covers(step, distancesMatrix, population + 1)
      modifies this
      ensures Valid()
      ensures next == cursor + |old(routesDistancesMap)| / 2
      ensures GenerationTrace(old(routesDistancesMap), routesDistancesMap, pools, maps, cursor, draws, step)
    {
      ghost var pairs: nat := 0;
      var routes := KeyList(routesDistancesMap);
      ghost var pool, total := routes, |routes|;
      next := cursor;
      pools, maps := [routes], [routesDistancesMap];
      while |routes| > 1
        invariant Valid()
        invariant Distinct(routes) && forall r :: r in Elems(routes) ==> IsTour(r, NumberOfCities())
        invariant |routes| + 2 * pairs == total && next == cursor + pairs
        invariant |routes| >= 2 ==> forall i :: ValidPairDraw(draws(i), NumberOfCities())
        invariant PairTrace(pools, maps, cursor, draws, step)
        invariant |maps| == pairs + 1 && maps[0] == old(routesDistancesMap) && pools[0] == pool
        invariant pools[|pools| - 1] == routes && maps[|maps| - 1] == routesDistancesMap
        decreases |routes|
      {
        routes, pools, maps := BreedNextPair(routes, draws, cursor, next, step, pools, maps);
        pairs := pairs + 1;
        next := next + 1;
      }
    }

    /**
     * One pass of iterate's loop: a generation, run on the engine's own
     * breeding step, which takes the run's trace on by one generation. With
     * at most one route there is nothing to pair and the map is unchanged.
     */
    method NextGeneration(draws: nat -> PairDraw, cursor: nat,
                          ghost gens: seq<map<seq<int>, int>>, ghost cursors: seq<nat>)
      returns (next: nat, ghost gens': seq<map<seq<int>, int>>, ghost cursors': seq<nat>)
      requires Valid()
      requires |routesDistancesMap| >= 2 ==> forall i :: ValidPairDraw(draws(i), NumberOfCities())
      requires GenerationsTrace(gens, cursors, draws, Breeding(distancesMatrix, population + 1))
      requires gens[|gens| - 1] == routesDistancesMap && cursors[|cursors| - 1] == cursor
      modifies this
      ensures Valid()
      ensures |old(routesDistancesMap)| <= 1 ==> routesDistancesMap == old(routesDistancesMap)
      ensures gens' == gens + [routesDistancesMap] && cursors' == cursors + [next]
      ensures GenerationsTrace(gens', cursors', draws, Breeding(distancesMatrix, population + 1))
    {
      ghost var pools, maps;
      BreedingCovers(distancesMatrix, population + 1);
      next, pools, maps := Generation(draws, cursor, Breeding(distancesMatrix, population + 1));
      GenerationsTraceExtend(gens, cursors, draws, Breeding(distancesMatrix, population + 1), routesDistancesMap, next);
      gens', cursors' := gens + [routesDistancesMap], cursors + [next];
    }

    /**
     * Runs the given number of generations; none when it is zero or less.
     * The ghost gens and cursors trace the run: the map before each
     * generation and the first draw it uses, and after the last. The map
     * stays valid; RunKeepsBest shows that along such a trace its best
     * distance never gets worse.
     */
    method Iterate(numberOfIterations: int, draws: nat -> PairDraw)
      returns (ghost gens: seq<map<seq<int>, int>>, ghost cursors: seq<nat>)
      requires Valid()
      requires numberOfIterations >= 1 && |routesDistancesMap| >= 2 ==>
        forall i :: ValidPairDraw(draws(i), NumberOfCities())
      modifies this
      ensures Valid()
      ensures numberOfIterations <= 0 ==> routesDistancesMap == old(routesDistancesMap)
      ensures GenerationsTrace(gens, cursors, draws, Breeding(distancesMatrix, population + 1))
      ensures |gens| == Generations(numberOfIterations) + 1 && cursors[0] == 0
      ensures gens[0] == old(routesDistancesMap) && gens[|gens| - 1] == routesDistancesMap
    {
      var iteration := 1;
      var cursor: nat := 0;
      ghost var start := routesDistancesMap;
      gens, cursors := [start], [0];
      while iteration <= numberOfIterations
        invariant Valid()
        invariant numberOfIterations >= 1 && |routesDistancesMap| >= 2 ==>
          forall i :: ValidPairDraw(draws(i), NumberOfCities())
        invariant 1 <= iteration && |gens| == iteration
        invariant iteration <= Generations(numberOfIterations) + 1
        invariant GenerationsTrace(gens, cursors, draws, Breeding(distancesMatrix, population + 1))
        invariant cursors[0] == 0 && cursors[|cursors| - 1] == cursor
        invariant gens[0] == start && gens[|gens| - 1] == routesDistancesMap
        decreases numberOfIterations - iteration
      {
        cursor, gens, cursors := NextGeneration(draws, cursor, gens, cursors);
        iteration := iteration + 1;
      }
    }
  }

  /** Taking two parents, one after the other, out of a repetition-free pool. */
  lemma PairStep(pool: seq<seq<int>>, p1: seq<int>, rest1: seq<seq<int>>, p2: seq<int>, rest2: seq<seq<int>>)
    requires Distinct(pool) && p1 in pool && Distinct(rest1) && Elems(rest1) == Elems(pool) - {p1}
    requires p2 in rest1 && Distinct(rest2) && Elems(rest2) == Elems(rest1) - {p2}
    ensures Distinct([p1, p2] + rest2) && Elems([p1, p2] + rest2) == Elems(pool)
  {
    assert p2 in Elems(rest1);
    assert Elems([p1, p2]) == {p1, p2};
    DistinctConcat([p1, p2], rest2);
  }
}
