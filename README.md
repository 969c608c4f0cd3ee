# Genetic algorithm for closed travelling-salesman tours

This project models, in Dafny, the engine class `GeneticAlgorithm` of a small
Java program that searches for short closed tours through n cities. It proves
properties of that model.

- A tour is a list of n + 1 city indices: every city 0..n-1 once, then the
  first city again.
- The engine keeps a map from tour to its total distance under an n-by-n
  integer matrix.
- Construction seeds the map with `population` distinct random tours.
- Each iteration (a generation) snapshots the map's routes into a breeding
  pool. While two or more routes remain, it removes two random parents and
  draws two distinct cut points in [1, n-1]. It then adds both children of
  the pair, each possibly mutated.
- A child takes the other parent's cities between the cut points. It fills
  the remaining positions, left to right, with its own parent's cities in
  the order of a cyclic scan that starts just after the first cut point. It
  closes the tour by repeating its first city.
- Mutation swaps two distinct interior positions.
- After every pair the map is shrunk: it is sorted by distance and cut back
  to `population + 1` routes.

Randomness is explicit input:

- The seeder reads a stream of shuffles of 0..n-1 (`nat -> seq<int>`).
- A generation reads one `PairDraw` per pair from a stream `nat -> PairDraw`.
  A draw holds two raw pool indices, a first cut point, the redraw stream for
  the second cut point, and one `SwapDraw` per child.
- A `SwapDraw` holds the mutate-or-not decision, a first swap position and
  the redraw stream for the second.

Modules, in dependency order:

- `Collections`: repetition-free sequences and their element sets.
- `Tours`: cities, permutations, tours, closing a shuffle.
- `Evaluator`: route distance.
- `Draws`: random inputs and the redraw loop.
- `Crossover`: building one child.
- `Mutation`: swapping two positions.
- `Selection`: sort by distance, elitist shrink, best distance.
- `Seeder`: the initial population.
- `Engine`: the class `GeneticAlgorithm` and the pool handling.

The main results:

- Every route the engine ever holds is a tour, mapped to its true distance.
- After every pair, and so between calls, the map holds at most
  `population + 1` routes. The two puts of a pair can add two more just
  before the shrink.
- Each shrink keeps exactly the shortest routes.
- `Iterate` returns a ghost trace of its run. The trace lists the map before
  each generation and the first draw each one uses.
- A generation over k routes breeds ⌊k/2⌋ pairs, one draw each. Each pair is
  picked out of the pool by its draw. After each pair the map is the elitist
  shrink of the map grown by that pair's children.
- Each route of the snapshot is a parent at most once (`ParentsUsedOnce`).
- The best distance in the map never gets worse over a run (`RunKeepsBest`).
  That holds because the shrink is elitist and keeps at least one route.

## Model

| member | source | states |
|---|---|---|
| Tours.Close | src/main/java/com/aplavina/GeneticAlgorithm.java:123 | closing a route appends its first city: one entry longer, the old route as prefix, last entry equal to the first |
| Tours.CloseIsTour | src/main/java/com/aplavina/GeneticAlgorithm.java:121-123 | a shuffle of the n cities, once closed, is a tour over n cities |
| Tours.TourCovers | src/main/java/com/aplavina/GeneticAlgorithm.java:121-123 | the first n entries of a tour are a permutation of 0..n-1, and the tour visits exactly the n cities |
| Evaluator.CalculateRouteDistance | src/main/java/com/aplavina/GeneticAlgorithm.java:129-135 | the accumulator loop returns the sum of matrix[r[i]][r[i+1]] over consecutive pairs; a route of length at most 1 costs 0 |
| Evaluator.DistanceNonNegative | src/main/java/com/aplavina/GeneticAlgorithm.java:129-135 | with no negative entry in the matrix, every route's distance is at least 0 |
| Evaluator.DistanceAppend | src/main/java/com/aplavina/GeneticAlgorithm.java:129-135 | the distance of a + b is the distance of a, plus the joining edge, plus the distance of b |
| Draws.FirstOther | src/main/java/com/aplavina/GeneticAlgorithm.java:38-41 | the value the redraw loop settles on: one of the draws, different from the first point, with every earlier draw equal to the first point |
| Draws.RedrawUntilDistinct | src/main/java/com/aplavina/GeneticAlgorithm.java:38-41 | the redraw loop returns the first draw that differs from the first point |
| Crossover.FirstNewFacts | src/main/java/com/aplavina/GeneticAlgorithm.java:75-82 | the scan that skips cities already present lists every scanned city outside the segment exactly once |
| Crossover.FirstNewPrefix | src/main/java/com/aplavina/GeneticAlgorithm.java:75-77 | scanning further only extends the list of cities taken so far |
| Crossover.SegmentFacts | src/main/java/com/aplavina/GeneticAlgorithm.java:60-63 | the other parent's segment lo..hi holds hi - lo + 1 distinct cities |
| Crossover.FillFacts | src/main/java/com/aplavina/GeneticAlgorithm.java:69-83 | the fill holds each city outside the segment exactly once, n - (hi - lo + 1) cities in all |
| Crossover.ChildLayout | src/main/java/com/aplavina/GeneticAlgorithm.java:58-84 | position by position, the child holds the fill before lo, the other parent's cities on lo..hi, the rest of the fill after hi, and position n repeats position 0 |
| Crossover.ChildIsTour | src/main/java/com/aplavina/GeneticAlgorithm.java:58-84 | the crossover child of two tours is a tour, and its fill is exactly its own parent's cities that are not in the segment |
| Crossover.SpliceDistinct | src/main/java/com/aplavina/GeneticAlgorithm.java:71-83 | splicing the segment into a disjoint fill of the right size gives a permutation of the n cities |
| Crossover.InitChild | src/main/java/com/aplavina/GeneticAlgorithm.java:58-68 | the new child holds the other parent's cities on lo..hi and -1 everywhere else |
| Crossover.NextUnplaced | src/main/java/com/aplavina/GeneticAlgorithm.java:75-77 | the inner while loop stops at the first city of the cyclic scan that the child lacks, and keeps the scan's progress invariant |
| Crossover.FillPosition | src/main/java/com/aplavina/GeneticAlgorithm.java:71-83 | one pass at a position outside the segment writes the next missing city of the scan there and keeps the layout invariant |
| Crossover.FillChild | src/main/java/com/aplavina/GeneticAlgorithm.java:69-83 | after the fill loop every position below n outside the segment holds the fill, in order |
| Crossover.LayoutIsChild | src/main/java/com/aplavina/GeneticAlgorithm.java:84 | the filled layout, once position n repeats position 0, is the crossover child |
| Crossover.BuildChild | src/main/java/com/aplavina/GeneticAlgorithm.java:58-84 | the array built in place equals the crossover child: segment copied from the other parent, cyclic fill from own, closed |
| Mutation.SwapKeepsTour | src/main/java/com/aplavina/GeneticAlgorithm.java:112-114 | swapping two interior positions of a tour gives a tour |
| Mutation.MutationKeepsTour | src/main/java/com/aplavina/GeneticAlgorithm.java:105-116 | a mutated tour is a tour. If the draw fires, exactly two distinct positions in [1, n-1] are exchanged and every other position is unchanged. If it does not fire, the child is unchanged |
| Mutation.Mutate | src/main/java/com/aplavina/GeneticAlgorithm.java:105-116 | the in-place swap leaves the array equal to the mutation of its old contents under the draw |
| Selection.SortByDistance | src/main/java/com/aplavina/GeneticAlgorithm.java:94-99 | the sorted list holds every route of the map once, in non-decreasing order of distance |
| Selection.TruncationIsElitist | src/main/java/com/aplavina/GeneticAlgorithm.java:100-102 | removing every route from rank keep onward is an elitist shrink: a sub-map with the same distances, of size min(size, keep), where no dropped route is shorter than a kept one |
| Selection.TruncationOrder | src/main/java/com/aplavina/GeneticAlgorithm.java:100-102 | no route dropped from rank k onward is shorter than a kept route |
| Selection.TruncationSize | src/main/java/com/aplavina/GeneticAlgorithm.java:100-102 | the kept routes are exactly the first k of the order, so there are k of them |
| Selection.BestFacts | src/main/java/com/aplavina/GeneticAlgorithm.java:94-99 | the best distance of a non-empty map is attained by one of its routes and is at most every route's distance |
| Selection.ShrinkKeepsBest | src/main/java/com/aplavina/GeneticAlgorithm.java:93-103 | an elitist shrink to at least one route keeps the map non-empty and does not worsen its best distance |
| Seeder.GetRandomPermutations | src/main/java/com/aplavina/GeneticAlgorithm.java:118-127 | returns exactly population distinct tours, which are the closed forms of a prefix of the shuffle stream |
| Engine.Offspring | src/main/java/com/aplavina/GeneticAlgorithm.java:58-87 | a crossed-over and then mutated child of two tours is a tour |
| Engine.Put | src/main/java/com/aplavina/GeneticAlgorithm.java:88-89 | putting a tour keeps every old route and its distance, adds the tour, grows by at most one, and keeps every distance true |
| Engine.Bred | src/main/java/com/aplavina/GeneticAlgorithm.java:53-89 | after both children are put, every old route and its distance is kept, the map has grown by at most two, and every distance is still true |
| Engine.GrowThenShrink | src/main/java/com/aplavina/GeneticAlgorithm.java:88-90 | growing a map by evaluated tours and then shrinking it elitistly keeps it evaluated, within the bound, and no worse in best distance |
| Engine.RemoveAt | src/main/java/com/aplavina/GeneticAlgorithm.java:33 | removing at an index shortens the pool by one, and removes exactly that route from a repetition-free pool |
| Engine.RemoveFirst | src/main/java/com/aplavina/GeneticAlgorithm.java:34 | removing by value does nothing when the route is absent; otherwise it removes one occurrence |
| Engine.KeyList | src/main/java/com/aplavina/GeneticAlgorithm.java:31 | the pool lists every route of the map exactly once |
| Engine.TakeParent | src/main/java/com/aplavina/GeneticAlgorithm.java:33-36 | the parent is the pool's route at the drawn index modulo the pool size, and the rest is the pool with that index removed, in its old order. The rest repeats no route and is one shorter |
| Engine.MakeChild | src/main/java/com/aplavina/GeneticAlgorithm.java:58-87 | the child built and mutated in place is the offspring of the two parents, and is a tour |
| Engine.CollectDistances | src/main/java/com/aplavina/GeneticAlgorithm.java:21-25 | the collected map has exactly the seeded tours as keys, each mapped to its true distance |
| Engine.PairStep | src/main/java/com/aplavina/GeneticAlgorithm.java:33-36 | the two parents and the rest of the pool together are the old pool, without repetition |
| Engine.FirstPick | src/main/java/com/aplavina/GeneticAlgorithm.java:33 | the first parent, taken at the drawn index reduced to the pool size, is a route of the pool |
| Engine.SecondPick | src/main/java/com/aplavina/GeneticAlgorithm.java:35 | the second parent, taken from what is left of a repetition-free pool, is in the pool and differs from the first |
| Engine.PoolAfter | src/main/java/com/aplavina/GeneticAlgorithm.java:33-36 | what is left after taking both parents is two shorter and, for a repetition-free pool, is the pool without the two parents, still repetition-free |
| Engine.PairNoWorse | src/main/java/com/aplavina/GeneticAlgorithm.java:33-42 | one bred pair keeps an evaluated map evaluated, within the kept number of routes (population + 1 in the engine), and no worse in best distance |
| Engine.PairDropsParents | src/main/java/com/aplavina/GeneticAlgorithm.java:33-36 | one bred pair leaves the pool without both parents, still repetition-free |
| Engine.BreedingKeepsBest | src/main/java/com/aplavina/GeneticAlgorithm.java:33-42 | every pair the engine breeds, keeping at least one route, keeps the map evaluated and no worse in best distance |
| Engine.BreedingDropsParents | src/main/java/com/aplavina/GeneticAlgorithm.java:33-36 | every pair the engine breeds takes both of its parents out of the pool |
| Engine.PairTraceNoWorse | src/main/java/com/aplavina/GeneticAlgorithm.java:32-43 | along a generation, every map is evaluated and no worse in best distance than the map before the generation |
| Engine.PoolsShrink | src/main/java/com/aplavina/GeneticAlgorithm.java:31-36 | every pool of a generation repeats no route and holds only routes of the snapshot |
| Engine.ParentsUsedOnce | src/main/java/com/aplavina/GeneticAlgorithm.java:31-43 | a route picked as a parent for pair j appears in no later pool, so each route of the snapshot is a parent at most once |
| Engine.GenerationNoWorse | src/main/java/com/aplavina/GeneticAlgorithm.java:31-43 | a generation keeps an evaluated map evaluated and no worse in best distance; once it breeds a pair, the map holds at most population + 1 routes |
| Engine.RunNoWorse | src/main/java/com/aplavina/GeneticAlgorithm.java:28-46 | after every generation of a run the map is evaluated and its best distance is no worse than before the run |
| Engine.RunKeepsBest | src/main/java/com/aplavina/GeneticAlgorithm.java:28-46 | after a run of the engine's generations, the map is evaluated and its best distance is no worse than before the run |
| Engine.GeneticAlgorithm.constructor | src/main/java/com/aplavina/GeneticAlgorithm.java:14-26 | the map holds population distinct seeded tours, each mapped to its distance |
| Engine.GeneticAlgorithm.GetDistances | src/main/java/com/aplavina/GeneticAlgorithm.java:48-50 | the copy equals the map; every route in it is a tour mapped to its distance; it has at most population + 1 routes |
| Engine.GeneticAlgorithm.ShrinkRoutesTable | src/main/java/com/aplavina/GeneticAlgorithm.java:93-103 | the new map is an elitist shrink of the old one to population + 1 routes |
| Engine.GeneticAlgorithm.RemoveFromRank | src/main/java/com/aplavina/GeneticAlgorithm.java:100-102 | the loop removes exactly the routes of the order from the given rank onward |
| Engine.GeneticAlgorithm.PutRoute | src/main/java/com/aplavina/GeneticAlgorithm.java:88-89 | the map after the put maps the route to its computed distance |
| Engine.GeneticAlgorithm.PutChildren | src/main/java/com/aplavina/GeneticAlgorithm.java:52-89 | after ordering the cut points, building, mutating and putting both children, the map is the grown map of the pair |
| Engine.GeneticAlgorithm.AddChildren | src/main/java/com/aplavina/GeneticAlgorithm.java:52-91 | the new map is an elitist shrink of the grown map to population + 1 routes. The engine stays valid and its best distance does not get worse |
| Engine.GeneticAlgorithm.BreedFromPool | src/main/java/com/aplavina/GeneticAlgorithm.java:33-42 | the parents are the routes the two draws pick, in the pool's order, and the rest is the pool without them. The new map is the elitist shrink of the old map grown by the pair's children, with the second cut point redrawn until it differs from the first |
| Engine.GeneticAlgorithm.BreedNextPair | src/main/java/com/aplavina/GeneticAlgorithm.java:32-43 | one pass of the inner loop: the pool loses both parents and the generation's trace gains this pair's step |
| Engine.GeneticAlgorithm.Generation | src/main/java/com/aplavina/GeneticAlgorithm.java:31-43 | from k routes it breeds k / 2 pairs, one draw each. The first pool lists every route once. Each pair is a breeding step from the previous pool and map. At most one route is left unpaired, and the last map of the trace is the new map |
| Engine.GeneticAlgorithm.NextGeneration | src/main/java/com/aplavina/GeneticAlgorithm.java:30-45 | one pass of the outer loop: the run's trace gains one generation, and with at most one route the map is unchanged |
| Engine.GeneticAlgorithm.Iterate | src/main/java/com/aplavina/GeneticAlgorithm.java:28-46 | with zero or fewer iterations the map is unchanged. Otherwise the trace holds one generation per iteration, each starting on the draw after the previous one's pairs. The trace starts at the old map and ends at the new one |

## Left out

- Random number generation is not modelled. Draws are inputs, and the model
  assumes each redraw stream eventually differs from the first point, which
  is how the source's redraw loops end.
- Pool indices: the source draws an index in [0, size). The model takes an
  arbitrary natural number and reduces it modulo the pool size, which covers
  every index the source can draw.
- The mutation probability: the float comparison of a random float with the
  probability is replaced by the draw's mutate-or-not flag. The
  `mutationProbability` field is therefore not part of the class.
- Engine.GeneticAlgorithm.constructor: population is a natural number. The
  source also accepts a negative population: its seeder loop does not run,
  the map stays empty and iterate does nothing. That case is not modelled.
- Engine.GeneticAlgorithm.constructor: it assumes a finite prefix of the
  shuffle stream yields population distinct tours. The source loops forever
  when fewer distinct tours exist than are wanted.
- Engine.GeneticAlgorithm.constructor: with an empty matrix and a population
  of at least one, the source throws at line 123, because the shuffled list
  of cities is empty. The requires excludes that case. It also asks for a
  square matrix, where Java accepts a ragged `int[][]` and fails only on a
  row that is too short.
- Seeder.GetRandomPermutations: with no cities and a population of at least
  one, the source throws at line 123 on the first shuffle. The requires
  excludes that case.
- Engine.GeneticAlgorithm.Iterate: with two cities, two or more routes and
  at least one iteration, the source never returns. Both cut points are
  drawn from [1, 1], so the redraw loop never ends. No draw is valid then,
  and the requires of Iterate cannot be met.
- Engine.GeneticAlgorithm.Iterate: its ensures give the run's trace and
  validity, not the best distance. That the best distance never gets worse
  along the trace is the lemma Engine.RunKeepsBest.
- Ordering: the order of the hash map's keys is not modelled. The pool
  lists them in an arbitrary order, and the sort breaks ties between equal
  distances arbitrarily.
- Integer width: distances and the matrix are unbounded integers. The
  source's 32-bit sum can wrap around on large distances; so can its
  `iteration` counter at `Integer.MAX_VALUE` iterations.
- Engine.GeneticAlgorithm.PutChildren: the source builds the two children
  in one interleaved loop. The model builds them one after the other, which
  gives the same children because they share no state.
- Engine.GeneticAlgorithm.ShrinkRoutesTable: the source keeps
  `population + 1` routes, not `population`. The model keeps that bound as
  written.
- Aliasing: the Java child lists are mutable objects used as map keys. The
  model treats routes as values.
- Main.java (input reading, printing) is not part of this model.
