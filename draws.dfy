/**
 * The random choices the engine makes, supplied as explicit inputs.
 *
 * The source draws from a process-wide random generator. Here every draw is
 * an input value: a cut point or swap position drawn from [1, n-1] (the
 * source's nextInt(1, size - 1) on a tour of size n + 1), the redraws that
 * follow it while it repeats the first point, the mutate-or-not decision, and
 * the indices into the breeding pool.
 */
module Draws {

  /** A mutation's draws: whether it fires, the first position, and the stream for the second. */
  datatype SwapDraw = SwapDraw(fire: bool, firstPoint: int, secondPoints: seq<int>)

  /**
   * One breeding step's draws: two raw pool indices (the source's
   * nextInt(0, pool size), reduced into range by the engine), the crossover's
   * first cut point and the stream for its second, and one mutation draw per
   * child.
   */
  datatype PairDraw = PairDraw(
    firstParent: nat,
    secondParent: nat,
    firstPoint: int,
    secondPoints: seq<int>,
    firstMutation: SwapDraw,
    secondMutation: SwapDraw)

  /**
   * A first point and a redraw stream, all in [1, n-1], where the stream
   * eventually differs from the first point (the source's redraw loop then
   * exits).
   */
  ghost predicate InteriorDraws(first: int, seconds: seq<int>, n: nat)
  {
    && 1 <= first <= n - 1
    && (forall k :: 0 <= k < |seconds| ==> 1 <= seconds[k] <= n - 1)
    && exists k :: 0 <= k < |seconds| && seconds[k] != first
  }

  /** A mutation draw for a tour over n cities; positions are drawn only if it fires. */
  ghost predicate ValidSwapDraw(d: SwapDraw, n: nat)
  {
    d.fire ==> InteriorDraws(d.firstPoint, d.secondPoints, n)
  }

  /** A breeding step's draws for tours over n cities. */
  ghost predicate ValidPairDraw(d: PairDraw, n: nat)
  {
    && InteriorDraws(d.firstPoint, d.secondPoints, n)
    && ValidSwapDraw(d.firstMutation, n)
    && ValidSwapDraw(d.secondMutation, n)
  }

  /**
   * The value the redraw loop settles on: the first draw that differs from
   * `avoid`. It is one of the draws, it differs from `avoid`, and every draw
   * before it equals `avoid`.
   */
  ghost function FirstOther(avoid: int, draws: seq<int>): (r: int)
    requires exists k :: 0 <= k < |draws| && draws[k] != avoid
    ensures r != avoid && r in draws
    ensures exists k :: 0 <= k < |draws| && draws[k] == r && forall j :: 0 <= j < k ==> draws[j] == avoid
    decreases |draws|
  {
    if draws[0] != avoid then draws[0]
    else
      var k :| 0 <= k < |draws| && draws[k] != avoid;
      assert draws[1..][k - 1] != avoid;
      var r := FirstOther(avoid, draws[1..]);
      var k' :| 0 <= k' < |draws| - 1 && draws[1..][k'] == r && forall j :: 0 <= j < k' ==> draws[1..][j] == avoid;
      assert draws[k' + 1] == r && forall j :: 0 <= j < k' + 1 ==> draws[j] == avoid;
      r
  }

  /**
   * The source's redraw loop: take the first draw, and while it equals the
   * first point, draw again.
   */
  method RedrawUntilDistinct(first: int, draws: seq<int>) returns (second: int)
    requires exists k :: 0 <= k < |draws| && draws[k] != first
    ensures second == FirstOther(first, draws)
  {
    ghost var w :| 0 <= w < |draws| && draws[w] != first;
    var k := 0;
    second := draws[0];
    while second == first
      invariant 0 <= k <= w && second == draws[k]
      invariant draws[k..][w - k] != first
      invariant FirstOther(first, draws[k..]) == FirstOther(first, draws)
      decreases w - k
    {
      assert draws[k..][1..] == draws[k + 1..];
      k := k + 1;
      second := draws[k];
    }
  }
}
