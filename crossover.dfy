/**
 * Crossover: building one child tour from two parent tours and two ordered
 * cut points lo < hi in [1, n-1].
 *
 * The child takes the other parent's cities at positions lo..hi verbatim.
 * Every remaining position below n is then filled, from left to right, with
 * the next city of its own parent that the child does not hold yet, scanning
 * that parent cyclically from position lo + 1. Position n finally repeats
 * position 0 to close the tour.
 */
module Crossover {
  import opened Collections
  import opened Tours

  /** The cities the other parent contributes: its entries at positions lo..hi. */
  ghost function SegmentCities(other: seq<int>, lo: nat, hi: nat): set<int>
    requires lo <= hi < |other|
  {
    Elems(other[lo..hi + 1])
  }

  /** own read once around from position start: own[start], ..., own[|own|-1], own[0], ..., own[start-1]. */
  ghost function CyclicScan(own: seq<int>, start: nat): seq<int>
    requires start <= |own|
  {
    own[start..] + own[..start]
  }

  /** The entries of s that are not in seg, each where it first occurs, in order. */
  ghost function FirstNew(s: seq<int>, seg: set<int>): seq<int>
    decreases |s|
  {
    if s == [] then []
    else
      var prev := FirstNew(s[..|s| - 1], seg);
      var x := s[|s| - 1];
      if x in seg || x in prev then prev else prev + [x]
  }

  /** The fill: own's cities outside the segment, in the order the cyclic scan from lo + 1 meets them. */
  ghost function Fill(own: seq<int>, other: seq<int>, lo: nat, hi: nat): seq<int>
    requires lo <= hi < |other| && lo + 1 <= |own|
  {
    FirstNew(CyclicScan(own, lo + 1), SegmentCities(other, lo, hi))
  }

  /** What the source's crossover writes into a child before mutation. */
  ghost function ChildSpec(own: seq<int>, other: seq<int>, lo: nat, hi: nat, n: nat): seq<int>
    requires IsTour(own, n) && IsTour(other, n) && 1 <= lo < hi <= n - 1
  {
    var fill := Fill(own, other, lo, hi);
    FillFacts(own, other, lo, hi, n);
    fill[..lo] + other[lo..hi + 1] + fill[lo..] + [fill[0]]
  }

  /** FirstNew lists each city of s outside seg exactly once. */
  lemma {:induction false} FirstNewFacts(s: seq<int>, seg: set<int>)
    ensures Distinct(FirstNew(s, seg))
    ensures Elems(FirstNew(s, seg)) == Elems(s) - seg
    decreases |s|
  {
    if s != [] {
      var init := s[..|s| - 1];
      var x := s[|s| - 1];
      var prev := FirstNew(init, seg);
      FirstNewFacts(init, seg);
      assert s == init + [x];
      assert Elems(s) == Elems(init) + {x};
      assert Elems(prev + [x]) == Elems(prev) + {x};
    }
  }

  /** Scanning further only extends what FirstNew has listed so far. */
  lemma {:induction false} FirstNewPrefix(s: seq<int>, a: nat, b: nat, seg: set<int>)
    requires a <= b <= |s|
    ensures FirstNew(s[..a], seg) <= FirstNew(s[..b], seg)
    decreases b - a
  {
    if a < b {
      FirstNewPrefix(s, a, b - 1, seg);
      assert s[..b][..b - 1] == s[..b - 1];
    }
  }

  /** One more scanned entry adds it to the list exactly when it is new and outside seg. */
  lemma FirstNewStep(s: seq<int>, t: nat, seg: set<int>)
    requires t < |s|
    ensures FirstNew(s[..t + 1], seg)
         == if s[t] in seg || s[t] in FirstNew(s[..t], seg) then FirstNew(s[..t], seg)
            else FirstNew(s[..t], seg) + [s[t]]
  {
    assert s[..t + 1][..t] == s[..t];
  }

  /**
   * For two tours and lo < hi in [1, n-1]: the segment holds hi - lo + 1
   * distinct cities, and the fill holds exactly the remaining n - (hi - lo + 1)
   * cities, each once.
   */
  lemma FillFacts(own: seq<int>, other: seq<int>, lo: nat, hi: nat, n: nat)
    requires IsTour(own, n) && IsTour(other, n) && 1 <= lo < hi <= n - 1
    ensures SegmentCities(other, lo, hi) <= Cities(n)
    ensures |SegmentCities(other, lo, hi)| == hi - lo + 1
    ensures Distinct(Fill(own, other, lo, hi))
    ensures Elems(Fill(own, other, lo, hi)) == Cities(n) - SegmentCities(other, lo, hi)
    ensures |Fill(own, other, lo, hi)| == n - (hi - lo + 1)
  {
    var seg := SegmentCities(other, lo, hi);
    var scan := CyclicScan(own, lo + 1);
    var fill := Fill(own, other, lo, hi);
    SegmentFacts(other, lo, hi, n);
    TourCovers(own, n);
    assert Elems(scan) == Elems(own) by {
      assert own == own[..lo + 1] + own[lo + 1..];
    }
    FirstNewFacts(scan, seg);
    DistinctCard(fill);
    DifferenceCard(Cities(n), seg);
    CitiesCard(n);
  }

  /** The segment lo..hi of a tour holds hi - lo + 1 distinct cities. */
  lemma SegmentFacts(other: seq<int>, lo: nat, hi: nat, n: nat)
    requires IsTour(other, n) && 1 <= lo < hi <= n - 1
    ensures SegmentCities(other, lo, hi) <= Cities(n)
    ensures |SegmentCities(other, lo, hi)| == hi - lo + 1
  {
    TourCovers(other, n);
    DistinctSplit(other[..n], lo);
    DistinctSplit(other[..n][lo..], hi + 1 - lo);
    assert other[..n][lo..][..hi + 1 - lo] == other[lo..hi + 1];
    DistinctCard(other[lo..hi + 1]);
  }

  /** Where each city of ChildSpec comes from, position by position. */
  lemma ChildLayout(own: seq<int>, other: seq<int>, lo: nat, hi: nat, n: nat)
    requires IsTour(own, n) && IsTour(other, n) && 1 <= lo < hi <= n - 1
    ensures |Fill(own, other, lo, hi)| == n - (hi - lo + 1)
    ensures |ChildSpec(own, other, lo, hi, n)| == n + 1
    ensures forall j :: 0 <= j < lo ==> ChildSpec(own, other, lo, hi, n)[j] == Fill(own, other, lo, hi)[j]
    ensures forall j :: lo <= j <= hi ==> ChildSpec(own, other, lo, hi, n)[j] == other[j]
    ensures forall j :: hi < j < n ==>
      ChildSpec(own, other, lo, hi, n)[j] == Fill(own, other, lo, hi)[j - (hi - lo + 1)]
    ensures ChildSpec(own, other, lo, hi, n)[n] == ChildSpec(own, other, lo, hi, n)[0]
  {
    FillFacts(own, other, lo, hi, n);
  }

  /**
   * Crossover of two tours yields a tour: the segment cities and the fill
   * cities together are all n cities, each once, and the last entry repeats
   * the first. The segment positions hold the other parent's cities, and the
   * other positions below n hold exactly own's cities outside the segment.
   */
  lemma ChildIsTour(own: seq<int>, other: seq<int>, lo: nat, hi: nat, n: nat)
    requires IsTour(own, n) && IsTour(other, n) && 1 <= lo < hi <= n - 1
    ensures IsTour(ChildSpec(own, other, lo, hi, n), n)
    ensures Elems(Fill(own, other, lo, hi)) == Elems(own[..n]) - Elems(other[lo..hi + 1])
  {
    var fill := Fill(own, other, lo, hi);
    var seg := other[lo..hi + 1];
    var c := ChildSpec(own, other, lo, hi, n);
    FillFacts(own, other, lo, hi, n);
    TourCovers(own, n);
    SegmentDistinct(other, lo, hi, n);
    var body := fill[..lo] + seg + fill[lo..];
    SpliceDistinct(fill, seg, lo, n);
    assert c == body + [fill[0]];
    assert c[..n] == body;
  }

  /** The other parent's segment repeats no city. */
  lemma SegmentDistinct(other: seq<int>, lo: nat, hi: nat, n: nat)
    requires IsTour(other, n) && lo <= hi <= n - 1
    ensures Distinct(other[lo..hi + 1])
  {
    DistinctSplit(other[..n], lo);
    DistinctSplit(other[..n][lo..], hi + 1 - lo);
    assert other[..n][lo..][..hi + 1 - lo] == other[lo..hi + 1];
  }

  /** Splicing a segment into a fill, when the two share no city, gives a permutation. */
  lemma SpliceDistinct(fill: seq<int>, seg: seq<int>, lo: nat, n: nat)
    requires lo <= |fill| && |fill| + |seg| == n
    requires Distinct(fill) && Distinct(seg) && Elems(fill) !! Elems(seg)
    requires Elems(fill) <= Cities(n) && Elems(seg) <= Cities(n)
    ensures IsPermutation(fill[..lo] + seg + fill[lo..], n)
  {
    DistinctSplit(fill, lo);
    DistinctConcat(fill[..lo], seg);
    DistinctConcat(fill[..lo] + seg, fill[lo..]);
    ElemsOnCities(fill[..lo] + seg + fill[lo..], n);
  }

  /** A list whose elements are all cities below n. */
  lemma ElemsOnCities(s: seq<int>, n: nat)
    requires Elems(s) <= Cities(n)
    ensures OnCities(s, n)
  {
    forall i | 0 <= i < |s|
      ensures 0 <= s[i] < n
    {
      assert s[i] in Elems(s);
    }
  }

  /** How many positions the fill loop has written by the time it reaches position i. */
  ghost function FilledBefore(i: nat, lo: nat, hi: nat): nat
    requires lo <= hi
  {
    if i <= lo then i else if i <= hi + 1 then lo else i - (hi - lo + 1)
  }

  /**
   * The child's contents when the fill loop reaches position i: the segment
   * holds the other parent's cities, the positions before i outside the
   * segment hold the fill so far, in order, and the rest is still -1.
   */
  ghost predicate Layout(cs: seq<int>, other: seq<int>, filled: seq<int>, lo: nat, hi: nat, i: nat, n: nat)
    requires |other| == n + 1 && 1 <= lo < hi <= n - 1
  {
    && |cs| == n + 1 && i <= n
    && |filled| == FilledBefore(i, lo, hi)
    && (forall j :: lo <= j <= hi ==> cs[j] == other[j])
    && (forall j :: 0 <= j < i && j < lo ==> cs[j] == filled[j])
    && (forall j :: hi < j < i ==> cs[j] == filled[j - (hi - lo + 1)])
    && (forall j :: i <= j <= n && !(lo <= j <= hi) ==> cs[j] == -1)
  }

  /** Where the scan stands: its index into own after t steps from lo + 1. */
  function ScanIndex(lo: nat, t: nat, n: nat): nat
    requires lo + 1 <= n && t <= n
  {
    if lo + 1 + t <= n then lo + 1 + t else lo + t - n
  }

  /**
   * The scan has passed t entries: what the fill has placed is what FirstNew
   * takes from them (or from them and the entry under the scan, just placed),
   * and every passed entry is now held by the child.
   */
  ghost predicate Scanned(scan: seq<int>, seg: set<int>, filled: seq<int>, t: nat)
  {
    && t < |scan|
    && (filled == FirstNew(scan[..t], seg) || filled == FirstNew(scan[..t + 1], seg))
    && Elems(scan[..t]) <= seg + Elems(filled)
  }

  /** The placed cities never repeat and never belong to the segment. */
  lemma ScannedFacts(scan: seq<int>, seg: set<int>, filled: seq<int>, t: nat)
    requires Scanned(scan, seg, filled, t)
    ensures Distinct(filled) && Elems(filled) !! seg && Elems(filled) <= Elems(scan)
    ensures |seg + Elems(filled)| <= |seg| + |filled|
  {
    if filled == FirstNew(scan[..t], seg) {
      FirstNewFacts(scan[..t], seg);
      assert Elems(scan[..t]) <= Elems(scan);
    } else {
      FirstNewFacts(scan[..t + 1], seg);
      assert Elems(scan[..t + 1]) <= Elems(scan);
    }
    DistinctCard(filled);
    UnionCard(seg, Elems(filled));
  }

  /** Skipping an entry the child already holds keeps the scan state. */
  lemma ScanSkip(scan: seq<int>, seg: set<int>, filled: seq<int>, t: nat)
    requires Scanned(scan, seg, filled, t) && t + 1 < |scan|
    requires scan[t] in seg || scan[t] in filled
    ensures Scanned(scan, seg, filled, t + 1)
  {
    FirstNewStep(scan, t, seg);
    assert scan[..t + 1] == scan[..t] + [scan[t]];
  }

  /** Placing an entry the child does not hold yet keeps the scan state. */
  lemma ScanTake(scan: seq<int>, seg: set<int>, filled: seq<int>, t: nat)
    requires Scanned(scan, seg, filled, t)
    requires scan[t] !in seg && scan[t] !in filled
    ensures Scanned(scan, seg, filled + [scan[t]], t)
  {
    FirstNewStep(scan, t, seg);
  }

  /** At the end of the fill, the placed cities are the whole fill. */
  lemma ScanDone(scan: seq<int>, seg: set<int>, filled: seq<int>, t: nat)
    requires Scanned(scan, seg, filled, t)
    requires |filled| == |FirstNew(scan, seg)|
    ensures filled == FirstNew(scan, seg)
  {
    assert scan[..|scan|] == scan;
    FirstNewPrefix(scan, t, |scan|, seg);
    FirstNewPrefix(scan, t + 1, |scan|, seg);
  }

  /** Writing the next fill position keeps the layout. */
  lemma LayoutPlace(cs: seq<int>, other: seq<int>, filled: seq<int>, lo: nat, hi: nat, i: nat, n: nat, v: int)
    requires |other| == n + 1 && 1 <= lo < hi <= n - 1
    requires Layout(cs, other, filled, lo, hi, i, n) && i < n && !(lo <= i <= hi)
    ensures Layout(cs[i := v], other, filled + [v], lo, hi, i + 1, n)
  {
  }

  /** Stepping over a segment position keeps the layout. */
  lemma LayoutSkip(cs: seq<int>, other: seq<int>, filled: seq<int>, lo: nat, hi: nat, i: nat, n: nat)
    requires |other| == n + 1 && 1 <= lo < hi <= n - 1
    requires Layout(cs, other, filled, lo, hi, i, n) && i < n && lo <= i <= hi
    ensures Layout(cs, other, filled, lo, hi, i + 1, n)
  {
  }

  /**
   * While position i is being filled, a city of the child (a non-negative
   * entry) is either a segment city or one already placed by the fill.
   */
  lemma ChildContents(cs: seq<int>, other: seq<int>, filled: seq<int>, lo: nat, hi: nat, i: nat, n: nat)
    requires |other| == n + 1 && 1 <= lo < hi <= n - 1
    requires Layout(cs, other, filled, lo, hi, i, n)
    ensures forall x :: x >= 0 ==> (x in cs <==> x in SegmentCities(other, lo, hi) || x in filled)
  {
    var seg := other[lo..hi + 1];
    forall x | x >= 0
      ensures x in cs <==> x in SegmentCities(other, lo, hi) || x in filled
    {
      if x in cs {
        var j :| 0 <= j < |cs| && cs[j] == x;
        if lo <= j <= hi {
          assert seg[j - lo] == x;
        } else if j < i && j < lo {
          assert filled[j] == x;
        } else if hi < j < i {
          assert filled[j - (hi - lo + 1)] == x;
        }
      }
      if x in seg {
        var j :| 0 <= j < |seg| && seg[j] == x;
        assert cs[lo + j] == x;
      }
      if x in filled {
        var k :| 0 <= k < |filled| && filled[k] == x;
        if k < lo {
          assert cs[k] == x;
        } else {
          assert cs[k + (hi - lo + 1)] == x;
        }
      }
    }
  }

  /**
   * While fewer than n cities are placed, some city is still missing, and the
   * scan meets it at or after position t (everything before t is placed).
   */
  lemma MissingCity(scan: seq<int>, placed: set<int>, t: nat, n: nat) returns (pc: nat)
    requires t <= |scan| && Cities(n) <= Elems(scan)
    requires Elems(scan[..t]) <= placed && |placed| < n
    ensures t <= pc < |scan| && scan[pc] !in placed
  {
    CitiesCard(n);
    if Cities(n) <= placed {
      SubsetCard(Cities(n), placed);
    }
    var c :| c in Cities(n) && c !in placed;
    assert c in Elems(scan);
    pc :| 0 <= pc < |scan| && scan[pc] == c;
  }

  /** The scan's t-th entry is the entry of own under the source's running index. */
  lemma ScanAt(own: seq<int>, lo: nat, t: nat, n: nat)
    requires |own| == n + 1 && lo + 1 <= n && t <= n
    ensures CyclicScan(own, lo + 1)[t] == own[ScanIndex(lo, t, n)]
  {
  }

  /** Advancing the running index by one, modulo the tour size. */
  lemma ScanAdvance(lo: nat, t: nat, n: nat)
    requires lo + 1 <= n && t < n
    ensures (ScanIndex(lo, t, n) + 1) % (n + 1) == ScanIndex(lo, t + 1, n)
  {
  }

  /** The source's first loop: the other parent's segment, and -1 everywhere else. */
  method InitChild(other: seq<int>, lo: nat, hi: nat, ghost n: nat) returns (child: array<int>)
    requires |other| == n + 1 && 1 <= lo < hi <= n - 1
    ensures fresh(child)
    ensures Layout(child[..], other, [], lo, hi, 0, n)
  {
    child := new int[|other|];
    for i := 0 to |other|
      invariant forall j :: 0 <= j < i ==> child[j] == if lo <= j <= hi then other[j] else -1
    {
      child[i] := if lo <= i <= hi then other[i] else -1;
    }
  }

  /** A finished layout, closed by repeating its first city, is the crossover child. */
  lemma LayoutIsChild(cs: seq<int>, own: seq<int>, other: seq<int>, lo: nat, hi: nat, n: nat)
    requires IsTour(own, n) && IsTour(other, n) && 1 <= lo < hi <= n - 1
    requires Layout(cs, other, Fill(own, other, lo, hi), lo, hi, n, n)
    ensures cs[n := cs[0]] == ChildSpec(own, other, lo, hi, n)
  {
    ChildLayout(own, other, lo, hi, n);
    var spec := ChildSpec(own, other, lo, hi, n);
    forall j | 0 <= j <= n
      ensures cs[n := cs[0]][j] == spec[j]
    {
    }
  }

  /**
   * The source's inner scan: advance the running index, cyclically, past
   * every city the child already holds. It stops at the first city of own
   * the child lacks, which exists because some city is still missing.
   */
  method NextUnplaced(own: seq<int>, child: array<int>, index: nat, ghost lo: nat, ghost n: nat,
                      ghost seg: set<int>, ghost filled: seq<int>, ghost t: nat, ghost pc: nat)
    returns (next: nat, ghost t': nat)
    requires |own| == n + 1 && lo + 1 <= n && OnCities(own, n)
    requires forall x :: x >= 0 ==> (x in child[..] <==> x in seg || x in filled)
    requires Scanned(CyclicScan(own, lo + 1), seg, filled, t) && index == ScanIndex(lo, t, n)
    requires t <= pc < n + 1 && CyclicScan(own, lo + 1)[pc] !in seg && CyclicScan(own, lo + 1)[pc] !in filled
    ensures Scanned(CyclicScan(own, lo + 1), seg, filled, t') && next == ScanIndex(lo, t', n)
    ensures own[next] == CyclicScan(own, lo + 1)[t'] && own[next] !in seg && own[next] !in filled
  {
    ghost var scan := CyclicScan(own, lo + 1);
    next, t' := index, t;
    ScanAt(own, lo, t', n);
    while own[next] in child[..]
      invariant t' <= pc && Scanned(scan, seg, filled, t') && next == ScanIndex(lo, t', n)
      invariant own[next] == scan[t']
      decreases pc - t'
    {
      ScanSkip(scan, seg, filled, t');
      ScanAdvance(lo, t', n);
      next := (next + 1) % |own|;
      t' := t' + 1;
      ScanAt(own, lo, t', n);
    }
  }

  /**
   * One pass of the source's fill loop at a position i outside the segment:
   * scan own for the next city the child lacks and write it at i.
   */
  method FillPosition(own: seq<int>, other: seq<int>, child: array<int>, index: nat, i: nat,
                      lo: nat, hi: nat, ghost n: nat, ghost filled: seq<int>, ghost t: nat)
    returns (next: nat, ghost t': nat)
    requires |own| == n + 1 && |other| == n + 1 && 1 <= lo < hi <= n - 1
    requires OnCities(own, n) && Cities(n) <= Elems(CyclicScan(own, lo + 1))
    requires |SegmentCities(other, lo, hi)| == hi - lo + 1
    requires Layout(child[..], other, filled, lo, hi, i, n) && i < n && !(lo <= i <= hi)
    requires Scanned(CyclicScan(own, lo + 1), SegmentCities(other, lo, hi), filled, t)
    requires index == ScanIndex(lo, t, n)
    modifies child
    ensures t' <= n && next == ScanIndex(lo, t', n) && next < |own|
    ensures Layout(child[..], other, filled + [own[next]], lo, hi, i + 1, n)
    ensures Scanned(CyclicScan(own, lo + 1), SegmentCities(other, lo, hi), filled + [own[next]], t')
  {
    ghost var seg := SegmentCities(other, lo, hi);
    ghost var scan := CyclicScan(own, lo + 1);
    ChildContents(child[..], other, filled, lo, hi, i, n);
    ScannedFacts(scan, seg, filled, t);
    ghost var pc := MissingCity(scan, seg + Elems(filled), t, n);
    next, t' := NextUnplaced(own, child, index, lo, n, seg, filled, t, pc);
    ScanTake(scan, seg, filled, t');
    LayoutPlace(child[..], other, filled, lo, hi, i, n, own[next]);
    child[i] := own[next];
  }

  /**
   * The source's crossover for one child (both children are built the same
   * way with the parents' roles exchanged): copy the other parent's segment,
   * mark the rest -1, fill the marked positions below n and close the tour.
   */
  method BuildChild(own: seq<int>, other: seq<int>, lo: nat, hi: nat, ghost n: nat) returns (child: array<int>)
    requires IsTour(own, n) && IsTour(other, n) && 1 <= lo < hi <= n - 1
    ensures fresh(child)
    ensures child[..] == ChildSpec(own, other, lo, hi, n)
  {
    child := InitChild(other, lo, hi, n);
    FillChild(own, other, child, lo, hi, n);
    LayoutIsChild(child[..], own, other, lo, hi, n);
    child[|own| - 1] := child[0];
  }

  /** What the fill loop needs to know of the scan and the segment before it starts. */
  lemma ScanCovers(own: seq<int>, other: seq<int>, lo: nat, hi: nat, n: nat)
    requires IsTour(own, n) && IsTour(other, n) && 1 <= lo < hi <= n - 1
    ensures Cities(n) <= Elems(CyclicScan(own, lo + 1)) && OnCities(own, n)
    ensures |SegmentCities(other, lo, hi)| == hi - lo + 1 && |Fill(own, other, lo, hi)| == n - (hi - lo + 1)
  {
    TourCovers(own, n);
    assert own == own[..lo + 1] + own[lo + 1..];
    FillFacts(own, other, lo, hi, n);
  }

  /**
   * The crossover's fill loop: walks the positions below n, leaves the
   * segment alone and writes each other position with the next city of the
   * cyclic scan of own that the child does not hold yet.
   */
  method FillChild(own: seq<int>, other: seq<int>, child: array<int>, lo: nat, hi: nat, ghost n: nat)
    requires IsTour(own, n) && IsTour(other, n) && 1 <= lo < hi <= n - 1
    requires Layout(child[..], other, [], lo, hi, 0, n)
    modifies child
    ensures Layout(child[..], other, Fill(own, other, lo, hi), lo, hi, n, n)
  {
    ghost var seg := SegmentCities(other, lo, hi);
    ghost var scan := CyclicScan(own, lo + 1);
    ghost var filled: seq<int> := [];
    ghost var t: nat := 0;
    ScanCovers(own, other, lo, hi, n);
    var index := lo + 1;
    for i := 0 to |own| - 1
      invariant Layout(child[..], other, filled, lo, hi, i, n)
      invariant Scanned(scan, seg, filled, t) && index == ScanIndex(lo, t, n)
    {
      if lo <= i <= hi {
        LayoutSkip(child[..], other, filled, lo, hi, i, n);
      } else {
        index, t := FillPosition(own, other, child, index, i, lo, hi, n, filled, t);
        filled := filled + [own[index]];
      }
    }
    ScanDone(scan, seg, filled, t);
  }
}
