/** Specifications of the operations that the permutation genomes perform on
    their sequence of waypoints, as functions of sequences.  The genome
    classes update their vectors in place and are proved against these. */
module Tours {

  // ---------------------------------------------------------------------
  // Positional swap and first-index lookup
  // ---------------------------------------------------------------------

  /** `s` with the contents of positions `i` and `j` exchanged. */
  function Swapped<T>(s: seq<T>, i: nat, j: nat): (r: seq<T>)
    requires i < |s| && j < |s|
    ensures |r| == |s| && r[i] == s[j] && r[j] == s[i]
    ensures forall k :: 0 <= k < |s| && k != i && k != j ==> r[k] == s[k]
  {
    s[i := s[j]][j := s[i]]
  }

  /** A swap rearranges and never adds or loses an element. */
  lemma SwappedPermutes<T>(s: seq<T>, i: nat, j: nat)
    requires i < |s| && j < |s|
    ensures multiset(Swapped(s, i, j)) == multiset(s)
  {
    var t := s[i := s[j]];
    assert multiset(t) == multiset(s) - multiset{s[i]} + multiset{s[j]};
    assert multiset(t[j := s[i]]) == multiset(t) - multiset{t[j]} + multiset{s[i]};
  }

  /** The first position of `s` that holds `x`, or `|s|` when there is none:
      the not-found sentinel is one past the end. */
  function FirstIndex<T(==)>(s: seq<T>, x: T): (r: nat)
    ensures r <= |s|
    ensures r < |s| ==> s[r] == x
    ensures forall k :: 0 <= k < r ==> s[k] != x
  {
    if s == [] then 0
    else if s[0] == x then 0
    else 1 + FirstIndex(s[1..], x)
  }

  /** The sentinel is returned exactly when the element is absent. */
  lemma FirstIndexSentinel<T>(s: seq<T>, x: T)
    ensures FirstIndex(s, x) == |s| <==> x !in s
  {
  }

  // ---------------------------------------------------------------------
  // Drawing two distinct positions (mutate, premuteClone)
  // ---------------------------------------------------------------------

  /** The draws of one "pick two distinct positions" step: the first
      position, then the draws for the second one in the order they are
      made; the step keeps drawing until a draw differs from the first. */
  datatype SwapDraw = SwapDraw(first: int, seconds: seq<int>)

  /** Some draw in `ds` differs from `d`: the retry loop exits. */
  predicate HasOther(d: int, ds: seq<int>)
  {
    exists k :: 0 <= k < |ds| && ds[k] != d
  }

  /** The index of the draw that ends the retry loop. */
  function FirstOther(d: int, ds: seq<int>): (k: nat)
    requires HasOther(d, ds)
    ensures k < |ds| && ds[k] != d
    ensures forall i :: 0 <= i < k ==> ds[i] == d
  {
    if ds[0] != d then 0
    else
      assert HasOther(d, ds[1..]) by {
        var k :| 0 <= k < |ds| && ds[k] != d;
        assert ds[1..][k - 1] == ds[k];
      }
      1 + FirstOther(d, ds[1..])
  }

  /** Every draw is `rand() % (n - 1)`, so it lies in [0, n - 2], and the
      retry loop ends within the given draws. */
  predicate ValidSwapDraw(n: int, d: SwapDraw)
  {
    n >= 2 && 0 <= d.first < n - 1 &&
    (forall k :: 0 <= k < |d.seconds| ==> 0 <= d.seconds[k] < n - 1) &&
    HasOther(d.first, d.seconds)
  }

  /** The position that the retry loop settles on. */
  function Second(d: SwapDraw): (p: int)
    requires HasOther(d.first, d.seconds)
    ensures p != d.first
  {
    d.seconds[FirstOther(d.first, d.seconds)]
  }

  /** The retry loop can end only on a genome of at least three elements:
      with two, every draw is 0 and no draw differs from the first. */
  lemma SwapDrawExistsIff(n: int)
    ensures (exists d :: ValidSwapDraw(n, d)) <==> n >= 3
  {
    if n >= 3 {
      assert [1][0] != 0;
      assert ValidSwapDraw(n, SwapDraw(0, [1]));
    }
    if exists d :: ValidSwapDraw(n, d) {
      var d :| ValidSwapDraw(n, d);
      var k := FirstOther(d.first, d.seconds);
      assert 0 <= d.seconds[k] < n - 1;
    }
  }

  /** One mutate step: swap the two distinct drawn positions. */
  function SwapStep<T>(s: seq<T>, d: SwapDraw): (r: seq<T>)
    requires ValidSwapDraw(|s|, d)
    ensures |r| == |s|
  {
    Swapped(s, d.first, Second(d))
  }

  /** A mutate step is a permutation that leaves the last element in place
      and changes exactly the two drawn positions. */
  lemma SwapStepProperties<T>(s: seq<T>, d: SwapDraw)
    requires ValidSwapDraw(|s|, d)
    ensures multiset(SwapStep(s, d)) == multiset(s)
    ensures SwapStep(s, d)[|s| - 1] == s[|s| - 1]
    ensures SwapStep(s, d)[d.first] == s[Second(d)] && SwapStep(s, d)[Second(d)] == s[d.first]
    ensures forall k :: 0 <= k < |s| && k != d.first && k != Second(d) ==> SwapStep(s, d)[k] == s[k]
  {
    SwappedPermutes(s, d.first, Second(d));
  }

  /** The draws are good for every step of a run of steps. */
  predicate ValidSwapDraws(n: int, ds: seq<SwapDraw>)
  {
    forall k :: 0 <= k < |ds| ==> ValidSwapDraw(n, ds[k])
  }

  /** The steps applied one after another, first draw first. */
  function SwapSteps<T>(s: seq<T>, ds: seq<SwapDraw>): (r: seq<T>)
    requires ValidSwapDraws(|s|, ds)
    ensures |r| == |s|
    decreases |ds|
  {
    if ds == [] then s
    else SwapSteps(SwapStep(s, ds[0]), ds[1..])
  }

  /** A run of steps is a permutation that leaves the last element fixed. */
  lemma {:induction false} SwapStepsProperties<T>(s: seq<T>, ds: seq<SwapDraw>)
    requires |s| >= 1 && ValidSwapDraws(|s|, ds)
    ensures multiset(SwapSteps(s, ds)) == multiset(s)
    ensures SwapSteps(s, ds)[|s| - 1] == s[|s| - 1]
    decreases |ds|
  {
    if ds != [] {
      var d := ds[0];
      SwappedPermutes(s, d.first, Second(d));
      SwapStepsProperties(SwapStep(s, d), ds[1..]);
    }
  }

  // ---------------------------------------------------------------------
  // Closed-tour length (evaluate)
  // ---------------------------------------------------------------------

  /** The first `k` legs of the closed tour through `s`: leg `i` runs from
      `s[i]` to the next waypoint, and the last leg back to `s[0]`. */
  function ClosedLegs<P>(s: seq<P>, dist: (P, P) -> real, k: nat): real
    requires k <= |s|
  {
    if k == 0 then 0.0
    else ClosedLegs(s, dist, k - 1) + dist(s[k - 1], if k < |s| then s[k] else s[0])
  }

  /** The score of a tour: 0 for at most one waypoint, otherwise the sum of
      all `|s|` legs, the last of which returns to the start. */
  function TourLength<P>(s: seq<P>, dist: (P, P) -> real): real
  {
    if |s| <= 1 then 0.0 else ClosedLegs(s, dist, |s|)
  }

  // ---------------------------------------------------------------------
  // Partially-mapped crossover
  // ---------------------------------------------------------------------

  /** One pair of genes `a`, `b` of the partially-mapped crossover: look up
      where the child holds `a` and where it holds `b`, and swap those two
      positions of the child, unless a lookup returned the not-found
      sentinel `|child|`. */
  function MapPair<T(==)>(child: seq<T>, a: T, b: T): (r: seq<T>)
    ensures |r| == |child|
  {
    var p1 := FirstIndex(child, a);
    var p2 := FirstIndex(child, b);
    if p1 != |child| && p2 != |child| then Swapped(child, p1, p2) else child
  }

  /** Mapping a gene onto itself changes nothing. */
  lemma MapPairOfEqualGenes<T>(child: seq<T>, a: T)
    ensures MapPair(child, a, a) == child
  {
    var p := FirstIndex(child, a);
    if p != |child| {
      assert Swapped(child, p, p) == child;
    }
  }

  /** Mapping a pair of genes rearranges the child. */
  lemma MapPairPermutes<T>(child: seq<T>, a: T, b: T)
    ensures multiset(MapPair(child, a, b)) == multiset(child)
  {
    var p1 := FirstIndex(child, a);
    var p2 := FirstIndex(child, b);
    if p1 != |child| && p2 != |child| {
      SwappedPermutes(child, p1, p2);
    }
  }

  /** Position `pos` of the partially-mapped crossover: the pair of genes
      the two parents hold there. */
  function PmxStep<T(==)>(mine: seq<T>, theirs: seq<T>, child: seq<T>, pos: nat): (r: seq<T>)
    requires pos < |mine| == |theirs| == |child|
    ensures |r| == |child|
  {
    MapPair(child, mine[pos], theirs[pos])
  }

  /** Positions `pos` to `end` inclusive, left to right; nothing happens
      when `pos > end`. */
  function PmxFrom<T(==)>(mine: seq<T>, theirs: seq<T>, child: seq<T>, pos: nat, end: int): (r: seq<T>)
    requires |mine| == |theirs| == |child| && end < |mine|
    ensures |r| == |child|
    decreases end + 1 - pos
  {
    if pos > end then child
    else PmxFrom(mine, theirs, PmxStep(mine, theirs, child, pos), pos + 1, end)
  }

  /** The child of a partially-mapped crossover is a permutation of the
      sequence it was seeded with. */
  lemma {:induction false} PmxPermutes<T>(mine: seq<T>, theirs: seq<T>, child: seq<T>, pos: nat, end: int)
    requires |mine| == |theirs| == |child| && end < |mine|
    ensures multiset(PmxFrom(mine, theirs, child, pos, end)) == multiset(child)
    decreases end + 1 - pos
  {
    if pos <= end {
      MapPairPermutes(child, mine[pos], theirs[pos]);
      PmxPermutes(mine, theirs, PmxStep(mine, theirs, child, pos), pos + 1, end);
    }
  }

  /** Where the two parents agree on the whole segment, every lookup finds
      the same position twice and the child is left as it was. */
  lemma {:induction false} PmxOfAgreeingParents<T>(mine: seq<T>, theirs: seq<T>, child: seq<T>, pos: nat, end: int)
    requires |mine| == |theirs| == |child| && end < |mine|
    requires forall k :: pos <= k <= end ==> mine[k] == theirs[k]
    ensures PmxFrom(mine, theirs, child, pos, end) == child
    decreases end + 1 - pos
  {
    if pos <= end {
      MapPairOfEqualGenes(child, mine[pos]);
      PmxOfAgreeingParents(mine, theirs, child, pos + 1, end);
    }
  }

  // ---------------------------------------------------------------------
  // Order-based crossover
  // ---------------------------------------------------------------------

  /** The draws of the sampling loop: starting at `pos`, each draw `d` is
      `rand() % (n - pos)` and moves the position on by `1 + d`; the loop
      stops, after its last draw, once the position reaches `n`. */
  predicate ValidSteps(n: int, pos: int, steps: seq<int>)
    decreases if pos < n then n - pos else 0
  {
    if pos >= n then steps == []
    else |steps| > 0 && 0 <= steps[0] < n - pos && ValidSteps(n, pos + 1 + steps[0], steps[1..])
  }

  /** The positions the sampling loop records: `pos` first, each next one
      strictly larger, all of them below `n`, one per draw. */
  function Sampled(n: int, pos: int, steps: seq<int>): (ps: seq<int>)
    requires ValidSteps(n, pos, steps)
    ensures |ps| == |steps|
    ensures pos < n ==> |ps| > 0 && ps[0] == pos
    ensures forall k :: 0 <= k < |ps| ==> pos <= ps[k] < n
    ensures forall i, j :: 0 <= i < j < |ps| ==> ps[i] < ps[j]
    decreases if pos < n then n - pos else 0
  {
    if pos >= n then []
    else [pos] + Sampled(n, pos + 1 + steps[0], steps[1..])
  }

  /** The genes of `s` at the positions `ps`, in that order. */
  function Pick<T>(s: seq<T>, ps: seq<int>): (r: seq<T>)
    requires forall k :: 0 <= k < |ps| ==> 0 <= ps[k] < |s|
    ensures |r| == |ps|
    ensures forall k :: 0 <= k < |ps| ==> r[k] == s[ps[k]]
  {
    seq(|ps|, k requires 0 <= k < |ps| => s[ps[k]])
  }

  /** How many elements of `s` are among the samples. */
  function MatchCount<T(==)>(s: seq<T>, samples: seq<T>): nat
  {
    if s == [] then 0
    else (if s[0] in samples then 1 else 0) + MatchCount(s[1..], samples)
  }

  /** The overwrite pass, left to right, over `s` when `c` samples have
      already been used (`c` plays the source's `c_pos`): a position that
      holds one of the samples gets the next sample in collection order and
      `c` moves on by one; the other positions are kept.  Every match uses
      up a sample, so enough samples must be left. */
  function Overwrite<T(==)>(s: seq<T>, samples: seq<T>, c: nat): (r: seq<T>)
    requires c + MatchCount(s, samples) <= |samples|
    ensures |r| == |s|
  {
    if s == [] then []
    else if s[0] in samples then [samples[c]] + Overwrite(s[1..], samples, c + 1)
    else [s[0]] + Overwrite(s[1..], samples, c)
  }

  /** What the pass writes at a position holding `x` when `c` samples
      have been used. */
  function Replacement<T(==)>(x: T, samples: seq<T>, c: nat): T
    requires x in samples ==> c < |samples|
  {
    if x in samples then samples[c] else x
  }

  /** How many samples have been used after a position holding `x`. */
  function Advance<T(==)>(x: T, samples: seq<T>, c: nat): nat
  {
    if x in samples then c + 1 else c
  }

  /** One position of the pass: the first element is replaced, and the
      pass goes on over the rest. */
  lemma OverwriteCons<T>(s: seq<T>, samples: seq<T>, c: nat)
    requires s != [] && c + MatchCount(s, samples) <= |samples|
    ensures s[0] in samples ==> c < |samples|
    ensures Advance(s[0], samples, c) + MatchCount(s[1..], samples) == c + MatchCount(s, samples)
    ensures Overwrite(s, samples, c) ==
      [Replacement(s[0], samples, c)] + Overwrite(s[1..], samples, Advance(s[0], samples, c))
  {
  }

  /** The pass carried out in place up to position `cit`, with `c`
      samples used: one more position keeps that relation.  `before` is
      the sequence being overwritten, `after` the same after the update of
      position `cit`. */
  lemma OverwriteInPlaceStep<T>(seed: seq<T>, samples: seq<T>, c: nat, cit: nat, before: seq<T>, after: seq<T>)
    requires cit < |seed| == |before| && MatchCount(seed, samples) <= |samples|
    requires before[cit..] == seed[cit..]
    requires c + MatchCount(seed[cit..], samples) <= |samples|
    requires Overwrite(seed, samples, 0) == before[..cit] + Overwrite(seed[cit..], samples, c)
    requires seed[cit] in samples ==> c < |samples|
    requires after == before[cit := Replacement(seed[cit], samples, c)]
    ensures after[cit + 1..] == seed[cit + 1..]
    ensures Advance(seed[cit], samples, c) + MatchCount(seed[cit + 1..], samples) <= |samples|
    ensures Overwrite(seed, samples, 0) ==
      after[..cit + 1] + Overwrite(seed[cit + 1..], samples, Advance(seed[cit], samples, c))
  {
    var rest := seed[cit..];
    OverwriteCons(rest, samples, c);
    var r := Replacement(seed[cit], samples, c);
    var a := Advance(seed[cit], samples, c);
    assert rest[0] == seed[cit] && rest[1..] == seed[cit + 1..];
    assert after[cit + 1..] == before[cit..][1..];
    assert after[..cit + 1] == before[..cit] + [r];
    calc {
      Overwrite(seed, samples, 0);
      before[..cit] + Overwrite(rest, samples, c);
      before[..cit] + ([r] + Overwrite(rest[1..], samples, a));
      (before[..cit] + [r]) + Overwrite(seed[cit + 1..], samples, a);
    }
  }

  /** The samples the pass writes, in the order it writes them. */
  function Used<T(==)>(s: seq<T>, samples: seq<T>, c: nat): (r: seq<T>)
    requires c + MatchCount(s, samples) <= |samples|
  {
    if s == [] then []
    else if s[0] in samples then [samples[c]] + Used(s[1..], samples, c + 1)
    else Used(s[1..], samples, c)
  }

  /** The elements of `s` that are among the samples, in order. */
  function Filter<T(==)>(s: seq<T>, samples: seq<T>): (r: seq<T>)
  {
    if s == [] then []
    else (if s[0] in samples then [s[0]] else []) + Filter(s[1..], samples)
  }

  /** The elements of `s` that are not among the samples, in order. */
  function Unmatched<T(==)>(s: seq<T>, samples: seq<T>): (r: seq<T>)
  {
    if s == [] then []
    else (if s[0] in samples then [] else [s[0]]) + Unmatched(s[1..], samples)
  }

  /** The pass position by position: position `k` is overwritten exactly
      when it holds a sample, and then with the sample that follows the
      ones the matches before `k` used. */
  lemma {:induction false} OverwriteAt<T>(s: seq<T>, samples: seq<T>, c: nat, k: nat)
    requires c + MatchCount(s, samples) <= |samples| && k < |s|
    ensures s[k] in samples ==> c + MatchCount(s[..k], samples) < |samples|
    ensures Overwrite(s, samples, c)[k] ==
      if s[k] in samples then samples[c + MatchCount(s[..k], samples)] else s[k]
    decreases k
  {
    if k == 0 {
      assert s[..k] == [];
    } else if s[0] in samples {
      OverwriteAtMatch(s, samples, c, k);
    } else {
      OverwriteAtKeep(s, samples, c, k);
    }
  }

  /** `OverwriteAt` past a first element that is a sample. */
  lemma {:induction false} OverwriteAtMatch<T>(s: seq<T>, samples: seq<T>, c: nat, k: nat)
    requires c + MatchCount(s, samples) <= |samples| && 0 < k < |s| && s[0] in samples
    ensures s[k] in samples ==> c + MatchCount(s[..k], samples) < |samples|
    ensures Overwrite(s, samples, c)[k] ==
      if s[k] in samples then samples[c + MatchCount(s[..k], samples)] else s[k]
    decreases k, 0
  {
    OverwriteAt(s[1..], samples, c + 1, k - 1);
    assert s[..k][1..] == s[1..][..k - 1];
  }

  /** `OverwriteAt` past a first element that is not a sample. */
  lemma {:induction false} OverwriteAtKeep<T>(s: seq<T>, samples: seq<T>, c: nat, k: nat)
    requires c + MatchCount(s, samples) <= |samples| && 0 < k < |s| && s[0] !in samples
    ensures s[k] in samples ==> c + MatchCount(s[..k], samples) < |samples|
    ensures Overwrite(s, samples, c)[k] ==
      if s[k] in samples then samples[c + MatchCount(s[..k], samples)] else s[k]
    decreases k, 0
  {
    OverwriteAt(s[1..], samples, c, k - 1);
    assert s[..k][1..] == s[1..][..k - 1];
  }

  /** Without a match, the pass changes nothing. */
  lemma {:induction false} OverwriteWithoutMatch<T>(s: seq<T>, samples: seq<T>, c: nat)
    requires c <= |samples|
    requires forall k :: 0 <= k < |s| ==> s[k] !in samples
    ensures MatchCount(s, samples) == 0
    ensures Overwrite(s, samples, c) == s
  {
    if s != [] {
      OverwriteWithoutMatch(s[1..], samples, c);
    }
  }

  /** The samples the pass uses are the next ones in collection order. */
  lemma {:induction false} UsedInOrder<T>(s: seq<T>, samples: seq<T>, c: nat)
    requires c + MatchCount(s, samples) <= |samples|
    ensures Used(s, samples, c) == samples[c..c + MatchCount(s, samples)]
    decreases |s|, 1
  {
    if s == [] {
      assert samples[c..c] == [];
    } else if s[0] in samples {
      UsedInOrderMatch(s, samples, c);
    } else {
      UsedInOrder(s[1..], samples, c);
    }
  }

  /** `UsedInOrder` past a first element that is a sample. */
  lemma {:induction false} UsedInOrderMatch<T>(s: seq<T>, samples: seq<T>, c: nat)
    requires s != [] && s[0] in samples && c + MatchCount(s, samples) <= |samples|
    ensures Used(s, samples, c) == samples[c..c + MatchCount(s, samples)]
    decreases |s|, 0
  {
    UsedInOrder(s[1..], samples, c + 1);
    SliceCons(samples, c, c + MatchCount(s, samples));
  }

  /** A non-empty slice is its first element followed by the rest. */
  lemma SliceCons<T>(s: seq<T>, i: nat, j: nat)
    requires i < j <= |s|
    ensures s[i..j] == [s[i]] + s[i + 1..j]
  {
  }

  /** The pass imposes the samples' order: read at the positions that hold
      samples, the result is the samples used, in collection order. */
  lemma {:induction false} OverwriteImposesOrder<T>(s: seq<T>, samples: seq<T>, c: nat)
    requires c + MatchCount(s, samples) <= |samples|
    ensures Filter(Overwrite(s, samples, c), samples) == samples[c..c + MatchCount(s, samples)]
  {
    FilterOfOverwrite(s, samples, c);
    UsedInOrder(s, samples, c);
  }

  /** The samples of the result are the samples used. */
  lemma {:induction false} FilterOfOverwrite<T>(s: seq<T>, samples: seq<T>, c: nat)
    requires c + MatchCount(s, samples) <= |samples|
    ensures Filter(Overwrite(s, samples, c), samples) == Used(s, samples, c)
    decreases |s|, 1
  {
    if s != [] {
      if s[0] in samples {
        FilterOfOverwriteMatch(s, samples, c);
      } else {
        FilterOfOverwriteKeep(s, samples, c);
      }
    }
  }

  /** `FilterOfOverwrite` past a first element that is a sample. */
  lemma {:induction false} FilterOfOverwriteMatch<T>(s: seq<T>, samples: seq<T>, c: nat)
    requires s != [] && s[0] in samples && c + MatchCount(s, samples) <= |samples|
    ensures Filter(Overwrite(s, samples, c), samples) == Used(s, samples, c)
    decreases |s|, 0
  {
    FilterOfOverwrite(s[1..], samples, c + 1);
    var o := Overwrite(s, samples, c);
    assert o[0] == samples[c] && o[1..] == Overwrite(s[1..], samples, c + 1);
  }

  /** `FilterOfOverwrite` past a first element that is not a sample. */
  lemma {:induction false} FilterOfOverwriteKeep<T>(s: seq<T>, samples: seq<T>, c: nat)
    requires s != [] && s[0] !in samples && c + MatchCount(s, samples) <= |samples|
    ensures Filter(Overwrite(s, samples, c), samples) == Used(s, samples, c)
    decreases |s|, 0
  {
    FilterOfOverwrite(s[1..], samples, c);
    var o := Overwrite(s, samples, c);
    assert o[0] == s[0] && o[1..] == Overwrite(s[1..], samples, c);
  }

  /** A sequence splits into its matched and its unmatched elements. */
  lemma {:induction false} FilterSplits<T>(s: seq<T>, samples: seq<T>)
    ensures multiset(s) == multiset(Filter(s, samples)) + multiset(Unmatched(s, samples))
    ensures |Filter(s, samples)| == MatchCount(s, samples)
    decreases |s|, 1
  {
    if s != [] {
      if s[0] in samples {
        FilterSplitsMatch(s, samples);
      } else {
        FilterSplitsKeep(s, samples);
      }
    }
  }

  /** `FilterSplits` past a first element that is a sample. */
  lemma {:induction false} FilterSplitsMatch<T>(s: seq<T>, samples: seq<T>)
    requires s != [] && s[0] in samples
    ensures multiset(s) == multiset(Filter(s, samples)) + multiset(Unmatched(s, samples))
    ensures |Filter(s, samples)| == MatchCount(s, samples)
    decreases |s|, 0
  {
    FilterSplits(s[1..], samples);
    assert Filter(s, samples) == [s[0]] + Filter(s[1..], samples);
    assert Unmatched(s, samples) == Unmatched(s[1..], samples);
    PrependToMultisetSum(s, s[1..], Unmatched(s[1..], samples), Filter(s[1..], samples),
      Unmatched(s, samples), Filter(s, samples), s[0]);
  }

  /** `FilterSplits` past a first element that is not a sample. */
  lemma {:induction false} FilterSplitsKeep<T>(s: seq<T>, samples: seq<T>)
    requires s != [] && s[0] !in samples
    ensures multiset(s) == multiset(Filter(s, samples)) + multiset(Unmatched(s, samples))
    ensures |Filter(s, samples)| == MatchCount(s, samples)
    decreases |s|, 0
  {
    FilterSplits(s[1..], samples);
    assert Filter(s, samples) == Filter(s[1..], samples);
    assert Unmatched(s, samples) == [s[0]] + Unmatched(s[1..], samples);
    PrependToMultisetSum(s, s[1..], Filter(s[1..], samples), Unmatched(s[1..], samples),
      Filter(s, samples), Unmatched(s, samples), s[0]);
  }

  /** A sample occurs as often among the matched elements as in `s`; any
      other value does not occur there. */
  lemma {:induction false} FilterCount<T>(s: seq<T>, samples: seq<T>, x: T)
    ensures multiset(Filter(s, samples))[x] == if x in samples then multiset(s)[x] else 0
  {
    if s != [] {
      FilterCount(s[1..], samples, x);
      assert s == [s[0]] + s[1..];
    }
  }

  /** The pass keeps the unmatched elements and writes the samples it uses
      in place of the matched ones. */
  lemma {:induction false} OverwriteContents<T>(s: seq<T>, samples: seq<T>, c: nat)
    requires c + MatchCount(s, samples) <= |samples|
    ensures multiset(Overwrite(s, samples, c)) ==
            multiset(Unmatched(s, samples)) + multiset(Used(s, samples, c))
    decreases |s|, 1
  {
    if s != [] {
      if s[0] in samples {
        OverwriteContentsMatch(s, samples, c);
      } else {
        OverwriteContentsKeep(s, samples, c);
      }
    }
  }

  /** `OverwriteContents` past a first element that is a sample. */
  lemma {:induction false} OverwriteContentsMatch<T>(s: seq<T>, samples: seq<T>, c: nat)
    requires s != [] && s[0] in samples && c + MatchCount(s, samples) <= |samples|
    ensures multiset(Overwrite(s, samples, c)) ==
            multiset(Unmatched(s, samples)) + multiset(Used(s, samples, c))
    decreases |s|, 0
  {
    var rest := s[1..];
    OverwriteContents(rest, samples, c + 1);
    PrependToMultisetSum(Overwrite(s, samples, c), Overwrite(rest, samples, c + 1),
      Unmatched(rest, samples), Used(rest, samples, c + 1),
      Unmatched(s, samples), Used(s, samples, c), samples[c]);
  }

  /** `OverwriteContents` past a first element that is not a sample. */
  lemma {:induction false} OverwriteContentsKeep<T>(s: seq<T>, samples: seq<T>, c: nat)
    requires s != [] && s[0] !in samples && c + MatchCount(s, samples) <= |samples|
    ensures multiset(Overwrite(s, samples, c)) ==
            multiset(Unmatched(s, samples)) + multiset(Used(s, samples, c))
    decreases |s|, 0
  {
    var rest := s[1..];
    OverwriteContents(rest, samples, c);
    PrependToMultisetSum(Overwrite(s, samples, c), Overwrite(rest, samples, c),
      Unmatched(rest, samples), Used(rest, samples, c),
      Unmatched(s, samples), Used(s, samples, c), s[0]);
  }

  /** Multiset bookkeeping for one element put in front, stated on the
      exact terms of its callers. */
  lemma PrependToMultisetSum<T>(whole: seq<T>, o: seq<T>, a: seq<T>, b: seq<T>, left: seq<T>, right: seq<T>, v: T)
    requires multiset(o) == multiset(a) + multiset(b)
    requires whole == [v] + o
    requires (left == a && right == [v] + b) || (left == [v] + a && right == b)
    ensures multiset(whole) == multiset(left) + multiset(right)
  {
  }

  /** When the samples are distinct and each of them occurs exactly once in
      `s`, the pass from the first sample on uses every sample and only
      rearranges `s`. */
  lemma OverwritePermutes<T>(s: seq<T>, samples: seq<T>)
    requires Distinct(samples)
    requires forall i :: 0 <= i < |samples| ==> multiset(s)[samples[i]] == 1
    ensures MatchCount(s, samples) == |samples|
    ensures multiset(Overwrite(s, samples, 0)) == multiset(s)
  {
    FilterSplits(s, samples);
    FilterIsSamples(s, samples);
    var f := Filter(s, samples);
    assert |f| == |multiset(f)| == |multiset(samples)| == |samples|;
    OverwriteContents(s, samples, 0);
    UsedInOrder(s, samples, 0);
    assert samples[0..|samples|] == samples;
    TwoSplits(Overwrite(s, samples, 0), s, Unmatched(s, samples), Used(s, samples, 0), f, samples);
  }

  /** Multiset bookkeeping of `OverwritePermutes`, on plain sequences. */
  lemma TwoSplits<T>(o: seq<T>, s: seq<T>, u: seq<T>, used: seq<T>, f: seq<T>, samples: seq<T>)
    requires multiset(o) == multiset(u) + multiset(used)
    requires multiset(s) == multiset(f) + multiset(u)
    requires used == samples && multiset(f) == multiset(samples)
    ensures multiset(o) == multiset(s)
  {
  }

  /** Under the same conditions the matched elements are the samples. */
  lemma FilterIsSamples<T>(s: seq<T>, samples: seq<T>)
    requires Distinct(samples)
    requires forall i :: 0 <= i < |samples| ==> multiset(s)[samples[i]] == 1
    ensures multiset(Filter(s, samples)) == multiset(samples)
  {
    var f := Filter(s, samples);
    forall x ensures multiset(f)[x] == multiset(samples)[x] {
      FilterCount(s, samples, x);
      DistinctCount(samples, x);
      if x in samples {
        var i :| 0 <= i < |samples| && samples[i] == x;
        assert multiset(s)[x] == 1;
      }
    }
    MultisetsEqual(f, samples);
  }

  /** Two sequences with the same count of every value are permutations of
      each other. */
  lemma MultisetsEqual<T>(a: seq<T>, b: seq<T>)
    requires forall x :: multiset(a)[x] == multiset(b)[x]
    ensures multiset(a) == multiset(b)
  {
  }

  /** In a sequence of distinct elements every element occurs once. */
  lemma {:induction false} DistinctCount<T>(s: seq<T>, x: T)
    requires Distinct(s)
    ensures multiset(s)[x] == if x in s then 1 else 0
  {
    if s != [] {
      DistinctCount(s[1..], x);
      assert s == [s[0]] + s[1..];
    }
  }

  // ---------------------------------------------------------------------
  // The order-based crossover as a whole
  // ---------------------------------------------------------------------

  /** No element occurs twice. */
  predicate Distinct<T(==)>(s: seq<T>)
  {
    forall i, j :: 0 <= i < j < |s| ==> s[i] != s[j]
  }

  /** The genes that the sampling loop collects from `mine`. */
  function Samples<T>(mine: seq<T>, start: int, steps: seq<int>): (r: seq<T>)
    requires 0 <= start && ValidSteps(|mine|, start, steps)
    ensures |r| == |steps|
  {
    Pick(mine, Sampled(|mine|, start, steps))
  }

  /** The state of the sampling loop after `k` draws: it stands at `pos`,
      has recorded `positions` and collected the genes `temp` there, and
      the rest of the draws record the rest of the positions. */
  ghost predicate SamplingAt<T>(s: seq<T>, start: int, steps: seq<int>, k: int, pos: int, positions: seq<int>, temp: seq<T>)
  {
    0 <= start && ValidSteps(|s|, start, steps) && 0 <= k <= |steps| && 0 <= pos &&
    ValidSteps(|s|, pos, steps[k..]) &&
    positions + Sampled(|s|, pos, steps[k..]) == Sampled(|s|, start, steps) &&
    (forall j :: 0 <= j < |positions| ==> 0 <= positions[j] < |s|) &&
    temp == Pick(s, positions)
  }

  lemma SamplingBegins<T>(s: seq<T>, start: int, steps: seq<int>)
    requires 0 <= start && ValidSteps(|s|, start, steps)
    ensures SamplingAt(s, start, steps, 0, start, [], [])
  {
    assert steps[0..] == steps;
  }

  /** One round of the sampling loop: record `pos`, collect its gene and
      move on by one plus the draw. */
  lemma SamplingStep<T>(s: seq<T>, start: int, steps: seq<int>, k: int, pos: int, positions: seq<int>, temp: seq<T>)
    requires SamplingAt(s, start, steps, k, pos, positions, temp) && pos < |s|
    ensures k < |steps| && 0 <= steps[k] < |s| - pos
    ensures SamplingAt(s, start, steps, k + 1, pos + 1 + steps[k], positions + [pos], temp + [s[pos]])
  {
    var rest := steps[k..];
    assert rest[1..] == steps[k + 1..];
    var next := pos + 1 + steps[k];
    assert Sampled(|s|, pos, rest) == [pos] + Sampled(|s|, next, rest[1..]);
    assert (positions + [pos]) + Sampled(|s|, next, rest[1..]) == positions + Sampled(|s|, pos, rest);
    var picked := Pick(s, positions + [pos]);
    assert picked == temp + [s[pos]] by {
      assert |picked| == |temp| + 1;
      forall j | 0 <= j < |picked| ensures picked[j] == (temp + [s[pos]])[j] {
        if j < |temp| {
          assert (positions + [pos])[j] == positions[j];
        }
      }
    }
  }

  /** Once the position has run past the end, all draws are used and the
      collected genes are the samples. */
  lemma SamplingDone<T>(s: seq<T>, start: int, steps: seq<int>, k: int, pos: int, positions: seq<int>, temp: seq<T>)
    requires SamplingAt(s, start, steps, k, pos, positions, temp) && pos >= |s|
    ensures temp == Samples(s, start, steps)
  {
    assert positions == Sampled(|s|, start, steps);
  }

  /** Genes taken from a genome without repeated elements at strictly
      increasing positions are distinct. */
  lemma SamplesDistinct<T>(mine: seq<T>, start: int, steps: seq<int>)
    requires 0 <= start && ValidSteps(|mine|, start, steps) && Distinct(mine)
    ensures Distinct(Samples(mine, start, steps))
  {
    var ps := Sampled(|mine|, start, steps);
    var r := Samples(mine, start, steps);
    forall i, j | 0 <= i < j < |r| ensures r[i] != r[j] {
      assert ps[i] < ps[j];
    }
  }

  /** When `mine` holds no element twice and `theirs` is a permutation of
      it, every sample occurs exactly once in `theirs`: the overwrite pass
      uses up all samples and its result is a permutation of `theirs`. */
  lemma OrderBasedPermutes<T>(mine: seq<T>, theirs: seq<T>, start: int, steps: seq<int>)
    requires 0 <= start && ValidSteps(|mine|, start, steps)
    requires Distinct(mine) && multiset(theirs) == multiset(mine)
    ensures MatchCount(theirs, Samples(mine, start, steps)) == |steps|
    ensures multiset(Overwrite(theirs, Samples(mine, start, steps), 0)) == multiset(theirs)
  {
    var samples := Samples(mine, start, steps);
    var ps := Sampled(|mine|, start, steps);
    SamplesDistinct(mine, start, steps);
    forall i | 0 <= i < |samples| ensures multiset(theirs)[samples[i]] == 1 {
      assert samples[i] == mine[ps[i]];
      DistinctCount(mine, samples[i]);
    }
    OverwritePermutes(theirs, samples);
  }
}
