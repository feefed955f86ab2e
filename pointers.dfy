/** The driver instantiates the genomes with `City *` genes, and several
    comparisons compare those pointers where the comments speak of the
    cities' values: `operator==` on genomes (TSPGenome.h:162 and
    ListGenome.h:97), the overwrite test of the order-based crossover
    (TSPGenome.h:407 and ListGenome.h:281) and the mapping test of the
    partially-mapped crossover (TSPGenome.h:362 and ListGenome.h:236).
    The genome models compare cities by value; this module models the
    comparisons as written, over explicit addresses, and shows where the
    results differ.  The mapping test of TSPGenome.h:362 makes no
    difference: equal cities map onto themselves
    (`Tours.MapPairOfEqualGenes`).  The overwrite test of ListGenome.h:281
    makes none either: the child it scans is empty
    (`ListGenomes.ListGenome.OrderBasedCrossoverAsWritten`). */
module CityPointers {
  import opened Cities
  import opened Tours

  /** A `City *` gene: the address of a city object and the coordinates
      stored there. */
  datatype CityRef = CityRef(addr: nat, at: Point)

  /** The coordinates the genes point to. */
  function Values(s: seq<CityRef>): (r: seq<Point>)
    ensures |r| == |s|
    ensures forall k :: 0 <= k < |s| ==> r[k] == s[k].at
  {
    seq(|s|, k requires 0 <= k < |s| => s[k].at)
  }

  /** Every address of `s` lies below `base`: objects allocated from
      `base` on are new to `s`. */
  predicate Below(s: seq<CityRef>, base: nat)
  {
    forall k :: 0 <= k < |s| ==> s[k].addr < base
  }

  /** What the copy constructor makes of the genes `s`: a new city with
      the same coordinates for every gene; the new cities are given the
      addresses `base`, `base + 1`, and so on. */
  function Relocated(s: seq<CityRef>, base: nat): (r: seq<CityRef>)
    ensures |r| == |s|
    ensures forall k :: 0 <= k < |s| ==> r[k] == CityRef(base + k, s[k].at)
  {
    seq(|s|, k requires 0 <= k < |s| => CityRef(base + k, s[k].at))
  }

  /** `operator==` on genomes as written: the same length and the same
      pointer at every position. */
  predicate EqualAsWritten(t1: seq<CityRef>, t2: seq<CityRef>)
  {
    |t1| == |t2| && forall k :: 0 <= k < |t1| ==> t1[k].addr == t2[k].addr
  }

  /** One address holds one city: wherever `s` and `t` hold the same
      pointer, they see the same coordinates. */
  predicate Coherent(s: seq<CityRef>, t: seq<CityRef>)
  {
    forall i, j :: 0 <= i < |s| && 0 <= j < |t| && s[i].addr == t[j].addr ==> s[i].at == t[j].at
  }

  /** Genomes that hold the same pointers hold the same cities. */
  lemma PointersFixValues(s: seq<CityRef>, t: seq<CityRef>)
    requires Coherent(s, t) && EqualAsWritten(s, t)
    ensures Values(s) == Values(t)
  {
  }

  /** As written, a genome and its copy compare unequal unless they are
      empty, although they hold the same cities. */
  lemma CopyUnequalAsWritten(s: seq<CityRef>, base: nat)
    requires Below(s, base)
    ensures Values(Relocated(s, base)) == Values(s)
    ensures EqualAsWritten(s, Relocated(s, base)) <==> s == []
  {
    if s != [] {
      assert s[0].addr < base == Relocated(s, base)[0].addr;
    }
  }

  /** The partially-mapped crossover of `ListGenome<T>` as written
      (ListGenome.h:223-246) indexes its empty child out of range: unless
      `operator==` as written returns early, at the first position of
      `begin..end` whose genes are different pointers both lookups in the
      empty child return 0, which is not this genome's length, and
      `swap(0, 0)` follows. */
  predicate PmxFaultsAsWritten(mine: seq<CityRef>, theirs: seq<CityRef>, begin: int, end: int)
  {
    !EqualAsWritten(mine, theirs) &&
    exists pos :: begin <= pos <= end && 0 <= pos < |mine| && pos < |theirs| && mine[pos].addr != theirs[pos].addr
  }

  /** A genome crossed with its own copy: the two hold the same cities, so
      compared by value nothing is mapped, but as written every gene is a
      different pointer and the crossover faults for any non-empty
      segment. */
  lemma CopyFaultsAsWritten(s: seq<CityRef>, base: nat, begin: int, end: int)
    requires Below(s, base) && 0 <= begin <= end < |s|
    ensures Values(Relocated(s, base)) == Values(s)
    ensures PmxFaultsAsWritten(s, Relocated(s, base), begin, end)
  {
    CopyUnequalAsWritten(s, base);
    assert s[begin].addr < base <= Relocated(s, base)[begin].addr;
  }

  /** `orderBasedcrossover` as written for `City *` genes: the child is a
      copy of `theirs` in new cities from address `base` on; the early
      return compares the parents' pointers; the collected genes are
      pointers of `mine`, and so is what the overwrite test compares them
      with.  No copied gene is a collected one, so the pass matches
      nothing. */
  function OrderBasedAsWritten(mine: seq<CityRef>, theirs: seq<CityRef>, start: int, steps: seq<int>, base: nat): (child: seq<CityRef>)
    requires Below(mine, base)
    requires !EqualAsWritten(mine, theirs) ==> 0 <= start && ValidSteps(|mine|, start, steps)
    ensures Values(child) == Values(theirs)
  {
    var copied := Relocated(theirs, base);
    if EqualAsWritten(mine, theirs) then copied
    else
      var samples := Samples(mine, start, steps);
      assert forall k :: 0 <= k < |copied| ==> copied[k] !in samples;
      OverwriteWithoutMatch(copied, samples, 0);
      Overwrite(copied, samples, 0)
  }

  /** Three cities `a`, `b`, `c` in two orders.  As written, the child is
      a copy of the second parent whatever is drawn. */
  lemma OrderBasedAsWrittenCopies()
    ensures var a, b, c := Point(0, 0, 0), Point(1, 0, 0), Point(2, 0, 0);
      var mine := [CityRef(0, a), CityRef(1, b), CityRef(2, c)];
      var theirs := [CityRef(3, c), CityRef(4, b), CityRef(5, a)];
      ValidSteps(3, 0, [0, 0, 0]) &&
      Values(OrderBasedAsWritten(mine, theirs, 0, [0, 0, 0], 6)) == [c, b, a]
  {
    var a, b, c := Point(0, 0, 0), Point(1, 0, 0), Point(2, 0, 0);
    StepsCollectAll();
    var theirs := [CityRef(3, c), CityRef(4, b), CityRef(5, a)];
    assert Values(theirs) == [c, b, a];
  }

  /** Comparing the cities instead, the same parents and draws collect
      every gene of the first parent, and the child takes its order. */
  lemma OrderBasedByValueReorders()
    ensures var a, b, c := Point(0, 0, 0), Point(1, 0, 0), Point(2, 0, 0);
      ValidSteps(3, 0, [0, 0, 0]) &&
      MatchCount([c, b, a], Samples([a, b, c], 0, [0, 0, 0])) == 3 &&
      Overwrite([c, b, a], Samples([a, b, c], 0, [0, 0, 0]), 0) == [a, b, c]
  {
    var a, b, c := Point(0, 0, 0), Point(1, 0, 0), Point(2, 0, 0);
    StepsCollectAll();
    assert Samples([a, b, c], 0, [0, 0, 0]) == [a, b, c];
    ReversedOverwrite(a, b, c);
  }

  /** Overwriting the reversal of three distinct samples restores their
      order. */
  lemma ReversedOverwrite<T>(a: T, b: T, c: T)
    requires a != b && b != c && a != c
    ensures MatchCount([c, b, a], [a, b, c]) == 3
    ensures Overwrite([c, b, a], [a, b, c], 0) == [a, b, c]
  {
    var samples := [a, b, c];
    assert [c, b, a][1..] == [b, a] && [b, a][1..] == [a] && [a][1..] == [];
    assert a in samples && b in samples && c in samples;
    assert MatchCount([a], samples) == 1;
    assert MatchCount([b, a], samples) == 2;
    assert Overwrite([a], samples, 2) == [c];
    assert Overwrite([b, a], samples, 1) == [b, c];
  }

  /** The draws `[0, 0, 0]` from position 0 of three collect every
      position. */
  lemma StepsCollectAll()
    ensures ValidSteps(3, 0, [0, 0, 0])
    ensures Sampled(3, 0, [0, 0, 0]) == [0, 1, 2]
  {
    assert ValidSteps(3, 2, [0]);
    assert ValidSteps(3, 1, [0, 0]);
    assert [0, 0, 0][1..] == [0, 0] && [0, 0][1..] == [0];
  }
}
