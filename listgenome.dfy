/** The generic list genome (ListGenome.h) together with the
    travelling-salesperson genome built on it (TSPGenome_list.h), as one
    class: `ListGenome<T>` holds the vector, `TSPGenome<T>` adds
    `num_citys`.  A crossover's child is a bare `ListGenome<T>`, which has
    no `num_citys`; the model gives it the value 0.

    As written, the copy constructor of `ListGenome<T>` walks the new
    object's own empty vector, so it copies nothing, and both crossovers
    start from that empty copy of the second parent.  `BaseCopy` and the
    `...AsWritten` crossovers model that; the crossovers the rest of the
    model uses, `PartialMapCrossover` and `OrderBasedCrossover`, seed the
    child with the copy evidently intended, `SeedCopy`.  The derived copy
    constructor (`Copy`) appends copies onto what the base hands it, so it
    is correct as written precisely because the base hands it nothing. */
module ListGenomes {
  import opened Cities
  import opened Tours
  import TSPGenomes
  import CityPointers

  /** `LIST_CROSSOVER_TYPE` selects the crossover; config.h defines
      neither it nor `PARTIAL_MAPPED`, so the selection is a parameter and
      this is the value that selects the partially-mapped one. */
  const PartialMapped := 0

  class ListGenome {
    /** `Genome::genome_score` and `Genome::genome_fitness`. */
    var score: real
    var fitness: real
    /** `TSPGenome<T>::num_citys`. */
    var numCitys: int
    /** `ListGenome<T>::genome_vec`. */
    var genes: seq<Point>

    /** `ListGenome()` and `TSPGenome()`: no cities. */
    constructor ()
      ensures numCitys == 0 && genes == []
    {
      numCitys := 0;
      genes := [];
    }

    /** `TSPGenome(int)`: no cities yet, `initialize` creates them. */
    constructor WithSize(inNumCitys: int)
      ensures numCitys == inNumCitys && genes == []
    {
      numCitys := inNumCitys;
      genes := [];
    }

    /** The copy constructor of `ListGenome<T>` as written: the loop runs
        over the new, empty vector instead of `other`'s, so it does nothing
        and the copy holds no cities, whatever `other` holds; `Genome()`
        leaves the score and the fitness uninitialised. */
    constructor BaseCopy(other: ListGenome)
      ensures genes == [] && numCitys == 0
    {
      numCitys := 0;
      genes := [];
    }

    /** The copy of `other`'s cities that the `ListGenome<T>` copy
        constructor is evidently meant to make, as the crossovers' child. */
    constructor SeedCopy(other: ListGenome)
      ensures genes == other.genes && numCitys == 0
    {
      numCitys := 0;
      var copies: seq<Point> := [];
      var i := 0;
      while i < |other.genes|
        invariant 0 <= i <= |other.genes| && copies == other.genes[..i]
      {
        copies := copies + [other.genes[i]];
        i := i + 1;
      }
      genes := copies;
    }

    /** The copy constructor of `TSPGenome<T>`: the base hands over an
        empty vector, `num_citys` is copied, and a new city at the same
        coordinates is appended for each of `other`'s cities.  Neither
        base copies the score or the fitness. */
    constructor Copy(other: ListGenome)
      ensures genes == other.genes && numCitys == other.numCitys
    {
      numCitys := other.numCitys;
      genes := [];
      new;
      var i := 0;
      while i < |other.genes|
        invariant 0 <= i <= |other.genes| && genes == other.genes[..i]
        invariant numCitys == other.numCitys
      {
        genes := genes + [other.genes[i]];
        i := i + 1;
      }
      assert other.genes[..i] == other.genes;
    }

    // -------------------------------------------------------------------
    // The Genome base class (Genome.cpp)
    // -------------------------------------------------------------------

    /** `setScore`: only the score changes. */
    method SetScore(s: real)
      modifies this
      ensures score == s && fitness == old(fitness)
      ensures genes == old(genes) && numCitys == old(numCitys)
    {
      score := s;
    }

    /** `Genome::copy`: takes over both the score and the fitness. */
    method CopyScores(orig: ListGenome)
      modifies this
      ensures score == orig.score && fitness == orig.fitness
      ensures genes == old(genes) && numCitys == old(numCitys)
    {
      score := orig.score;
      fitness := orig.fitness;
    }

    // -------------------------------------------------------------------
    // Building, copying and cloning (TSPGenome_list.h)
    // -------------------------------------------------------------------

    /** `addToGenome`: appends the city to the vector (the source names an
        undeclared `genome`; `genome_vec` is evidently meant).  It lives in
        the base, which knows nothing of `num_citys`. */
    method AddToGenome(item: Point)
      modifies this
      ensures genes == old(genes) + [item]
      ensures numCitys == old(numCitys) && score == old(score) && fitness == old(fitness)
    {
      genes := genes + [item];
    }

    /** `copy`: appends a copy of each of `orig`'s cities; unlike the
        genome of TSPGenome.h, `num_citys` stays as it was. */
    method CopyCities(orig: ListGenome)
      requires orig != this
      modifies this
      ensures genes == old(genes) + orig.genes
      ensures numCitys == old(numCitys) && score == old(score) && fitness == old(fitness)
    {
      var i := 0;
      while i < |orig.genes|
        invariant 0 <= i <= |orig.genes|
        invariant genes == old(genes) + orig.genes[..i]
        invariant numCitys == old(numCitys) && score == old(score) && fitness == old(fitness)
      {
        AddToGenome(orig.genes[i]);
        i := i + 1;
      }
      assert orig.genes[..i] == orig.genes;
    }

    /** `clone`: a new genome with this one's score, fitness and cities;
        its `num_citys` is the 0 of the default constructor. */
    method Clone() returns (g: ListGenome)
      ensures fresh(g)
      ensures g.genes == genes && g.score == score && g.fitness == fitness
      ensures g.numCitys == 0
    {
      g := new ListGenome();
      g.CopyScores(this);
      g.CopyCities(this);
    }

    /** `premuteClone`: a clone on which, once per city, two distinct
        positions are drawn in [0, n - 2] and swapped; `draws` holds the
        draws of each round.  The result is a permutation of this genome
        with the last city in place (`Tours.SwapStepsProperties`). */
    method PremuteClone(draws: seq<SwapDraw>) returns (g: ListGenome)
      requires |draws| == |genes| && ValidSwapDraws(|genes|, draws)
      ensures fresh(g)
      ensures g.genes == SwapSteps(genes, draws)
      ensures g.score == score && g.fitness == fitness && g.numCitys == 0
    {
      g := new ListGenome();
      g.CopyScores(this);
      g.CopyCities(this);
      assert g.genes == genes;
      g.Premute(draws);
    }

    /** The permuting loop of `premuteClone`, run on the new genome. */
    method Premute(draws: seq<SwapDraw>)
      requires |draws| == |genes| && ValidSwapDraws(|genes|, draws)
      modifies this
      ensures genes == SwapSteps(old(genes), draws)
      ensures score == old(score) && fitness == old(fitness) && numCitys == old(numCitys)
    {
      assert draws[0..] == draws;
      var i := 0;
      while i < |genes|
        invariant 0 <= i <= |genes| == |draws|
        invariant ValidSwapDraws(|genes|, draws[i..])
        invariant SwapSteps(genes, draws[i..]) == SwapSteps(old(genes), draws)
        invariant score == old(score) && fitness == old(fitness) && numCitys == old(numCitys)
      {
        var d := draws[i];
        var randIndex1 := d.first;
        var randIndex2 := TSPGenomes.DrawDifferent(d);
        assert draws[i..][1..] == draws[i + 1..];
        Swap(randIndex1, randIndex2);
        i := i + 1;
      }
    }

    /** `evaluate`: the score becomes the closed-tour length under `dist`:
        0 for at most one city, otherwise every leg including the one back
        to the first city.  Nothing else changes. */
    method Evaluate(dist: (Point, Point) -> real)
      modifies this
      ensures score == TourLength(genes, dist)
      ensures genes == old(genes) && fitness == old(fitness) && numCitys == old(numCitys)
    {
      var total := 0.0;
      if |genes| <= 1 {
        SetScore(0.0);
        return;
      }
      var i := 0;
      while i < |genes| - 1
        invariant 0 <= i <= |genes| - 1
        invariant total == ClosedLegs(genes, dist, i)
      {
        total := total + dist(genes[i], genes[i + 1]);
        i := i + 1;
      }
      total := total + dist(genes[i], genes[0]);
      SetScore(total);
    }

    /** `initialize`: appends `num_citys` new cities made by the default
        constructor; `draws` holds the three `rand()` draws of each. */
    method Initialize(draws: seq<(nat, nat, nat)>)
      requires |draws| == if numCitys > 0 then numCitys else 0
      modifies this
      ensures genes == old(genes) + RandomPoints(draws)
      ensures numCitys == old(numCitys) && score == old(score) && fitness == old(fitness)
    {
      var i := 0;
      while i < numCitys
        invariant 0 <= i <= |draws|
        invariant genes == old(genes) + RandomPoints(draws[..i])
        invariant numCitys == old(numCitys) && score == old(score) && fitness == old(fitness)
      {
        var c := new City.Random(draws[i].0, draws[i].1, draws[i].2);
        assert RandomPoints(draws[..i + 1]) == RandomPoints(draws[..i]) + [c.Coords()];
        genes := genes + [c.Coords()];
        i := i + 1;
      }
      assert draws[..i] == draws;
    }

    /** `CheckForCity`: whether some position holds the city. */
    method CheckForCity(city: Point) returns (found: bool)
      ensures found <==> city in genes
    {
      var i := 0;
      while i < |genes|
        invariant 0 <= i <= |genes|
        invariant city !in genes[..i]
      {
        if genes[i] == city {
          return true;
        }
        assert genes[..i + 1] == genes[..i] + [genes[i]];
        i := i + 1;
      }
      assert genes[..i] == genes;
      return false;
    }

    // -------------------------------------------------------------------
    // Swapping, lookup, mutation (ListGenome.h)
    // -------------------------------------------------------------------

    /** `swap`: exchanges the two positions and nothing else. */
    method Swap(pos1: int, pos2: int)
      requires 0 <= pos1 < |genes| && 0 <= pos2 < |genes|
      modifies this
      ensures genes == Swapped(old(genes), pos1, pos2)
      ensures score == old(score) && fitness == old(fitness) && numCitys == old(numCitys)
    {
      var tmp := genes[pos1];
      genes := genes[pos1 := genes[pos2]];
      genes := genes[pos2 := tmp];
    }

    /** `GetIndex`: the first position holding a city equal to `city`, or
        the number of cities when there is none. */
    method GetIndex(city: Point) returns (index: int)
      ensures index == FirstIndex(genes, city)
    {
      index := 0;
      while index < |genes|
        invariant 0 <= index <= |genes|
        invariant forall k :: 0 <= k < index ==> genes[k] != city
      {
        if city == genes[index] {
          return;
        }
        index := index + 1;
      }
    }

    /** `mutate`: `pos1` is drawn, `pos2` is redrawn until it differs from
        `pos1`, and the two positions are swapped. */
    method Mutate(d: SwapDraw)
      requires ValidSwapDraw(|genes|, d)
      modifies this
      ensures genes == SwapStep(old(genes), d)
      ensures score == old(score) && fitness == old(fitness) && numCitys == old(numCitys)
    {
      var pos1 := d.first;
      var pos2 := pos1;
      var k := 0;
      while pos1 == pos2
        invariant 0 <= k <= FirstOther(pos1, d.seconds) + 1
        invariant k == 0 ==> pos2 == pos1
        invariant k > 0 ==> pos2 == d.seconds[k - 1]
        invariant forall j :: 0 <= j < k - 1 ==> d.seconds[j] == pos1
        decreases FirstOther(pos1, d.seconds) + 1 - k
      {
        pos2 := d.seconds[k];
        k := k + 1;
      }
      Swap(pos1, pos2);
    }

    // -------------------------------------------------------------------
    // Crossover (ListGenome.h)
    // -------------------------------------------------------------------

    /** `crossover` as written: the partially-mapped crossover when the
        selected type is `PARTIAL_MAPPED`, the order-based one otherwise.
        `mine` and `theirs` are the two parents' `City *` genes.  Either
        child is empty, and only the partially-mapped one can fault. */
    method Crossover(listCrossoverType: int, parent2: ListGenome, mine: seq<CityPointers.CityRef>,
                     theirs: seq<CityPointers.CityRef>, begin: int, end: int, start: int, steps: seq<int>)
      returns (child: ListGenome, outOfRange: bool)
      requires CityPointers.Values(mine) == genes && CityPointers.Values(theirs) == parent2.genes
      requires CityPointers.Coherent(mine, theirs)
      requires |parent2.genes| == |genes|
      requires !CityPointers.EqualAsWritten(mine, theirs) && listCrossoverType == PartialMapped ==>
        0 <= begin < |genes| - 1 && 0 <= end < |genes| - 1
      requires !CityPointers.EqualAsWritten(mine, theirs) && listCrossoverType != PartialMapped ==>
        |genes| >= 3 && 0 <= start < |genes| - 2 && ValidSteps(|genes|, start, steps)
      ensures fresh(child) && child.genes == []
      ensures outOfRange <==>
        listCrossoverType == PartialMapped && CityPointers.PmxFaultsAsWritten(mine, theirs, begin, end)
    {
      if listCrossoverType == PartialMapped {
        child, outOfRange := PartialMapCrossoverAsWritten(parent2, mine, theirs, begin, end);
      } else {
        child := OrderBasedCrossoverAsWritten(parent2, mine, theirs, start, steps);
        outOfRange := false;
      }
    }

    /** `partialMapcrossover` as written, over the parents' `City *`
        genes `mine` and `theirs`: the child is the empty copy of
        `parent2`; unless `operator==` as written finds the same pointers
        throughout, `begin` and `end` are drawn in [0, n - 2], and at the
        first position of `begin..end` holding two different pointers
        both lookups in the empty child return 0, which passes the
        not-found test against this genome's length, and `swap(0, 0)`
        indexes a vector with no elements.  The model stops there and
        reports it in `outOfRange`. */
    method PartialMapCrossoverAsWritten(parent2: ListGenome, mine: seq<CityPointers.CityRef>,
                                        theirs: seq<CityPointers.CityRef>, begin: int, end: int)
      returns (child: ListGenome, outOfRange: bool)
      requires CityPointers.Values(mine) == genes && CityPointers.Values(theirs) == parent2.genes
      requires CityPointers.Coherent(mine, theirs)
      requires |parent2.genes| == |genes|
      requires !CityPointers.EqualAsWritten(mine, theirs) ==> 0 <= begin < |genes| - 1 && 0 <= end < |genes| - 1
      ensures fresh(child) && child.genes == []
      ensures outOfRange <==> CityPointers.PmxFaultsAsWritten(mine, theirs, begin, end)
    {
      child := new ListGenome.BaseCopy(parent2);
      var same := EqualAsWritten(this, parent2, mine, theirs);
      if same {
        return child, false;
      }
      var pos := begin;
      while pos < end + 1
        invariant begin <= pos && (pos <= end + 1 || pos == begin)
        invariant child.genes == [] && fresh(child)
        invariant forall k :: begin <= k < pos ==> mine[k].addr == theirs[k].addr
        decreases end + 1 - pos
      {
        var gene1 := mine[pos];
        var gene2 := theirs[pos];
        if gene1.addr != gene2.addr {
          var posGene1 := child.GetIndex(gene1.at);
          var posGene2 := child.GetIndex(gene2.at);
          var childSize := |child.genes|;
          outOfRange := posGene1 != |genes| && posGene2 != |genes| &&
            (posGene1 >= childSize || posGene2 >= childSize);
          return;
        }
        pos := pos + 1;
      }
      outOfRange := false;
    }

    /** `partialMapcrossover` with the child seeded by a true copy of
        `parent2`: returned as it is when the parents are equal; otherwise,
        for every position of `begin..end` holding two different genes, the
        child positions of the two genes are looked up and swapped unless a
        lookup returned the not-found sentinel.  The child is a permutation
        of `parent2` (`Tours.PmxPermutes`). */
    method PartialMapCrossover(parent2: ListGenome, begin: int, end: int) returns (child: ListGenome)
      requires |parent2.genes| == |genes|
      requires genes != parent2.genes ==> 0 <= begin < |genes| - 1 && 0 <= end < |genes| - 1
      ensures fresh(child)
      ensures child.genes ==
        if genes == parent2.genes then parent2.genes else PmxFrom(genes, parent2.genes, parent2.genes, begin, end)
      ensures multiset(child.genes) == multiset(parent2.genes)
    {
      child := new ListGenome.SeedCopy(parent2);
      var same := Equal(this, parent2);
      if same {
        return;
      }
      PmxPermutes(genes, parent2.genes, parent2.genes, begin, end);
      assert child.genes == parent2.genes;
      child.MapSegment(genes, parent2.genes, begin, end);
    }

    /** The crossover loop of `partialMapcrossover`, run on the child over
        the genes `mine` and `theirs` of the two parents. */
    method MapSegment(mine: seq<Point>, theirs: seq<Point>, begin: int, end: int)
      requires |mine| == |theirs| == |genes| && 0 <= begin && end < |genes|
      modifies this
      ensures genes == PmxFrom(mine, theirs, old(genes), begin, end)
      ensures score == old(score) && fitness == old(fitness) && numCitys == old(numCitys)
    {
      var pos := begin;
      while pos < end + 1
        invariant begin <= pos && (pos <= end + 1 || pos == begin)
        invariant |genes| == |mine|
        invariant PmxFrom(mine, theirs, genes, pos, end) == PmxFrom(mine, theirs, old(genes), begin, end)
        invariant score == old(score) && fitness == old(fitness) && numCitys == old(numCitys)
        decreases end + 1 - pos
      {
        MapGenes(mine[pos], theirs[pos]);
        pos := pos + 1;
      }
    }

    /** The body of the crossover loop: the not-found test is against the
        parent's length, which is the child's. */
    method MapGenes(gene1: Point, gene2: Point)
      modifies this
      ensures genes == MapPair(old(genes), gene1, gene2)
      ensures score == old(score) && fitness == old(fitness) && numCitys == old(numCitys)
    {
      if gene1 != gene2 {
        var posGene1 := GetIndex(gene1);
        var posGene2 := GetIndex(gene2);
        if posGene1 != |genes| && posGene2 != |genes| {
          Swap(posGene1, posGene2);
        }
      } else {
        MapPairOfEqualGenes(genes, gene1);
      }
    }

    /** `orderBasedcrossover` as written, over the parents' `City *`
        genes: the child is the empty copy of `parent2`, the overwrite
        pass scans its no positions, and the child is returned with no
        cities, whatever the parents and the draws. */
    method OrderBasedCrossoverAsWritten(parent2: ListGenome, mine: seq<CityPointers.CityRef>,
                                        theirs: seq<CityPointers.CityRef>, start: int, steps: seq<int>)
      returns (child: ListGenome)
      requires CityPointers.Values(mine) == genes && CityPointers.Values(theirs) == parent2.genes
      requires CityPointers.Coherent(mine, theirs)
      requires |parent2.genes| == |genes|
      requires !CityPointers.EqualAsWritten(mine, theirs) ==>
        |genes| >= 3 && 0 <= start < |genes| - 2 && ValidSteps(|genes|, start, steps)
      ensures fresh(child) && child.genes == []
    {
      child := new ListGenome.BaseCopy(parent2);
      var same := EqualAsWritten(this, parent2, mine, theirs);
      if same {
        return;
      }
      var tempCities := SampleGenes(start, steps);
      child.OverwriteSamples(tempCities);
    }

    /** `orderBasedcrossover` with the child seeded by a true copy of
        `parent2`: returned as it is when the parents are equal; otherwise
        this genome's genes at the drawn positions are collected, and each
        child position holding a collected gene gets the next collected
        gene in collection order.  For parents that are permutations of
        the same cities the child is a permutation of both
        (`Tours.OrderBasedPermutes`). */
    method OrderBasedCrossover(parent2: ListGenome, start: int, steps: seq<int>) returns (child: ListGenome)
      requires |parent2.genes| == |genes|
      requires genes != parent2.genes ==>
        |genes| >= 3 && 0 <= start < |genes| - 2 && ValidSteps(|genes|, start, steps) &&
        MatchCount(parent2.genes, Samples(genes, start, steps)) <= |steps|
      ensures fresh(child)
      ensures child.genes ==
        if genes == parent2.genes then parent2.genes else Overwrite(parent2.genes, Samples(genes, start, steps), 0)
    {
      child := new ListGenome.SeedCopy(parent2);
      var same := Equal(this, parent2);
      if same {
        return;
      }
      var tempCities := SampleGenes(start, steps);
      child.OverwriteSamples(tempCities);
    }

    /** The sampling loop of `orderBasedcrossover`. */
    method SampleGenes(start: int, steps: seq<int>) returns (tempCities: seq<Point>)
      requires 0 <= start && ValidSteps(|genes|, start, steps)
      ensures tempCities == Samples(genes, start, steps)
    {
      var cities := genes;
      tempCities := [];
      var positions: seq<int> := [];
      var pos := start;
      var k := 0;
      SamplingBegins(cities, start, steps);
      while pos < |cities|
        invariant SamplingAt(cities, start, steps, k, pos, positions, tempCities) == true  // one fact, not split
        decreases |cities| - pos
      {
        SamplingStep(cities, start, steps, k, pos, positions, tempCities);
        positions := positions + [pos];
        tempCities := tempCities + [cities[pos]];
        pos := pos + 1 + steps[k];
        k := k + 1;
      }
      SamplingDone(cities, start, steps, k, pos, positions, tempCities);
    }

    /** The overwrite pass of `orderBasedcrossover`, run on the child. */
    method OverwriteSamples(tempCities: seq<Point>)
      requires MatchCount(genes, tempCities) <= |tempCities|
      modifies this
      ensures genes == Overwrite(old(genes), tempCities, 0)
      ensures score == old(score) && fitness == old(fitness) && numCitys == old(numCitys)
    {
      ghost var seed := genes;
      assert seed[0..] == seed;
      var cPos: nat := 0;
      var cit := 0;
      while cit < |genes|
        invariant 0 <= cit <= |genes| == |seed|
        invariant genes[cit..] == seed[cit..]
        invariant cPos + MatchCount(seed[cit..], tempCities) <= |tempCities|
        invariant Overwrite(seed, tempCities, 0) == genes[..cit] + Overwrite(seed[cit..], tempCities, cPos)
        invariant score == old(score) && fitness == old(fitness) && numCitys == old(numCitys)
      {
        ghost var before := genes;
        ghost var c := cPos;
        assert seed[cit..][0] == seed[cit];
        cPos := OverwriteGene(cit, tempCities, cPos);
        OverwriteInPlaceStep(seed, tempCities, c, cit, before, genes);
        cit := cit + 1;
      }
      assert genes[..cit] == genes;
    }

    /** The inner loop of the overwrite pass at position `cit`. */
    method OverwriteGene(cit: int, tempCities: seq<Point>, cPos: nat) returns (next: nat)
      requires 0 <= cit < |genes|
      requires genes[cit] in tempCities ==> cPos < |tempCities|
      modifies this
      ensures genes == old(genes)[cit := Replacement(old(genes)[cit], tempCities, cPos)]
      ensures next == Advance(old(genes)[cit], tempCities, cPos)
      ensures score == old(score) && fitness == old(fitness) && numCitys == old(numCitys)
    {
      next := cPos;
      var i := 0;
      while i < |tempCities|
        invariant 0 <= i <= |tempCities|
        invariant forall j :: 0 <= j < i ==> genes[cit] != tempCities[j]
      {
        if genes[cit] == tempCities[i] {
          genes := genes[cit := tempCities[cPos]];
          next := cPos + 1;
          return;
        }
        i := i + 1;
      }
    }
  }

  /** `operator==` on list genomes: the same length and, position by
      position, equal genes. */
  method Equal(t1: ListGenome, t2: ListGenome) returns (eq: bool)
    ensures eq <==> t1.genes == t2.genes
  {
    if |t1.genes| != |t2.genes| {
      return false;
    }
    var i := 0;
    while i < |t2.genes|
      invariant 0 <= i <= |t2.genes|
      invariant t1.genes[..i] == t2.genes[..i]
    {
      if t2.genes[i] != t1.genes[i] {
        return false;
      }
      i := i + 1;
    }
    assert t1.genes == t1.genes[..i];
    return true;
  }

  /** `operator==` on list genomes as written, for the genes `at1` of
      `t1` and `at2` of `t2`: the same length and the same pointer at
      every position.  Equal pointers hold equal cities, so the answer is
      never yes for genomes that differ, but it is no for a genome and its
      copy (`CityPointers.CopyUnequalAsWritten`). */
  method EqualAsWritten(t1: ListGenome, t2: ListGenome, at1: seq<CityPointers.CityRef>, at2: seq<CityPointers.CityRef>)
    returns (eq: bool)
    requires CityPointers.Values(at1) == t1.genes && CityPointers.Values(at2) == t2.genes
    requires CityPointers.Coherent(at1, at2)
    ensures eq <==> CityPointers.EqualAsWritten(at1, at2)
    ensures eq ==> t1.genes == t2.genes
  {
    if |at1| != |at2| {
      return false;
    }
    var i := 0;
    while i < |at2|
      invariant 0 <= i <= |at2|
      invariant forall k :: 0 <= k < i ==> at1[k].addr == at2[k].addr
    {
      if at2[i].addr != at1[i].addr {
        return false;
      }
      i := i + 1;
    }
    eq := true;
    CityPointers.PointersFixValues(at1, at2);
  }

  /** `operator!=` on list genomes as written: the negation of the
      pointer comparison. */
  method NotEqualAsWritten(t1: ListGenome, t2: ListGenome, at1: seq<CityPointers.CityRef>, at2: seq<CityPointers.CityRef>)
    returns (ne: bool)
    requires CityPointers.Values(at1) == t1.genes && CityPointers.Values(at2) == t2.genes
    requires CityPointers.Coherent(at1, at2)
    ensures ne <==> !CityPointers.EqualAsWritten(at1, at2)
    ensures t1.genes != t2.genes ==> ne
  {
    var eq := EqualAsWritten(t1, t2, at1, at2);
    ne := !eq;
  }

  /** `operator!=` on list genomes. */
  method NotEqual(t1: ListGenome, t2: ListGenome) returns (ne: bool)
    ensures ne <==> t1.genes != t2.genes
  {
    var eq := Equal(t1, t2);
    ne := !eq;
  }
}
