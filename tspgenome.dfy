/** The permutation genome of the travelling-salesperson instance
    (TSPGenome.h), the one the driver uses.  A gene is a city, held here
    as the value of its coordinates: two genes are equal when the cities
    are (`City::operator==`).  The score and the fitness of the `Genome`
    base class (Genome.cpp) are fields of the same object. */
module TSPGenomes {
  import opened Cities
  import opened Tours

  class TSPGenome {
    /** `Genome::genome_score` and `Genome::genome_fitness`. */
    var score: real
    var fitness: real
    /** `num_citys`: the size asked for, raised by `addToGenome`. */
    var numCitys: int
    /** `genome_vec`. */
    var genes: seq<Point>

    /** `TSPGenome()`: no cities; `Genome()` leaves the score and the
        fitness uninitialised, so nothing is known about them. */
    constructor ()
      ensures numCitys == 0 && genes == []
    {
      numCitys := 0;
      genes := [];
    }

    /** `TSPGenome(int)`: no cities yet, `initialize` creates them. */
    constructor WithSize(inNumCitys: int)
      ensures numCitys == inNumCitys && genes == []
    {
      numCitys := inNumCitys;
      genes := [];
    }

    /** The copy constructor: `Genome(other)` copies the score and the
        fitness, `num_citys` is copied, and a new city at the same
        coordinates is appended for each of `other`'s cities. */
    constructor Copy(other: TSPGenome)
      ensures genes == other.genes
      ensures score == other.score && fitness == other.fitness && numCitys == other.numCitys
    {
      var copies: seq<Point> := [];
      var i := 0;
      while i < |other.genes|
        invariant 0 <= i <= |other.genes| && copies == other.genes[..i]
      {
        copies := copies + [other.genes[i]];
        i := i + 1;
      }
      score, fitness, numCitys := other.score, other.fitness, other.numCitys;
      genes := copies;
    }

    // -------------------------------------------------------------------
    // The Genome base class (Genome.cpp)
    // -------------------------------------------------------------------

    /** `getScore` and `getFitness`: the numbers `SetScore`, `SetFitness`
        and `CopyScores` write. */
    function GetScore(): (r: real) reads this ensures r == score { score }
    function GetFitness(): (r: real) reads this ensures r == fitness { fitness }

    /** `setScore`: only the score changes. */
    method SetScore(s: real)
      modifies this
      ensures GetScore() == s && GetFitness() == old(GetFitness())
      ensures genes == old(genes) && numCitys == old(numCitys)
    {
      score := s;
    }

    /** `setFitness`: only the fitness changes. */
    method SetFitness(f: real)
      modifies this
      ensures GetFitness() == f && GetScore() == old(GetScore())
      ensures genes == old(genes) && numCitys == old(numCitys)
    {
      fitness := f;
    }

    /** `Genome::copy`: takes over both the score and the fitness. */
    method CopyScores(orig: TSPGenome)
      modifies this
      ensures score == orig.score && fitness == orig.fitness
      ensures genes == old(genes) && numCitys == old(numCitys)
    {
      score := orig.score;
      fitness := orig.fitness;
    }

    // -------------------------------------------------------------------
    // Building, copying and cloning
    // -------------------------------------------------------------------

    /** `addToGenome`: appends the city and counts it. */
    method AddToGenome(item: Point)
      modifies this
      ensures genes == old(genes) + [item] && numCitys == old(numCitys) + 1
      ensures score == old(score) && fitness == old(fitness)
    {
      genes := genes + [item];
      numCitys := numCitys + 1;
    }

    /** `copy`: appends a copy of each of `orig`'s cities through
        `addToGenome`, so `num_citys` grows with them.  The loop walks
        `orig`'s vector while this genome's grows, so `orig` must be
        another genome. */
    method CopyCities(orig: TSPGenome)
      requires orig != this
      modifies this
      ensures genes == old(genes) + orig.genes
      ensures numCitys == old(numCitys) + |orig.genes|
      ensures score == old(score) && fitness == old(fitness)
    {
      var i := 0;
      while i < |orig.genes|
        invariant 0 <= i <= |orig.genes|
        invariant genes == old(genes) + orig.genes[..i]
        invariant numCitys == old(numCitys) + i
        invariant score == old(score) && fitness == old(fitness)
      {
        AddToGenome(orig.genes[i]);
        i := i + 1;
      }
      assert orig.genes[..i] == orig.genes;
    }

    /** `clone`: a new genome with this one's score, fitness and cities;
        since it starts empty and `copy` counts every city, its
        `num_citys` is the number of cities, whatever this one's is. */
    method Clone() returns (g: TSPGenome)
      ensures fresh(g)
      ensures g.genes == genes && g.score == score && g.fitness == fitness
      ensures g.numCitys == |genes|
    {
      g := new TSPGenome();
      g.CopyScores(this);
      g.CopyCities(this);
    }

    /** `premuteClone`: a clone on which, once per city, `rand_index_1`
        is drawn, `rand_index_2` is drawn and redrawn while it equals
        `rand_index_1`, and the two positions are swapped; `draws` holds
        the draws of each round.  The draws are reduced modulo `n - 1`, so
        the last city never moves, and a genome of fewer than three cities
        has no valid draws (`Tours.SwapDrawExistsIff`).  The result is a
        permutation of this genome (`Tours.SwapStepsProperties`). */
    method PremuteClone(draws: seq<SwapDraw>) returns (g: TSPGenome)
      requires |draws| == |genes| && ValidSwapDraws(|genes|, draws)
      ensures fresh(g)
      ensures g.genes == SwapSteps(genes, draws)
      ensures g.score == score && g.fitness == fitness && g.numCitys == |genes|
    {
      g := new TSPGenome();
      g.CopyScores(this);
      g.CopyCities(this);
      assert g.genes == genes;
      g.Premute(draws);
    }

    /** The permuting loop of `premuteClone`, run on the new genome. */
    method Premute(draws: seq<SwapDraw>)
      requires |draws| == |genes| && ValidSwapDraws(|genes|, draws)
      modifies this
      ensures genes == SwapSteps(old(genes), draws)
      ensures score == old(score) && fitness == old(fitness) && numCitys == old(numCitys)
    {
      assert draws[0..] == draws;
      var i := 0;
      while i < |genes|
        invariant 0 <= i <= |genes| == |draws|
        invariant ValidSwapDraws(|genes|, draws[i..])
        invariant SwapSteps(genes, draws[i..]) == SwapSteps(old(genes), draws)
        invariant score == old(score) && fitness == old(fitness) && numCitys == old(numCitys)
      {
        var d := draws[i];
        var randIndex1 := d.first;
        var randIndex2 := DrawDifferent(d);
        assert draws[i..][1..] == draws[i + 1..];
        Swap(randIndex1, randIndex2);
        i := i + 1;
      }
    }

    // -------------------------------------------------------------------
    // Swapping, lookup, mutation, evaluation
    // -------------------------------------------------------------------

    /** `swap`: exchanges the two positions and nothing else
        (`Tours.Swapped`, `Tours.SwappedPermutes`). */
    method Swap(pos1: int, pos2: int)
      requires 0 <= pos1 < |genes| && 0 <= pos2 < |genes|
      modifies this
      ensures genes == Swapped(old(genes), pos1, pos2)
      ensures score == old(score) && fitness == old(fitness) && numCitys == old(numCitys)
    {
      var tmp := genes[pos1];
      genes := genes[pos1 := genes[pos2]];
      genes := genes[pos2 := tmp];
    }

    /** `GetIndex`: the first position holding a city equal to `city`, or
        the number of cities when there is none. */
    method GetIndex(city: Point) returns (index: int)
      ensures index == FirstIndex(genes, city)
    {
      index := 0;
      while index < |genes|
        invariant 0 <= index <= |genes|
        invariant forall k :: 0 <= k < index ==> genes[k] != city
      {
        if city == genes[index] {
          return;
        }
        index := index + 1;
      }
    }

    /** `mutate`: `pos1` is drawn, then `pos2` is redrawn until it differs
        from `pos1`, and the two positions are swapped
        (`Tours.SwapStepProperties`). */
    method Mutate(d: SwapDraw)
      requires ValidSwapDraw(|genes|, d)
      modifies this
      ensures genes == SwapStep(old(genes), d)
      ensures score == old(score) && fitness == old(fitness) && numCitys == old(numCitys)
    {
      var pos1 := d.first;
      var pos2 := pos1;
      var k := 0;
      while pos1 == pos2
        invariant 0 <= k <= FirstOther(pos1, d.seconds) + 1
        invariant k == 0 ==> pos2 == pos1
        invariant k > 0 ==> pos2 == d.seconds[k - 1]
        invariant forall j :: 0 <= j < k - 1 ==> d.seconds[j] == pos1
        decreases FirstOther(pos1, d.seconds) + 1 - k
      {
        pos2 := d.seconds[k];
        k := k + 1;
      }
      Swap(pos1, pos2);
    }

    /** `evaluate`: the score becomes the closed-tour length under `dist`
        (the source's Euclidean `DistanceBetweenCitys`): 0 for at most one
        city, otherwise every leg including the one from the last city
        back to the first.  Nothing else changes. */
    method Evaluate(dist: (Point, Point) -> real)
      modifies this
      ensures score == TourLength(genes, dist)
      ensures genes == old(genes) && fitness == old(fitness) && numCitys == old(numCitys)
    {
      var total := 0.0;
      if |genes| <= 1 {
        SetScore(0.0);
        return;
      }
      var i := 0;
      while i < |genes| - 1
        invariant 0 <= i <= |genes| - 1
        invariant total == ClosedLegs(genes, dist, i)
      {
        total := total + dist(genes[i], genes[i + 1]);
        i := i + 1;
      }
      total := total + dist(genes[i], genes[0]);
      SetScore(total);
    }

    /** `initialize`: appends `num_citys` new cities made by the default
        constructor; `draws` holds the three `rand()` draws of each. */
    method Initialize(draws: seq<(nat, nat, nat)>)
      requires |draws| == if numCitys > 0 then numCitys else 0
      modifies this
      ensures genes == old(genes) + RandomPoints(draws)
      ensures numCitys == old(numCitys) && score == old(score) && fitness == old(fitness)
    {
      var i := 0;
      while i < numCitys
        invariant 0 <= i <= |draws|
        invariant genes == old(genes) + RandomPoints(draws[..i])
        invariant numCitys == old(numCitys) && score == old(score) && fitness == old(fitness)
      {
        var c := new City.Random(draws[i].0, draws[i].1, draws[i].2);
        assert RandomPoints(draws[..i + 1]) == RandomPoints(draws[..i]) + [c.Coords()];
        genes := genes + [c.Coords()];
        i := i + 1;
      }
      assert draws[..i] == draws;
    }

    // -------------------------------------------------------------------
    // Crossover
    // -------------------------------------------------------------------

    /** `crossover`: always the partially-mapped crossover. */
    method Crossover(parent2: TSPGenome, begin: int, end: int) returns (child: TSPGenome)
      requires |parent2.genes| == |genes|
      requires genes != parent2.genes ==> 0 <= begin < |genes| - 1 && 0 <= end < |genes| - 1
      ensures fresh(child)
      ensures child.genes == if genes == parent2.genes then genes else PmxFrom(genes, parent2.genes, genes, begin, end)
      ensures multiset(child.genes) == multiset(genes)
      ensures child.score == score && child.fitness == fitness && child.numCitys == numCitys
    {
      child := PartialMapCrossover(parent2, begin, end);
    }

    /** `partialMapcrossover`: the child starts as a copy of this genome and
        is returned as it is when the parents are equal.  Otherwise `begin`
        and `end` are drawn in [0, n - 2]; for every position of
        `begin..end` (inclusive, none when `begin > end`) holding two
        different genes, the child positions of the two genes are looked up
        and swapped unless a lookup returned the not-found sentinel.  The
        child is a permutation of this genome (`Tours.PmxPermutes`), and
        neither parent changes. */
    method PartialMapCrossover(parent2: TSPGenome, begin: int, end: int) returns (child: TSPGenome)
      requires |parent2.genes| == |genes|
      requires genes != parent2.genes ==> 0 <= begin < |genes| - 1 && 0 <= end < |genes| - 1
      ensures fresh(child)
      ensures child.genes == if genes == parent2.genes then genes else PmxFrom(genes, parent2.genes, genes, begin, end)
      ensures multiset(child.genes) == multiset(genes)
      ensures child.score == score && child.fitness == fitness && child.numCitys == numCitys
    {
      child := new TSPGenome.Copy(this);
      var same := Equal(this, parent2);
      if same {
        return;
      }
      PmxPermutes(genes, parent2.genes, genes, begin, end);
      assert child.genes == genes;
      child.MapSegment(genes, parent2.genes, begin, end);
    }

    /** The crossover loop of `partialMapcrossover`, run on the child over
        the genes `mine` and `theirs` of the two parents: the positions
        `begin..end` inclusive, left to right. */
    method MapSegment(mine: seq<Point>, theirs: seq<Point>, begin: int, end: int)
      requires |mine| == |theirs| == |genes| && 0 <= begin && end < |genes|
      modifies this
      ensures genes == PmxFrom(mine, theirs, old(genes), begin, end)
      ensures score == old(score) && fitness == old(fitness) && numCitys == old(numCitys)
    {
      var pos := begin;
      while pos < end + 1
        invariant begin <= pos && (pos <= end + 1 || pos == begin)
        invariant |genes| == |mine|
        invariant PmxFrom(mine, theirs, genes, pos, end) == PmxFrom(mine, theirs, old(genes), begin, end)
        invariant score == old(score) && fitness == old(fitness) && numCitys == old(numCitys)
        decreases end + 1 - pos
      {
        MapGenes(mine[pos], theirs[pos]);
        pos := pos + 1;
      }
    }

    /** The body of the crossover loop: when the parents' genes `gene1`
        and `gene2` differ, the child positions of the two are looked up
        and swapped, unless a lookup returned the not-found sentinel (the
        source tests against the parent's length, which is the child's). */
    method MapGenes(gene1: Point, gene2: Point)
      modifies this
      ensures genes == MapPair(old(genes), gene1, gene2)
      ensures score == old(score) && fitness == old(fitness) && numCitys == old(numCitys)
    {
      if gene1 != gene2 {
        var posGene1 := GetIndex(gene1);
        var posGene2 := GetIndex(gene2);
        if posGene1 != |genes| && posGene2 != |genes| {
          Swap(posGene1, posGene2);
        }
      } else {
        MapPairOfEqualGenes(genes, gene1);
      }
    }

    /** `orderBasedcrossover`: the child starts as a copy of `parent2` and
        is returned as it is when the parents are equal.  Otherwise the
        first position is drawn in [0, n - 3], and each further draw moves
        the position on by at least one, collecting this genome's gene at
        every position reached below `n`.  Then the child's positions are
        scanned left to right and each one holding a collected gene gets
        the next collected gene in collection order.  More matches than
        collected genes would read past the end of the collection, so that
        is ruled out; for parents that are permutations of the same cities
        it always holds (`Tours.OrderBasedPermutes`). */
    method OrderBasedCrossover(parent2: TSPGenome, start: int, steps: seq<int>) returns (child: TSPGenome)
      requires |parent2.genes| == |genes|
      requires genes != parent2.genes ==>
        |genes| >= 3 && 0 <= start < |genes| - 2 && ValidSteps(|genes|, start, steps) &&
        MatchCount(parent2.genes, Samples(genes, start, steps)) <= |steps|
      ensures fresh(child)
      ensures child.genes ==
        if genes == parent2.genes then parent2.genes else Overwrite(parent2.genes, Samples(genes, start, steps), 0)
      ensures child.score == parent2.score && child.fitness == parent2.fitness && child.numCitys == parent2.numCitys
    {
      child := new TSPGenome.Copy(parent2);
      var same := Equal(this, parent2);
      if same {
        return;
      }
      var tempCities := SampleGenes(start, steps);
      child.OverwriteSamples(tempCities);
    }

    /** The sampling loop of `orderBasedcrossover`: the genes of this
        genome at the positions the draws reach, in increasing position
        order; the positions are recorded alongside, as in the source. */
    method SampleGenes(start: int, steps: seq<int>) returns (tempCities: seq<Point>)
      requires 0 <= start && ValidSteps(|genes|, start, steps)
      ensures tempCities == Samples(genes, start, steps)
    {
      var cities := genes;
      tempCities := [];
      var positions: seq<int> := [];
      var pos := start;
      var k := 0;
      SamplingBegins(cities, start, steps);
      while pos < |cities|
        invariant SamplingAt(cities, start, steps, k, pos, positions, tempCities) == true  // one fact, not split
        decreases |cities| - pos
      {
        SamplingStep(cities, start, steps, k, pos, positions, tempCities);
        positions := positions + [pos];
        tempCities := tempCities + [cities[pos]];
        pos := pos + 1 + steps[k];
        k := k + 1;
      }
      SamplingDone(cities, start, steps, k, pos, positions, tempCities);
    }

    /** The overwrite pass of `orderBasedcrossover`, run on the child:
        positions are scanned left to right, and a position holding a gene
        equal to one of the collected genes gets the collected gene at
        `c_pos`, which then moves on. */
    method OverwriteSamples(tempCities: seq<Point>)
      requires MatchCount(genes, tempCities) <= |tempCities|
      modifies this
      ensures genes == Overwrite(old(genes), tempCities, 0)
      ensures score == old(score) && fitness == old(fitness) && numCitys == old(numCitys)
    {
      ghost var seed := genes;
      assert seed[0..] == seed;
      var cPos: nat := 0;
      var cit := 0;
      while cit < |genes|
        invariant 0 <= cit <= |genes| == |seed|
        invariant genes[cit..] == seed[cit..]
        invariant cPos + MatchCount(seed[cit..], tempCities) <= |tempCities|
        invariant Overwrite(seed, tempCities, 0) == genes[..cit] + Overwrite(seed[cit..], tempCities, cPos)
        invariant score == old(score) && fitness == old(fitness) && numCitys == old(numCitys)
      {
        ghost var before := genes;
        ghost var c := cPos;
        assert seed[cit..][0] == seed[cit];
        cPos := OverwriteGene(cit, tempCities, cPos);
        OverwriteInPlaceStep(seed, tempCities, c, cit, before, genes);
        cit := cit + 1;
      }
      assert genes[..cit] == genes;
    }

    /** The inner loop of the overwrite pass at position `cit`: the
        collected genes are compared in turn with the child's gene there;
        at the first equal one the gene is replaced by the collected gene at
        `cPos`, and `cPos` moves on. */
    method OverwriteGene(cit: int, tempCities: seq<Point>, cPos: nat) returns (next: nat)
      requires 0 <= cit < |genes|
      requires genes[cit] in tempCities ==> cPos < |tempCities|
      modifies this
      ensures genes == old(genes)[cit := Replacement(old(genes)[cit], tempCities, cPos)]
      ensures next == Advance(old(genes)[cit], tempCities, cPos)
      ensures score == old(score) && fitness == old(fitness) && numCitys == old(numCitys)
    {
      next := cPos;
      var i := 0;
      while i < |tempCities|
        invariant 0 <= i <= |tempCities|
        invariant forall j :: 0 <= j < i ==> genes[cit] != tempCities[j]
      {
        if genes[cit] == tempCities[i] {
          genes := genes[cit := tempCities[cPos]];
          next := cPos + 1;
          return;
        }
        i := i + 1;
      }
    }
  }

  /** The retry loop of `premuteClone`: `rand_index_2` is drawn, and
      drawn again while it equals `rand_index_1`. */
  method DrawDifferent(d: SwapDraw) returns (randIndex2: int)
    requires HasOther(d.first, d.seconds)
    ensures randIndex2 == Second(d)
  {
    randIndex2 := d.seconds[0];
    var k := 1;
    while d.first == randIndex2
      invariant 1 <= k <= FirstOther(d.first, d.seconds) + 1
      invariant randIndex2 == d.seconds[k - 1]
      invariant forall j :: 0 <= j < k - 1 ==> d.seconds[j] == d.first
      decreases FirstOther(d.first, d.seconds) + 1 - k
    {
      randIndex2 := d.seconds[k];
      k := k + 1;
    }
  }

  /** `operator==` on genomes: the same length and, position by position,
      equal genes. */
  method Equal(t1: TSPGenome, t2: TSPGenome) returns (eq: bool)
    ensures eq <==> t1.genes == t2.genes
  {
    if |t1.genes| != |t2.genes| {
      return false;
    }
    var i := 0;
    while i < |t2.genes|
      invariant 0 <= i <= |t2.genes|
      invariant t1.genes[..i] == t2.genes[..i]
    {
      if t2.genes[i] != t1.genes[i] {
        return false;
      }
      i := i + 1;
    }
    assert t1.genes == t1.genes[..i];
    return true;
  }

  /** `operator!=` on genomes. */
  method NotEqual(t1: TSPGenome, t2: TSPGenome) returns (ne: bool)
    ensures ne <==> t1.genes != t2.genes
  {
    var eq := Equal(t1, t2);
    ne := !eq;
  }
}
