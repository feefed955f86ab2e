/** GeneticAlgorithm.cpp and SteadyStateGA.cpp: the generational loop.  The
    abstract base class and the one concrete algorithm are one class here;
    the random numbers the loop draws are parameters. */
module GeneticAlgorithms {
  import opened Config
  import opened Cities
  import opened Tours
  import opened TSPGenomes
  import opened Populations
  import opened StatisticsTracking

  /** The draws one child of `nextGeneration` takes: the roulette draws and
      tournament draws of the two `select` calls, the `randomPercentage`
      draws that decide crossover and mutation, the crossover's `begin` and
      `end` and the mutation's swap. */
  datatype Breeding = Breeding(
    dad: nat, dadPlayers: seq<nat>, mom: nat, momPlayers: seq<nat>,
    cross: nat, begin: int, end: int, mutate: nat, swap: SwapDraw)

  /** `cross_random <= crossover_percentage`. */
  predicate Crosses(b: Breeding)
  {
    RandomPercentage(b.cross) <= crossover_percentage
  }

  /** `mutate_random <= mutation_percentage`. */
  predicate Mutates(b: Breeding)
  {
    RandomPercentage(b.mutate) <= mutation_percentage
  }

  /** The draws fit tours of `n` cities: the crossover positions lie in
      [0, n - 2], as `rand() % (n - 1)` gives them, and a mutation swaps
      two positions of [0, n - 2] (for fewer than two cities the source
      takes a remainder by zero there). */
  predicate ValidBreeding(n: int, b: Breeding)
  {
    (Crosses(b) && n >= 2 ==> 0 <= b.begin < n - 1 && 0 <= b.end < n - 1) &&
    (Mutates(b) ==> ValidSwapDraw(n, b.swap))
  }

  /** The child's tour: the partially-mapped crossover of the two parents
      when the crossover draw says so (a copy of the father when the
      parents are equal), a copy of the father otherwise; then one swap
      when the mutation draw says so. */
  function Offspring(dad: seq<Point>, mom: seq<Point>, b: Breeding): seq<Point>
    requires |dad| == |mom| && ValidBreeding(|dad|, b)
    requires Crosses(b) && dad != mom ==> 0 <= b.begin < |dad| - 1 && 0 <= b.end < |dad| - 1
  {
    var crossed := if Crosses(b) && dad != mom then PmxFrom(dad, mom, dad, b.begin, b.end) else dad;
    if Mutates(b) then SwapStep(crossed, b.swap) else crossed
  }

  /** A child is a tour of the father's cities. */
  lemma OffspringPermutes(dad: seq<Point>, mom: seq<Point>, b: Breeding)
    requires |dad| == |mom| && ValidBreeding(|dad|, b)
    requires Crosses(b) && dad != mom ==> 0 <= b.begin < |dad| - 1 && 0 <= b.end < |dad| - 1
    ensures multiset(Offspring(dad, mom, b)) == multiset(dad)
  {
    var crossed := if Crosses(b) && dad != mom then PmxFrom(dad, mom, dad, b.begin, b.end) else dad;
    if Crosses(b) && dad != mom {
      PmxPermutes(dad, mom, dad, b.begin, b.end);
    }
    if Mutates(b) {
      SwapStepProperties(crossed, b.swap);
    }
  }

  /** Two tours of at most one city of the same cities are equal. */
  lemma ShortToursEqual(a: seq<Point>, b: seq<Point>)
    requires |a| <= 1 && multiset(a) == multiset(b)
    ensures a == b
  {
    assert |b| == |multiset(b)| == |a|;
    if |a| == 1 {
      assert a[0] in multiset(b);
    }
  }

  /** Every genome of `gs` is a tour of `cities`. */
  predicate ToursOf(gs: seq<TSPGenome>, cities: multiset<Point>)
    reads gs
  {
    AllTours(GenesOf(gs), cities)
  }

  /** Every tour of `ts` visits exactly `cities`. */
  predicate AllTours(ts: seq<seq<Point>>, cities: multiset<Point>)
  {
    forall k :: 0 <= k < |ts| ==> multiset(ts[k]) == cities
  }

  /** A reordering of tours is tours over the same cities. */
  lemma ToursOfPermuted(a: seq<TSPGenome>, b: seq<TSPGenome>, cities: multiset<Point>)
    requires multiset(a) == multiset(b) && ToursOf(a, cities)
    ensures ToursOf(b, cities)
  {
    forall k | 0 <= k < |b|
      ensures multiset(b[k].genes) == cities
    {
      assert b[k] in multiset(a);
      var j :| 0 <= j < |a| && a[j] == b[k];
    }
  }

  /** Genomes that hold the tours `ts` of `cities` are tours of `cities`. */
  lemma ToursKept(ts: seq<seq<Point>>, gs: seq<TSPGenome>, cities: multiset<Point>)
    requires AllTours(ts, cities) && |gs| == |ts|
    requires forall k :: 0 <= k < |gs| ==> gs[k].genes == ts[k]
    ensures ToursOf(gs, cities)
  {
  }

  /** Two buffers of tours of `cities` make one. */
  lemma ToursOfConcat(a: seq<TSPGenome>, b: seq<TSPGenome>, cities: multiset<Point>)
    requires ToursOf(a, cities) && ToursOf(b, cities)
    ensures ToursOf(a + b, cities)
  {
    assert GenesOf(a + b) == GenesOf(a) + GenesOf(b);
  }

  /** A reordering holds nothing new. */
  lemma SameElements<T>(a: seq<T>, b: seq<T>)
    requires multiset(a) == multiset(b)
    ensures forall x :: x in b ==> x in a
  {
    forall x | x in b
      ensures x in a
    {
      assert x in multiset(b);
    }
  }

  /** `init` leaves the fitnesses difference scaled against the worst
      score, which under LOW_IS_BEST is the greatest one. */
  lemma EvaluatedIsDiffScaled(p: Population, dist: (Point, Point) -> real)
    requires Evaluated(p, dist)
    ensures p.worst < |p.genomes| && DiffScaledBy(p.genomes, p.genomes[p.worst].score)
  {
    forall x | x in p.genomes
      ensures x.score <= p.genomes[p.worst].score && x.fitness == Abs(p.genomes[p.worst].score - x.score)
    {
      var k :| 0 <= k < |p.genomes| && p.genomes[k] == x;
      assert Scores(p.genomes)[k] == x.score;
    }
  }

  /** What `init` leaves in a population: every score is the length of
      the genome's tour, every fitness its distance from the worst score,
      and the best and the worst genome are found. */
  predicate Evaluated(p: Population, dist: (Point, Point) -> real)
    reads p, p.genomes
  {
    BestWorst(Scores(p.genomes), p.best, p.worst, HIGH_LOW) &&
    forall k :: 0 <= k < |p.genomes| ==>
      p.genomes[k].score == TourLength(p.genomes[k].genes, dist) &&
      p.genomes[k].fitness == Abs(p.genomes[p.worst].score - p.genomes[k].score)
  }

  /** `(int)(getPopSize() * replace_percentage)`: how many of the sorted
      genomes are carried over. */
  function KeptCount(p: nat, rp: real): int
  {
    TruncateToInt(p as real * rp)
  }

  /** `(int)(getPopSize() - getPopSize() * replace_percentage)`: how many
      children are bred. */
  function BredCount(p: nat, rp: real): int
  {
    TruncateToInt(p as real - p as real * rp)
  }

  /** The size of the new buffer after `kept` genomes are carried over and
      `bred` children offered, each taken while the buffer holds fewer
      than `p`. */
  function Filled(kept: nat, bred: nat, p: nat): nat
  {
    if kept >= p then kept else if kept + bred < p then kept + bred else p
  }

  function MaxZero(x: int): nat { if x < 0 then 0 else x }

  /** The size of the buffer `nextGeneration` builds. */
  function NewSize(p: nat, rp: real): nat
  {
    Filled(MaxZero(KeptCount(p, rp)), MaxZero(BredCount(p, rp)), p)
  }

  /** For a replacement fraction in [0, 1] the new buffer holds at least
      the carried-over genomes, at most `p`, and loses at most one genome:
      the two truncations together drop less than 2. */
  lemma NewSizeBounds(p: nat, rp: real)
    requires 0.0 <= rp <= 1.0
    ensures 0 <= KeptCount(p, rp) <= NewSize(p, rp) <= p
    ensures p - 1 <= NewSize(p, rp)
  {
    FractionOf(p as real, rp);
    TruncatedParts(p, p as real * rp);
  }

  /** Truncating the two parts of `p` split at `x` loses less than 2. */
  lemma TruncatedParts(p: nat, x: real)
    requires 0.0 <= x <= p as real
    ensures 0 <= TruncateToInt(x) && 0 <= TruncateToInt(p as real - x)
    ensures p - 1 <= TruncateToInt(x) + TruncateToInt(p as real - x) <= p
  {
  }

  /** A fraction in [0, 1] of a non-negative `a` lies in [0, a]. */
  lemma FractionOf(a: real, f: real)
    requires 0.0 <= a && 0.0 <= f <= 1.0
    ensures 0.0 <= a * f <= a
  {
    assert a * (1.0 - f) >= 0.0;
  }

  /** With half the population replaced, as every constructor sets it, an
      even population refills its buffer and an odd one ends one genome
      short. */
  lemma HalfReplacement(p: nat)
    ensures KeptCount(p, 0.5) == BredCount(p, 0.5) == p / 2
    ensures NewSize(p, 0.5) == p - p % 2
  {
    var h := p / 2;
    assert p as real * 0.5 == h as real + (p % 2) as real * 0.5;
    assert p as real - p as real * 0.5 == h as real + (p % 2) as real * 0.5;
  }

  /** An `unsigned int`. */
  newtype uint32 = x: int | 0 <= x < 0x1_0000_0000

  /** `++` on an `unsigned int`: the largest value wraps around to 0. */
  function Successor(n: uint32): (r: uint32)
    ensures r as int == (n as int + 1) % 0x1_0000_0000
  {
    if n == 0xFFFF_FFFF then 0 else n + 1
  }

  /** Enough valid draws for one `nextGeneration` of a population of size
      `p` over `n` cities. */
  predicate Supplied(breeds: seq<Breeding>, p: nat, rp: real, n: int)
  {
    |breeds| >= BredCount(p, rp) && forall k :: 0 <= k < |breeds| ==> ValidBreeding(n, breeds[k])
  }

  function IntMax(a: int, b: int): int { if a <= b then b else a }

  class SteadyStateGA {
    var pop: Population
    var stats: Statistics
    var currentGeneration: uint32
    var replacePercentage: real

    /** The default constructor: a new empty population, new statistics,
        generation 0 and half the population replaced. */
    constructor ()
      ensures fresh(pop) && pop.genomes == [] && pop.populationSize == 0
      ensures fresh(stats) && stats.generationNum == 0 && stats.currentPop == null
      ensures currentGeneration == 0 && replacePercentage == 0.5
    {
      pop := new Population();
      stats := new Statistics();
      currentGeneration := 0;
      replacePercentage := 0.5;
    }

    /** The copy constructor: only the replacement fraction is copied; the
        base class is default-constructed. */
    constructor Copy(other: SteadyStateGA)
      ensures fresh(pop) && pop.genomes == [] && pop.populationSize == 0
      ensures fresh(stats) && stats.generationNum == 0 && stats.currentPop == null
      ensures currentGeneration == 0 && replacePercentage == other.replacePercentage
    {
      pop := new Population();
      stats := new Statistics();
      currentGeneration := 0;
      replacePercentage := other.replacePercentage;
    }

    /** The algorithm over a given population. */
    constructor WithPopulation(p: Population)
      ensures pop == p
      ensures fresh(stats) && stats.generationNum == 0 && stats.currentPop == null
      ensures currentGeneration == 0 && replacePercentage == 0.5
    {
      pop := p;
      stats := new Statistics();
      currentGeneration := 0;
      replacePercentage := 0.5;
    }

    /** `init`: evaluate the population and find its best and worst genome,
        evaluate it again, and scale the fitnesses (the configured scheme
        is difference scaling). */
    method Init(dist: (Point, Point) -> real)
      requires |pop.genomes| > 0
      modifies pop, pop.genomes
      ensures pop.genomes == old(pop.genomes) && pop.populationSize == old(pop.populationSize)
      ensures forall k :: 0 <= k < |pop.genomes| ==> pop.genomes[k].genes == old(pop.genomes[k].genes)
      ensures Evaluated(pop, dist)
    {
      var p := pop;
      p.Initialize(dist);
      ghost var scores := Scores(p.genomes);
      p.EvaluatePopulationScores(dist);
      assert Scores(p.genomes) == scores;
      p.EvaluatePopulationFitnesses();
      assert Scores(p.genomes) == scores;
    }

    /** `nextGeneration`: sort the population; carry over clones of the
        first `KeptCount` genomes; breed `BredCount` children, each kept
        while the new buffer holds fewer genomes than the population size;
        count the generation (an `unsigned int`); install the new buffer
        and evaluate it.  `breeds` holds the draws of each child; `sorted`
        is the buffer as sorted. */
    method NextGeneration(dist: (Point, Point) -> real, breeds: seq<Breeding>, ghost cities: multiset<Point>)
      returns (ghost sorted: seq<TSPGenome>)
      requires ToursOf(pop.genomes, cities)
      requires KeptCount(pop.populationSize, replacePercentage) <= |pop.genomes|
      requires BredCount(pop.populationSize, replacePercentage) > 0 ==> |pop.genomes| > 0
      requires NewSize(pop.populationSize, replacePercentage) > 0
      requires |breeds| >= BredCount(pop.populationSize, replacePercentage)
      requires forall k :: 0 <= k < |breeds| ==> ValidBreeding(|cities|, breeds[k])
      modifies this, pop, pop.genomes
      ensures pop == old(pop) && stats == old(stats) && replacePercentage == old(replacePercentage)
      ensures currentGeneration == Successor(old(currentGeneration))
      ensures pop.populationSize == old(pop.populationSize)
      ensures |pop.genomes| == NewSize(pop.populationSize, replacePercentage)
      ensures fresh(pop.genomes) && ToursOf(pop.genomes, cities) && Evaluated(pop, dist)
      ensures |sorted| == |old(pop.genomes)| && multiset(sorted) == multiset(old(pop.genomes))
      ensures forall k :: 0 <= k < KeptCount(pop.populationSize, replacePercentage) ==> pop.genomes[k].genes == sorted[k].genes
    {
      var p, gen := pop, currentGeneration;
      var size := p.GetPopSize();
      var keep := KeptCount(size, replacePercentage);
      var children := BredCount(size, replacePercentage);
      var newGenomes;
      sorted, newGenomes := Reproduce(breeds, cities, keep, children, size);
      assert |newGenomes| == NewSize(size, replacePercentage);
      currentGeneration := Successor(gen);
      ghost var tours := GenesOf(sorted);
      Install(dist, newGenomes, cities);
      assert GenesOf(sorted) == tours;
    }

    /** `operator++`: one `nextGeneration`. */
    method Increment(dist: (Point, Point) -> real, breeds: seq<Breeding>, ghost cities: multiset<Point>)
      requires ToursOf(pop.genomes, cities)
      requires KeptCount(pop.populationSize, replacePercentage) <= |pop.genomes|
      requires BredCount(pop.populationSize, replacePercentage) > 0 ==> |pop.genomes| > 0
      requires NewSize(pop.populationSize, replacePercentage) > 0
      requires |breeds| >= BredCount(pop.populationSize, replacePercentage)
      requires forall k :: 0 <= k < |breeds| ==> ValidBreeding(|cities|, breeds[k])
      modifies this, pop, pop.genomes
      ensures pop == old(pop) && stats == old(stats) && replacePercentage == old(replacePercentage)
      ensures currentGeneration == Successor(old(currentGeneration))
      ensures pop.populationSize == old(pop.populationSize)
      ensures |pop.genomes| == NewSize(pop.populationSize, replacePercentage)
      ensures fresh(pop.genomes) && ToursOf(pop.genomes, cities) && Evaluated(pop, dist)
    {
      var sorted := NextGeneration(dist, breeds, cities);
    }

    /** `terminateUponGeneration`: the configured number of generations
        has been reached. */
    function TerminateUponGeneration(): (r: bool)
      reads this
      ensures r <==> currentGeneration as int >= total_generations
    {
      currentGeneration as int >= total_generations
    }

    /** `terminateUponConvergence`: always finished. */
    function TerminateUponConvergence(): (r: bool)
      ensures r
    {
      true
    }

    /** `isFinished` for a given termination condition: the generation
        count under UPON_GENERATION, convergence otherwise. */
    function IsFinishedBy(condition: int): (r: bool)
      reads this
      ensures condition == UPON_GENERATION ==> (r <==> currentGeneration as int >= total_generations)
      ensures condition != UPON_GENERATION ==> r
    {
      if condition == UPON_GENERATION then TerminateUponGeneration() else TerminateUponConvergence()
    }

    /** `isFinished` under the configured TERMINATE_CONDITION. */
    function IsFinished(): (r: bool)
      reads this
      ensures r <==> currentGeneration as int >= total_generations
    {
      IsFinishedBy(TERMINATE_CONDITION)
    }

    /** `evolve` for a given termination condition: evaluate the population
        and start the statistics, then, until the algorithm is finished,
        evaluate, update the statistics and breed the next generation.
        `generations[r]` holds the draws of round `r`; `rounds` counts the
        rounds. */
    method EvolveBy(condition: int, dist: (Point, Point) -> real, generations: seq<seq<Breeding>>, ghost cities: multiset<Point>)
      returns (rounds: nat)
      requires Breedable(cities)
      requires |generations| >= MaxZero(total_generations - currentGeneration as int)
      requires forall r :: 0 <= r < |generations| ==> Supplied(generations[r], pop.populationSize, replacePercentage, |cities|)
      modifies this, pop, pop.genomes, stats
      ensures pop == old(pop) && stats == old(stats) && pop.populationSize == old(pop.populationSize)
      ensures condition == UPON_GENERATION ==> rounds == MaxZero(total_generations - old(currentGeneration) as int)
      ensures condition != UPON_GENERATION ==> rounds == 0
      ensures IsFinishedBy(condition)
      ensures currentGeneration as int == old(currentGeneration) as int + rounds
      ensures stats.generationNum == old(stats.generationNum) + rounds
      ensures Breedable(cities) && Evaluated(pop, dist) && stats.Ordered(HIGH_LOW)
    {
      Start(dist, cities);
      rounds := 0;
      while !IsFinishedBy(condition)
        invariant pop == old(pop) && stats == old(stats) && pop.populationSize == old(pop.populationSize)
        invariant replacePercentage == old(replacePercentage)
        invariant pop.genomes == old(pop.genomes) || fresh(pop.genomes)
        invariant Breedable(cities) == true && Evaluated(pop, dist) == true && stats.Ordered(HIGH_LOW) == true
        invariant condition != UPON_GENERATION ==> rounds == 0
        invariant currentGeneration as int == old(currentGeneration) as int + rounds
        invariant rounds <= MaxZero(total_generations - old(currentGeneration) as int)
        invariant stats.generationNum == old(stats.generationNum) + rounds
        decreases total_generations - currentGeneration as int
      {
        Round(dist, generations[rounds], cities);
        rounds := rounds + 1;
      }
    }

    /** A buffer the loop can breed from: non-empty tours of `cities`, and
        a replacement fraction in [0, 1] that keeps the next buffer
        non-empty and the carried-over genomes within the buffer. */
    predicate Breedable(cities: multiset<Point>)
      reads this, pop, pop.genomes
    {
      |pop.genomes| > 0 && ToursOf(pop.genomes, cities) &&
      0.0 <= replacePercentage <= 1.0 && NewSize(pop.populationSize, replacePercentage) > 0 &&
      KeptCount(pop.populationSize, replacePercentage) <= |pop.genomes|
    }

    /** The start of `evolve`: evaluate the population and start the
        statistics with it. */
    method Start(dist: (Point, Point) -> real, ghost cities: multiset<Point>)
      requires Breedable(cities)
      modifies pop, pop.genomes, stats
      ensures pop.genomes == old(pop.genomes) && pop.populationSize == old(pop.populationSize)
      ensures stats.generationNum == old(stats.generationNum)
      ensures Breedable(cities) == true && Evaluated(pop, dist) == true && stats.Ordered(HIGH_LOW)
    {
      Reevaluate(dist, cities);
      label evaluated:
      StartStatistics();
      assert unchanged@evaluated(this, pop) && unchanged@evaluated(pop.genomes);
    }

    /** `stats->init(pop)` on an evaluated population. */
    method StartStatistics()
      requires BestWorst(Scores(pop.genomes), pop.best, pop.worst, HIGH_LOW)
      modifies stats
      ensures stats.generationNum == old(stats.generationNum) && stats.Ordered(HIGH_LOW)
    {
      stats.Init(pop);
    }

    /** `stats->update(pop)` on an evaluated population. */
    method UpdateStatistics()
      requires BestWorst(Scores(pop.genomes), pop.best, pop.worst, HIGH_LOW) && stats.Ordered(HIGH_LOW)
      modifies stats
      ensures stats.generationNum == old(stats.generationNum) + 1 && stats.Ordered(HIGH_LOW)
    {
      stats.Update(pop);
    }

    /** `init` on a buffer the loop can breed from, which it keeps so. */
    method Reevaluate(dist: (Point, Point) -> real, ghost cities: multiset<Point>)
      requires Breedable(cities)
      modifies pop, pop.genomes
      ensures pop.genomes == old(pop.genomes) && pop.populationSize == old(pop.populationSize)
      ensures Breedable(cities) == true && Evaluated(pop, dist) == true
    {
      ghost var tours := GenesOf(pop.genomes);
      Init(dist);
      ToursKept(tours, pop.genomes, cities);
    }

    /** One pass of the `evolve` loop: evaluate, update the statistics and
        breed the next generation. */
    method Round(dist: (Point, Point) -> real, breeds: seq<Breeding>, ghost cities: multiset<Point>)
      requires Breedable(cities) && stats.Ordered(HIGH_LOW)
      requires Supplied(breeds, pop.populationSize, replacePercentage, |cities|)
      modifies this, pop, pop.genomes, stats
      ensures pop == old(pop) && stats == old(stats) && replacePercentage == old(replacePercentage)
      ensures pop.populationSize == old(pop.populationSize) && fresh(pop.genomes)
      ensures Breedable(cities) == true && Evaluated(pop, dist) == true && stats.Ordered(HIGH_LOW)
      ensures currentGeneration == Successor(old(currentGeneration))
      ensures stats.generationNum == old(stats.generationNum) + 1
    {
      Observe(dist, cities);
      NewSizeBounds(pop.populationSize, replacePercentage);
      var sorted := NextGeneration(dist, breeds, cities);
    }

    /** The start of each pass of the `evolve` loop: evaluate the
        population and update the statistics with it. */
    method Observe(dist: (Point, Point) -> real, ghost cities: multiset<Point>)
      requires Breedable(cities) && stats.Ordered(HIGH_LOW)
      modifies pop, pop.genomes, stats
      ensures pop.genomes == old(pop.genomes) && pop.populationSize == old(pop.populationSize)
      ensures stats.generationNum == old(stats.generationNum) + 1
      ensures Breedable(cities) == true && stats.Ordered(HIGH_LOW)
    {
      Reevaluate(dist, cities);
      label evaluated:
      UpdateStatistics();
      assert unchanged@evaluated(this, pop) && unchanged@evaluated(pop.genomes);
    }

    /** `evolve` under the configured TERMINATE_CONDITION: it runs until
        generation 200. */
    method Evolve(dist: (Point, Point) -> real, generations: seq<seq<Breeding>>, ghost cities: multiset<Point>)
      returns (rounds: nat)
      requires Breedable(cities)
      requires |generations| >= MaxZero(total_generations - currentGeneration as int)
      requires forall r :: 0 <= r < |generations| ==> Supplied(generations[r], pop.populationSize, replacePercentage, |cities|)
      modifies this, pop, pop.genomes, stats
      ensures pop == old(pop) && stats == old(stats) && pop.populationSize == old(pop.populationSize)
      ensures rounds == MaxZero(total_generations - old(currentGeneration) as int)
      ensures currentGeneration as int == IntMax(old(currentGeneration) as int, total_generations)
      ensures stats.generationNum == old(stats.generationNum) + rounds
      ensures Breedable(cities) && Evaluated(pop, dist) && stats.Ordered(HIGH_LOW)
    {
      rounds := EvolveBy(TERMINATE_CONDITION, dist, generations, cities);
    }

    /** The buffer `nextGeneration` builds from the population sorted
        fittest first: clones of the first `keep` genomes, then the
        children. */
    method Reproduce(breeds: seq<Breeding>, ghost cities: multiset<Point>, keep: int, children: int, size: nat)
      returns (ghost sorted: seq<TSPGenome>, newGenomes: seq<TSPGenome>)
      requires ToursOf(pop.genomes, cities) && keep <= |pop.genomes| && (children > 0 ==> |pop.genomes| > 0)
      requires |breeds| >= children && forall k :: 0 <= k < |breeds| ==> ValidBreeding(|cities|, breeds[k])
      modifies pop, pop.genomes
      ensures pop.genomes == sorted && pop.populationSize == old(pop.populationSize)
      ensures |sorted| == |old(pop.genomes)| && multiset(sorted) == multiset(old(pop.genomes))
      ensures |newGenomes| == Filled(MaxZero(keep), MaxZero(children), size)
      ensures fresh(newGenomes) && ToursOf(newGenomes, cities)
      ensures forall k :: 0 <= k < keep ==> newGenomes[k].genes == sorted[k].genes
    {
      sorted := SortForBreeding(cities);
      newGenomes := BreedAll(breeds, cities, keep, children, size);
    }

    /** The end of `nextGeneration`: the new buffer replaces the old one
        and is evaluated. */
    method Install(dist: (Point, Point) -> real, newGenomes: seq<TSPGenome>, ghost cities: multiset<Point>)
      requires |newGenomes| > 0 && ToursOf(newGenomes, cities)
      modifies pop, newGenomes
      ensures pop.genomes == newGenomes && pop.populationSize == old(pop.populationSize)
      ensures GenesOf(newGenomes) == old(GenesOf(newGenomes))
      ensures ToursOf(newGenomes, cities) && Evaluated(pop, dist)
    {
      var p := pop;
      p.SetPopGenomes(newGenomes);
      Init(dist);
    }

    /** The sort that starts `nextGeneration`: one partition by fitness,
        the fitter genomes first, then both sides by ascending score.  On a
        difference-scaled buffer, as `init` leaves it, the fittest genome
        comes first (`EvaluatedIsDiffScaled`). */
    method SortForBreeding(ghost cities: multiset<Point>) returns (ghost sorted: seq<TSPGenome>)
      requires ToursOf(pop.genomes, cities)
      modifies pop
      ensures sorted == pop.genomes && multiset(sorted) == multiset(old(pop.genomes))
      ensures |sorted| == |old(pop.genomes)| && forall g :: g in sorted ==> g in old(pop.genomes)
      ensures pop.populationSize == old(pop.populationSize)
      ensures ToursOf(sorted, cities)
      ensures |sorted| > 1 ==> SplitSorted(sorted, 0, |sorted| - 1, ByFitness, false)
      ensures forall w :: DiffScaledBy(old(pop.genomes), w) ==> SortedBy(sorted, ByFitness, false)
    {
      var p := pop;
      ghost var before := p.genomes;
      p.SortPopulation();
      sorted := p.genomes;
      assert |sorted| == |multiset(sorted)| == |multiset(before)| == |before|;
      ToursOfPermuted(before, sorted, cities);
      SameElements(before, sorted);
      forall w | DiffScaledBy(before, w)
        ensures SortedBy(sorted, ByFitness, false)
      {
        assert DiffScaledBy(sorted, w);
      }
    }

    /** The new buffer of `nextGeneration`: clones of the first `keep`
        genomes, then a child for each of `children` draws, kept while the
        buffer holds fewer than `size` genomes. */
    method BreedAll(breeds: seq<Breeding>, ghost cities: multiset<Point>, keep: int, children: int, size: nat)
      returns (newGenomes: seq<TSPGenome>)
      requires ToursOf(pop.genomes, cities) && keep <= |pop.genomes| && (children > 0 ==> |pop.genomes| > 0)
      requires |breeds| >= children && forall k :: 0 <= k < |breeds| ==> ValidBreeding(|cities|, breeds[k])
      modifies set g | g in pop.genomes
      ensures unchanged(pop.genomes)
      ensures |newGenomes| == Filled(MaxZero(keep), MaxZero(children), size)
      ensures fresh(newGenomes) && ToursOf(newGenomes, cities)
      ensures forall k :: 0 <= k < keep ==> newGenomes[k].genes == pop.genomes[k].genes
    {
      var kept := KeepBest(keep, cities);
      label cloned:
      var kids := BreedChildren(breeds, cities, children, |kept|, size);
      assert unchanged@cloned(kept);
      newGenomes := kept + kids;
      ToursOfConcat(kept, kids, cities);
    }

    /** The breeding loop of `nextGeneration`: a child for each of
        `children` draws, kept while the buffer, which already holds
        `held` genomes, has fewer than `size`. */
    method BreedChildren(breeds: seq<Breeding>, ghost cities: multiset<Point>, children: int, held: nat, size: nat)
      returns (kids: seq<TSPGenome>)
      requires ToursOf(pop.genomes, cities) && (children > 0 ==> |pop.genomes| > 0)
      requires |breeds| >= children && forall k :: 0 <= k < |breeds| ==> ValidBreeding(|cities|, breeds[k])
      modifies set g | g in pop.genomes
      ensures unchanged(pop.genomes)
      ensures held + |kids| == Filled(held, MaxZero(children), size)
      ensures fresh(kids) && ToursOf(kids, cities)
    {
      kids := [];
      ghost var tours: seq<seq<Point>> := [];
      var i := 0;
      while i < children
        invariant 0 <= i <= MaxZero(children) && held + |kids| == Filled(held, i, size)
        invariant unchanged(pop.genomes)
        invariant fresh(kids) && |tours| == |kids| && AllTours(tours, cities)
        invariant forall k :: 0 <= k < |kids| ==> kids[k].genes == tours[k]
      {
        var child := BreedChild(breeds[i], cities);
        if held + |kids| < size {
          kids := kids + [child];
          tours := tours + [child.genes];
        }
        i := i + 1;
      }
      ToursKept(tours, kids, cities);
    }

    /** A child of the population, a tour of `cities`. */
    method BreedChild(b: Breeding, ghost cities: multiset<Point>) returns (child: TSPGenome)
      requires |pop.genomes| > 0 && ToursOf(pop.genomes, cities) && ValidBreeding(|cities|, b)
      modifies pop.genomes
      ensures fresh(child) && unchanged(pop.genomes) && multiset(child.genes) == cities
    {
      var dad, mom;
      child, dad, mom := Breed(b, cities);
    }

    /** The start of the new buffer: clones of the first `keep` genomes. */
    method KeepBest(keep: int, ghost cities: multiset<Point>) returns (clones: seq<TSPGenome>)
      requires ToursOf(pop.genomes, cities) && keep <= |pop.genomes|
      ensures |clones| == MaxZero(keep) && fresh(clones) && ToursOf(clones, cities)
      ensures forall k :: 0 <= k < |clones| ==> clones[k].genes == pop.genomes[k].genes
    {
      clones := [];
      if keep > 0 {
        clones := CloneAll(pop.genomes[..keep]);
      }
    }

    /** One child: select a father and a mother, cross them or copy the
        father, maybe mutate the child. */
    method Breed(b: Breeding, ghost cities: multiset<Point>) returns (child: TSPGenome, dad: nat, mom: nat)
      requires |pop.genomes| > 0 && ToursOf(pop.genomes, cities) && ValidBreeding(|cities|, b)
      modifies pop.genomes
      ensures fresh(child) && unchanged(pop.genomes)
      ensures dad < |pop.genomes| && mom < |pop.genomes|
      ensures Spun(Fitnesses(pop.genomes), WheelSlice(Fitnesses(pop.genomes), b.dad), dad)
      ensures Spun(Fitnesses(pop.genomes), WheelSlice(Fitnesses(pop.genomes), b.mom), mom)
      ensures var father, mother := pop.genomes[dad].genes, pop.genomes[mom].genes;
        |father| == |mother| && (Crosses(b) && father != mother ==> 0 <= b.begin < |father| - 1 && 0 <= b.end < |father| - 1) &&
        child.genes == Offspring(father, mother, b)
      ensures multiset(child.genes) == cities
      ensures child.score == pop.genomes[dad].score && child.fitness == pop.genomes[dad].fitness
    {
      dad, mom := SelectParents(b);
      child := MakeChild(pop.genomes[dad], pop.genomes[mom], b, cities);
    }

    /** The two `select` calls of one child. */
    method SelectParents(b: Breeding) returns (dad: nat, mom: nat)
      requires |pop.genomes| > 0
      modifies pop.genomes
      ensures unchanged(pop.genomes) && dad < |pop.genomes| && mom < |pop.genomes|
      ensures Spun(Fitnesses(pop.genomes), WheelSlice(Fitnesses(pop.genomes), b.dad), dad)
      ensures Spun(Fitnesses(pop.genomes), WheelSlice(Fitnesses(pop.genomes), b.mom), mom)
    {
      var p := pop;
      dad := p.Select(b.dad, b.dadPlayers);
      mom := p.Select(b.mom, b.momPlayers);
    }
  }

  /** The child of `father` and `mother`, two tours of `cities`: crossed or
      copied from the father, then maybe mutated. */
  method MakeChild(father: TSPGenome, mother: TSPGenome, b: Breeding, ghost cities: multiset<Point>) returns (child: TSPGenome)
    requires multiset(father.genes) == cities && multiset(mother.genes) == cities && ValidBreeding(|cities|, b)
    ensures fresh(child)
    ensures var f, m := father.genes, mother.genes;
      |f| == |m| && (Crosses(b) && f != m ==> 0 <= b.begin < |f| - 1 && 0 <= b.end < |f| - 1) &&
      child.genes == Offspring(f, m, b)
    ensures multiset(child.genes) == cities
    ensures child.score == father.score && child.fitness == father.fitness
  {
    assert |father.genes| == |cities| == |mother.genes|;
    if |father.genes| < 2 {
      ShortToursEqual(father.genes, mother.genes);
    }
    OffspringPermutes(father.genes, mother.genes, b);
    if Crosses(b) {
      child := father.Crossover(mother, b.begin, b.end);
    } else {
      child := father.Clone();
    }
    if Mutates(b) {
      child.Mutate(b.swap);
    }
  }
}
