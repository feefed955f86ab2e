/** The population (Population.cpp): a buffer of genomes, the counter
    `population_size`, and the best and worst genome, held here as their
    positions in the buffer.  The genomes are those of TSPGenome.h, the
    ones the driver breeds. */
module Populations {
  import opened Cities
  import opened Tours
  import opened Config
  import opened TSPGenomes

  datatype Option<T> = None | Some(value: T)

  // ---------------------------------------------------------------------
  // Views of a buffer of genomes
  // ---------------------------------------------------------------------

  /** The scores of the genomes, position by position. */
  function Scores(gs: seq<TSPGenome>): (r: seq<real>)
    reads gs
    ensures |r| == |gs| && forall k :: 0 <= k < |gs| ==> r[k] == gs[k].score
  {
    seq(|gs|, k requires 0 <= k < |gs| reads gs => gs[k].score)
  }

  /** The fitnesses of the genomes, position by position. */
  function Fitnesses(gs: seq<TSPGenome>): (r: seq<real>)
    reads gs
    ensures |r| == |gs| && forall k :: 0 <= k < |gs| ==> r[k] == gs[k].fitness
  {
    seq(|gs|, k requires 0 <= k < |gs| reads gs => gs[k].fitness)
  }

  /** The tours of the genomes, position by position. */
  function GenesOf(gs: seq<TSPGenome>): (r: seq<seq<Point>>)
    reads gs
    ensures |r| == |gs| && forall k :: 0 <= k < |gs| ==> r[k] == gs[k].genes
  {
    seq(|gs|, k requires 0 <= k < |gs| reads gs => gs[k].genes)
  }

  /** The sum of `s`, added up from the front. */
  function Sum(s: seq<real>): real
  {
    if s == [] then 0.0 else Sum(s[..|s| - 1]) + s[|s| - 1]
  }

  /** `i` is the first position of a least element of `s`. */
  predicate FirstMin(s: seq<real>, i: int)
  {
    0 <= i < |s| && (forall k :: 0 <= k < |s| ==> s[i] <= s[k]) && (forall k :: 0 <= k < i ==> s[k] > s[i])
  }

  /** `i` is the first position of a greatest element of `s`. */
  predicate FirstMax(s: seq<real>, i: int)
  {
    0 <= i < |s| && (forall k :: 0 <= k < |s| ==> s[i] >= s[k]) && (forall k :: 0 <= k < i ==> s[k] < s[i])
  }

  function Abs(x: real): real { if x < 0.0 then -1.0 * x else x }

  /** The running total of `fs` up to and including position `i`. */
  function RunningTotal(fs: seq<real>, i: int): real
    requires 0 <= i < |fs|
  {
    Sum(fs[..i + 1])
  }

  /** The wheel of the roulette-wheel selection stops at `i`: the running
      total of the fitnesses first exceeds `slice` at position `i`. */
  predicate FirstAbove(fs: seq<real>, slice: real, i: int)
  {
    0 <= i < |fs| && RunningTotal(fs, i) > slice && forall k :: 0 <= k < i ==> RunningTotal(fs, k) <= slice
  }

  /** Where the running total never exceeds `slice`. */
  predicate NeverAbove(fs: seq<real>, slice: real)
  {
    forall k :: 0 <= k < |fs| ==> RunningTotal(fs, k) <= slice
  }

  /** The number of players of a tournament among `n` genomes: at most
      half of the population. */
  function TournamentPlayers(n: int): int
  {
    if TOURNAMENT_SIZE > n / 2 then n / 2 else TOURNAMENT_SIZE
  }

  /** The tournament as written: `best_fitness` stays 0, so the last
      drawn position with a positive fitness wins, or position 0. */
  function LastPositive(fs: seq<real>, draws: seq<int>): int
    requires forall k :: 0 <= k < |draws| ==> 0 <= draws[k] < |fs|
  {
    if draws == [] then 0
    else if fs[draws[|draws| - 1]] > 0.0 then draws[|draws| - 1]
    else LastPositive(fs, draws[..|draws| - 1])
  }

  /** Where the genome at position `i` of `before` sits in its
      rearrangement `after`: a sort moves the genomes that
      `best_genome` and `worst_genome` point at, and the pointers follow
      them.  A position outside `before` names no genome and is kept. */
  method NewPosition(after: seq<TSPGenome>, before: seq<TSPGenome>, i: nat) returns (j: nat)
    requires multiset(after) == multiset(before)
    ensures i < |before| ==> j < |after| && after[j] == before[i]
    ensures i >= |before| ==> j == i
  {
    j := i;
    if i < |before| {
      assert before[i] in multiset(after);
      j :| j < |after| && after[j] == before[i];
    }
  }

  class Population {
    /** `pop_genomes`. */
    var genomes: seq<TSPGenome>
    /** `population_size`, an `unsigned int`. */
    var populationSize: nat
    /** The positions of the genomes `best_genome` and `worst_genome`
        point at; a sort moves them along with those genomes. */
    var best: nat
    var worst: nat

    /** `Population()`: an empty buffer and a size of 0. */
    constructor ()
      ensures genomes == [] && populationSize == 0
    {
      genomes := [];
      populationSize := 0;
    }

    /** `Population(unsigned int)`: an empty buffer and the given size. */
    constructor WithSize(popSize: nat)
      ensures genomes == [] && populationSize == popSize
    {
      genomes := [];
      populationSize := popSize;
    }

    /** The copy constructor: a clone of every genome of `other`, in
        order, the same size, and the best and worst genome determined
        anew (which reads position 0, so `other` must not be empty). */
    constructor Copy(other: Population)
      requires |other.genomes| > 0
      ensures |genomes| == |other.genomes| && populationSize == other.populationSize
      ensures forall k :: 0 <= k < |genomes| ==> fresh(genomes[k])
      ensures Distinct(genomes)
      ensures forall k :: 0 <= k < |genomes| ==>
        genomes[k].genes == other.genomes[k].genes && genomes[k].score == other.genomes[k].score &&
        genomes[k].fitness == other.genomes[k].fitness
      ensures BestWorst(Scores(genomes), best, worst, HIGH_LOW)
    {
      populationSize := other.populationSize;
      genomes := [];
      new;
      var clones := CloneAll(other.genomes);
      genomes := clones;
      UpdateBestWorst(HIGH_LOW);
    }

    /** `setSize`. */
    method SetSize(size: nat)
      modifies this
      ensures populationSize == size && genomes == old(genomes)
    {
      populationSize := size;
    }

    /** `getPopSize`: the counter, not the length of the buffer. */
    function GetPopSize(): (r: int)
      reads this
      ensures r == populationSize && r >= 0
    {
      populationSize
    }

    /** `getGenome`. */
    method GetGenome(index: nat) returns (g: TSPGenome)
      requires index < |genomes|
      ensures g == genomes[index]
    {
      g := genomes[index];
    }

    /** `getBestGenome` and `getWorstGenome`. */
    method GetBestGenome() returns (g: TSPGenome)
      requires best < |genomes|
      ensures g == genomes[best]
    {
      g := genomes[best];
    }

    method GetWorstGenome() returns (g: TSPGenome)
      requires worst < |genomes|
      ensures g == genomes[worst]
    {
      g := genomes[worst];
    }

    /** `addGenome`: appends at the end and counts the genome. */
    method AddGenome(genome: TSPGenome)
      modifies this
      ensures genomes == old(genomes) + [genome] && populationSize == old(populationSize) + 1
      ensures best == old(best) && worst == old(worst)
    {
      genomes := genomes + [genome];
      populationSize := populationSize + 1;
    }

    /** `setPopGenomes`: the buffer is replaced; the counter is not. */
    method SetPopGenomes(newPop: seq<TSPGenome>)
      modifies this
      ensures genomes == newPop && populationSize == old(populationSize)
      ensures best == old(best) && worst == old(worst)
    {
      genomes := newPop;
    }

    // -------------------------------------------------------------------
    // Totals and extremes
    // -------------------------------------------------------------------

    /** `getTotalScore`. */
    method GetTotalScore() returns (total: real)
      ensures total == Sum(Scores(genomes))
    {
      var gs := genomes;
      total := 0.0;
      var i := 0;
      while i < |gs|
        invariant 0 <= i <= |gs|
        invariant total == Sum(Scores(gs)[..i])
      {
        assert Scores(gs)[..i + 1][..i] == Scores(gs)[..i];
        total := total + gs[i].score;
        i := i + 1;
      }
      assert Scores(gs)[..i] == Scores(gs);
    }

    /** `getTotalFitness`. */
    method GetTotalFitness() returns (total: real)
      ensures total == Sum(Fitnesses(genomes))
    {
      var gs := genomes;
      total := 0.0;
      var i := 0;
      while i < |gs|
        invariant 0 <= i <= |gs|
        invariant total == Sum(Fitnesses(gs)[..i])
      {
        assert Fitnesses(gs)[..i + 1][..i] == Fitnesses(gs)[..i];
        total := total + gs[i].fitness;
        i := i + 1;
      }
      assert Fitnesses(gs)[..i] == Fitnesses(gs);
    }

    /** `getAveScore`: the total divided by the counter; with a counter of
        0 the source divides by zero, which is `None` here. */
    method GetAveScore() returns (ave: Option<real>)
      ensures populationSize == 0 <==> ave == None
      ensures populationSize > 0 ==> ave == Some(Sum(Scores(genomes)) / populationSize as real)
    {
      var total := GetTotalScore();
      if populationSize == 0 {
        return None;
      }
      return Some(total / populationSize as real);
    }

    /** `getAveFitness`, likewise. */
    method GetAveFitness() returns (ave: Option<real>)
      ensures populationSize == 0 <==> ave == None
      ensures populationSize > 0 ==> ave == Some(Sum(Fitnesses(genomes)) / populationSize as real)
    {
      var total := GetTotalFitness();
      if populationSize == 0 {
        return None;
      }
      return Some(total / populationSize as real);
    }

    /** `getMaxScore`: the running maximum starts at 0, so the result is
        the greatest score when some score is not negative, and 0
        otherwise. */
    method GetMaxScore() returns (max: real)
      ensures max >= 0.0 && forall k :: 0 <= k < |genomes| ==> genomes[k].score <= max
      ensures max == 0.0 || exists k :: 0 <= k < |genomes| && genomes[k].score == max
    {
      var gs := genomes;
      max := 0.0;
      var i := 0;
      while i < |gs|
        invariant 0 <= i <= |gs|
        invariant max >= 0.0 && forall k :: 0 <= k < i ==> gs[k].score <= max
        invariant max == 0.0 || exists k :: 0 <= k < i && gs[k].score == max
      {
        if gs[i].score > max {
          max := gs[i].score;
        }
        i := i + 1;
      }
    }

    /** `getMinScore`: the running minimum starts at `getMaxScore()`, so
        the result is the least score of a non-empty buffer, and 0 for an
        empty one. */
    method GetMinScore() returns (min: real)
      ensures |genomes| == 0 ==> min == 0.0
      ensures forall k :: 0 <= k < |genomes| ==> min <= genomes[k].score
      ensures |genomes| > 0 ==> exists k :: 0 <= k < |genomes| && genomes[k].score == min
    {
      var gs := genomes;
      var max := GetMaxScore();
      min := max;
      var i := 0;
      while i < |gs|
        invariant 0 <= i <= |gs| && min <= max && (i == 0 ==> min == max)
        invariant forall k :: 0 <= k < i ==> min <= gs[k].score
        invariant i > 0 ==> exists k :: 0 <= k < i && gs[k].score == min
      {
        if gs[i].score < min {
          min := gs[i].score;
        } else if i == 0 {
          assert gs[0].score == min;
        }
        i := i + 1;
      }
    }

    // -------------------------------------------------------------------
    // Best and worst genome
    // -------------------------------------------------------------------

    /** `updateBestWorst`: scans the buffer from position 0 and moves the
        best or the worst position only on a strictly better or worse
        score, so each is the first position of its extreme; which
        extreme is best depends on `highLow`.  Position 0 is read first,
        so the buffer must not be empty. */
    method UpdateBestWorst(highLow: int)
      requires |genomes| > 0
      modifies this
      ensures BestWorst(Scores(genomes), best, worst, highLow)
      ensures genomes == old(genomes) && populationSize == old(populationSize)
    {
      var scores := Scores(genomes);
      var b, w := 0, 0;
      var i := 0;
      while i < |scores|
        invariant 0 <= i <= |scores| && 0 <= b < |scores| && 0 <= w < |scores|
        invariant (i == 0 && b == 0 && w == 0) || (i > 0 && BestWorst(scores[..i], b, w, highLow))
      {
        if highLow == HIGH_IS_BEST {
          if scores[b] < scores[i] {
            b := i;
          }
          if scores[w] > scores[i] {
            w := i;
          }
        } else {
          if scores[b] > scores[i] {
            b := i;
          }
          if scores[w] < scores[i] {
            w := i;
          }
        }
        i := i + 1;
      }
      assert scores[..i] == scores;
      best, worst := b, w;
    }

    // -------------------------------------------------------------------
    // Evaluation and scaling
    // -------------------------------------------------------------------

    /** `evaluatePopulationScores`: every genome is evaluated. */
    method EvaluatePopulationScores(dist: (Point, Point) -> real)
      modifies genomes
      ensures forall k :: 0 <= k < |genomes| ==> genomes[k].score == TourLength(genomes[k].genes, dist)
      ensures forall k :: 0 <= k < |genomes| ==> genomes[k].genes == old(genomes[k].genes) && genomes[k].fitness == old(genomes[k].fitness)
    {
      var gs := genomes;
      var i := 0;
      while i < |gs|
        invariant 0 <= i <= |gs|
        invariant forall k :: 0 <= k < i ==> gs[k].score == TourLength(gs[k].genes, dist)
        invariant forall k :: 0 <= k < |gs| ==> gs[k].genes == old(gs[k].genes) && gs[k].fitness == old(gs[k].fitness)
      {
        gs[i].Evaluate(dist);
        i := i + 1;
      }
    }

    /** `noScaling`: every fitness becomes the genome's score. */
    method NoScaling()
      modifies genomes
      ensures Fitnesses(genomes) == Scores(genomes)
      ensures forall k :: 0 <= k < |genomes| ==> genomes[k].genes == old(genomes[k].genes) && genomes[k].score == old(genomes[k].score)
    {
      var gs := genomes;
      var i := 0;
      while i < |gs|
        invariant 0 <= i <= |gs|
        invariant forall k :: 0 <= k < i ==> gs[k].fitness == gs[k].score
        invariant forall k :: 0 <= k < |gs| ==> gs[k].genes == old(gs[k].genes) && gs[k].score == old(gs[k].score)
      {
        gs[i].SetFitness(gs[i].GetScore());
        i := i + 1;
      }
    }

    /** `rankScaling`: after `noScaling`, position `i` of the `N` genomes
        is given the fitness `N - i`.  A genome held at several positions
        keeps the rank of its last one. */
    method RankScaling()
      modifies genomes
      ensures forall k :: 0 <= k < |genomes| ==>
        genomes[k].fitness == (|genomes| - LastIndex(genomes, genomes[k])) as real
      ensures forall k :: 0 <= k < |genomes| ==> genomes[k].genes == old(genomes[k].genes) && genomes[k].score == old(genomes[k].score)
    {
      NoScaling();
      var gs := genomes;
      var newRank := |gs|;
      var i := 0;
      while i < |gs|
        invariant 0 <= i <= |gs| && newRank == |gs| - i
        invariant RankedUpTo(gs, i) == true  // one fact, not split
        invariant forall k :: 0 <= k < |gs| ==> gs[k].genes == old(gs[k].genes) && gs[k].score == old(gs[k].score)
      {
        AssignRank(gs, i, newRank);
        newRank := newRank - 1;
        i := i + 1;
      }
      assert gs[..i] == gs;
    }

    /** `diffScaling`: every fitness becomes the distance between the
        genome's score and the worst genome's. */
    method DiffScaling()
      requires worst < |genomes|
      modifies genomes
      ensures forall k :: 0 <= k < |genomes| ==>
        genomes[k].fitness == Abs(genomes[worst].score - genomes[k].score)
      ensures forall k :: 0 <= k < |genomes| ==> genomes[k].genes == old(genomes[k].genes) && genomes[k].score == old(genomes[k].score)
    {
      var gs := genomes;
      var worstGenome := gs[worst];
      var i := 0;
      while i < |gs|
        invariant 0 <= i <= |gs|
        invariant forall k :: 0 <= k < i ==> gs[k].fitness == Abs(worstGenome.score - gs[k].score)
        invariant forall k :: 0 <= k < |gs| ==> gs[k].genes == old(gs[k].genes) && gs[k].score == old(gs[k].score)
      {
        var difference := worstGenome.GetScore() - gs[i].GetScore();
        difference := if difference < 0.0 then -1.0 * difference else difference;
        gs[i].SetFitness(difference);
        i := i + 1;
      }
    }

    /** `evaluatePopulationFitnesses` under the configured scheme. */
    method EvaluatePopulationFitnesses()
      requires worst < |genomes|
      modifies genomes
      ensures forall k :: 0 <= k < |genomes| ==>
        genomes[k].fitness == Abs(genomes[worst].score - genomes[k].score)
      ensures forall k :: 0 <= k < |genomes| ==> genomes[k].genes == old(genomes[k].genes) && genomes[k].score == old(genomes[k].score)
    {
      EvaluateFitnessesBy(SCALING_SCHEME);
    }

    /** `evaluatePopulationFitnesses` for a given `SCALING_SCHEME`: no
        scaling, difference scaling, and rank scaling for anything else. */
    method EvaluateFitnessesBy(scheme: int)
      requires scheme == DIFFERENCE_SCALING ==> worst < |genomes|
      modifies genomes
      ensures scheme == NO_SCALING ==> Fitnesses(genomes) == Scores(genomes)
      ensures scheme == DIFFERENCE_SCALING ==> forall k :: 0 <= k < |genomes| ==>
        genomes[k].fitness == Abs(genomes[worst].score - genomes[k].score)
      ensures scheme != NO_SCALING && scheme != DIFFERENCE_SCALING ==>
        forall k :: 0 <= k < |genomes| ==>
          genomes[k].fitness == (|genomes| - LastIndex(genomes, genomes[k])) as real
      ensures forall k :: 0 <= k < |genomes| ==> genomes[k].genes == old(genomes[k].genes) && genomes[k].score == old(genomes[k].score)
    {
      if scheme == NO_SCALING {
        NoScaling();
      } else if scheme == DIFFERENCE_SCALING {
        DiffScaling();
      } else {
        RankScaling();
      }
    }

    /** `scale` for a given `SCALING_SCHEME`: no scaling or rank scaling;
        unlike `evaluatePopulationFitnesses` it has no difference case. */
    method ScaleBy(scheme: int)
      modifies genomes
      ensures scheme == NO_SCALING ==> Fitnesses(genomes) == Scores(genomes)
      ensures scheme != NO_SCALING ==>
        forall k :: 0 <= k < |genomes| ==>
          genomes[k].fitness == (|genomes| - LastIndex(genomes, genomes[k])) as real
      ensures forall k :: 0 <= k < |genomes| ==> genomes[k].genes == old(genomes[k].genes) && genomes[k].score == old(genomes[k].score)
    {
      if scheme == NO_SCALING {
        NoScaling();
      } else {
        RankScaling();
      }
    }

    /** `initialize`: evaluate every genome, then find the best and the
        worst one. */
    method Initialize(dist: (Point, Point) -> real)
      requires |genomes| > 0
      modifies this, genomes
      ensures genomes == old(genomes) && populationSize == old(populationSize)
      ensures forall k :: 0 <= k < |genomes| ==> genomes[k].score == TourLength(genomes[k].genes, dist)
      ensures BestWorst(Scores(genomes), best, worst, HIGH_LOW)
      ensures forall k :: 0 <= k < |genomes| ==> genomes[k].genes == old(genomes[k].genes) && genomes[k].fitness == old(genomes[k].fitness)
    {
      EvaluatePopulationScores(dist);
      UpdateBestWorst(HIGH_LOW);
    }

    // -------------------------------------------------------------------
    // Selection
    // -------------------------------------------------------------------

    /** `rouletteWheelSelection`: the wheel is spun to `randomPercentage()`
        of the total fitness (`d` is the `rand()` value it draws), and the
        first genome whose running total exceeds that slice is chosen, or
        position 0 when none does.  Position 0 is returned as a genome, so
        the buffer must not be empty. */
    method RouletteWheelSelection(d: nat) returns (selected: nat)
      requires |genomes| > 0
      ensures Spun(Fitnesses(genomes), WheelSlice(Fitnesses(genomes), d), selected)
    {
      var totalFitness := GetTotalFitness();
      var slice := RandomPercentage(d) * totalFitness;
      SliceOfTotal(Fitnesses(genomes), d, totalFitness);
      selected := SpinWheel(Fitnesses(genomes), slice);
    }

    /** `tournamentSelection` as written: `TournamentPlayers` draws of
        `rand() % (size - 1)`, and since `best_fitness` stays 0 the last
        drawn genome with a positive fitness wins, or position 0. */
    method TournamentSelectionAsWritten(draws: seq<nat>) returns (selected: nat)
      requires |genomes| > 0 && |draws| == TournamentPlayers(|genomes|)
      ensures selected == LastPositive(Fitnesses(genomes), Drawn(draws, |genomes|))
    {
      var fs := Fitnesses(genomes);
      var bestFitness := 0.0;
      selected := 0;
      var numPlayers := TournamentPlayers(|fs|);
      var i := 0;
      while i < numPlayers
        invariant 0 <= i <= numPlayers
        invariant selected == LastPositive(fs, Drawn(draws, |fs|)[..i])
      {
        assert Drawn(draws, |fs|)[..i + 1][..i] == Drawn(draws, |fs|)[..i];
        var randomIndex := draws[i] % (|fs| - 1);
        if fs[randomIndex] > bestFitness {
          selected := randomIndex;
        }
        i := i + 1;
      }
      assert Drawn(draws, |fs|)[..i] == Drawn(draws, |fs|);
    }

    /** `tournamentSelection` with `best_fitness` raised to each new
        leader's fitness: the first drawn genome of the highest positive
        fitness wins, or position 0. */
    method TournamentSelection(draws: seq<nat>) returns (selected: nat)
      requires |genomes| > 0 && |draws| == TournamentPlayers(|genomes|)
      ensures selected == Tourney(Fitnesses(genomes), Drawn(draws, |genomes|)).0
    {
      var fs := Fitnesses(genomes);
      var bestFitness := 0.0;
      selected := 0;
      var numPlayers := TournamentPlayers(|fs|);
      var i := 0;
      while i < numPlayers
        invariant 0 <= i <= numPlayers
        invariant (selected, bestFitness) == Tourney(fs, Drawn(draws, |fs|)[..i])
      {
        assert Drawn(draws, |fs|)[..i + 1][..i] == Drawn(draws, |fs|)[..i];
        var randomIndex := draws[i] % (|fs| - 1);
        if fs[randomIndex] > bestFitness {
          selected := randomIndex;
          bestFitness := fs[randomIndex];
        }
        i := i + 1;
      }
      assert Drawn(draws, |fs|)[..i] == Drawn(draws, |fs|);
    }

    /** `rankSelection`: rank scaling, then the roulette wheel. */
    method RankSelection(d: nat) returns (selected: nat)
      requires |genomes| > 0
      modifies genomes
      ensures forall k :: 0 <= k < |genomes| ==>
        genomes[k].fitness == (|genomes| - LastIndex(genomes, genomes[k])) as real
      ensures forall k :: 0 <= k < |genomes| ==> genomes[k].genes == old(genomes[k].genes) && genomes[k].score == old(genomes[k].score)
      ensures Spun(Fitnesses(genomes), WheelSlice(Fitnesses(genomes), d), selected)
    {
      RankScaling();
      selected := RouletteWheelSelection(d);
    }

    /** `select` for a given `SELECTION_SCHEME`: rank selection, the
        roulette wheel, or (for anything else) the tournament as written,
        whose winner is the last drawn genome with a positive fitness.
        `d` is the draw of a wheel, `draws` those of a tournament. */
    method SelectBy(scheme: int, d: nat, draws: seq<nat>) returns (selected: nat)
      requires |genomes| > 0
      requires scheme != RANK_SELECTION && scheme != ROULETTE_WHEEL ==> |draws| == TournamentPlayers(|genomes|)
      modifies genomes
      ensures selected < |genomes|
      ensures forall k :: 0 <= k < |genomes| ==> genomes[k].genes == old(genomes[k].genes) && genomes[k].score == old(genomes[k].score)
      ensures scheme != RANK_SELECTION ==> unchanged(genomes)
      ensures scheme == RANK_SELECTION || scheme == ROULETTE_WHEEL ==>
        Spun(Fitnesses(genomes), WheelSlice(Fitnesses(genomes), d), selected)
      ensures scheme != RANK_SELECTION && scheme != ROULETTE_WHEEL ==>
        selected == LastPositive(Fitnesses(genomes), Drawn(draws, |genomes|))
    {
      if scheme == RANK_SELECTION {
        selected := RankSelection(d);
      } else if scheme == ROULETTE_WHEEL {
        selected := RouletteWheelSelection(d);
      } else {
        selected := TournamentSelectionAsWritten(draws);
        LastPositiveIsLastPositive(Fitnesses(genomes), Drawn(draws, |genomes|));
      }
    }

    /** `select` under the configured scheme, the roulette wheel. */
    method Select(d: nat, draws: seq<nat>) returns (selected: nat)
      requires |genomes| > 0
      modifies genomes
      ensures selected < |genomes| && unchanged(genomes)
      ensures Spun(Fitnesses(genomes), WheelSlice(Fitnesses(genomes), d), selected)
    {
      selected := SelectBy(SELECTION_SCHEME, d, draws);
    }

    // -------------------------------------------------------------------
    // Sorting and assignment
    // -------------------------------------------------------------------

    /** `sortPopulation` for a given `SORT_ORDER` and `SORT_TYPE`: the
        buffer rearranged by `SortedBuffer`, with `best_genome` and
        `worst_genome` still on the genomes they pointed at. */
    method SortPopulationBy(order: int, sortType: int)
      modifies this
      ensures multiset(genomes) == multiset(old(genomes)) && populationSize == old(populationSize)
      ensures old(best) < |old(genomes)| ==> best < |genomes| && genomes[best] == old(genomes[best])
      ensures old(best) >= |old(genomes)| ==> best == old(best)
      ensures old(worst) < |old(genomes)| ==> worst < |genomes| && genomes[worst] == old(genomes[worst])
      ensures old(worst) >= |old(genomes)| ==> worst == old(worst)
      ensures order == ASC && sortType == SCORE && |genomes| > 1 ==>
        SplitSorted(genomes, 0, |genomes| - 1, ByScore, false)
      ensures order == ASC && sortType != SCORE && |genomes| > 1 ==>
        SplitSorted(genomes, 0, |genomes| - 1, ByFitness, false)
      ensures order != ASC && sortType == FITNESS ==> SortedBy(genomes, ByScore, true)
      ensures order != ASC && sortType != FITNESS && |genomes| > 1 ==>
        SplitSorted(genomes, 0, |genomes| - 1, ByFitness, true)
    {
      var before := genomes;
      var sorted := SortedBuffer(order, sortType, before);
      var b := NewPosition(sorted, before, best);
      var w := NewPosition(sorted, before, worst);
      genomes, best, worst := sorted, b, w;
    }

    /** `sortPopulation` under the configured ASC and FITNESS: one
        partition by fitness, the fitter genomes first, and both sides by
        ascending score.  When the fitnesses are difference scaled, as
        `init` leaves them, that is the fittest genome first. */
    method SortPopulation()
      modifies this
      ensures multiset(genomes) == multiset(old(genomes)) && populationSize == old(populationSize)
      ensures old(best) < |old(genomes)| ==> best < |genomes| && genomes[best] == old(genomes[best])
      ensures old(best) >= |old(genomes)| ==> best == old(best)
      ensures old(worst) < |old(genomes)| ==> worst < |genomes| && genomes[worst] == old(genomes[worst])
      ensures old(worst) >= |old(genomes)| ==> worst == old(worst)
      ensures |genomes| > 1 ==> SplitSorted(genomes, 0, |genomes| - 1, ByFitness, false)
      ensures forall w :: DiffScaledBy(genomes, w) ==> SortedBy(genomes, ByFitness, false)
    {
      SortPopulationBy(SORT_ORDER, SORT_TYPE);
      forall w | DiffScaledBy(genomes, w)
        ensures SortedBy(genomes, ByFitness, false)
      {
        if |genomes| > 1 {
          DiffScaledSplitIsSorted(genomes, 0, |genomes| - 1, w);
          assert genomes[0..|genomes|] == genomes;
        }
      }
    }

    /** What `operator=` leaves in the buffer: clones of `other`'s genomes,
        in order, and `other`'s size, best and worst. */
    method Assign(other: Population)
      requires other != this
      modifies this
      ensures |genomes| == |other.genomes| && populationSize == other.populationSize
      ensures best == other.best && worst == other.worst
      ensures forall k :: 0 <= k < |genomes| ==> fresh(genomes[k])
      ensures forall k :: 0 <= k < |genomes| ==>
        genomes[k].genes == other.genomes[k].genes && genomes[k].score == other.genomes[k].score &&
        genomes[k].fitness == other.genomes[k].fitness
    {
      best, worst := other.best, other.worst;
      populationSize := other.populationSize;
      var clones := CloneAll(other.genomes);
      genomes := clones;
    }
  }

  function Max(a: int, b: int): int { if a < b then b else a }

  /** The last position of `x` in `s`, or -1. */
  function LastIndex<T(==)>(s: seq<T>, x: T): (r: int)
    ensures -1 <= r < |s| && (r >= 0 ==> s[r] == x)
    ensures forall k :: r < k < |s| ==> s[k] != x
  {
    if s == [] then -1
    else if s[|s| - 1] == x then |s| - 1
    else LastIndex(s[..|s| - 1], x)
  }

  /** Extending a prefix by one element moves the last position of that
      element and of nothing else. */
  lemma LastIndexExtends<T>(s: seq<T>, i: int)
    requires 0 <= i < |s|
    ensures LastIndex(s[..i + 1], s[i]) == i
    ensures forall x :: x != s[i] ==> LastIndex(s[..i + 1], x) == LastIndex(s[..i], x)
  {
    assert s[..i + 1][..i] == s[..i];
  }

  /** The first `i` genomes of `gs` carry their rank: `|gs|` less their
      last position among those `i`. */
  ghost predicate RankedUpTo(gs: seq<TSPGenome>, i: int)
    reads gs
  {
    0 <= i <= |gs| && forall k :: 0 <= k < i ==> gs[k].fitness == (|gs| - LastIndex(gs[..i], gs[k])) as real
  }

  /** One step of `rankScaling`: `setFitness(new_rank--)` on position `i`. */
  method AssignRank(gs: seq<TSPGenome>, i: int, rank: int)
    requires RankedUpTo(gs, i) && i < |gs| && rank == |gs| - i
    modifies gs[i]
    ensures RankedUpTo(gs, i + 1)
    ensures forall k :: 0 <= k < |gs| ==> gs[k].genes == old(gs[k].genes) && gs[k].score == old(gs[k].score)
  {
    LastIndexExtends(gs, i);
    gs[i].SetFitness(rank as real);
    forall k | 0 <= k < i + 1
      ensures gs[k].fitness == (|gs| - LastIndex(gs[..i + 1], gs[k])) as real
    {
      if gs[k] != gs[i] {
        assert gs[k].fitness == old(gs[k].fitness);
      }
    }
  }

  /** In a buffer without repeated genomes every genome's last position
      is its own. */
  lemma LastIndexOfDistinct<T>(s: seq<T>, k: int)
    requires Distinct(s) && 0 <= k < |s|
    ensures LastIndex(s, s[k]) == k
  {
  }

  /** The best and the worst position found by `updateBestWorst`: under
      `HIGH_IS_BEST` the first greatest and the first least score, and the
      other way round otherwise. */
  predicate BestWorst(scores: seq<real>, best: int, worst: int, highLow: int)
  {
    if highLow == HIGH_IS_BEST then FirstMax(scores, best) && FirstMin(scores, worst)
    else FirstMin(scores, best) && FirstMax(scores, worst)
  }

  /** A clone of every genome, in order, each a new object. */
  method CloneAll(gs: seq<TSPGenome>) returns (clones: seq<TSPGenome>)
    ensures |clones| == |gs| && Distinct(clones)
    ensures forall k :: 0 <= k < |clones| ==> fresh(clones[k])
    ensures forall k :: 0 <= k < |clones| ==>
      clones[k].genes == gs[k].genes && clones[k].score == gs[k].score && clones[k].fitness == gs[k].fitness
  {
    clones := [];
    var i := 0;
    while i < |gs|
      invariant 0 <= i <= |gs| && |clones| == i && Distinct(clones)
      invariant forall k :: 0 <= k < i ==> fresh(clones[k])
      invariant forall k :: 0 <= k < i ==>
        clones[k].genes == gs[k].genes && clones[k].score == gs[k].score && clones[k].fitness == gs[k].fitness
    {
      var c := gs[i].Clone();
      clones := clones + [c];
      i := i + 1;
    }
  }

  // ---------------------------------------------------------------------
  // The quicksorts (static members of Population)
  // ---------------------------------------------------------------------

  /** The key a sort compares. */
  datatype SortKey = ByScore | ByFitness

  function Key(x: TSPGenome, key: SortKey): real
    reads x
  {
    match key
    case ByScore => x.score
    case ByFitness => x.fitness
  }

  /** `a` strictly precedes `b` in the order a partition builds:
      ascending when `up`, descending otherwise. */
  predicate Before(a: real, b: real, up: bool)
  {
    if up then a < b else a > b
  }

  /** No genome of `xs` has a key that comes after `v`. */
  predicate NoneAfter(xs: seq<TSPGenome>, v: real, key: SortKey, up: bool)
    reads xs
  {
    forall x :: x in xs ==> !Before(v, Key(x, key), up)
  }

  /** No genome of `xs` has a key that comes before `v`. */
  predicate NoneBefore(xs: seq<TSPGenome>, v: real, key: SortKey, up: bool)
    reads xs
  {
    forall x :: x in xs ==> !Before(Key(x, key), v, up)
  }

  /** The keys of `xs` are in order: no later key precedes an earlier one. */
  predicate SortedBy(xs: seq<TSPGenome>, key: SortKey, up: bool)
    reads xs
  {
    forall a, b :: 0 <= a < b < |xs| ==> !Before(Key(xs[b], key), Key(xs[a], key), up)
  }

  /** `t[l..r]` is partitioned around position `p`: nothing before `p`
      has a key after the key at `p`, nothing after `p` a key before it. */
  predicate SplitAt(t: seq<TSPGenome>, l: int, r: int, p: int, key: SortKey, up: bool)
    reads t
  {
    0 <= l <= p <= r < |t| &&
    NoneAfter(t[l..p], Key(t[p], key), key, up) && NoneBefore(t[p + 1..r + 1], Key(t[p], key), key, up)
  }

  /** Both sides of the split at `p` are in ascending score order. */
  predicate SidesByScore(t: seq<TSPGenome>, l: int, r: int, p: int)
    reads t
  {
    0 <= l <= p <= r < |t| && SortedBy(t[l..p], ByScore, true) && SortedBy(t[p + 1..r + 1], ByScore, true)
  }

  /** `t[l..r]` is split at some position, with both sides in ascending
      score order. */
  predicate SplitSorted(t: seq<TSPGenome>, l: int, r: int, key: SortKey, up: bool)
    reads t
  {
    exists p :: l <= p <= r && SplitAt(t, l, r, p, key, up) && SidesByScore(t, l, r, p)
  }

  /** `t` differs from `g` only inside positions `l..r`. */
  ghost predicate SameOutside<T>(t: seq<T>, g: seq<T>, l: int, r: int)
  {
    |t| == |g| && forall k :: 0 <= k < |g| && !(l <= k <= r) ==> t[k] == g[k]
  }

  /** With the outside unchanged, the whole is a permutation exactly when
      the inside is. */
  lemma SlicePermutes<T>(s: seq<T>, g: seq<T>, l: int, r: int)
    requires 0 <= l <= r + 1 <= |g| && SameOutside(s, g, l, r)
    ensures multiset(s) == multiset(g) <==> multiset(s[l..r + 1]) == multiset(g[l..r + 1])
  {
    assert s[..l] == g[..l];
    assert s[r + 1..] == g[r + 1..];
    assert s == s[..l] + s[l..r + 1] + s[r + 1..];
    assert g == g[..l] + g[l..r + 1] + g[r + 1..];
    var front, back := multiset(g[..l]), multiset(g[r + 1..]);
    assert multiset(s) == front + multiset(s[l..r + 1]) + back;
    assert multiset(g) == front + multiset(g[l..r + 1]) + back;
    assert multiset(s[l..r + 1]) == multiset(s) - back - front;
    assert multiset(g[l..r + 1]) == multiset(g) - back - front;
  }

  /** The partition step shared by the four sorts: the pivot is the key of
      position `r`; one scan moves up from `l` over keys before the pivot,
      one down from `r` over keys after it (down to position 0, not `l`);
      out-of-place pairs are swapped until the scans meet, and the pivot
      is swapped into the meeting position `p`. */
  method Partition(g: seq<TSPGenome>, l: int, r: int, key: SortKey, up: bool) returns (t: seq<TSPGenome>, p: int)
    requires 0 <= l < r < |g|
    ensures SameOutside(t, g, l, r) && multiset(t) == multiset(g)
    ensures SplitAt(t, l, r, p, key, up) && Key(t[p], key) == Key(g[r], key)
  {
    var s := g;
    var v := Key(s[r], key);
    var i := l - 1;
    var j := r;
    var i0, j0 := i, j;
    while true
      invariant Partitioning(s, g, l, r, i, j, v, key, up) == true  // one fact, not split
      decreases j - i
    {
      i0, j0 := i, j;
      i := ScanUp(s, i0 + 1, r, v, key, up);
      j := ScanDown(s, j0 - 1, v, key, up);
      if i >= j {
        break;
      }
      PartitionSwaps(s, g, l, r, i0, j0, i, j, v, key, up);
      s := Swapped(s, i, j);
    }
    PartitionEnds(s, g, l, r, i0, j0, i, j, v, key, up);
    s := Swapped(s, i, r);
    t, p := s, i;
  }

  /** The state of the partition loop: the keys at `l..i` do not come
      after the pivot `v`, those at `j..r-1` not before it, position `r`
      still holds the pivot, and only `l..r` has been permuted. */
  ghost predicate Partitioning(s: seq<TSPGenome>, g: seq<TSPGenome>, l: int, r: int, i: int, j: int, v: real, key: SortKey, up: bool)
    reads s
  {
    0 <= l && l - 1 <= i < j <= r < |s| && l < j &&
    SameOutside(s, g, l, r) && multiset(s) == multiset(g) && s[r] == g[r] && Key(s[r], key) == v &&
    (forall k :: l <= k <= i ==> !Before(v, Key(s[k], key), up)) &&
    (forall k :: j <= k < r ==> !Before(Key(s[k], key), v, up))
  }

  /** A swap of the positions where both scans stopped keeps the loop
      state. */
  lemma PartitionSwaps(s: seq<TSPGenome>, g: seq<TSPGenome>, l: int, r: int, i0: int, j0: int, i: int, j: int, v: real, key: SortKey, up: bool)
    requires Partitioning(s, g, l, r, i0, j0, v, key, up)
    requires i0 + 1 <= i <= r && !Before(Key(s[i], key), v, up)
    requires forall k :: i0 + 1 <= k < i ==> Before(Key(s[k], key), v, up)
    requires 0 <= j <= j0 - 1 && (j == 0 || !Before(v, Key(s[j], key), up))
    requires forall k :: j < k <= j0 - 1 ==> Before(v, Key(s[k], key), up)
    requires i < j
    ensures Partitioning(Swapped(s, i, j), g, l, r, i, j, v, key, up)
  {
    SwappedPermutes(s, i, j);
    var t := Swapped(s, i, j);
    forall k | l <= k <= i
      ensures !Before(v, Key(t[k], key), up)
    {
      if k < i && k > i0 {
        assert Before(Key(s[k], key), v, up);
      }
    }
    forall k | j <= k < r
      ensures !Before(Key(t[k], key), v, up)
    {
      if j < k < j0 {
        assert Before(v, Key(s[k], key), up);
      }
    }
  }

  /** When the scans meet, swapping the pivot into the meeting position
      splits `l..r` there. */
  lemma PartitionEnds(s: seq<TSPGenome>, g: seq<TSPGenome>, l: int, r: int, i0: int, j0: int, i: int, j: int, v: real, key: SortKey, up: bool)
    requires Partitioning(s, g, l, r, i0, j0, v, key, up)
    requires i0 + 1 <= i <= r && !Before(Key(s[i], key), v, up)
    requires forall k :: i0 + 1 <= k < i ==> Before(Key(s[k], key), v, up)
    requires 0 <= j <= j0 - 1 && forall k :: j < k <= j0 - 1 ==> Before(v, Key(s[k], key), up)
    requires i >= j
    ensures 0 <= l <= i <= r < |s|
    ensures SameOutside(Swapped(s, i, r), g, l, r) && multiset(Swapped(s, i, r)) == multiset(g)
    ensures SplitAt(Swapped(s, i, r), l, r, i, key, up) && Key(Swapped(s, i, r)[i], key) == Key(g[r], key)
  {
    SwappedPermutes(s, i, r);
    var t := Swapped(s, i, r);
    forall k | l <= k < i
      ensures !Before(v, Key(t[k], key), up)
    {
      if k > i0 {
        assert Before(Key(s[k], key), v, up);
      }
    }
    forall k | i < k <= r
      ensures !Before(Key(t[k], key), v, up)
    {
      if k < j0 {
        assert Before(v, Key(s[k], key), up);
      }
    }
    PartitionDone(t, g, l, r, i, v, key, up);
  }

  /** The upward scan, `while (key(g[++i]) before v && i <= r)`: stops
      at the first key from `i0` on that does not precede the pivot, which
      position `r` holds at the latest. */
  method ScanUp(s: seq<TSPGenome>, i0: int, r: int, v: real, key: SortKey, up: bool) returns (i: int)
    requires 0 <= i0 <= r < |s| && Key(s[r], key) == v
    ensures i0 <= i <= r && !Before(Key(s[i], key), v, up)
    ensures forall k :: i0 <= k < i ==> Before(Key(s[k], key), v, up)
  {
    i := i0;
    while Before(Key(s[i], key), v, up) && i <= r
      invariant i0 <= i <= r
      invariant forall k :: i0 <= k < i ==> Before(Key(s[k], key), v, up)
      decreases r - i
    {
      i := i + 1;
    }
  }

  /** The downward scan, `while (key(g[--j]) after v && j > 0)`: stops at
      the first key from `j0` down that does not follow the pivot, or at
      position 0. */
  method ScanDown(s: seq<TSPGenome>, j0: int, v: real, key: SortKey, up: bool) returns (j: int)
    requires 0 <= j0 < |s|
    ensures 0 <= j <= j0 && (j == 0 || !Before(v, Key(s[j], key), up))
    ensures forall k :: j < k <= j0 ==> Before(v, Key(s[k], key), up)
  {
    j := j0;
    while Before(v, Key(s[j], key), up) && j > 0
      invariant 0 <= j <= j0
      invariant forall k :: j < k <= j0 ==> Before(v, Key(s[k], key), up)
      decreases j
    {
      j := j - 1;
    }
  }

  /** After the pivot is swapped into place, `t` is split at `p`. */
  lemma PartitionDone(t: seq<TSPGenome>, g: seq<TSPGenome>, l: int, r: int, p: int, v: real, key: SortKey, up: bool)
    requires 0 <= l <= p <= r < |t| && Key(t[p], key) == v
    requires forall k :: l <= k < p ==> !Before(v, Key(t[k], key), up)
    requires forall k :: p < k <= r ==> !Before(Key(t[k], key), v, up)
    ensures SplitAt(t, l, r, p, key, up)
  {
    forall x | x in t[l..p]
      ensures !Before(v, Key(x, key), up)
    {
      var k :| 0 <= k < |t[l..p]| && t[l..p][k] == x;
      assert x == t[l + k];
    }
    forall x | x in t[p + 1..r + 1]
      ensures !Before(Key(x, key), v, up)
    {
      var k :| 0 <= k < |t[p + 1..r + 1]| && t[p + 1..r + 1][k] == x;
      assert x == t[p + 1 + k];
    }
  }

  /** Genomes carried over by a permutation keep their bounds. */
  lemma BoundsPermute(a: seq<TSPGenome>, b: seq<TSPGenome>, v: real, key: SortKey, up: bool)
    requires multiset(a) == multiset(b)
    ensures NoneAfter(a, v, key, up) == NoneAfter(b, v, key, up)
    ensures NoneBefore(a, v, key, up) == NoneBefore(b, v, key, up)
  {
    assert forall x :: x in a <==> x in multiset(a);
    assert forall x :: x in b <==> x in multiset(b);
  }

  /** Two sorted sides around a pivot that splits them make a sorted run. */
  lemma SortedAroundPivot(t: seq<TSPGenome>, l: int, r: int, p: int, key: SortKey, up: bool)
    requires SplitAt(t, l, r, p, key, up)
    requires SortedBy(t[l..p], key, up) && SortedBy(t[p + 1..r + 1], key, up)
    ensures SortedBy(t[l..r + 1], key, up)
  {
    var run := t[l..r + 1];
    forall a, b | 0 <= a < b < |run|
      ensures !Before(Key(run[b], key), Key(run[a], key), up)
    {
      if l + b < p {
        assert run[a] == t[l..p][a] && run[b] == t[l..p][b];
      } else if l + a > p {
        assert run[a] == t[p + 1..r + 1][a - (p + 1 - l)] && run[b] == t[p + 1..r + 1][b - (p + 1 - l)];
      } else {
        if l + a < p {
          assert run[a] in t[l..p];
        }
        if l + b > p {
          assert run[b] in t[p + 1..r + 1];
        }
      }
    }
  }

  /** Sorting one side of a split in place keeps the split and what lies
      outside that side. */
  lemma SideSortKeepsSplit(s: seq<TSPGenome>, t: seq<TSPGenome>, l: int, r: int, p: int, lo: int, hi: int, key: SortKey, up: bool)
    requires SplitAt(s, l, r, p, key, up)
    requires (lo == l && hi == p - 1) || (lo == p + 1 && hi == r)
    requires SameOutside(t, s, lo, hi) && multiset(t) == multiset(s)
    ensures SplitAt(t, l, r, p, key, up) && t[p] == s[p] && SameOutside(t, s, l, r)
    ensures lo == l ==> t[p + 1..r + 1] == s[p + 1..r + 1]
    ensures lo != l ==> t[l..p] == s[l..p]
  {
    SlicePermutes(t, s, lo, hi);
    if lo == l {
      assert t[p + 1..r + 1] == s[p + 1..r + 1];
      BoundsPermute(t[l..p], s[l..p], Key(s[p], key), key, up);
    } else {
      assert t[l..p] == s[l..p];
      BoundsPermute(t[p + 1..r + 1], s[p + 1..r + 1], Key(s[p], key), key, up);
    }
  }

  /** Sorting both sides of a split one after the other, `l..p-1` and then
      `p+1..r`, by `sideKey` in the order `sideUp`. */
  method SortSides(s: seq<TSPGenome>, l: int, r: int, p: int, ghost key: SortKey, ghost up: bool,
                   sideKey: SortKey, sideUp: bool) returns (t: seq<TSPGenome>)
    requires SplitAt(s, l, r, p, key, up)
    ensures SameOutside(t, s, l, r) && multiset(t) == multiset(s) && t[p] == s[p]
    ensures SplitAt(t, l, r, p, key, up)
    ensures SortedBy(t[l..p], sideKey, sideUp) && SortedBy(t[p + 1..r + 1], sideKey, sideUp)
    decreases r - l, 0
  {
    var s1 := QuickSort(s, l, p - 1, sideKey, sideUp);
    SideSortKeepsSplit(s, s1, l, r, p, l, p - 1, key, up);
    t := QuickSort(s1, p + 1, r, sideKey, sideUp);
    SideSortKeepsSplit(s1, t, l, r, p, p + 1, r, key, up);
  }

  /** The quicksort the four sorts share when each recurses into itself:
      partition `l..r`, then sort both sides the same way.  Positions
      `l..r` end up in the order `up` of `key`, a permutation of what was
      there. */
  method QuickSort(g: seq<TSPGenome>, l: int, r: int, key: SortKey, up: bool) returns (t: seq<TSPGenome>)
    requires l < r ==> 0 <= l && r < |g|
    ensures SameOutside(t, g, l, r) && multiset(t) == multiset(g)
    ensures l < r ==> SortedBy(t[l..r + 1], key, up)
    decreases r - l, 1
  {
    if r > l {
      var s, p := Partition(g, l, r, key, up);
      t := SortSides(s, l, r, p, key, up, key, up);
      SortedAroundPivot(t, l, r, p, key, up);
    } else {
      t := g;
    }
  }

  /** `SortDescendingScores`, which does recurse into itself: despite its
      name it leaves positions `l..r` in ascending score order. */
  method SortDescendingScores(g: seq<TSPGenome>, l: int, r: int) returns (t: seq<TSPGenome>)
    requires l < r ==> 0 <= l && r < |g|
    ensures SameOutside(t, g, l, r) && multiset(t) == multiset(g)
    ensures l < r ==> SortedBy(t[l..r + 1], ByScore, true)
  {
    t := QuickSort(g, l, r, ByScore, true);
  }

  /** One partition by `key` as the sorts as written perform it, followed
      by `SortDescendingScores` on both sides. */
  method PartitionThenByScore(g: seq<TSPGenome>, l: int, r: int, key: SortKey, up: bool) returns (t: seq<TSPGenome>)
    requires l < r ==> 0 <= l && r < |g|
    ensures SameOutside(t, g, l, r) && multiset(t) == multiset(g)
    ensures l < r ==> SplitSorted(t, l, r, key, up)
  {
    if r > l {
      var s, p := Partition(g, l, r, key, up);
      t := SortSides(s, l, r, p, key, up, ByScore, true);
      assert SidesByScore(t, l, r, p);
    } else {
      t := g;
    }
  }

  /** `SortDescendingFitness` as written: its recursive calls go to
      `SortDescendingScores`, so it partitions once by fitness, the
      smaller fitnesses first, and sorts each side by ascending score. */
  method SortDescendingFitnessAsWritten(g: seq<TSPGenome>, l: int, r: int) returns (t: seq<TSPGenome>)
    requires l < r ==> 0 <= l && r < |g|
    ensures SameOutside(t, g, l, r) && multiset(t) == multiset(g)
    ensures l < r ==> SplitSorted(t, l, r, ByFitness, true)
  {
    t := PartitionThenByScore(g, l, r, ByFitness, true);
  }

  /** `SortAscendingScores` as written: one partition by score, the larger
      scores first, then each side by ascending score. */
  method SortAscendingScoresAsWritten(g: seq<TSPGenome>, l: int, r: int) returns (t: seq<TSPGenome>)
    requires l < r ==> 0 <= l && r < |g|
    ensures SameOutside(t, g, l, r) && multiset(t) == multiset(g)
    ensures l < r ==> SplitSorted(t, l, r, ByScore, false)
  {
    t := PartitionThenByScore(g, l, r, ByScore, false);
  }

  /** `SortAscendingFitness` as written: one partition by fitness, the
      larger fitnesses first, then each side by ascending score. */
  method SortAscendingFitnessAsWritten(g: seq<TSPGenome>, l: int, r: int) returns (t: seq<TSPGenome>)
    requires l < r ==> 0 <= l && r < |g|
    ensures SameOutside(t, g, l, r) && multiset(t) == multiset(g)
    ensures l < r ==> SplitSorted(t, l, r, ByFitness, false)
  {
    t := PartitionThenByScore(g, l, r, ByFitness, false);
  }

  /** The buffer `sortPopulation` leaves for a given `SORT_ORDER` and
      `SORT_TYPE`, over the whole buffer (`size - 1` is taken as -1 for
      an empty one), with the sorts as written.  Under ASC the score or
      the fitness sort: one partition by that key, the larger keys
      first, then both sides by ascending score.  Under DESC the key is
      swapped: for FITNESS `SortDescendingScores`, which does sort, by
      ascending score; else one partition by fitness, the smaller first,
      then both sides by ascending score. */
  method SortedBuffer(order: int, sortType: int, g: seq<TSPGenome>) returns (sorted: seq<TSPGenome>)
    ensures multiset(sorted) == multiset(g) && |sorted| == |g|
    ensures order == ASC && sortType == SCORE && |g| > 1 ==>
      SplitSorted(sorted, 0, |g| - 1, ByScore, false)
    ensures order == ASC && sortType != SCORE && |g| > 1 ==>
      SplitSorted(sorted, 0, |g| - 1, ByFitness, false)
    ensures order != ASC && sortType == FITNESS ==> SortedBy(sorted, ByScore, true)
    ensures order != ASC && sortType != FITNESS && |g| > 1 ==>
      SplitSorted(sorted, 0, |g| - 1, ByFitness, true)
  {
    var last := |g| - 1;
    if order == ASC {
      if sortType == SCORE {
        sorted := SortAscendingScoresAsWritten(g, 0, last);
      } else {
        sorted := SortAscendingFitnessAsWritten(g, 0, last);
      }
    } else {
      if sortType == FITNESS {
        sorted := SortDescendingScores(g, 0, last);
        assert |g| > 1 ==> sorted[0..last + 1] == sorted;
      } else {
        sorted := SortDescendingFitnessAsWritten(g, 0, last);
      }
    }
    assert |sorted| == |multiset(sorted)| == |multiset(g)| == |g|;
  }

  /** `SortDescendingFitness` recursing into itself: ascending fitness,
      as its comparisons order the partition. */
  method SortDescendingFitness(g: seq<TSPGenome>, l: int, r: int) returns (t: seq<TSPGenome>)
    requires l < r ==> 0 <= l && r < |g|
    ensures SameOutside(t, g, l, r) && multiset(t) == multiset(g)
    ensures l < r ==> SortedBy(t[l..r + 1], ByFitness, true)
  {
    t := QuickSort(g, l, r, ByFitness, true);
  }

  /** `SortAscendingScores` recursing into itself: descending score. */
  method SortAscendingScores(g: seq<TSPGenome>, l: int, r: int) returns (t: seq<TSPGenome>)
    requires l < r ==> 0 <= l && r < |g|
    ensures SameOutside(t, g, l, r) && multiset(t) == multiset(g)
    ensures l < r ==> SortedBy(t[l..r + 1], ByScore, false)
  {
    t := QuickSort(g, l, r, ByScore, false);
  }

  /** `SortAscendingFitness` recursing into itself: descending fitness,
      the fittest genome first. */
  method SortAscendingFitness(g: seq<TSPGenome>, l: int, r: int) returns (t: seq<TSPGenome>)
    requires l < r ==> 0 <= l && r < |g|
    ensures SameOutside(t, g, l, r) && multiset(t) == multiset(g)
    ensures l < r ==> SortedBy(t[l..r + 1], ByFitness, false)
  {
    t := QuickSort(g, l, r, ByFitness, false);
  }

  /** As written, one partition is not a sort: when every fitness equals
      its score (no scaling) and the four scores differ, no buffer that
      the as-written `SortAscendingFitness` can leave is in descending
      fitness order, since one side of the split holds two genomes in
      ascending order. */
  lemma OnePartitionUnsorted(t: seq<TSPGenome>)
    requires |t| == 4 && forall k :: 0 <= k < 4 ==> t[k].fitness == t[k].score
    requires forall i, j :: 0 <= i < j < 4 ==> t[i].score != t[j].score
    ensures SplitSorted(t, 0, 3, ByFitness, false) ==> !SortedBy(t, ByFitness, false)
  {
    if SplitSorted(t, 0, 3, ByFitness, false) {
      var p :| 0 <= p <= 3 && SplitAt(t, 0, 3, p, ByFitness, false) && SidesByScore(t, 0, 3, p);
      var a := if p <= 1 then 2 else 0;
      if p <= 1 {
        assert t[p + 1..4][2 - (p + 1)] == t[2] && t[p + 1..4][3 - (p + 1)] == t[3];
      } else {
        assert t[0..p][0] == t[0] && t[0..p][1] == t[1];
      }
      assert t[a].score < t[a + 1].score;
      assert Before(Key(t[a + 1], ByFitness), Key(t[a], ByFitness), false);
    }
  }

  /** Under difference scaling every fitness is the worst score less the
      genome's own; ascending scores are then descending fitnesses, and
      the as-written sort does leave the buffer in descending fitness
      order. */
  lemma DiffScaledSplitIsSorted(t: seq<TSPGenome>, l: int, r: int, w: real)
    requires 0 <= l <= r < |t|
    requires DiffScaledBy(t, w) && SplitSorted(t, l, r, ByFitness, false)
    ensures SortedBy(t[l..r + 1], ByFitness, false)
  {
    var p :| l <= p <= r && SplitAt(t, l, r, p, ByFitness, false) && SidesByScore(t, l, r, p);
    ReverseScoreOrder(t[l..p], w);
    ReverseScoreOrder(t[p + 1..r + 1], w);
    SortedAroundPivot(t, l, r, p, ByFitness, false);
  }

  /** Every genome's fitness is the distance of its score below `w`, as
      difference scaling leaves it when `w` is the worst score. */
  predicate DiffScaledBy(gs: seq<TSPGenome>, w: real)
    reads gs
  {
    forall x :: x in gs ==> x.score <= w && x.fitness == Abs(w - x.score)
  }

  /** Genomes whose fitness is `w` less their score, in ascending score
      order, are in descending fitness order. */
  lemma ReverseScoreOrder(xs: seq<TSPGenome>, w: real)
    requires forall x :: x in xs ==> x.score <= w && x.fitness == Abs(w - x.score)
    requires SortedBy(xs, ByScore, true)
    ensures SortedBy(xs, ByFitness, false)
  {
    forall a, b | 0 <= a < b < |xs|
      ensures !Before(Key(xs[b], ByFitness), Key(xs[a], ByFitness), false)
    {
      assert xs[a] in xs && xs[b] in xs;
    }
  }

  /** No two genomes of `xs` have the same key. */
  predicate DistinctKeys(xs: seq<TSPGenome>, key: SortKey)
    reads xs
  {
    forall i, j :: 0 <= i < j < |xs| ==> Key(xs[i], key) != Key(xs[j], key)
  }

  /** Two buffers that hold the same genomes, both in the order `up` of
      `key` and with no key repeated, are the same buffer: a sort leaves a
      buffer that is already in order as it is, and its result does not
      depend on the order it started from. */
  lemma {:induction false} SortedUnique(a: seq<TSPGenome>, b: seq<TSPGenome>, key: SortKey, up: bool)
    requires multiset(a) == multiset(b) && DistinctKeys(a, key)
    requires SortedBy(a, key, up) && SortedBy(b, key, up)
    ensures a == b
    decreases |a|
  {
    assert |b| == |multiset(b)| == |multiset(a)| == |a|;
    if a != [] {
      SortedHeadsAgree(a, b, key, up);
      assert a == [a[0]] + a[1..] && b == [b[0]] + b[1..];
      assert multiset(a) == multiset{a[0]} + multiset(a[1..]);
      assert multiset(b) == multiset{b[0]} + multiset(b[1..]);
      assert multiset(a[1..]) == multiset(a) - multiset{a[0]} == multiset(b) - multiset{b[0]} == multiset(b[1..]);
      SortedTail(a, key, up);
      SortedTail(b, key, up);
      SortedUnique(a[1..], b[1..], key, up);
    }
  }

  /** Dropping the first genome keeps a buffer in order and its keys
      distinct. */
  lemma SortedTail(a: seq<TSPGenome>, key: SortKey, up: bool)
    requires a != [] && SortedBy(a, key, up)
    ensures SortedBy(a[1..], key, up)
    ensures DistinctKeys(a, key) ==> DistinctKeys(a[1..], key)
  {
    var t := a[1..];
    assert forall k :: 0 <= k < |t| ==> t[k] == a[k + 1];
  }

  /** Both buffers start with the genome of the first key in the order. */
  lemma SortedHeadsAgree(a: seq<TSPGenome>, b: seq<TSPGenome>, key: SortKey, up: bool)
    requires a != [] && b != [] && multiset(a) == multiset(b) && DistinctKeys(a, key)
    requires SortedBy(a, key, up) && SortedBy(b, key, up)
    ensures a[0] == b[0]
  {
    assert a[0] in multiset(b) && b[0] in multiset(a);
    var i :| 0 <= i < |a| && a[i] == b[0];
    var j :| 0 <= j < |b| && b[j] == a[0];
    assert !Before(Key(a[i], key), Key(a[0], key), up);
    assert !Before(Key(b[j], key), Key(b[0], key), up);
    if i != 0 {
      assert false;
    }
  }

  /** `s` back to front. */
  function Reversed<T>(s: seq<T>): (r: seq<T>)
    ensures |r| == |s| && forall k :: 0 <= k < |s| ==> r[k] == s[|s| - 1 - k]
  {
    seq(|s|, k requires 0 <= k < |s| => s[|s| - 1 - k])
  }

  /** Reversing rearranges and never adds or loses an element. */
  lemma {:induction false} ReversedPermutes<T>(s: seq<T>)
    ensures multiset(Reversed(s)) == multiset(s)
    decreases |s|
  {
    if s != [] {
      var front := s[..|s| - 1];
      ReversedPermutes(front);
      assert Reversed(s) == [s[|s| - 1]] + Reversed(front);
      assert s == front + [s[|s| - 1]];
    }
  }

  /** A buffer sorted one way and a buffer of the same genomes sorted the
      other way, with no key repeated, are each other's reversal: sorting
      by ascending and then by descending score reverses the buffer. */
  lemma SortReverses(a: seq<TSPGenome>, b: seq<TSPGenome>, key: SortKey, up: bool)
    requires multiset(a) == multiset(b) && DistinctKeys(a, key)
    requires SortedBy(a, key, up) && SortedBy(b, key, !up)
    ensures b == Reversed(a)
  {
    var r := Reversed(a);
    ReversedPermutes(a);
    forall x, y | 0 <= x < y < |r|
      ensures !Before(Key(r[y], key), Key(r[x], key), !up) && Key(r[x], key) != Key(r[y], key)
    {
      assert r[x] == a[|a| - 1 - x] && r[y] == a[|a| - 1 - y];
    }
    SortedUnique(r, b, key, !up);
  }

  // ---------------------------------------------------------------------
  // Selection: specifications and properties
  // ---------------------------------------------------------------------

  /** The slice of the wheel for the draw `d`: `randomPercentage()` of the
      total fitness. */
  function WheelSlice(fs: seq<real>, d: nat): real
  {
    RandomPercentage(d) * Sum(fs)
  }

  /** Where the wheel stops: the first position whose running total exceeds
      the slice, or position 0 when there is none. */
  predicate Spun(fs: seq<real>, slice: real, selected: int)
  {
    FirstAbove(fs, slice, selected) || (NeverAbove(fs, slice) && selected == 0)
  }

  /** The slice `rouletteWheelSelection` computes from the total it adds
      up is `WheelSlice`. */
  lemma SliceOfTotal(fs: seq<real>, d: nat, total: real)
    requires total == Sum(fs)
    ensures RandomPercentage(d) * total == WheelSlice(fs, d)
  {
  }

  /** The loop of `rouletteWheelSelection`: add up the fitnesses in order
      and stop at the first position whose running total exceeds `slice`,
      or answer 0. */
  method SpinWheel(fs: seq<real>, slice: real) returns (selected: nat)
    ensures Spun(fs, slice, selected)
  {
    var total := 0.0;
    selected := 0;
    var i := 0;
    while i < |fs|
      invariant 0 <= i <= |fs| && total == Sum(fs[..i])
      invariant forall k :: 0 <= k < i ==> RunningTotal(fs, k) <= slice
    {
      assert fs[..i + 1][..i] == fs[..i];
      total := total + fs[i];
      assert total == RunningTotal(fs, i);
      if total > slice {
        selected := i;
        return;
      }
      i := i + 1;
    }
  }

  /** The positions the tournament's draws pick: `rand() % (size - 1)`. */
  function Drawn(draws: seq<nat>, n: int): (r: seq<int>)
    requires draws != [] ==> n >= 2
    ensures |r| == |draws| && forall k :: 0 <= k < |r| ==> 0 <= r[k] < n - 1
  {
    seq(|draws|, k requires 0 <= k < |draws| => draws[k] % (n - 1))
  }

  /** The tournament with `best_fitness` kept up to date, player by player
      in draw order: the leader and its fitness. */
  function Tourney(fs: seq<real>, ds: seq<int>): (int, real)
    requires forall k :: 0 <= k < |ds| ==> 0 <= ds[k] < |fs|
  {
    if ds == [] then (0, 0.0)
    else
      var leader := Tourney(fs, ds[..|ds| - 1]);
      var last := ds[|ds| - 1];
      if fs[last] > leader.1 then (last, fs[last]) else leader
  }

  /** The tournament's winner is a drawn genome of the highest fitness
      among the players when that fitness is positive, and the first such
      one; when no player has a positive fitness it is position 0. */
  lemma {:induction false} TourneyPicksFittest(fs: seq<real>, ds: seq<int>)
    requires forall k :: 0 <= k < |ds| ==> 0 <= ds[k] < |fs|
    ensures var (w, bf) := Tourney(fs, ds);
      bf >= 0.0 && (forall k :: 0 <= k < |ds| ==> fs[ds[k]] <= bf) &&
      (bf == 0.0 ==> w == 0) &&
      (bf > 0.0 ==> exists k :: 0 <= k < |ds| && ds[k] == w && fs[w] == bf && forall j :: 0 <= j < k ==> fs[ds[j]] < bf)
  {
    if ds != [] {
      var prefix := ds[..|ds| - 1];
      assert forall k :: 0 <= k < |prefix| ==> prefix[k] == ds[k];
      TourneyPicksFittest(fs, prefix);
      var (w, bf) := Tourney(fs, prefix);
      var last := ds[|ds| - 1];
      if fs[last] > bf {
        assert ds[|ds| - 1] == last;
      } else if bf > 0.0 {
        var k :| 0 <= k < |prefix| && prefix[k] == w && fs[w] == bf && forall j :: 0 <= j < k ==> fs[prefix[j]] < bf;
        assert ds[k] == w;
      }
    }
  }

  /** The winner is one of the buffer's positions. */
  lemma TourneyInRange(fs: seq<real>, ds: seq<int>)
    requires |fs| > 0 && forall k :: 0 <= k < |ds| ==> 0 <= ds[k] < |fs|
    ensures 0 <= Tourney(fs, ds).0 < |fs|
  {
    TourneyPicksFittest(fs, ds);
  }

  /** As written, the last drawn genome with a positive fitness wins, or
      position 0: the winner never depends on how fit the others are. */
  lemma {:induction false} LastPositiveIsLastPositive(fs: seq<real>, ds: seq<int>)
    requires forall k :: 0 <= k < |ds| ==> 0 <= ds[k] < |fs|
    ensures var w := LastPositive(fs, ds);
      (w == 0 && forall k :: 0 <= k < |ds| ==> fs[ds[k]] <= 0.0) ||
      (exists k :: 0 <= k < |ds| && ds[k] == w && fs[w] > 0.0 && forall j :: k < j < |ds| ==> fs[ds[j]] <= 0.0)
  {
    if ds != [] {
      var prefix := ds[..|ds| - 1];
      LastPositiveIsLastPositive(fs, prefix);
      if fs[ds[|ds| - 1]] <= 0.0 {
        var w := LastPositive(fs, prefix);
        if !(w == 0 && forall k :: 0 <= k < |prefix| ==> fs[prefix[k]] <= 0.0) {
          var k :| 0 <= k < |prefix| && prefix[k] == w && fs[w] > 0.0 && forall j :: k < j < |prefix| ==> fs[prefix[j]] <= 0.0;
          assert ds[k] == w;
        }
      }
    }
  }

  /** As written, the last genome of a buffer of two or more never plays,
      and so never wins unless it is position 0. */
  lemma TournamentSkipsLast(fs: seq<real>, draws: seq<nat>)
    requires |fs| >= 2 && |draws| == TournamentPlayers(|fs|)
    ensures LastPositive(fs, Drawn(draws, |fs|)) < |fs| - 1
    ensures Tourney(fs, Drawn(draws, |fs|)).0 < |fs| - 1
  {
    var ds := Drawn(draws, |fs|);
    LastPositiveIsLastPositive(fs, ds);
    TourneyPicksFittest(fs, ds);
  }

  /** Four genomes of fitness 2, 1, 0, 0 and the draws 0 and 1: as written
      the second player wins although the first is fitter; with
      `best_fitness` kept up to date the first one wins. */
  lemma TournamentAsWrittenPicksLast()
    ensures TournamentPlayers(4) == 2
    ensures LastPositive([2.0, 1.0, 0.0, 0.0], Drawn([0, 1], 4)) == 1
    ensures Tourney([2.0, 1.0, 0.0, 0.0], Drawn([0, 1], 4)).0 == 0
  {
    assert Drawn([0, 1], 4) == [0, 1];
    assert [0, 1][..1] == [0];
  }

  /** The slice lies between 0 and the total fitness when no fitness is
      negative. */
  lemma WheelSliceInRange(fs: seq<real>, d: nat)
    requires forall k :: 0 <= k < |fs| ==> fs[k] >= 0.0
    ensures 0.0 <= WheelSlice(fs, d) <= Sum(fs)
    ensures Sum(fs) > 0.0 ==> WheelSlice(fs, d) < Sum(fs)
  {
    SumNonNegative(fs);
    ShareOf(RandomPercentage(d), Sum(fs), WheelSlice(fs, d));
  }

  /** A share `s` of `p` in [0, 1) of a non-negative total `t` lies in
      [0, t], and below `t` when `t` is positive. */
  lemma ShareOf(p: real, t: real, s: real)
    requires 0.0 <= p < 1.0 && 0.0 <= t && s == p * t
    ensures 0.0 <= s <= t && (t > 0.0 ==> s < t)
  {
    assert t - s == (1.0 - p) * t;
    if t > 0.0 {
      assert (1.0 - p) * t > 0.0;
    }
  }

  /** A sum of fitnesses none of which is negative is not negative. */
  lemma {:induction false} SumNonNegative(fs: seq<real>)
    requires forall k :: 0 <= k < |fs| ==> fs[k] >= 0.0
    ensures Sum(fs) >= 0.0
  {
    if fs != [] {
      SumNonNegative(fs[..|fs| - 1]);
    }
  }

  /** With no negative fitness and a positive total the wheel always stops
      on a genome, and that genome has a positive fitness. */
  lemma RouletteLandsOnPositive(fs: seq<real>, d: nat, selected: int)
    requires forall k :: 0 <= k < |fs| ==> fs[k] >= 0.0
    requires Sum(fs) > 0.0 && Spun(fs, WheelSlice(fs, d), selected)
    ensures FirstAbove(fs, WheelSlice(fs, d), selected) && fs[selected] > 0.0
  {
    var slice := WheelSlice(fs, d);
    WheelSliceInRange(fs, d);
    assert fs[..|fs|] == fs;
    assert RunningTotal(fs, |fs| - 1) > slice;
    if selected > 0 {
      assert fs[..selected + 1][..selected] == fs[..selected];
      assert RunningTotal(fs, selected) == RunningTotal(fs, selected - 1) + fs[selected];
    } else {
      assert fs[..1] == [fs[0]] && [fs[0]][..0] == [];
    }
  }

  /** Difference scaling measures each score against the worst one: the
      worst genome gets fitness 0, no fitness is negative, and when the
      worst score is the greatest (LOW_IS_BEST) a lower score never gets a
      lower fitness. */
  lemma DiffScalingOrders(scores: seq<real>, worst: int)
    requires FirstMax(scores, worst)
    ensures Abs(scores[worst] - scores[worst]) == 0.0
    ensures forall k :: 0 <= k < |scores| ==> Abs(scores[worst] - scores[k]) >= 0.0
    ensures forall a, b :: 0 <= a < |scores| && 0 <= b < |scores| && scores[a] <= scores[b] ==>
      Abs(scores[worst] - scores[a]) >= Abs(scores[worst] - scores[b])
  {
  }

  /** Rank scaling of a buffer without repeated genomes gives the positions
      the fitnesses N, N-1, ..., 1: positive and strictly decreasing. */
  lemma RanksOfDistinct<T>(s: seq<T>)
    requires Distinct(s)
    ensures forall k :: 0 <= k < |s| ==> |s| - LastIndex(s, s[k]) == |s| - k >= 1
  {
    forall k | 0 <= k < |s|
      ensures LastIndex(s, s[k]) == k
    {
      LastIndexOfDistinct(s, k);
    }
  }
}
