/** Statistics.cpp: the record the algorithm keeps of a run, the first
    population, the best and the worst population seen (by total score),
    and copies of the best and the worst genome seen.  The copies are kept
    as values: what each copied genome holds, and the copied size. */
module StatisticsTracking {
  import opened Config
  import opened Cities
  import opened TSPGenomes
  import opened Populations

  /** What a genome holds: its tour, its score and its fitness. */
  datatype Held = Held(genes: seq<Point>, score: real, fitness: real)

  /** A copy of a population: what each of its genomes holds, in order,
      and its size. */
  datatype Recorded = Recorded(genomes: seq<Held>, size: nat)

  /** A copy of `g`, what `clone` makes of it. */
  function HeldOf(g: TSPGenome): (h: Held)
    reads g
    ensures h.genes == g.genes && h.score == g.score && h.fitness == g.fitness
  {
    Held(g.genes, g.score, g.fitness)
  }

  /** A copy of `p`, what its copy constructor and `operator=` make of it. */
  function Snapshot(p: Population): (r: Recorded)
    reads p, p.genomes
    ensures r.size == p.populationSize && |r.genomes| == |p.genomes|
    ensures forall k :: 0 <= k < |p.genomes| ==> r.genomes[k] == HeldOf(p.genomes[k])
  {
    var gs := p.genomes;
    Recorded(seq(|gs|, k requires 0 <= k < |gs| reads gs => HeldOf(gs[k])), p.populationSize)
  }

  /** The scores the copies hold, in order. */
  function HeldScores(hs: seq<Held>): (r: seq<real>)
    ensures |r| == |hs| && forall k :: 0 <= k < |hs| ==> r[k] == hs[k].score
  {
    seq(|hs|, k requires 0 <= k < |hs| => hs[k].score)
  }

  /** The total score of a copy. */
  function Total(r: Recorded): real
  {
    Sum(HeldScores(r.genomes))
  }

  /** A copy has the total score of what it copies, as `getTotalScore`
      computes it. */
  lemma SnapshotTotal(p: Population)
    ensures Total(Snapshot(p)) == Sum(Scores(p.genomes))
  {
    assert HeldScores(Snapshot(p).genomes) == Scores(p.genomes);
  }

  /** The record kept when `better` says that the candidate beats it. */
  function Kept<T>(current: T, candidate: T, better: bool): T
  {
    if better then candidate else current
  }

  /** The best record is no worse than the worst one: lower is better
      under LOW_IS_BEST, higher otherwise. */
  predicate InOrder(highLow: int, best: real, worst: real)
  {
    if highLow == LOW_IS_BEST then best <= worst else worst <= best
  }

  class Statistics {
    var generationNum: int
    var currentPop: Population?
    var firstPop: Recorded
    var bestPop: Recorded
    var worstPop: Recorded
    var bestGenomeEver: Held
    var worstGenomeEver: Held

    /** The default constructor: generation 0 and nothing recorded yet (the
        source leaves the pointers unset; here no current population and
        empty copies). */
    constructor ()
      ensures generationNum == 0 && currentPop == null
      ensures firstPop == bestPop == worstPop == Recorded([], 0)
      ensures bestGenomeEver == worstGenomeEver == Held([], 0.0, 0.0)
    {
      generationNum := 0;
      currentPop := null;
      firstPop, bestPop, worstPop := Recorded([], 0), Recorded([], 0), Recorded([], 0);
      bestGenomeEver, worstGenomeEver := Held([], 0.0, 0.0), Held([], 0.0, 0.0);
    }

    /** The copy constructor copies nothing: it starts over at generation 0. */
    constructor Copy(other: Statistics)
      ensures generationNum == 0 && currentPop == null
      ensures firstPop == bestPop == worstPop == Recorded([], 0)
      ensures bestGenomeEver == worstGenomeEver == Held([], 0.0, 0.0)
    {
      generationNum := 0;
      currentPop := null;
      firstPop, bestPop, worstPop := Recorded([], 0), Recorded([], 0), Recorded([], 0);
      bestGenomeEver, worstGenomeEver := Held([], 0.0, 0.0), Held([], 0.0, 0.0);
    }

    /** The best records are no worse than the worst ones, for both the
        populations and the genomes. */
    predicate Ordered(highLow: int)
      reads this
    {
      InOrder(highLow, Total(bestPop), Total(worstPop)) &&
      InOrder(highLow, bestGenomeEver.score, worstGenomeEver.score)
    }

    /** `init`: record `pop` as the current population, a copy of it as the
        first, the best and the worst population, and copies of its best
        and its worst genome. */
    method Init(pop: Population)
      requires pop.best < |pop.genomes| && pop.worst < |pop.genomes|
      modifies this
      ensures currentPop == pop && generationNum == old(generationNum)
      ensures firstPop == bestPop == worstPop == Snapshot(pop)
      ensures bestGenomeEver == HeldOf(pop.genomes[pop.best])
      ensures worstGenomeEver == HeldOf(pop.genomes[pop.worst])
      ensures BestWorst(Scores(pop.genomes), pop.best, pop.worst, LOW_IS_BEST) ==> Ordered(LOW_IS_BEST)
      ensures BestWorst(Scores(pop.genomes), pop.best, pop.worst, HIGH_IS_BEST) ==> Ordered(HIGH_IS_BEST)
    {
      currentPop := pop;
      var copy := Snapshot(pop);
      firstPop, bestPop, worstPop := copy, copy, copy;
      var b := pop.GetBestGenome();
      var w := pop.GetWorstGenome();
      bestGenomeEver, worstGenomeEver := HeldOf(b), HeldOf(w);
    }

    /** `update` for a given `HIGH_LOW`: count the generation, record `pop`
        as the current population, and replace the best and the worst
        population by a copy of `pop`, and the best and the worst genome
        ever by a copy of `pop`'s, whenever `pop`'s is strictly better
        (respectively worse); lower is better under LOW_IS_BEST, higher
        otherwise. */
    method UpdateBy(pop: Population, highLow: int)
      requires pop.best < |pop.genomes| && pop.worst < |pop.genomes|
      modifies this
      ensures generationNum == old(generationNum) + 1 && currentPop == pop && firstPop == old(firstPop)
      ensures var low, copy := highLow == LOW_IS_BEST, old(Snapshot(pop));
        var t, bt, wt := Total(copy), old(Total(bestPop)), old(Total(worstPop));
        bestPop == Kept(old(bestPop), copy, if low then bt > t else bt < t) &&
        worstPop == Kept(old(worstPop), copy, if low then wt < t else wt > t)
      ensures var low, b, w := highLow == LOW_IS_BEST, old(HeldOf(pop.genomes[pop.best])), old(HeldOf(pop.genomes[pop.worst]));
        var bs, ws := old(bestGenomeEver.score), old(worstGenomeEver.score);
        bestGenomeEver == Kept(old(bestGenomeEver), b, if low then bs > b.score else bs < b.score) &&
        worstGenomeEver == Kept(old(worstGenomeEver), w, if low then ws < w.score else ws > w.score)
    {
      var copy := Snapshot(pop);
      var popBest, popWorst := HeldOf(pop.genomes[pop.best]), HeldOf(pop.genomes[pop.worst]);
      var popTotal := Total(copy);
      var low := highLow == LOW_IS_BEST;
      var bestTotal, worstTotal := Total(bestPop), Total(worstPop);
      var bestScore, worstScore := bestGenomeEver.score, worstGenomeEver.score;
      generationNum, currentPop := generationNum + 1, pop;
      bestPop := Kept(bestPop, copy, if low then bestTotal > popTotal else bestTotal < popTotal);
      worstPop := Kept(worstPop, copy, if low then worstTotal < popTotal else worstTotal > popTotal);
      bestGenomeEver := Kept(bestGenomeEver, popBest, if low then bestScore > popBest.score else bestScore < popBest.score);
      worstGenomeEver := Kept(worstGenomeEver, popWorst, if low then worstScore < popWorst.score else worstScore > popWorst.score);
    }

    /** `update` under the configured LOW_IS_BEST: the best population and
        genome are the lowest-scoring seen, the worst the highest. */
    method Update(pop: Population)
      requires pop.best < |pop.genomes| && pop.worst < |pop.genomes|
      modifies this
      ensures generationNum == old(generationNum) + 1 && currentPop == pop && firstPop == old(firstPop)
      ensures Total(bestPop) == Min(old(Total(bestPop)), Sum(Scores(pop.genomes)))
      ensures Total(worstPop) == MaxOf(old(Total(worstPop)), Sum(Scores(pop.genomes)))
      ensures bestGenomeEver.score == Min(old(bestGenomeEver.score), pop.genomes[pop.best].score)
      ensures worstGenomeEver.score == MaxOf(old(worstGenomeEver.score), pop.genomes[pop.worst].score)
      ensures BestWorst(Scores(pop.genomes), pop.best, pop.worst, HIGH_LOW) && old(Ordered(HIGH_LOW)) ==> Ordered(HIGH_LOW)
    {
      UpdateBy(pop, HIGH_LOW);
      SnapshotTotal(pop);
    }
  }

  function Min(a: real, b: real): real { if a <= b then a else b }
  function MaxOf(a: real, b: real): real { if a <= b then b else a }
}
