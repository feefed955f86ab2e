# GenALib in Dafny

GenALib is a small C++ genetic-algorithm library with a travelling-salesman
example. This project models its core and proves properties of the model:

- **Cities:** a city is three integer coordinates, compared by value.
- **Genomes:** a genome is a tour, i.e. an ordered list of cities. Each genome has a score (the closed tour's length) and a fitness.
  - The vector-backed `TSPGenome<T>` lives in `TSPGenome.h`.
  - The list-genome pair lives in `ListGenome.h` and `TSPGenome_list.h`.
- **Genome operations:**
  - swap and mutation of two positions;
  - the random "premute" clone;
  - partially-mapped crossover (PMX);
  - order-based crossover (OBX).
- **Population:** evaluation and scaling (none, rank or difference), roulette-wheel, rank and tournament selection, the four sorts, and the best/worst bookkeeping.
- **Statistics:** the record the algorithm keeps of the best and worst population and genome seen.
- **Steady-state algorithm:**
  - `nextGeneration` sorts the population;
  - it carries over the best `replace_percentage` of it;
  - it breeds the rest by selection, crossover and mutation;
  - it installs and re-evaluates the new buffer;
  - `evolve` repeats this for `total_generations` generations.

## How the model is built

**Modules.**

| module | file | models |
|---|---|---|
| `Config` | `config.dfy` | `config.h` constants and `Random::randomPercentage` |
| `Cities` | `cities.dfy` | `City.cpp` |
| `Tours` | `tours.dfy` | the sequence algorithms the genomes share, as specification functions over values |
| `TSPGenomes` | `tspgenome.dfy` | `TSPGenome.h`, with the `Genome` base of `Genome.cpp` folded in |
| `ListGenomes` | `listgenome.dfy` | `ListGenome.h` and `TSPGenome_list.h` as one class |
| `CityPointers` | `pointers.dfy` | the genomes' pointer comparisons as written, over explicit addresses |
| `Populations` | `population.dfy` | `Population.cpp` |
| `StatisticsTracking` | `statistics.dfy` | `Statistics.cpp` |
| `GeneticAlgorithms` | `ga.dfy` | `GeneticAlgorithm.cpp` and `SteadyStateGA.cpp` as one class |

**Entities that change in place are classes.** `City`, `TSPGenome`, `ListGenome`, `Population`, `Statistics` and `SteadyStateGA` each have `modifies` clauses. Their loops are `while` loops with invariants. Each method is proved against a specification function; for example, `Swap` against `Swapped` and `Partition`/`QuickSort` against `SortedBy`.

**A gene is the city's coordinates** (`Point`). Cities are compared by value (`operator==` of City.cpp:45-55, the predicates `SameCity` and `DifferentCity`). The source compares genes (`City *`) by address in six places, where it evidently means to compare cities:
- `operator==` on genomes, TSPGenome.h:162 and ListGenome.h:97. Modelled as written by `CityPointers.EqualAsWritten` and `ListGenomes.EqualAsWritten`; see the Findings rows for TSPGenome.h:162 and ListGenome.h:97.
- the overwrite test of the order-based crossover, TSPGenome.h:407 and ListGenome.h:281. The first is modelled as written by `CityPointers.OrderBasedAsWritten` (Findings row TSPGenome.h:407). The second scans an empty child, so it compares nothing (`ListGenomes.ListGenome.OrderBasedCrossoverAsWritten`).
- the mapping test `gene1 != gene2` of the partially-mapped crossover, TSPGenome.h:362 and ListGenome.h:236. The first makes no difference, since equal cities map onto themselves (`Tours.MapPairOfEqualGenes`). The second decides where the as-written list crossover faults, and `ListGenomes.ListGenome.PartialMapCrossoverAsWritten` compares the pointers (`CityPointers.PmxFaultsAsWritten`).

**Random draws, the distance function and the configuration:**
- Every `rand()` draw is a parameter, and `Random::randomPercentage` is `Config.RandomPercentage`.
- The retry loops that redraw until two positions differ take the sequence of draws. They require that a different one eventually comes.
- The distance between cities is a parameter `dist`.
- Compile-time switches of `config.h` are constants. Each member that dispatches on a switch takes it as a parameter (`SelectBy`, `SortPopulationBy`, `EvolveBy`).

**Proved beyond the individual contracts:**
- Every crossover and mutation child is a permutation of its parents' cities (`PmxPermutes`, `OrderBasedPermutes`, `SwapStepsProperties`).
- A new generation is made of tours of the same cities (`NextGeneration`).
- The corrected sorts produce the unique ordering of distinct keys, so sorting the other way reverses the buffer (`SortedUnique`, `SortReverses`).
- The statistics keep the best record no worse than the worst (`Statistics.Update`).
- The new buffer is never more than one genome short (`NewSizeBounds`).

## Model

| member | source | states |
|---|---|---|
| Config.RandomPercentage | Random.cpp:30-33 | the percentage lies in [0, 1) for every draw |
| Config.TruncateToInt | SteadyStateGA.cpp:56-63 | the `(int)` cast truncates toward zero: the result is within 1 of x, on x's side of 0 |
| Cities.RandomPoint | City.cpp:9-15 | every coordinate a default city gets lies in [0, CoordinateRange) |
| Cities.RandomPoints | TSPGenome.h:308-315 | one default city per draw, in draw order |
| Cities.City.Random | City.cpp:9-15 | each coordinate is its draw reduced modulo the range, inside the range, and equal to RandomPoint of the draws |
| Cities.City.Copy | City.cpp:17-21 | the copy compares equal to the original and has its coordinates |
| Cities.City.constructor | City.cpp:23-27 | the getters return the given coordinates |
| Cities.City.SetCoordinates | City.cpp:34-39 | afterwards the getters return the new coordinates |
| Cities.City.GetX | City.cpp:41 | the x coordinate of the city's `Coords()` value |
| Cities.City.GetY | City.cpp:42 | the y coordinate of the city's `Coords()` value |
| Cities.City.GetZ | City.cpp:43 | the z coordinate of the city's `Coords()` value |
| Cities.SameCity | City.cpp:45-50 | two cities compare equal exactly when their coordinate values are equal |
| Cities.DifferentCity | City.cpp:52-55 | two cities compare unequal exactly when their coordinate values differ |
| Tours.Swapped | TSPGenome.h:471-478 | the two positions exchange their genes; every other position is unchanged |
| Tours.SwappedPermutes | TSPGenome.h:471-478 | a swap is a permutation of the tour |
| Tours.FirstIndex | TSPGenome.h:480-492 | the first position holding the city, or the size when it is absent; no earlier position holds it |
| Tours.FirstIndexSentinel | TSPGenome.h:480-492 | the size is returned exactly when the city is not in the tour |
| Tours.Second | TSPGenome.h:321-326 | the redraw loop ends at a position different from the first |
| Tours.SwapDrawExistsIff | TSPGenome.h:321-326 | two different positions in [0, n-2] can be drawn iff the tour has at least 3 cities |
| Tours.SwapStepProperties | TSPGenome.h:317-330 | a mutation is a permutation that swaps the two drawn positions and never moves the last city |
| Tours.SwapStepsProperties | TSPGenome.h:245-265 | the premute shuffle is a permutation and never moves the last city |
| Tours.MapPairOfEqualGenes | TSPGenome.h:359-370 | mapping a gene onto itself leaves the child unchanged |
| Tours.MapPairPermutes | TSPGenome.h:359-370 | a mapped pair swap is a permutation of the child |
| Tours.PmxPermutes | TSPGenome.h:352-371 | partially-mapped crossover over [begin, end] is a permutation of the child it starts from |
| Tours.PmxOfAgreeingParents | TSPGenome.h:352-371 | where the parents agree on the whole segment, PMX changes nothing |
| Tours.Sampled | TSPGenome.h:391-400 | the sampled positions start at the first draw, lie below n and strictly increase |
| Tours.SamplesDistinct | TSPGenome.h:391-400 | genes sampled from a tour of distinct cities are distinct |
| Tours.OverwriteWithoutMatch | TSPGenome.h:402-414 | a child with no sampled gene is left unchanged |
| Tours.OverwriteImposesOrder | TSPGenome.h:402-414 | after the overwrite, the sampled genes appear in the child in sample order |
| Tours.OverwritePermutes | TSPGenome.h:402-414 | for distinct samples each held once, the overwrite is a permutation |
| Tours.OrderBasedPermutes | TSPGenome.h:388-414 | for parents that are permutations of distinct cities, order-based crossover matches every sample once and is a permutation of the second parent |
| TSPGenomes.TSPGenome.constructor | TSPGenome.h:193-198 | an empty tour of 0 cities |
| TSPGenomes.TSPGenome.WithSize | TSPGenome.h:212-217 | an empty tour that expects the given number of cities |
| TSPGenomes.TSPGenome.Copy | TSPGenome.h:200-210 | the copy holds the same cities in order, and the same score, fitness and city count |
| TSPGenomes.TSPGenome.GetScore | Genome.cpp:29-32 | the genome's score, the number `SetScore` and `CopyScores` write |
| TSPGenomes.TSPGenome.GetFitness | Genome.cpp:34-37 | the genome's fitness, the number `SetFitness` and `CopyScores` write |
| TSPGenomes.TSPGenome.SetScore | Genome.cpp:39-42 | only the score changes |
| TSPGenomes.TSPGenome.SetFitness | Genome.cpp:44-47 | only the fitness changes |
| TSPGenomes.TSPGenome.CopyScores | Genome.cpp:23-27 | score and fitness are taken from the original; the tour is kept |
| TSPGenomes.TSPGenome.AddToGenome | TSPGenome.h:464-469 | the city is appended and the count goes up by one |
| TSPGenomes.TSPGenome.CopyCities | TSPGenome.h:267-277 | the original's cities are appended in order and counted |
| TSPGenomes.TSPGenome.Clone | TSPGenome.h:234-243 | a fresh genome with the same tour, score and fitness, counting its cities |
| TSPGenomes.TSPGenome.PremuteClone | TSPGenome.h:245-265 | a fresh genome whose tour is the original shuffled by one swap per city |
| TSPGenomes.TSPGenome.Premute | TSPGenome.h:252-262 | the shuffle loop leaves `SwapSteps` of the tour |
| TSPGenomes.TSPGenome.Swap | TSPGenome.h:471-478 | the tour becomes `Swapped`; nothing else changes |
| TSPGenomes.TSPGenome.GetIndex | TSPGenome.h:480-492 | the search returns `FirstIndex` |
| TSPGenomes.TSPGenome.Mutate | TSPGenome.h:317-330 | one swap of two different drawn positions; nothing else changes |
| TSPGenomes.TSPGenome.Evaluate | TSPGenome.h:280-306 | the score becomes the closed tour length (0 for fewer than two cities) |
| TSPGenomes.TSPGenome.Initialize | TSPGenome.h:308-315 | one default city appended per expected city |
| TSPGenomes.TSPGenome.Crossover | TSPGenome.h:332-337 | dispatches to PMX, so the child is a permutation of this genome's tour |
| TSPGenomes.TSPGenome.PartialMapCrossover | TSPGenome.h:339-373 | the child is a fresh copy of this genome with PMX applied over [begin, end] (untouched for equal parents), and a permutation of this genome's tour |
| TSPGenomes.TSPGenome.MapSegment | TSPGenome.h:356-371 | the crossover loop leaves `PmxFrom` of the child |
| TSPGenomes.TSPGenome.MapGenes | TSPGenome.h:362-370 | one iteration swaps the two genes' first positions in the child when both occur |
| TSPGenomes.TSPGenome.OrderBasedCrossover | TSPGenome.h:375-416 | the child is a fresh copy of parent2 whose sampled genes are rewritten in this genome's order (parent2 itself for equal parents), with parent2's score |
| TSPGenomes.TSPGenome.SampleGenes | TSPGenome.h:388-400 | the sampling loop collects `Samples` of this genome |
| TSPGenomes.TSPGenome.OverwriteSamples | TSPGenome.h:402-414 | the overwrite loop leaves `Overwrite` of the child, by value |
| TSPGenomes.TSPGenome.OverwriteGene | TSPGenome.h:405-413 | one position: a sampled gene is replaced by the next sample and the sample counter advances |
| TSPGenomes.DrawDifferent | TSPGenome.h:325-326 | the redraw loop returns `Second` of the draws |
| TSPGenomes.Equal | TSPGenome.h:146-168 | corrected: equal iff the tours hold equal cities in the same order |
| TSPGenomes.NotEqual | TSPGenome.h:176-179 | corrected: the negation of the by-value `==` |
| ListGenomes.ListGenome.constructor | TSPGenome_list.h:118-123 | an empty tour of 0 cities |
| ListGenomes.ListGenome.WithSize | TSPGenome_list.h:137-142 | an empty tour that expects the given number of cities |
| ListGenomes.ListGenome.BaseCopy | ListGenome.h:150-160 | as written, the copy constructor hands back an empty tour |
| ListGenomes.ListGenome.SeedCopy | ListGenome.h:150-160 | corrected: a copy holding the original's cities |
| ListGenomes.ListGenome.Copy | TSPGenome_list.h:125-135 | the derived copy constructor holds the original's cities and count |
| ListGenomes.ListGenome.SetScore | Genome.cpp:39-42 | only the score changes |
| ListGenomes.ListGenome.CopyScores | Genome.cpp:23-27 | score and fitness are taken from the original; the tour is kept |
| ListGenomes.ListGenome.AddToGenome | ListGenome.h:174-178 | the city is appended; the count is unchanged |
| ListGenomes.ListGenome.CopyCities | TSPGenome_list.h:186-196 | the original's cities are appended in order |
| ListGenomes.ListGenome.Clone | TSPGenome_list.h:153-162 | a fresh genome with the same tour, score and fitness |
| ListGenomes.ListGenome.PremuteClone | TSPGenome_list.h:164-184 | a fresh genome with the shuffled tour |
| ListGenomes.ListGenome.Premute | TSPGenome_list.h:172-182 | the shuffle loop leaves `SwapSteps` of the tour |
| ListGenomes.ListGenome.Evaluate | TSPGenome_list.h:199-225 | the score becomes the closed tour length |
| ListGenomes.ListGenome.Initialize | TSPGenome_list.h:227-234 | one default city appended per expected city |
| ListGenomes.ListGenome.CheckForCity | TSPGenome_list.h:261-274 | true iff the city is in the tour |
| ListGenomes.ListGenome.Swap | ListGenome.h:180-187 | the tour becomes `Swapped`; nothing else changes |
| ListGenomes.ListGenome.GetIndex | ListGenome.h:292-304 | the search returns `FirstIndex` |
| ListGenomes.ListGenome.Mutate | ListGenome.h:189-202 | one swap of two different drawn positions |
| ListGenomes.ListGenome.Crossover | ListGenome.h:204-211 | dispatches on the crossover type to the as-written PMX or OBX: the child is empty, and it faults exactly when PMX faults |
| ListGenomes.ListGenome.PartialMapCrossoverAsWritten | ListGenome.h:213-247 | as written the child is empty, and the swap reads out of range iff the parents are not pointer-equal and hold different pointers somewhere in [begin, end] |
| ListGenomes.ListGenome.PartialMapCrossover | ListGenome.h:213-247 | corrected: PMX over a copy of parent2, a permutation of parent2's tour |
| ListGenomes.ListGenome.MapSegment | ListGenome.h:230-245 | the crossover loop leaves `PmxFrom` of the child |
| ListGenomes.ListGenome.MapGenes | ListGenome.h:233-244 | one iteration leaves `MapPair` of the child |
| ListGenomes.ListGenome.OrderBasedCrossoverAsWritten | ListGenome.h:249-290 | as written the child is empty, so the pointer test of line 281 rewrites nothing |
| ListGenomes.ListGenome.OrderBasedCrossover | ListGenome.h:249-290 | corrected: the overwrite of a copy of parent2 with this genome's samples |
| ListGenomes.ListGenome.SampleGenes | ListGenome.h:262-274 | the sampling loop collects `Samples` |
| ListGenomes.ListGenome.OverwriteSamples | ListGenome.h:276-288 | the overwrite loop leaves `Overwrite` |
| ListGenomes.ListGenome.OverwriteGene | ListGenome.h:279-287 | one position of the overwrite |
| ListGenomes.Equal | ListGenome.h:83-103 | corrected: equal iff the tours hold equal cities in the same order |
| ListGenomes.NotEqual | ListGenome.h:111-114 | corrected: the negation of the by-value `==` |
| ListGenomes.EqualAsWritten | ListGenome.h:83-103 | as written: equal iff the genes are the same pointers in the same order, which implies equal cities |
| ListGenomes.NotEqualAsWritten | ListGenome.h:111-114 | as written: the negation of the pointer `==`, so genomes of different cities are always unequal |
| CityPointers.Relocated | TSPGenome.h:200-210 | copying a genome puts its cities at fresh addresses with the same coordinates |
| CityPointers.CopyUnequalAsWritten | TSPGenome.h:146-168 | a copy holds equal cities, yet as written it compares equal to its original only when empty |
| CityPointers.CopyFaultsAsWritten | ListGenome.h:223-246 | a genome crossed with its own copy holds the same cities, yet as written the list PMX faults for every segment |
| CityPointers.OrderBasedAsWritten | TSPGenome.h:375-416 | as written, the pointer test never matches a copied city, so the child holds parent2's cities unchanged |
| CityPointers.OrderBasedAsWrittenCopies | TSPGenome.h:402-414 | for a concrete pair of parents (a, b, c) and (c, b, a), sampling every position, the as-written child is (c, b, a) |
| CityPointers.OrderBasedByValueReorders | TSPGenome.h:402-414 | for the same input the by-value child is (a, b, c) |
| CityPointers.ReversedOverwrite | TSPGenome.h:402-414 | the overwrite by value of a reversed tour with all its cities sampled restores the sample order |
| CityPointers.StepsCollectAll | TSPGenome.h:391-400 | draws of 0 steps collect every position of a 3-city tour |
| Populations.Population.constructor | Population.cpp:10-14 | an empty population of size 0 |
| Populations.Population.WithSize | Population.cpp:29-33 | an empty buffer with the given size |
| Populations.Population.Copy | Population.cpp:16-27 | fresh distinct clones of the other's genomes in order, its size, and the best and worst found |
| Populations.Population.SetSize | Population.cpp:52-55 | only the size changes |
| Populations.Population.GetPopSize | Population.cpp:57-60 | the size counter, non-negative; not the length of the buffer |
| Populations.Population.GetGenome | Population.cpp:146-149 | the genome at the index |
| Populations.Population.GetBestGenome | Population.cpp:151-154 | the recorded best genome |
| Populations.Population.GetWorstGenome | Population.cpp:156-159 | the recorded worst genome |
| Populations.Population.AddGenome | Population.cpp:161-165 | the genome is appended and the size goes up by one |
| Populations.Population.SetPopGenomes | Population.cpp:356-368 | the buffer is replaced; the size and the best and worst positions are kept |
| Populations.Population.GetTotalScore | Population.cpp:180-191 | the sum of the scores |
| Populations.Population.GetTotalFitness | Population.cpp:167-178 | the sum of the fitnesses |
| Populations.Population.GetAveScore | Population.cpp:88-98 | the mean score over the size; undefined (None) exactly when the size is 0 |
| Populations.Population.GetAveFitness | Population.cpp:100-110 | the mean fitness over the size; None exactly when the size is 0 |
| Populations.Population.GetMaxScore | Population.cpp:62-73 | an upper bound of all scores that is 0 or attained (the scan starts at 0) |
| Populations.Population.GetMinScore | Population.cpp:75-86 | a lower bound of all scores, attained when there is a genome, and 0 otherwise |
| Populations.Population.UpdateBestWorst | Population.cpp:370-394 | best and worst are the first positions of the extreme scores under HIGH_LOW |
| Populations.Population.EvaluatePopulationScores | Population.cpp:112-121 | every score becomes its tour length; tours and fitnesses stay |
| Populations.Population.NoScaling | Population.cpp:205-213 | every fitness equals its score |
| Populations.Population.RankScaling | Population.cpp:215-227 | the genome at position k of N gets fitness N − k, the last position when held twice |
| Populations.Population.DiffScaling | Population.cpp:229-240 | every fitness is the distance from its score to the worst genome's |
| Populations.Population.EvaluatePopulationFitnesses | Population.cpp:123-137 | under the configured difference scaling, every fitness is the distance to the worst score |
| Populations.Population.EvaluateFitnessesBy | Population.cpp:123-137 | each scheme's fitnesses: none, difference, otherwise rank |
| Populations.Population.ScaleBy | Population.cpp:193-203 | no scaling, or rank scaling for every other scheme |
| Populations.Population.Initialize | Population.cpp:139-144 | every genome is evaluated, then best and worst are found |
| Populations.Population.RouletteWheelSelection | Population.cpp:264-282 | the first genome whose running fitness total exceeds the slice, or 0 |
| Populations.SpinWheel | Population.cpp:267-281 | the wheel stops at the first position whose running fitness total exceeds the slice, or at 0 when none does |
| Populations.Population.TournamentSelectionAsWritten | Population.cpp:284-305 | as written, the last drawn genome with positive fitness, or 0 |
| Populations.Population.TournamentSelection | Population.cpp:284-305 | corrected: the first drawn genome of the highest positive fitness, or 0 |
| Populations.Population.RankSelection | Population.cpp:258-262 | rank fitnesses, then the roulette choice over them |
| Populations.Population.SelectBy | Population.cpp:242-256 | a valid position chosen by the scheme's rule, the tournament as written (the last drawn positive fitness); only rank selection changes fitnesses |
| Populations.Population.Select | Population.cpp:242-256 | under the roulette wheel: a valid position, nothing changed |
| Populations.Population.SortPopulationBy | Population.cpp:396-413 | a permutation of the buffer, in the order each branch's sort as written gives: split once by its key with score-sorted sides, or (DESC, FITNESS) ascending score; best and worst still name the genomes they named before |
| Populations.SortedBuffer | Population.cpp:396-413 | the rearranged buffer of each branch: a permutation, split once by its key with score-sorted sides, or (DESC, FITNESS) sorted by ascending score |
| Populations.NewPosition | Population.h:239-243 | a position of the rearranged buffer that holds the genome the old position held, as a pointer that follows its genome |
| Populations.Population.SortPopulation | Population.cpp:396-413 | a permutation split once by fitness, fittest side first, with score-sorted sides; fittest genome first whenever the buffer is difference scaled; best and worst still name the genomes they named before |
| Populations.Population.Assign | Population.cpp:312-340 | fresh clones of the other's genomes in order, with its size, best and worst |
| Populations.LastIndex | Population.cpp:221-226 | the last position of a genome, or -1; none after it holds it |
| Populations.LastIndexExtends | Population.cpp:221-226 | one more rank assignment makes that position the last place of its genome and leaves the others |
| Populations.AssignRank | Population.cpp:225 | one rank step: the ranks assigned so far are those of the last positions |
| Populations.LastIndexOfDistinct | Population.cpp:221-226 | in a buffer of distinct genomes, each one's last position is its position |
| Populations.RanksOfDistinct | Population.cpp:215-227 | for distinct genomes, rank scaling gives N, N−1, …, 1 |
| Populations.CloneAll | Population.cpp:19-24 | fresh distinct clones, one per genome, holding the same tours and scores |
| Populations.SlicePermutes | Population.cpp:416-439 | a change confined to [l, r] is a permutation iff that slice is |
| Populations.Partition | Population.cpp:416-439 | the buffer is permuted inside [l, r]; nothing ordered after the pivot lies before it, nothing ordered before it lies after |
| Populations.ScanUp | Population.cpp:426 | the upward scan stops at the first key not before the pivot |
| Populations.ScanDown | Population.cpp:427 | the downward scan stops at the last key not after the pivot, or at 0 |
| Populations.PartitionSwaps | Population.cpp:428-431 | a swap keeps the partition invariant |
| Populations.PartitionEnds | Population.cpp:433-435 | the final swap puts the pivot in place |
| Populations.SortedAroundPivot | Population.cpp:436-437 | sorted sides around a split pivot make the whole range sorted |
| Populations.SideSortKeepsSplit | Population.cpp:436-437 | sorting one side keeps the split and the other side |
| Populations.SortSides | Population.cpp:436-437 | both sides are sorted by the given key, the split is kept, and it is a permutation |
| Populations.QuickSort | Population.cpp:416-439 | a self-recursive sort: a permutation of [l, r], sorted by its own key and order |
| Populations.SortDescendingScores | Population.cpp:416-439 | a permutation sorted by ascending score (the code's own recursion) |
| Populations.PartitionThenByScore | Population.cpp:441-514 | one partition by its own key, both sides then sorted by ascending score |
| Populations.SortDescendingFitnessAsWritten | Population.cpp:441-464 | as written: split by ascending fitness around one pivot, both sides then sorted by ascending score |
| Populations.SortAscendingScoresAsWritten | Population.cpp:466-489 | as written: split by descending score around one pivot, both sides then sorted by ascending score |
| Populations.SortAscendingFitnessAsWritten | Population.cpp:491-514 | as written: split by descending fitness around one pivot, both sides then sorted by ascending score |
| Populations.SortDescendingFitness | Population.cpp:441-464 | corrected: a permutation sorted by ascending fitness |
| Populations.SortAscendingScores | Population.cpp:466-489 | corrected: a permutation sorted by descending score |
| Populations.SortAscendingFitness | Population.cpp:491-514 | corrected: a permutation sorted by descending fitness |
| Populations.OnePartitionUnsorted | Population.cpp:491-514 | four genomes of distinct scores with fitness equal to score: the as-written result is not sorted by fitness |
| Populations.DiffScaledSplitIsSorted | Population.cpp:491-514 | under difference scaling, the as-written result is sorted by fitness anyway |
| Populations.ReverseScoreOrder | Population.cpp:229-240 | with fitness = worst − score, ascending score is descending fitness |
| Populations.SortedUnique | Population.cpp:416-514 | two permutations of each other that are sorted the same way with distinct keys are equal: a sort is idempotent, and its result does not depend on the input order |
| Populations.SortedHeadsAgree | Population.cpp:416-514 | such buffers start with the same genome |
| Populations.SortReverses | Population.cpp:416-514 | sorting a sorted buffer of distinct keys the other way reverses it |
| Populations.ReversedPermutes | Population.cpp:416-514 | a reversal is a permutation |
| Populations.Drawn | Population.cpp:295 | every tournament draw `rand() % (size − 1)` is a position in [0, size − 2] |
| Populations.TourneyPicksFittest | Population.cpp:284-305 | the corrected winner has the highest drawn fitness, is drawn first with it, and is positive unless 0 |
| Populations.TourneyInRange | Population.cpp:284-305 | the winner is a position |
| Populations.LastPositiveIsLastPositive | Population.cpp:293-301 | the as-written winner is the last drawn genome with a positive fitness, or 0 |
| Populations.TournamentSkipsLast | Population.cpp:295 | neither tournament can pick the last genome |
| Populations.TournamentAsWrittenPicksLast | Population.cpp:284-305 | fitnesses 2, 1, 0, 0 and draws 0, 1: as written position 1 wins, corrected position 0 |
| Populations.WheelSliceInRange | Population.cpp:266 | the slice lies in [0, total fitness], strictly below it when positive |
| Populations.SumNonNegative | Population.cpp:167-178 | non-negative fitnesses have a non-negative total |
| Populations.RouletteLandsOnPositive | Population.cpp:264-282 | for a positive total the wheel lands on a genome of positive fitness |
| Populations.DiffScalingOrders | Population.cpp:229-240 | the worst genome gets fitness 0, no fitness is negative, and a lower score never gets a lower fitness than a higher one |
| StatisticsTracking.HeldOf | Genome.cpp:23-27 | a genome copy holds its tour, score and fitness |
| StatisticsTracking.Snapshot | Population.cpp:16-27 | a population copy holds each genome copy in order, and the size |
| StatisticsTracking.HeldScores | Population.cpp:180-191 | the copies' scores in order |
| StatisticsTracking.SnapshotTotal | Population.cpp:180-191 | a copy has its population's total score |
| StatisticsTracking.Statistics.constructor | Statistics.cpp:9-14 | generation 0 and nothing recorded |
| StatisticsTracking.Statistics.Copy | Statistics.cpp:16-20 | the copy constructor starts over at generation 0 |
| StatisticsTracking.Statistics.Init | Statistics.cpp:32-45 | first, best and worst population are copies of the population, the genome records copies of its best and worst, and the best record is no worse than the worst |
| StatisticsTracking.Statistics.UpdateBy | Statistics.cpp:47-107 | one more generation; each record is replaced exactly when the population's is strictly better (respectively worse) |
| StatisticsTracking.Statistics.Update | Statistics.cpp:47-107 | under LOW_IS_BEST, the best population total and genome score are running minima, the worst ones running maxima, and the best record stays no worse than the worst |
| GeneticAlgorithms.OffspringPermutes | SteadyStateGA.cpp:70-93 | every child, crossed or cloned and possibly mutated, is a permutation of its father's tour |
| GeneticAlgorithms.ShortToursEqual | TSPGenome.h:349-353 | two tours of the same cities with at most one city are equal, so the crossover returns before its draws |
| GeneticAlgorithms.ToursOfPermuted | SteadyStateGA.cpp:47 | sorting keeps every genome a tour of the cities |
| GeneticAlgorithms.ToursKept | SteadyStateGA.cpp:103-104 | re-evaluation leaves the tours as they were |
| GeneticAlgorithms.ToursOfConcat | SteadyStateGA.cpp:55-97 | carried-over genomes and children together are tours of the cities |
| GeneticAlgorithms.NewSizeBounds | SteadyStateGA.cpp:56-97 | the new buffer holds the carried-over genomes, at most the size, and at least the size less one |
| GeneticAlgorithms.TruncatedParts | SteadyStateGA.cpp:56-63 | the two truncated loop bounds add up to the size or one less |
| GeneticAlgorithms.FractionOf | SteadyStateGA.cpp:56 | the carried-over share lies in [0, size] |
| GeneticAlgorithms.HalfReplacement | SteadyStateGA.cpp:11-27 | with the constructors' fraction 0.5, half is kept and half bred, and an odd population ends one genome short |
| GeneticAlgorithms.Successor | SteadyStateGA.cpp:101 | the unsigned generation counter increments modulo 2^32 |
| GeneticAlgorithms.SteadyStateGA.constructor | SteadyStateGA.cpp:11-15 | a fresh empty population, fresh statistics, generation 0, and replacement fraction 0.5 |
| GeneticAlgorithms.SteadyStateGA.Copy | SteadyStateGA.cpp:17-21 | only the replacement fraction is copied |
| GeneticAlgorithms.SteadyStateGA.WithPopulation | SteadyStateGA.cpp:23-27 | the given population, fresh statistics, and fraction 0.5 |
| GeneticAlgorithms.SteadyStateGA.Init | SteadyStateGA.cpp:34-39 | every score is the tour length, best and worst are found, and fitnesses are difference scaled; the tours stay |
| GeneticAlgorithms.SteadyStateGA.NextGeneration | SteadyStateGA.cpp:41-105 | the generation advances; the new buffer has the predicted size, consists of fresh tours of the same cities and is evaluated; its first genomes are copies of the first genomes of the sort |
| GeneticAlgorithms.SteadyStateGA.Increment | SteadyStateGA.cpp:107-111 | `++` is one `nextGeneration` |
| GeneticAlgorithms.SteadyStateGA.TerminateUponGeneration | GeneticAlgorithm.cpp:68-71 | finished iff the generation count reached `total_generations` |
| GeneticAlgorithms.SteadyStateGA.TerminateUponConvergence | GeneticAlgorithm.cpp:73-76 | always finished |
| GeneticAlgorithms.SteadyStateGA.IsFinishedBy | GeneticAlgorithm.cpp:31-41 | each termination condition's answer |
| GeneticAlgorithms.SteadyStateGA.IsFinished | GeneticAlgorithm.cpp:31-41 | under UPON_GENERATION: the generation count reached `total_generations` |
| GeneticAlgorithms.SteadyStateGA.EvolveBy | GeneticAlgorithm.cpp:43-66 | the loop runs until finished, exactly the missing number of generations, each counted by the statistics; the population stays evaluated tours and the records ordered |
| GeneticAlgorithms.SteadyStateGA.Evolve | GeneticAlgorithm.cpp:43-66 | from generation g it runs max(0, 200 − g) rounds and ends at max(g, 200) |
| GeneticAlgorithms.SteadyStateGA.Start | GeneticAlgorithm.cpp:45-47 | init and statistics init: evaluated, ordered records, tours kept |
| GeneticAlgorithms.SteadyStateGA.StartStatistics | GeneticAlgorithm.cpp:47 | statistics init leaves the records ordered |
| GeneticAlgorithms.SteadyStateGA.UpdateStatistics | GeneticAlgorithm.cpp:59 | statistics update counts a generation and keeps the records ordered |
| GeneticAlgorithms.SteadyStateGA.Reevaluate | SteadyStateGA.cpp:34-39 | init keeps the tours and leaves the population evaluated |
| GeneticAlgorithms.SteadyStateGA.Round | GeneticAlgorithm.cpp:49-63 | one generation, one statistics update; the invariant of the loop is kept |
| GeneticAlgorithms.SteadyStateGA.Observe | GeneticAlgorithm.cpp:53-59 | the statistics count one more generation and stay ordered |
| GeneticAlgorithms.SteadyStateGA.Reproduce | SteadyStateGA.cpp:47-98 | the sorted population is a permutation of the old one, and the new buffer starts with copies of its first genomes, followed by children of its cities |
| GeneticAlgorithms.SteadyStateGA.Install | SteadyStateGA.cpp:103-104 | the buffer is installed and evaluated with its tours unchanged |
| GeneticAlgorithms.SteadyStateGA.SortForBreeding | SteadyStateGA.cpp:47 | the population is permuted and split once by fitness as written; on a difference-scaled buffer the fittest genome comes first |
| GeneticAlgorithms.EvaluatedIsDiffScaled | SteadyStateGA.cpp:34-39 | `init` leaves the buffer difference scaled against the worst (greatest) score |
| GeneticAlgorithms.SteadyStateGA.BreedAll | SteadyStateGA.cpp:55-98 | clones of the first genomes, then children, up to the size, all fresh tours of the cities |
| GeneticAlgorithms.SteadyStateGA.BreedChildren | SteadyStateGA.cpp:63-98 | one fresh child per draw, kept while the buffer is short of the size, every one a tour of the cities |
| GeneticAlgorithms.SteadyStateGA.BreedChild | SteadyStateGA.cpp:63-97 | one fresh child that is a tour of the cities |
| GeneticAlgorithms.SteadyStateGA.KeepBest | SteadyStateGA.cpp:56-59 | fresh clones of the first `keep` genomes |
| GeneticAlgorithms.SteadyStateGA.Breed | SteadyStateGA.cpp:66-93 | both parents come from the roulette wheel, and the child is their offspring with the father's score |
| GeneticAlgorithms.SteadyStateGA.SelectParents | SteadyStateGA.cpp:66-67 | two roulette draws, nothing changed |
| GeneticAlgorithms.MakeChild | SteadyStateGA.cpp:70-93 | a fresh child with the offspring tour of the two parents and the father's score |

## Left out

- Console output (`operator<<` of every class, and the `cout` in the example program) is not modelled: it is I/O.
- `rand()`, `Random::randomInt` and `Random::randomDouble` are not modelled: every draw is a parameter, and the C library generator is not modelled.
- The distance between cities (`DistanceBetweenCitys`, a `sqrt` over `double`s) is a parameter `dist`. No numeric property of it is assumed or proved: it is floating-point.
- Memory management is left out: destructors, `new`/`delete`, the genomes' `operator=` (which deletes its own buffer), and the leak in `setPopGenomes`. Dafny's heap is garbage collected.
- `Population::clone` returns a new empty population whatever it is called on; it is not modelled separately from the default constructor.
- `dynamic_cast` of a genome's crossover partner is not modelled: a parent is typed as the concrete genome.
- `ListGenomes.ListGenome.Mutate` models `ListGenome<T>::mutate` (ListGenome.h:189-202). `TSPGenome_list.h:76` redeclares `mutate()` in the derived class without defining it, so a call of `mutate` on the list genome does not link. The model ignores that redeclaration.
- `TSPGenome_list.h`'s `CheckForCity` compares a `City *` with an `int` city number. The model compares cities by value, the only reading that type-checks.
- `ListGenome.h:177` refers to an undeclared `genome` in `addToGenome`. The model appends to the genome's own list, which is evidently meant.
- The template parameter `T` is always `City *`, so genes are cities' coordinates. The six address comparisons are listed under "How the model is built", each with the member that models it as written. The vector genome's crossovers (`TSPGenomes.TSPGenome.PartialMapCrossover` and `OrderBasedCrossover`) compare cities by value: for PMX on tours of two or more cities that gives the child the pointer tests give, and for OBX it is the corrected half of the TSPGenome.h:407 row.
- The `City *` genes of the list crossover are passed as explicit addresses, with the requirement that one address holds one city (`CityPointers.Coherent`). Allocation itself is not modelled.
- Statistics keep VALUE copies of populations and genomes (`Recorded`, `Held`) rather than heap clones. The unset pointers of the default and copy constructors are empty records.
- `TSPGenomes.TSPGenome.PartialMapCrossover` and `GeneticAlgorithms.MakeChild` drop one case of the source: two separate genomes of one city each. Their pointer `==` (TSPGenome.h:162) is false, so the source goes on to `rand() % 0` at TSPGenome.h:352-353, which is undefined behaviour. The model compares by value and takes the early return of TSPGenome.h:349-350 instead (`ShortToursEqual`).
- `GeneticAlgorithm`'s base constructors (GeneticAlgorithm.cpp:9-22) are folded into the one `SteadyStateGA` class: the abstract base class is not separate. Its copy constructor (GeneticAlgorithm.cpp:14-17), which copies `current_generation` and clones the population, is not modelled: no code reaches it, because the only derived class's copy constructor (SteadyStateGA.cpp:17-21) calls `GeneticAlgorithm()`.
- The example program `TSP_example.cpp` and `GenALib.cpp` are not modelled: they only set up a run and print it.
- `Tours.SwapDrawExistsIff`: for tours of fewer than two cities the source takes `rand() % 0`. For two cities the redraw loop never ends. Mutation and premutation therefore require a valid draw, which exists for 3 cities or more.
- `TSPGenomes.TSPGenome.OrderBasedCrossover` requires at least three cities when the parents differ. For fewer, the source takes `rand() % (size - 2)` (TSPGenome.h:391) with a divisor of 0 or less, which is undefined or negative; that case is not modelled.
- `GeneticAlgorithms.SteadyStateGA.NextGeneration` does not state that the new buffer's first genomes are the fittest ones. `SortForBreeding` proves the split by fitness as written, and the fittest-first order on a difference-scaled buffer; the carried-over genomes are clones of its first positions. Stating the order through the re-evaluation that follows is beyond the proof budget of the model.
- `GeneticAlgorithms.SteadyStateGA.BreedChild` states only that the child is a fresh tour of the cities. That the child is the offspring of two roulette parents with the father's score is stated by `Breed`, and is not carried through `BreedChildren`, `BreedAll` and `NextGeneration`: in the breeding loop the wheel's real arithmetic and the crossover exceed the proof budget of the model.
- `GeneticAlgorithms.SteadyStateGA.Reproduce` likewise states the permutation and the carried-over copies, but not the order of `sorted`.
- `GeneticAlgorithms.NewSizeBounds`: an odd population shrinks by one genome each generation as written (`HalfReplacement`). This is modelled as the source behaves, not as a finding.
- Every `double` of the core is an exact `real`: scores, fitnesses, the totals and averages of `Population`, the roulette slice and its running total, the difference-scaled fitnesses and the statistics' records. Rounding is not modelled. The proved properties do not rest on exact arithmetic beyond that: the sums are taken front to back as the source's loops take them, and the comparisons the selections and sorts make are monotone.
- `Populations.Population.populationSize` is an unbounded `nat`. The source's `population_size` is an `unsigned int` that `getPopSize` returns as an `int` (Population.cpp:57-60); its 32-bit wrap-around and the conversion of sizes above `INT_MAX` are not modelled. The generation counter, by contrast, is a `uint32` with its wrap-around.
- `Populations.Population.SetPopGenomes` keeps the positions `best` and `worst`. In the source `best_genome` and `worst_genome` are pointers (Population.h:239-243) into the buffer that `setPopGenomes` deletes (Population.cpp:359-364), so they dangle until `updateBestWorst` runs, which is undefined behaviour to read; every path of the algorithm calls `updateBestWorst` before it reads them.
- `ListGenomes.ListGenome.PartialMapCrossoverAsWritten` and `ListGenomes.ListGenome.OrderBasedCrossoverAsWritten` require valid draws when the parents are pointer-unequal. Two pointer-unequal one-city parents make the source take `rand() % 0` at ListGenome.h:226-227, and order-based crossover on fewer than three cities takes `rand() % (size - 2)` at ListGenome.h:265 with a divisor of 0 or less. Both are undefined and not modelled.
- `Populations.Population.GetAveScore` and `GetAveFitness` return `None` where the source divides a `double` by a population size of 0: floating-point NaN and infinity are not modelled.
- The `Genome()` default constructor leaves score and fitness uninitialised. In the model they are left arbitrary: no contract of the constructors that use `Genome()` states them.
- A `ListGenome` child's city count is 0, because the base copy constructor does not copy it. The corrected seed keeps that.
- `Populations.Population.SortPopulationBy`: under DESC, the source's FITNESS branch calls the score sort and the other branch the fitness sort. The model keeps that swap as written.
- Ghost `cities` parameters of the algorithm's methods name the multiset of cities every tour visits. They exist only for the proofs.

## Findings

| source | as written | input that shows it | evidently intended | confidence | as-written member | corrected member |
|---|---|---|---|---|---|---|
| TSPGenome.h:407 | the order-based crossover compares `City *` pointers of the child (a deep copy of parent2) with the sampled pointers of this genome, so no comparison ever matches and the child is parent2 unchanged | parents (a, b, c) and (c, b, a), first position 0, steps 0, 0, 0: the child is (c, b, a) | compare the cities by value, so the child is (a, b, c) | high, not executed | CityPointers.OrderBasedAsWrittenCopies | CityPointers.OrderBasedByValueReorders |
| TSPGenome.h:162 | `operator==` compares the `City *` elements, so a deep copy of a non-empty genome never equals its original | any non-empty genome and its copy | equal when the cities are equal in order | high, not executed | CityPointers.CopyUnequalAsWritten | TSPGenomes.Equal |
| ListGenome.h:150-160 | the copy constructor iterates over its own new, empty vector instead of `other`'s, so every crossover child starts empty; the partially-mapped crossover then reads out of range | a non-empty genome crossed with its own copy, any begin <= end | copy `other`'s cities | high, not executed | CityPointers.CopyFaultsAsWritten | ListGenomes.ListGenome.PartialMapCrossover |
| ListGenome.h:97 | `operator==` compares the `City *` elements, so a deep copy of a non-empty list genome never equals its original | any non-empty genome and its copy | equal when the cities are equal in order | high, not executed | CityPointers.CopyUnequalAsWritten | ListGenomes.Equal |
| Population.cpp:286-301 | `best_fitness` is never raised, so the tournament picks the last drawn genome with a positive fitness, not the fittest | fitnesses 2, 1, 0, 0, draws 0 and 1: position 1 wins | raise `best_fitness` with each new leader, so position 0 wins | high, not executed | Populations.TournamentAsWrittenPicksLast | Populations.TourneyPicksFittest |
| Population.cpp:461-462 | `SortDescendingFitness`, `SortAscendingScores` (486-487) and `SortAscendingFitness` (511-512) partition once by their own key, then sort both sides with `SortDescendingScores`; under no scaling (fitness = score) the result by fitness is not sorted; under the configured difference scaling it is (`DiffScaledSplitIsSorted`) | four genomes of distinct scores, fitness equal to score | each sort recurses into itself | high, not executed | Populations.OnePartitionUnsorted | Populations.SortAscendingFitness |
