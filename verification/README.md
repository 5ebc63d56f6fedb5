# 8-queens genetic algorithm, modelled in Dafny

This project models the genetic-algorithm engine that searches for a placement
of eight non-attacking queens (src/GeneticAlgorithm.js). It models both
classes of the engine:

- **`Chromosome`.** A genome of eight genes, where gene i is the row of the
  queen in column i. Its fitness is `(28 - conflicts) / 28`, computed by a
  pairwise scan for a shared row, "/" diagonal or "\" diagonal. It has a
  single-point crossover and a point mutation.
- **`GeneticAlgo`.** Builds the initial population. `evolve` keeps the elites
  of the sorted population and refills the rest with children bred by
  tournament selection, crossover and mutation. It also provides the
  first-max scan for a generation's best chromosome, the average fitness, and
  the generational loop `start`. That loop records one trace record per
  generation and stops early when a fitness threshold is met.

Modules, one per file, following the structure of the engine:

| file | module | contents |
|---|---|---|
| fitness.dfy | `Fitness` | conflicts and fitness of a genome; the nested-loop computation; a set-of-attacking-pairs reference definition |
| chromosome.dfy | `Chromosomes` | the chromosome value, its constructor, crossover and mutation |
| selection.dfy | `Selection` | the first-fittest scan, tournament selection, sum and average of fitness |
| elitism.dfy | `Elitism` | the descending sort by fitness and the elite prefix cut with `slice` semantics |
| evolution.dfy | `Evolution` | configuration, one generation step, the generational loop, the engine state |

**Randomness is explicit.** Every random draw is an input:

- One `Math.random()` is a real `u` with `0 <= u < 1`. The engine's comparisons
  are kept exactly: crossover is skipped when `rate < u`, and mutation happens
  when `rate > u`.
- One `getRandomInt(0, 7)` is an integer in [0, 7].
- A tournament is a sequence of indices into the population.
- A generation's draws are one `ChildDraws` per child bred.
- A run's draws are one such sequence per generation.

Every property below therefore holds for every outcome of the random source.

**Fitness is an exact real.** Its map from the conflict count is strictly
decreasing, so every comparison the engine makes between two fitness values
(the sort and the scans) is a comparison of conflict counts
(`Fitness.FitterIffFewerConflicts`), and the test `=== 1` holds exactly when
there are no conflicts. The comparison with the user-supplied
acceptable fitness is the exception; see "Left out".

**Chromosomes are values.** Crossover and mutation return new chromosomes, so
"neither parent changes" holds by construction. The in-place `mutation` of the
engine is applied only to the freshly built child, which nothing else refers to.

Three behaviours of the code that the model keeps:

- **Fitness can be 0.** With eight equal genes all 28 pairs conflict, so the
  range of fitness is [0, 1] (`Fitness.FitnessIsZeroWhenAllEqual`).
- **A crossover rate of 0 does not always clone.** Crossover is skipped only
  when `rate < Math.random()`, so with rate 0 a draw of exactly 0 still
  splices (`Chromosomes.CrossoverAtZeroRateSplicesOnZeroDraw`).
- **`evolve` runs on the last iteration too.** The `if` on the last iteration
  guards only the log line, so `evolve` still runs. The model does the same:
  this changes the final population but not the trace.

## Model

| member | source | states |
|---|---|---|
| `Fitness.CalculateFitness` | src/GeneticAlgorithm.js:17-31 | the nested scan over pairs i < j returns the fitness of the genome's conflict count; the result lies in [0, 1] and is 1 exactly when no two queens share a row or diagonal |
| `Fitness.ConflictsCountAttackingPairs` | src/GeneticAlgorithm.js:19-29 | the scan counts every attacking column pair exactly once: its count is the size of the set of attacking pairs |
| `Fitness.FitnessBounds` | src/GeneticAlgorithm.js:17-31 | an 8-column genome has at most 28 conflicts, so its fitness lies in [0, 1] |
| `Fitness.FitnessIsOneIffNonAttacking` | src/GeneticAlgorithm.js:17-31 | fitness is exactly 1 if and only if no two queens attack each other |
| `Fitness.FitnessIsZeroWhenAllEqual` | src/GeneticAlgorithm.js:17-31 | eight equal genes give 28 conflicts and fitness 0 |
| `Fitness.FitterIffFewerConflicts` | src/GeneticAlgorithm.js:30 | one genome is fitter than another exactly when it has fewer conflicts, and equally fit exactly when it has as many |
| `Fitness.KnownSolution` | src/GeneticAlgorithm.js:17-31 | the placement [0, 4, 7, 5, 2, 6, 1, 3] is non-attacking and has fitness 1 |
| `Chromosomes.WithGenes` | src/GeneticAlgorithm.js:4-7 | setting the genes and recomputing the fitness gives a chromosome whose stored fitness is that of its genes, in [0, 1], and 1 exactly on a solution |
| `Chromosomes.NewChromosome` | src/GeneticAlgorithm.js:4-15 | a new chromosome holds the eight drawn rows, all of them rows of the board, and the fitness they determine |
| `Chromosomes.Crossover` | src/GeneticAlgorithm.js:33-50 | when the rate loses against the draw, the child has the first parent's genes, and is equal to that parent when the parent's fitness is consistent; otherwise columns before the cut come from the first parent and the rest from the second; the child's fitness is always that of its genes, and valid parents give a valid child |
| `Chromosomes.CrossoverAtFullRateSplices` | src/GeneticAlgorithm.js:34-46 | with a rate of 1 or more the child is always the splice at the cut |
| `Chromosomes.CrossoverAtZeroRateSplicesOnZeroDraw` | src/GeneticAlgorithm.js:34-46 | with rate 0, a draw of 0 and cut 0 the child takes every gene from the second parent |
| `Chromosomes.Mutation` | src/GeneticAlgorithm.js:52-59 | an untriggered mutation leaves the chromosome unchanged; a triggered one sets the chosen column to the chosen row, keeps every other column, and recomputes the fitness; consistency and gene validity are preserved |
| `Chromosomes.MutationAtZeroRateIsIdentity` | src/GeneticAlgorithm.js:52-59 | with a rate of 0 or less the chromosome never changes |
| `Selection.ScanFittest` | src/GeneticAlgorithm.js:132-137 | the scan, continued from any position with the first fittest member of the prefix seen so far, ends with the first fittest member of the whole sequence |
| `Selection.FittestIndex` | src/GeneticAlgorithm.js:121-126 | the scan started at the first member ends at a member of maximal fitness with every earlier member strictly less fit |
| `Selection.FirstFittestIsUnique` | src/GeneticAlgorithm.js:121-126 | at most one index is the first fittest, so ties are broken the same way whatever the definition is computed by |
| `Selection.BestInGeneration` | src/GeneticAlgorithm.js:131-140 | the best chromosome is a member of the population, at least as fit as every member, and strictly fitter than every member before its first occurrence |
| `Selection.Candidates` | src/GeneticAlgorithm.js:114-119 | the tournament holds the members at the drawn indices, in draw order, one per draw |
| `Selection.TournamentSelection` | src/GeneticAlgorithm.js:112-129 | the winner is a drawn member, at least as fit as every drawn member, and strictly fitter than every member drawn before it |
| `Selection.TournamentOfOneMember` | src/GeneticAlgorithm.js:112-129 | when every draw names the same member, that member wins |
| `Selection.SumFitnessBounds` | src/GeneticAlgorithm.js:143-147 | the total fitness `Selection.SumFitness`, accumulated member by member as the loop does, lies between n times any lower bound and n times any upper bound of the members' fitness |
| `Selection.AverageFitnessBounds` | src/GeneticAlgorithm.js:142-151 | the average fitness `Selection.AverageFitness`, the total divided by the population size, lies between any lower and any upper bound of the members' fitness |
| `Selection.AverageAtMostBest` | src/GeneticAlgorithm.js:142-151 | the average fitness never exceeds the best fitness of the generation |
| `Selection.AverageOfConsistentInUnitInterval` | src/GeneticAlgorithm.js:142-151 | when every member carries the fitness of its genes, the average lies in [0, 1] |
| `Elitism.InsertByFitness` | src/GeneticAlgorithm.js:94-96 | inserting into a population sorted by descending fitness keeps it sorted and adds exactly the inserted chromosome |
| `Elitism.SortByFitness` | src/GeneticAlgorithm.js:94-96 | the sorted copy is in descending order of fitness and is a permutation of the population |
| `Elitism.SliceEnd` | src/GeneticAlgorithm.js:97 | the end at which `slice(0, end)` stops never exceeds the length of the sequence |
| `Elitism.Elites` | src/GeneticAlgorithm.js:93-97 | the elites number the slice end of the elitism count and are a top part of the population: together with the rest they form a permutation of it, and each elite is at least as fit as every member left out |
| `Elitism.FirstEliteIsFittest` | src/GeneticAlgorithm.js:94-97 | when at least one elite is kept, the first elite is a fittest member of the population |
| `Elitism.ElitesArePopulationMembers` | src/GeneticAlgorithm.js:94-97 | every elite is a member of the old population, copied unchanged |
| `Evolution.Ceil` | src/GeneticAlgorithm.js:93 | the result is the least integer not below its argument |
| `Evolution.PositiveElitismKeepsAnElite` | src/GeneticAlgorithm.js:93-97 | for a rate in (0, 1] on a non-empty population, `Evolution.EliteCount` (the number of elites kept: `Evolution.ElitismCount` = ceil(elitismRate × populationSize) read as a slice end) lies between 1 and populationSize and equals the elitism count |
| `Evolution.InitialPopulation` | src/GeneticAlgorithm.js:84-90 | the initial population has populationSize members, member i holding the i-th drawn genome, all with consistent fitness and valid genes |
| `Evolution.NewGeneticAlgo` | src/GeneticAlgorithm.js:63-82 | a new engine keeps its configuration, has an empty trace and a consistent initial population of the configured size |
| `Evolution.Breed` | src/GeneticAlgorithm.js:102-105 | each column of a child comes from the first or the second tournament winner, or is the mutated column holding the mutated row; the child's fitness is that of its genes; each tournament draws `Evolution.TournamentSize` = ceil(tournamentRate × populationSize) indices (line 113) |
| `Evolution.Children` | src/GeneticAlgorithm.js:101-107 | the generation breeds one child per remaining slot, each from its own draws, all consistent |
| `Evolution.Evolve` | src/GeneticAlgorithm.js:92-110 | the new population has exactly populationSize members, including when the elitism count exceeds the size: `Evolution.EliteCount` elites, then `Evolution.ChildCount` = populationSize − EliteCount children; its first members are a top part of the old population by fitness; every later member is a bred child; with at least one elite, the first member is as fit as the fittest old member |
| `Evolution.EvolveKeepsBest` | src/GeneticAlgorithm.js:94-99 | with at least one elite, the best fitness of the next generation is at least that of the current one |
| `Evolution.SummaryDescribesGeneration` | src/GeneticAlgorithm.js:157-164 | the record `Evolution.Summarize` builds carries its generation number, the mean fitness, the greatest fitness of the population and the genes of the first member with it; the mean lies between the least and the greatest fitness; for consistent members the reported fitness is that of the reported genes and lies in [0, 1] |
| `Evolution.Run` | src/GeneticAlgorithm.js:153-188 | the loop from iteration g writes at most maxGeneration - g records and leaves a population of the configured size that stays consistent |
| `Evolution.RunUnfold` | src/GeneticAlgorithm.js:156-187 | an iteration that does not stop puts its record in front of the trace of the iterations after it, which run on the evolved population |
| `Evolution.RunTraceShape` | src/GeneticAlgorithm.js:156-188 | records are numbered g, g + 1, ...; no record but the last meets a stopping threshold (`Evolution.StopsAfter`: best fitness at least acceptableFitness, or exactly 1, lines 171 and 180); there are at most maxGeneration - g records, at least one if an iteration is left, and fewer than maxGeneration - g only when the last record meets a threshold |
| `Evolution.TraceDescribesGenerations` | src/GeneticAlgorithm.js:156-187 | record i of the trace is the summary of the population of generation g + i |
| `Evolution.BestFitnessNeverDecreases` | src/GeneticAlgorithm.js:153-188 | with at least one elite per generation, the best fitness recorded never decreases from one record to the next |
| `Evolution.PerfectRecordIsSolution` | src/GeneticAlgorithm.js:159-164 | for a consistent starting population, a record reports fitness 1 if and only if its genes are a solution |
| `Evolution.RunKeepsPromises` | src/GeneticAlgorithm.js:153-188 | the trace of a run from generation 0 has every property of `RunPromises`: at most maxGeneration records numbered 0, 1, ...; only the last may meet a threshold, and a short trace ends on one that does; record i summarises generation i; with elitism the best fitness never decreases; for consistent chromosomes fitness 1 is reported exactly for a solution |
| `Evolution.Start` | src/GeneticAlgorithm.js:153-195 | a run from generation 0 keeps the configuration, records a trace with every property of `RunPromises`, and leaves a population of the configured size and shape |

## Left out

- The random source (src/utils.js): every draw is an input with the range
  `getRandomInt` or `Math.random()` gives. The `min > max` error of
  `getRandomInt` never arises for whole-number sizes: an empty population has
  tournament size ceil(rate × 0) = 0 and draws nothing.
- The eight draws and the fitness computed by `new Chromosome()` inside
  `crossover`: the child's genes and fitness are overwritten immediately, so
  they only advance the random source.
- Floating-point rounding. Fitness is modelled as an exact real. IEEE division
  is monotone and (28 - c) / 28 is exactly 1 only for c = 0, so comparisons
  between two fitness values come out the same.
- Evolution.StopsAfter: compares the exact fitness with acceptableFitness. The
  engine compares the rounded double (src/GeneticAlgorithm.js:171), and for
  c in {1, 2, 3, 8, 9, 10, 15, 18, 19, 23} the double of (28 - c) / 28 lies
  above the exact value. Example: with acceptableFitness 0.9642857142857143
  (the double printed for 27/28) the engine stops at a one-conflict record.
  The model does not stop there, since exact 27/28 is below that double, so
  the two traces can differ in length.
- Selection.AverageFitness: the exact mean; the accumulated floating-point
  sum of the engine may differ from it in the last bits.
- Evolution.ElitismCount and Evolution.TournamentSize: form the exact product
  rate × size; `Evolution.Ceil` itself is exact. The engine rounds the product
  to a double before `Math.ceil`: 0.07 × 100 evaluates to 7.000000000000001
  and gives 8 elites, where the exact product 7 gives 7 (likewise 0.07 × 300
  evaluates to 21.000000000000004 and gives 22, not 21).
- Evolution.Run: requires well-formed draws for every generation up to
  maxGeneration, including generations after an early stop. So a tournament
  size of at least 1 is required whenever children would be bred, even when
  the run stops before breeding.
- Evolution.Start: requires a non-empty population when maxGeneration is at
  least 1. The engine fails in that case, reading the fitness of an undefined
  best chromosome.
- A tournament size of 0: the engine's `tournamentSelection` returns
  `undefined` and the following crossover fails, so breeding requires a size
  of at least 1.
- Non-integer or negative populationSize and maxGeneration (the form passes
  them through `parseFloat`): both are whole numbers here. A negative
  maxGeneration gives an empty trace, as 0 does. A negative populationSize
  with maxGeneration of at least 1 makes `start` fail.
- The unused `bestOfTheBest` and `bestGene` fields, and all console logging:
  no observable effect on the trace or the population.
- Tie order of the elitism sort: the contracts promise a top part by fitness
  and a permutation, which every tie order satisfies.
- Object identity: trace records and elites refer to chromosome objects in the
  engine. Nothing mutates those objects after they are recorded, so value
  semantics gives the same observable trace.
- Evolution.DataForUI: a plain accessor of the trace (src/GeneticAlgorithm.js:197-199),
  so it has no contract of its own; what the trace holds after a run is stated
  by `Evolution.Start`.
- Probability and convergence: that a run finds a solution within some number
  of generations depends on the distribution of the draws and is not stated.
- The React form, chart and chessboard tooltip (src/App.js, src/Chart.jsx):
  presentation only.
