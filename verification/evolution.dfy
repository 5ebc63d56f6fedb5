/** The evolution engine: a population of chromosomes, the one-generation
    step (elitism, then tournament selection, crossover and mutation until the
    population is full again) and the generational loop that records one trace
    record per generation.

    Every random draw is an input. A generation's draws are one `ChildDraws`
    per child bred; a run's draws are one such sequence per generation.
 */
module Evolution {
  import opened Fitness
  import opened Chromosomes
  import opened Selection
  import opened Elitism

  /** The seven parameters of a run. Sizes are whole numbers; rates are not
      range-checked, as in the engine. */
  datatype Config = Config(
    populationSize: nat,
    maxGeneration: nat,
    acceptableFitness: real,
    crossRate: real,
    mutationRate: real,
    elitismRate: real,
    tournamentRate: real)

  /** Math.ceil: the least integer not below x. */
  function Ceil(x: real): (n: int)
    ensures n as real - 1.0 < x <= n as real
  {
    -((-x).Floor)
  }

  /** Number of draws per tournament: ceil(tournamentRate * populationSize). */
  function TournamentSize(cfg: Config): int
  {
    Ceil(cfg.tournamentRate * cfg.populationSize as real)
  }

  /** The elitism count as computed: ceil(elitismRate * populationSize). */
  function ElitismCount(cfg: Config): int
  {
    Ceil(cfg.elitismRate * cfg.populationSize as real)
  }

  /** Number of elites a generation keeps: the elitism count read as the end of a slice. */
  function EliteCount(cfg: Config): nat
  {
    SliceEnd(ElitismCount(cfg), cfg.populationSize)
  }

  /** Number of children bred to fill the population up again. */
  function ChildCount(cfg: Config): nat
  {
    cfg.populationSize - EliteCount(cfg)
  }

  /** A positive elitism rate on a non-empty population keeps at least one
      elite, and a rate of at most 1 keeps exactly ceil(rate * size). */
  lemma PositiveElitismKeepsAnElite(cfg: Config)
    requires cfg.populationSize >= 1
    requires 0.0 < cfg.elitismRate <= 1.0
    ensures 1 <= EliteCount(cfg) == ElitismCount(cfg) <= cfg.populationSize
  {
    var n := cfg.populationSize as real;
    assert 0.0 < cfg.elitismRate * n <= n;
  }

  /** The draws consumed while breeding one child. */
  datatype ChildDraws = ChildDraws(
    picks1: seq<int>,        // tournament indices for the first parent
    picks2: seq<int>,        // tournament indices for the second parent
    crossDraw: real,         // Math.random() compared with the crossover rate
    cut: int,                // the crossover point
    mutationDraw: real,      // Math.random() compared with the mutation rate
    mutationIndex: int,      // the mutated column
    mutationValue: int)      // the new row of that column

  /** One tournament's indices: tournamentSize draws of getRandomInt(0, populationSize - 1). */
  predicate ValidPicks(cfg: Config, picks: seq<int>)
  {
    |picks| == TournamentSize(cfg) && forall k :: 0 <= k < |picks| ==> 0 <= picks[k] < cfg.populationSize
  }

  /** The draws of one child lie in the ranges their sources produce; a
      tournament with no draws has no winner, so breeding needs a size of 1 or more. */
  predicate ValidChildDraws(cfg: Config, d: ChildDraws)
  {
    && TournamentSize(cfg) >= 1
    && ValidPicks(cfg, d.picks1)
    && ValidPicks(cfg, d.picks2)
    && 0.0 <= d.crossDraw < 1.0
    && 0 <= d.cut < BoardSize
    && 0.0 <= d.mutationDraw < 1.0
    && 0 <= d.mutationIndex < BoardSize
    && 0 <= d.mutationValue < BoardSize
  }

  /** One generation's draws: one entry per child bred. */
  predicate ValidGenerationDraws(cfg: Config, ds: seq<ChildDraws>)
  {
    |ds| == ChildCount(cfg) && forall i :: 0 <= i < |ds| ==> ValidChildDraws(cfg, ds[i])
  }

  /** A run's draws: one generation's draws per loop iteration. */
  predicate ValidRunDraws(cfg: Config, ds: seq<seq<ChildDraws>>)
  {
    |ds| == cfg.maxGeneration && forall g :: 0 <= g < |ds| ==> ValidGenerationDraws(cfg, ds[g])
  }

  /** Every member has one gene per column. */
  predicate Shaped(pop: seq<Chromosome>)
  {
    forall i :: 0 <= i < |pop| ==> |pop[i].genes| == BoardSize
  }

  /** Every member carries the fitness of its genes. */
  predicate AllConsistent(pop: seq<Chromosome>)
  {
    forall i :: 0 <= i < |pop| ==> Consistent(pop[i])
  }

  /** Every gene of every member is a row of the board. */
  predicate AllValidGenes(pop: seq<Chromosome>)
  {
    forall i :: 0 <= i < |pop| ==> ValidGenes(pop[i].genes)
  }

  /** The initial population: one chromosome per row vector drawn. */
  function InitialPopulation(size: nat, rows: seq<seq<int>>): (pop: seq<Chromosome>)
    requires |rows| == size
    requires forall i :: 0 <= i < size ==> |rows[i]| == BoardSize && ValidGenes(rows[i])
    ensures |pop| == size
    ensures AllConsistent(pop) && AllValidGenes(pop)
    ensures forall i :: 0 <= i < size ==> pop[i].genes == rows[i]
  {
    seq(size, i requires 0 <= i < size => NewChromosome(rows[i]))
  }

  /** One child: two tournaments on the current population, crossover of the
      first winner with the second, then mutation. Each column of the child
      comes from one of the two winners, except a mutated column. */
  function Breed(cfg: Config, pop: seq<Chromosome>, d: ChildDraws): (child: Chromosome)
    requires |pop| == cfg.populationSize && Shaped(pop)
    requires ValidChildDraws(cfg, d)
    ensures Consistent(child)
    ensures var p1 := TournamentSelection(pop, d.picks1);
            var p2 := TournamentSelection(pop, d.picks2);
            forall col :: 0 <= col < BoardSize ==>
              child.genes[col] == p1.genes[col] || child.genes[col] == p2.genes[col] ||
              (col == d.mutationIndex && child.genes[col] == d.mutationValue)
    ensures AllValidGenes(pop) ==> ValidGenes(child.genes)
  {
    var parent1 := TournamentSelection(pop, d.picks1);
    var parent2 := TournamentSelection(pop, d.picks2);
    var offspring := Crossover(parent1, parent2, cfg.crossRate, d.crossDraw, d.cut);
    Mutation(offspring, cfg.mutationRate, d.mutationDraw, d.mutationIndex, d.mutationValue)
  }

  /** The children bred for one generation, one per draw entry, in order. */
  function Children(cfg: Config, pop: seq<Chromosome>, draws: seq<ChildDraws>): (children: seq<Chromosome>)
    requires |pop| == cfg.populationSize && Shaped(pop)
    requires ValidGenerationDraws(cfg, draws)
    ensures |children| == |draws|
    ensures forall i :: 0 <= i < |draws| ==> children[i] == Breed(cfg, pop, draws[i])
    ensures Shaped(children) && AllConsistent(children)
    ensures AllValidGenes(pop) ==> AllValidGenes(children)
  {
    seq(|draws|, i requires 0 <= i < |draws| => Breed(cfg, pop, draws[i]))
  }

  /** A selection of members of a population shares the population's invariants. */
  lemma MembersInherit(sub: seq<Chromosome>, pop: seq<Chromosome>)
    requires forall x :: x in sub ==> x in pop
    ensures Shaped(pop) ==> Shaped(sub)
    ensures AllConsistent(pop) ==> AllConsistent(sub)
    ensures AllValidGenes(pop) ==> AllValidGenes(sub)
  {
    forall i | 0 <= i < |sub| ensures exists j :: 0 <= j < |pop| && pop[j] == sub[i] {
      assert sub[i] in pop;
    }
  }

  /** The invariants hold of a concatenation when they hold of both parts. */
  lemma ConcatInherits(a: seq<Chromosome>, b: seq<Chromosome>)
    ensures Shaped(a) && Shaped(b) ==> Shaped(a + b)
    ensures AllConsistent(a) && AllConsistent(b) ==> AllConsistent(a + b)
    ensures AllValidGenes(a) && AllValidGenes(b) ==> AllValidGenes(a + b)
  {
    forall i | |a| <= i < |a + b| ensures (a + b)[i] == b[i - |a|] {
    }
  }

  /** One generation step. The new population has exactly populationSize
      members: first the elites, the fittest members of the old population
      copied unchanged, then one freshly bred child per remaining slot. */
  function Evolve(cfg: Config, pop: seq<Chromosome>, draws: seq<ChildDraws>): (next: seq<Chromosome>)
    requires |pop| == cfg.populationSize && Shaped(pop)
    requires ValidGenerationDraws(cfg, draws)
    ensures |next| == cfg.populationSize
    ensures IsTopByFitness(next[..EliteCount(cfg)], pop)
    ensures forall i :: EliteCount(cfg) <= i < |next| ==> next[i] == Breed(cfg, pop, draws[i - EliteCount(cfg)])
    ensures Shaped(next)
    ensures AllConsistent(pop) ==> AllConsistent(next)
    ensures AllValidGenes(pop) ==> AllValidGenes(next)
    ensures EliteCount(cfg) >= 1 ==> forall j :: 0 <= j < |pop| ==> pop[j].fitness <= next[0].fitness
  {
    var elites := Elites(pop, ElitismCount(cfg));
    var children := Children(cfg, pop, draws);
    ElitesArePopulationMembers(pop, ElitismCount(cfg));
    FirstEliteIsFittest(pop, ElitismCount(cfg));
    MembersInherit(elites, pop);
    ConcatInherits(elites, children);
    assert (elites + children)[..|elites|] == elites;
    elites + children
  }

  /** The record a generation contributes to the trace. */
  datatype Record = Record(generation: nat, averageFitness: real, bestFitness: real, genes: seq<int>)

  /** The record of generation g: its number, the mean fitness, and the
      fitness and genes of the best member the scan finds. */
  function Summarize(g: nat, pop: seq<Chromosome>): Record
    requires |pop| >= 1
  {
    var best := BestInGeneration(pop);
    Record(g, AverageFitness(pop), best.fitness, best.genes)
  }

  /** The record of a generation reports the population's greatest fitness
      and the genes of the first member with it; its average lies between the
      least fitness and the best one, and, for consistent chromosomes, the
      best fitness is the fitness of the reported genes and lies in [0, 1]. */
  lemma SummaryDescribesGeneration(g: nat, pop: seq<Chromosome>)
    requires |pop| >= 1
    ensures var rec := Summarize(g, pop);
            && rec.generation == g
            && rec.averageFitness == AverageFitness(pop)
            && (forall j :: 0 <= j < |pop| ==> pop[j].fitness <= rec.bestFitness)
            && (exists k :: 0 <= k < |pop| && pop[k].genes == rec.genes && pop[k].fitness == rec.bestFitness &&
                            forall j :: 0 <= j < k ==> pop[j].fitness < rec.bestFitness)
            && MinFitness(pop) <= rec.averageFitness <= rec.bestFitness
    ensures var rec := Summarize(g, pop);
            AllConsistent(pop) ==>
              && |rec.genes| == BoardSize
              && rec.bestFitness == GenomeFitness(rec.genes)
              && 0.0 <= rec.averageFitness <= rec.bestFitness <= 1.0
  {
    var best := BestInGeneration(pop);
    AverageAtMostBest(pop);
    AverageFitnessBounds(pop, MinFitness(pop), best.fitness);
    if AllConsistent(pop) {
      AverageOfConsistentInUnitInterval(pop);
      var k :| 0 <= k < |pop| && pop[k] == best;
      assert Consistent(pop[k]);
    }
  }

  /** The loop stops after a record whose best fitness reaches the acceptable
      fitness, or is exactly 1. */
  predicate StopsAfter(cfg: Config, rec: Record)
  {
    rec.bestFitness >= cfg.acceptableFitness || rec.bestFitness == 1.0
  }

  /** Record i of the trace describes generation g + i. */
  ghost predicate NumberedFrom(trace: seq<Record>, g: nat)
  {
    forall i :: 0 <= i < |trace| ==> trace[i].generation == g + i
  }

  /** No record but the last meets a stopping threshold. */
  ghost predicate StopsOnlyAtEnd(cfg: Config, trace: seq<Record>)
  {
    forall i :: 0 <= i < |trace| - 1 ==> !StopsAfter(cfg, trace[i])
  }

  /** A trace of the loop run from iteration g to iteration `end` holds at
      most one record per iteration, at least one when an iteration is left,
      and falls short of `end` only by stopping on a threshold. */
  ghost predicate EndsWithin(cfg: Config, trace: seq<Record>, g: nat, end: nat)
  {
    && g + |trace| <= end
    && (g < end ==> |trace| >= 1)
    && (1 <= |trace| && g + |trace| < end ==> StopsAfter(cfg, trace[|trace| - 1]))
  }

  /** The trace a run produces and the population it leaves behind. */
  datatype RunResult = RunResult(trace: seq<Record>, population: seq<Chromosome>)

  /** The loop can go on from iteration g: there are draws for every
      generation, the population has the configured size and shape, and it is
      non-empty whenever an iteration is left to run (each iteration reads the
      best member of the population). */
  predicate Runnable(cfg: Config, pop: seq<Chromosome>, g: nat, draws: seq<seq<ChildDraws>>)
  {
    && ValidRunDraws(cfg, draws)
    && |pop| == cfg.populationSize && Shaped(pop)
    && g <= cfg.maxGeneration
    && (g < cfg.maxGeneration ==> cfg.populationSize >= 1)
  }

  /** The generational loop from iteration g on. An iteration records the
      current generation, stops if that record reaches a fitness threshold,
      and otherwise evolves the population; the last iteration evolves it too,
      which changes the final population but not the trace. */
  function Run(cfg: Config, pop: seq<Chromosome>, g: nat, draws: seq<seq<ChildDraws>>): (r: RunResult)
    requires Runnable(cfg, pop, g, draws)
    decreases cfg.maxGeneration - g
    ensures |r.trace| <= cfg.maxGeneration - g
    ensures |r.population| == cfg.populationSize && Shaped(r.population)
    ensures AllConsistent(pop) ==> AllConsistent(r.population)
  {
    if g == cfg.maxGeneration then
      RunResult([], pop)
    else
      var rec := Summarize(g, pop);
      if StopsAfter(cfg, rec) then
        RunResult([rec], pop)
      else
        var rest := Run(cfg, Evolve(cfg, pop, draws[g]), g + 1, draws);
        RunResult([rec] + rest.trace, rest.population)
  }

  /** Evolving a population the loop can go on from gives one it can go on
      from at the next iteration. */
  lemma EvolveKeepsRunnable(cfg: Config, pop: seq<Chromosome>, g: nat, draws: seq<seq<ChildDraws>>)
    requires Runnable(cfg, pop, g, draws) && g < cfg.maxGeneration
    ensures Runnable(cfg, Evolve(cfg, pop, draws[g]), g + 1, draws)
  {
  }

  /** An iteration that does not stop puts its record in front of the trace
      of the loop run on from the evolved population. */
  lemma RunUnfold(cfg: Config, pop: seq<Chromosome>, g: nat, draws: seq<seq<ChildDraws>>)
    requires Runnable(cfg, pop, g, draws)
    requires g < cfg.maxGeneration && !StopsAfter(cfg, Summarize(g, pop))
    ensures Run(cfg, pop, g, draws).trace == [Summarize(g, pop)] + Run(cfg, Evolve(cfg, pop, draws[g]), g + 1, draws).trace
  {
  }

  /** The shape of a trace of the loop run from iteration g to iteration `end`. */
  ghost predicate ShapedTrace(cfg: Config, trace: seq<Record>, g: nat, end: nat)
  {
    NumberedFrom(trace, g) && StopsOnlyAtEnd(cfg, trace) && EndsWithin(cfg, trace, g, end)
  }

  /** A record that lets the loop go on, put in front of the trace of the
      remaining iterations, gives the trace of one iteration more. */
  lemma PrependRecord(cfg: Config, rec: Record, rest: seq<Record>, g: nat, end: nat)
    requires rec.generation == g && !StopsAfter(cfg, rec) && g < end
    requires ShapedTrace(cfg, rest, g + 1, end)
    ensures ShapedTrace(cfg, [rec] + rest, g, end)
  {
    var trace := [rec] + rest;
    forall i | 1 <= i < |trace| ensures trace[i] == rest[i - 1] {
    }
  }

  /** The shape of the trace of the loop from iteration g on: records are
      numbered g, g + 1, ...; no record but the last meets a stopping
      threshold; there are at most maxGeneration - g records, and fewer only
      when the last one meets a threshold. */
  lemma {:induction false} RunTraceShape(cfg: Config, pop: seq<Chromosome>, g: nat, draws: seq<seq<ChildDraws>>)
    requires Runnable(cfg, pop, g, draws)
    ensures ShapedTrace(cfg, Run(cfg, pop, g, draws).trace, g, cfg.maxGeneration)
    decreases cfg.maxGeneration - g, 1
  {
    if g < cfg.maxGeneration && !StopsAfter(cfg, Summarize(g, pop)) {
      RunTraceShapeRec(cfg, pop, g, draws);
    } else {
      RunTraceShapeStop(cfg, pop, g, draws);
    }
  }

  /** The inductive step of RunTraceShape: an iteration that does not stop. */
  lemma {:induction false} RunTraceShapeRec(cfg: Config, pop: seq<Chromosome>, g: nat, draws: seq<seq<ChildDraws>>)
    requires Runnable(cfg, pop, g, draws)
    requires g < cfg.maxGeneration && !StopsAfter(cfg, Summarize(g, pop))
    ensures ShapedTrace(cfg, Run(cfg, pop, g, draws).trace, g, cfg.maxGeneration)
    decreases cfg.maxGeneration - g, 0
  {
    EvolveKeepsRunnable(cfg, pop, g, draws);
    RunTraceShape(cfg, Evolve(cfg, pop, draws[g]), g + 1, draws);
    RunTraceShapeStep(cfg, pop, g, draws);
  }

  /** The base case of RunTraceShape: no iteration is left, or the first one stops. */
  lemma RunTraceShapeStop(cfg: Config, pop: seq<Chromosome>, g: nat, draws: seq<seq<ChildDraws>>)
    requires Runnable(cfg, pop, g, draws)
    requires g < cfg.maxGeneration ==> StopsAfter(cfg, Summarize(g, pop))
    ensures ShapedTrace(cfg, Run(cfg, pop, g, draws).trace, g, cfg.maxGeneration)
  {
  }

  /** The step of RunTraceShape: the shape of the rest of the trace, with
      one non-stopping record in front. */
  lemma RunTraceShapeStep(cfg: Config, pop: seq<Chromosome>, g: nat, draws: seq<seq<ChildDraws>>)
    requires Runnable(cfg, pop, g, draws)
    requires g < cfg.maxGeneration && !StopsAfter(cfg, Summarize(g, pop))
    requires var next := Evolve(cfg, pop, draws[g]);
             ShapedTrace(cfg, Run(cfg, next, g + 1, draws).trace, g + 1, cfg.maxGeneration)
    ensures ShapedTrace(cfg, Run(cfg, pop, g, draws).trace, g, cfg.maxGeneration)
  {
    RunUnfold(cfg, pop, g, draws);
    var rest := Run(cfg, Evolve(cfg, pop, draws[g]), g + 1, draws).trace;
    PrependRecord(cfg, Summarize(g, pop), rest, g, cfg.maxGeneration);
  }

  /** The population of generation g + n of a run that has not stopped before it. */
  function PopulationAt(cfg: Config, pop: seq<Chromosome>, g: nat, draws: seq<seq<ChildDraws>>, n: nat): (p: seq<Chromosome>)
    requires Runnable(cfg, pop, g, draws) && g + n <= cfg.maxGeneration
    ensures Runnable(cfg, p, g + n, draws)
    ensures AllConsistent(pop) ==> AllConsistent(p)
    decreases n
  {
    if n == 0 then pop else PopulationAt(cfg, Evolve(cfg, pop, draws[g]), g + 1, draws, n - 1)
  }

  /** The base case of PopulationAt: after no evolution the population is the starting one. */
  lemma PopulationAtZero(cfg: Config, pop: seq<Chromosome>, g: nat, draws: seq<seq<ChildDraws>>)
    requires Runnable(cfg, pop, g, draws)
    ensures PopulationAt(cfg, pop, g, draws, 0) == pop
  {
  }

  /** The step of PopulationAt: n evolutions from pop are n - 1 evolutions
      from the evolved population. */
  lemma PopulationAtStep(cfg: Config, pop: seq<Chromosome>, g: nat, draws: seq<seq<ChildDraws>>, n: nat)
    requires Runnable(cfg, pop, g, draws) && 1 <= n && g + n <= cfg.maxGeneration
    ensures PopulationAt(cfg, pop, g, draws, n) == PopulationAt(cfg, Evolve(cfg, pop, draws[g]), g + 1, draws, n - 1)
  {
  }

  /** Record i of the trace is the summary of the population of generation g + i. */
  ghost predicate DescribesGenerations(cfg: Config, pop: seq<Chromosome>, g: nat, draws: seq<seq<ChildDraws>>, trace: seq<Record>)
    requires Runnable(cfg, pop, g, draws) && g + |trace| <= cfg.maxGeneration
  {
    forall i :: 0 <= i < |trace| ==> trace[i] == Summarize(g + i, PopulationAt(cfg, pop, g, draws, i))
  }

  /** Record i of the trace summarises the population of generation g + i:
      its best fitness is that population's greatest fitness, its genes those
      of the first member with it, and its average the population's mean. */
  lemma {:induction false} TraceDescribesGenerations(cfg: Config, pop: seq<Chromosome>, g: nat, draws: seq<seq<ChildDraws>>)
    requires Runnable(cfg, pop, g, draws)
    ensures DescribesGenerations(cfg, pop, g, draws, Run(cfg, pop, g, draws).trace)
    decreases cfg.maxGeneration - g, 1
  {
    if g < cfg.maxGeneration && !StopsAfter(cfg, Summarize(g, pop)) {
      TraceDescribesGenerationsRec(cfg, pop, g, draws);
    } else if g < cfg.maxGeneration {
      PopulationAtZero(cfg, pop, g, draws);
    }
  }

  /** The inductive step of TraceDescribesGenerations: an iteration that does not stop. */
  lemma {:induction false} TraceDescribesGenerationsRec(cfg: Config, pop: seq<Chromosome>, g: nat, draws: seq<seq<ChildDraws>>)
    requires Runnable(cfg, pop, g, draws)
    requires g < cfg.maxGeneration && !StopsAfter(cfg, Summarize(g, pop))
    ensures DescribesGenerations(cfg, pop, g, draws, Run(cfg, pop, g, draws).trace)
    decreases cfg.maxGeneration - g, 0
  {
    var next := Evolve(cfg, pop, draws[g]);
    EvolveKeepsRunnable(cfg, pop, g, draws);
    TraceDescribesGenerations(cfg, next, g + 1, draws);
    RunUnfold(cfg, pop, g, draws);
    TraceShift(cfg, pop, g, draws, Run(cfg, pop, g, draws).trace, Run(cfg, next, g + 1, draws).trace);
  }

  /** The records of the trace from iteration g + 1 on, described relative to
      the evolved population, describe the generations relative to `pop`. */
  lemma TraceShift(cfg: Config, pop: seq<Chromosome>, g: nat, draws: seq<seq<ChildDraws>>, trace: seq<Record>, rest: seq<Record>)
    requires Runnable(cfg, pop, g, draws) && g < cfg.maxGeneration
    requires g + |trace| <= cfg.maxGeneration
    requires trace == [Summarize(g, pop)] + rest
    requires DescribesGenerations(cfg, Evolve(cfg, pop, draws[g]), g + 1, draws, rest)
    ensures DescribesGenerations(cfg, pop, g, draws, trace)
  {
    PopulationAtZero(cfg, pop, g, draws);
    forall i | 1 <= i < |trace|
      ensures trace[i] == Summarize(g + i, PopulationAt(cfg, pop, g, draws, i))
    {
      AfterHead(trace, Summarize(g, pop), rest, i);
      ShiftedRecord(cfg, pop, g, draws, i, rest);
    }
  }

  /** Index shift used by TraceShift: record i of [head] + rest is record i - 1 of rest. */
  lemma AfterHead(trace: seq<Record>, head: Record, rest: seq<Record>, i: nat)
    requires trace == [head] + rest && 1 <= i < |trace|
    ensures trace[i] == rest[i - 1]
  {
  }

  /** The step of TraceShift: record i - 1 of the rest, described from the
      evolved population, describes generation g + i from pop. */
  lemma ShiftedRecord(cfg: Config, pop: seq<Chromosome>, g: nat, draws: seq<seq<ChildDraws>>, i: nat, rest: seq<Record>)
    requires Runnable(cfg, pop, g, draws) && 1 <= i && g + i <= cfg.maxGeneration
    requires i - 1 < |rest|
    requires rest[i - 1] == Summarize(g + 1 + (i - 1), PopulationAt(cfg, Evolve(cfg, pop, draws[g]), g + 1, draws, i - 1))
    ensures rest[i - 1] == Summarize(g + i, PopulationAt(cfg, pop, g, draws, i))
  {
    PopulationAtStep(cfg, pop, g, draws, i);
  }

  /** With at least one elite, evolving never lowers the best fitness of the population. */
  lemma EvolveKeepsBest(cfg: Config, pop: seq<Chromosome>, draws: seq<ChildDraws>)
    requires |pop| == cfg.populationSize >= 1 && Shaped(pop)
    requires ValidGenerationDraws(cfg, draws)
    requires EliteCount(cfg) >= 1
    ensures BestInGeneration(pop).fitness <= BestInGeneration(Evolve(cfg, pop, draws)).fitness
  {
    var next := Evolve(cfg, pop, draws);
    var k :| 0 <= k < |pop| && pop[k] == BestInGeneration(pop);
    assert pop[k].fitness <= next[0].fitness;
    assert next[0].fitness <= BestInGeneration(next).fitness;
  }

  /** The best fitness never decreases from one record to the next. */
  ghost predicate BestNeverDecreases(trace: seq<Record>)
  {
    forall i :: 0 <= i < |trace| - 1 ==> trace[i].bestFitness <= trace[i + 1].bestFitness
  }

  /** A run with an iteration left starts its trace with the record of its
      first generation. */
  lemma RunHead(cfg: Config, pop: seq<Chromosome>, g: nat, draws: seq<seq<ChildDraws>>)
    requires Runnable(cfg, pop, g, draws) && g < cfg.maxGeneration
    ensures |Run(cfg, pop, g, draws).trace| >= 1
    ensures Run(cfg, pop, g, draws).trace[0] == Summarize(g, pop)
  {
    if !StopsAfter(cfg, Summarize(g, pop)) {
      RunUnfold(cfg, pop, g, draws);
    }
  }

  lemma PrependKeepsBestNeverDecreasing(rec: Record, rest: seq<Record>)
    requires BestNeverDecreases(rest)
    requires |rest| >= 1 ==> rec.bestFitness <= rest[0].bestFitness
    ensures BestNeverDecreases([rec] + rest)
  {
    var trace := [rec] + rest;
    forall i | 1 <= i < |trace| ensures trace[i] == rest[i - 1] {
    }
  }

  /** With at least one elite per generation the best fitness recorded never
      decreases from one record to the next. */
  lemma {:induction false} BestFitnessNeverDecreases(cfg: Config, pop: seq<Chromosome>, g: nat, draws: seq<seq<ChildDraws>>)
    requires Runnable(cfg, pop, g, draws)
    ensures EliteCount(cfg) >= 1 ==> BestNeverDecreases(Run(cfg, pop, g, draws).trace)
    decreases cfg.maxGeneration - g, 1
  {
    if EliteCount(cfg) >= 1 && g < cfg.maxGeneration && !StopsAfter(cfg, Summarize(g, pop)) {
      BestFitnessNeverDecreasesRec(cfg, pop, g, draws);
    }
  }

  /** The inductive step of BestFitnessNeverDecreases: an iteration that does not stop. */
  lemma {:induction false} BestFitnessNeverDecreasesRec(cfg: Config, pop: seq<Chromosome>, g: nat, draws: seq<seq<ChildDraws>>)
    requires Runnable(cfg, pop, g, draws) && EliteCount(cfg) >= 1
    requires g < cfg.maxGeneration && !StopsAfter(cfg, Summarize(g, pop))
    ensures BestNeverDecreases(Run(cfg, pop, g, draws).trace)
    decreases cfg.maxGeneration - g, 0
  {
    var next := Evolve(cfg, pop, draws[g]);
    EvolveKeepsRunnable(cfg, pop, g, draws);
    BestFitnessNeverDecreases(cfg, next, g + 1, draws);
    RunUnfold(cfg, pop, g, draws);
    if g + 1 < cfg.maxGeneration {
      RunHead(cfg, next, g + 1, draws);
      EvolveKeepsBest(cfg, pop, draws[g]);
    }
    PrependKeepsBestNeverDecreasing(Summarize(g, pop), Run(cfg, next, g + 1, draws).trace);
  }

  /** When the run starts from consistent chromosomes, a record reporting
      fitness 1 carries genes that solve the puzzle, and a record carrying a
      solution reports fitness 1. */
  lemma PerfectRecordIsSolution(cfg: Config, pop: seq<Chromosome>, g: nat, draws: seq<seq<ChildDraws>>)
    requires Runnable(cfg, pop, g, draws)
    ensures var trace := Run(cfg, pop, g, draws).trace;
            AllConsistent(pop) ==>
              forall i :: 0 <= i < |trace| ==> (trace[i].bestFitness == 1.0 <==> NonAttacking(trace[i].genes))
  {
    if AllConsistent(pop) {
      var trace := Run(cfg, pop, g, draws).trace;
      TraceDescribesGenerations(cfg, pop, g, draws);
      forall i | 0 <= i < |trace| ensures trace[i].bestFitness == 1.0 <==> NonAttacking(trace[i].genes) {
        var p := PopulationAt(cfg, pop, g, draws, i);
        assert trace[i] == Summarize(g + i, p);
        SummaryDescribesGeneration(g + i, p);
        FitnessIsOneIffNonAttacking(trace[i].genes);
      }
    }
  }

  /** The engine's state: configuration, current population and the trace of the last run. */
  datatype GeneticAlgo = GeneticAlgo(config: Config, population: seq<Chromosome>, generationData: seq<Record>)

  /** A new engine: a random initial population and an empty trace. */
  function NewGeneticAlgo(cfg: Config, rows: seq<seq<int>>): (ga: GeneticAlgo)
    requires |rows| == cfg.populationSize
    requires forall i :: 0 <= i < |rows| ==> |rows[i]| == BoardSize && ValidGenes(rows[i])
    ensures ga.config == cfg && ga.generationData == []
    ensures |ga.population| == cfg.populationSize
    ensures AllConsistent(ga.population) && AllValidGenes(ga.population)
  {
    GeneticAlgo(cfg, InitialPopulation(cfg.populationSize, rows), [])
  }

  /** What a run from generation 0 promises of its trace: it holds at most
      maxGeneration records, numbered 0, 1, ...; no record but the last meets
      a stopping threshold, and a trace shorter than maxGeneration ends with
      one that does; record i summarises the population of generation i; with
      at least one elite per generation the best fitness recorded never
      decreases; and for a consistent starting population a record reports
      fitness 1 exactly when its genes solve the puzzle. */
  ghost predicate RunPromises(cfg: Config, pop: seq<Chromosome>, draws: seq<seq<ChildDraws>>, trace: seq<Record>)
    requires Runnable(cfg, pop, 0, draws)
  {
    && ShapedTrace(cfg, trace, 0, cfg.maxGeneration)
    && DescribesGenerations(cfg, pop, 0, draws, trace)
    && (EliteCount(cfg) >= 1 ==> BestNeverDecreases(trace))
    && (AllConsistent(pop) ==>
          forall i :: 0 <= i < |trace| ==> (trace[i].bestFitness == 1.0 <==> NonAttacking(trace[i].genes)))
  }

  /** The trace of a run from generation 0 keeps every promise of RunPromises. */
  lemma RunKeepsPromises(cfg: Config, pop: seq<Chromosome>, draws: seq<seq<ChildDraws>>)
    requires Runnable(cfg, pop, 0, draws)
    ensures RunPromises(cfg, pop, draws, Run(cfg, pop, 0, draws).trace)
  {
    RunTraceShape(cfg, pop, 0, draws);
    TraceDescribesGenerations(cfg, pop, 0, draws);
    BestFitnessNeverDecreases(cfg, pop, 0, draws);
    PerfectRecordIsSolution(cfg, pop, 0, draws);
  }

  /** A run from generation 0: the configuration is kept, the trace keeps
      every promise of RunPromises, and the final population keeps its size
      and shape. */
  function Start(ga: GeneticAlgo, draws: seq<seq<ChildDraws>>): (done: GeneticAlgo)
    requires Runnable(ga.config, ga.population, 0, draws)
    ensures done.config == ga.config
    ensures RunPromises(ga.config, ga.population, draws, done.generationData)
    ensures |done.population| == ga.config.populationSize && Shaped(done.population)
  {
    RunKeepsPromises(ga.config, ga.population, draws);
    var r := Run(ga.config, ga.population, 0, draws);
    GeneticAlgo(ga.config, r.population, r.trace)
  }

  /** The trace handed to the presentation layer. */
  function DataForUI(ga: GeneticAlgo): seq<Record>
  {
    ga.generationData
  }
}
