/** The population scans of the engine: the fittest member (first one on ties),
    tournament selection built on that scan, and the average fitness. */
module Selection {
  import Fitness
  import opened Chromosomes

  /** Index k holds a member of maximal fitness, and every earlier member is
      strictly less fit: the member a left-to-right scan that replaces its
      current best only on a strictly greater fitness ends with. */
  ghost predicate IsFirstFittest(s: seq<Chromosome>, k: int)
  {
    && 0 <= k < |s|
    && (forall j :: 0 <= j < |s| ==> s[j].fitness <= s[k].fitness)
    && (forall j :: 0 <= j < k ==> s[j].fitness < s[k].fitness)
  }

  /** The scan loop from position i on, with `best` the index kept so far. */
  function ScanFittest(s: seq<Chromosome>, i: nat, best: nat): (k: nat)
    requires best < i <= |s|
    requires IsFirstFittest(s[..i], best)
    ensures IsFirstFittest(s, k)
    decreases |s| - i
  {
    if i == |s| then
      assert s[..i] == s;
      best
    else if s[i].fitness > s[best].fitness then
      ScanFittest(s, i + 1, i)
    else
      ScanFittest(s, i + 1, best)
  }

  /** The index the scan ends with when it starts with the first member as its best. */
  function FittestIndex(s: seq<Chromosome>): (k: nat)
    requires |s| >= 1
    ensures IsFirstFittest(s, k)
  {
    ScanFittest(s, 1, 0)
  }

  /** At most one index is the first fittest, so the scan's answer is determined. */
  lemma FirstFittestIsUnique(s: seq<Chromosome>, k: int, k': int)
    requires IsFirstFittest(s, k) && IsFirstFittest(s, k')
    ensures k == k'
  {
    assert s[k].fitness == s[k'].fitness;
  }

  /** The best chromosome of a generation. */
  function BestInGeneration(pop: seq<Chromosome>): (best: Chromosome)
    requires |pop| >= 1
    ensures best in pop
    ensures forall j :: 0 <= j < |pop| ==> pop[j].fitness <= best.fitness
    ensures exists k :: 0 <= k < |pop| && pop[k] == best && forall j :: 0 <= j < k ==> pop[j].fitness < best.fitness
  {
    pop[FittestIndex(pop)]
  }

  /** The tournament: the members of `pop` at the drawn indices, in draw order. */
  function Candidates(pop: seq<Chromosome>, picks: seq<int>): (cands: seq<Chromosome>)
    requires forall k :: 0 <= k < |picks| ==> 0 <= picks[k] < |pop|
    ensures |cands| == |picks|
    ensures forall k :: 0 <= k < |picks| ==> cands[k] == pop[picks[k]]
  {
    seq(|picks|, k requires 0 <= k < |picks| => pop[picks[k]])
  }

  /** Tournament selection over the drawn indices (drawn with replacement).
      The winner is a drawn member, at least as fit as every drawn member, and
      strictly fitter than every member drawn before it. */
  function TournamentSelection(pop: seq<Chromosome>, picks: seq<int>): (winner: Chromosome)
    requires |picks| >= 1
    requires forall k :: 0 <= k < |picks| ==> 0 <= picks[k] < |pop|
    ensures winner in pop
    ensures forall k :: 0 <= k < |picks| ==> pop[picks[k]].fitness <= winner.fitness
    ensures exists k :: 0 <= k < |picks| && pop[picks[k]] == winner &&
                        forall j :: 0 <= j < k ==> pop[picks[j]].fitness < winner.fitness
  {
    var cands := Candidates(pop, picks);
    var k := FittestIndex(cands);
    assert cands[k] == pop[picks[k]];
    cands[k]
  }

  /** When every draw names the same member, that member wins. */
  lemma TournamentOfOneMember(pop: seq<Chromosome>, picks: seq<int>, m: int)
    requires 0 <= m < |pop| && |picks| >= 1
    requires forall k :: 0 <= k < |picks| ==> picks[k] == m
    ensures TournamentSelection(pop, picks) == pop[m]
  {
  }

  /** Sum of the fitness values, accumulated left to right. */
  function SumFitness(s: seq<Chromosome>): real
  {
    if |s| == 0 then 0.0 else SumFitness(s[..|s| - 1]) + s[|s| - 1].fitness
  }

  /** The exact arithmetic mean of the population's fitness values. */
  function AverageFitness(pop: seq<Chromosome>): real
    requires |pop| >= 1
  {
    SumFitness(pop) / |pop| as real
  }

  lemma {:induction false} SumFitnessBounds(s: seq<Chromosome>, lo: real, hi: real)
    requires forall j :: 0 <= j < |s| ==> lo <= s[j].fitness <= hi
    ensures |s| as real * lo <= SumFitness(s) <= |s| as real * hi
  {
    if |s| > 0 {
      var n := |s| - 1;
      SumFitnessBounds(s[..n], lo, hi);
      assert |s| as real * lo == n as real * lo + lo;
      assert |s| as real * hi == n as real * hi + hi;
    }
  }

  /** The average lies between any lower and upper bound of the members' fitness. */
  lemma AverageFitnessBounds(pop: seq<Chromosome>, lo: real, hi: real)
    requires |pop| >= 1
    requires forall j :: 0 <= j < |pop| ==> lo <= pop[j].fitness <= hi
    ensures lo <= AverageFitness(pop) <= hi
  {
    SumFitnessBounds(pop, lo, hi);
    var n := |pop| as real;
    assert SumFitness(pop) / n >= (n * lo) / n;
    assert SumFitness(pop) / n <= (n * hi) / n;
  }

  /** The average never exceeds the best fitness of the generation. */
  lemma AverageAtMostBest(pop: seq<Chromosome>)
    requires |pop| >= 1
    ensures AverageFitness(pop) <= BestInGeneration(pop).fitness
  {
    AverageFitnessBounds(pop, MinFitness(pop), BestInGeneration(pop).fitness);
  }

  /** The least fitness in a non-empty sequence. */
  function MinFitness(s: seq<Chromosome>): (lo: real)
    requires |s| >= 1
    ensures forall j :: 0 <= j < |s| ==> lo <= s[j].fitness
    ensures exists j :: 0 <= j < |s| && s[j].fitness == lo
  {
    if |s| == 1 then s[0].fitness
    else
      var rest := MinFitness(s[1..]);
      assert forall j :: 1 <= j < |s| ==> s[j] == s[1..][j - 1];
      if s[0].fitness <= rest then s[0].fitness else rest
  }

  /** When every member carries the fitness of its genes, the average lies in [0, 1]. */
  lemma AverageOfConsistentInUnitInterval(pop: seq<Chromosome>)
    requires |pop| >= 1
    requires forall j :: 0 <= j < |pop| ==> Consistent(pop[j])
    ensures 0.0 <= AverageFitness(pop) <= 1.0
  {
    forall j | 0 <= j < |pop| ensures 0.0 <= pop[j].fitness <= 1.0 {
      Fitness.FitnessBounds(pop[j].genes);
    }
    AverageFitnessBounds(pop, 0.0, 1.0);
  }
}
