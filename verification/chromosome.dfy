/** One candidate placement of the eight queens and the operators that derive
    new candidates from it.

    Random draws are explicit inputs: a value `u` in [0, 1) stands for one call
    of Math.random(), and an integer in [0, 7] for one call of getRandomInt(0, 7).
    Chromosomes are values, so "neither parent changes" holds by construction:
    every operator returns a new chromosome.
 */
module Chromosomes {
  import opened Fitness

  /** A genome together with the fitness stored beside it. */
  datatype Chromosome = Chromosome(genes: seq<int>, fitness: real)

  /** Every gene is a row of the board. */
  predicate ValidGenes(g: seq<int>)
  {
    forall i :: 0 <= i < |g| ==> 0 <= g[i] < BoardSize
  }

  /** The genome has one gene per column and the stored fitness is the one its genes determine. */
  predicate Consistent(c: Chromosome)
  {
    |c.genes| == BoardSize && c.fitness == GenomeFitness(c.genes)
  }

  /** A chromosome whose fitness is computed right after its genes are set. */
  function WithGenes(g: seq<int>): (c: Chromosome)
    requires |g| == BoardSize
    ensures Consistent(c) && c.genes == g
    ensures 0.0 <= c.fitness <= 1.0
    ensures c.fitness == 1.0 <==> NonAttacking(g)
  {
    FitnessBounds(g);
    FitnessIsOneIffNonAttacking(g);
    Chromosome(g, GenomeFitness(g))
  }

  /** The constructor: eight independent row draws, one per column, and the fitness they give. */
  function NewChromosome(rows: seq<int>): (c: Chromosome)
    requires |rows| == BoardSize && ValidGenes(rows)
    ensures Consistent(c) && ValidGenes(c.genes)
    ensures forall col :: 0 <= col < BoardSize ==> c.genes[col] == rows[col]
    ensures 0.0 <= c.fitness <= 1.0
  {
    WithGenes(rows)
  }

  /** Single-point crossover of `self` with `parent`. When the rate loses
      against the draw `u` the child is a copy of `self`; otherwise the child
      takes the columns before `cut` from `self` and the rest from `parent`. */
  function Crossover(self: Chromosome, parent: Chromosome, rate: real, u: real, cut: int): (child: Chromosome)
    requires |self.genes| == BoardSize && |parent.genes| == BoardSize
    requires 0.0 <= u < 1.0
    requires 0 <= cut < BoardSize
    ensures Consistent(child)
    ensures rate < u ==> child.genes == self.genes
    ensures rate < u && Consistent(self) ==> child == self
    ensures !(rate < u) ==>
              && (forall col :: 0 <= col < cut ==> child.genes[col] == self.genes[col])
              && (forall col :: cut <= col < BoardSize ==> child.genes[col] == parent.genes[col])
    ensures ValidGenes(self.genes) && ValidGenes(parent.genes) ==> ValidGenes(child.genes)
  {
    if rate < u then WithGenes(self.genes)
    else WithGenes(self.genes[..cut] + parent.genes[cut..])
  }

  /** Point mutation: when the rate beats the draw `u`, gene `index` is
      overwritten with `value` (possibly the value it already had) and the
      fitness recomputed; otherwise the chromosome is unchanged. */
  function Mutation(c: Chromosome, rate: real, u: real, index: int, value: int): (m: Chromosome)
    requires |c.genes| == BoardSize
    requires 0.0 <= u < 1.0
    requires 0 <= index < BoardSize && 0 <= value < BoardSize
    ensures !(rate > u) ==> m == c
    ensures rate > u ==>
              && Consistent(m)
              && m.genes[index] == value
              && (forall col :: 0 <= col < BoardSize && col != index ==> m.genes[col] == c.genes[col])
    ensures Consistent(c) ==> Consistent(m)
    ensures ValidGenes(c.genes) ==> ValidGenes(m.genes)
  {
    if rate > u then WithGenes(c.genes[index := value]) else c
  }

  /** With a rate of 1 or more the draw never wins, so the child is always
      the splice of the two parents at the cut. */
  lemma CrossoverAtFullRateSplices(self: Chromosome, parent: Chromosome, rate: real, u: real, cut: int)
    requires |self.genes| == BoardSize && |parent.genes| == BoardSize
    requires 0.0 <= u < 1.0 && 0 <= cut < BoardSize
    requires rate >= 1.0
    ensures Crossover(self, parent, rate, u, cut).genes == self.genes[..cut] + parent.genes[cut..]
  {
  }

  /** A rate of 0 does not quite switch crossover off: the comparison is
      `rate < u`, so a draw of exactly 0 still splices. */
  lemma CrossoverAtZeroRateSplicesOnZeroDraw(self: Chromosome, parent: Chromosome)
    requires |self.genes| == BoardSize && |parent.genes| == BoardSize
    ensures Crossover(self, parent, 0.0, 0.0, 0).genes == parent.genes
  {
  }

  /** With a rate of 0 or less the draw always wins, so mutation changes nothing. */
  lemma MutationAtZeroRateIsIdentity(c: Chromosome, rate: real, u: real, index: int, value: int)
    requires |c.genes| == BoardSize
    requires 0.0 <= u < 1.0
    requires 0 <= index < BoardSize && 0 <= value < BoardSize
    requires rate <= 0.0
    ensures Mutation(c, rate, u, index, value) == c
  {
  }
}
