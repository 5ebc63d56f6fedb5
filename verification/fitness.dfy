/** Conflicts and fitness of an 8-queens genome.

    Gene i is the row of the queen standing in column i. Two queens conflict
    when they share a row, a "/" diagonal (equal row - column) or a "\"
    diagonal (equal row + column). Fitness is (28 - conflicts) / 28, where 28
    is the number of column pairs on an 8-column board. It is kept as an exact
    real: the map from the conflict count to fitness is strictly decreasing,
    so every comparison the engine makes between fitness values is a
    comparison between conflict counts.
 */
module Fitness {

  /** Number of columns of the board, and so the length of every genome. */
  const BoardSize: nat := 8

  /** The number of column pairs of the board, C(8,2): the most conflicts a genome can have. */
  const MaxConflicts: nat := 28

  /** The queens of columns i and j attack each other. */
  predicate Attacks(g: seq<int>, i: nat, j: nat)
    requires i < |g| && j < |g|
  {
    g[i] == g[j] || g[i] - i == g[j] - j || g[i] + i == g[j] + j
  }

  /** No two distinct columns attack each other: a solution of the puzzle. */
  ghost predicate NonAttacking(g: seq<int>)
  {
    forall i: nat, j: nat :: i < j < |g| ==> !Attacks(g, i, j)
  }

  /** Conflicts of column i with each of the columns j, j+1, ..., |g|-1 (the inner scan). */
  function RowConflicts(g: seq<int>, i: nat, j: nat): nat
    requires i < |g| && j <= |g|
    decreases |g| - j
  {
    if j == |g| then 0
    else (if Attacks(g, i, j) then 1 else 0) + RowConflicts(g, i, j + 1)
  }

  /** Conflicts among the column pairs whose left column is i or later (the outer scan). */
  function ConflictsFrom(g: seq<int>, i: nat): nat
    requires i <= |g|
    decreases |g| - i
  {
    if i == |g| then 0 else RowConflicts(g, i, i + 1) + ConflictsFrom(g, i + 1)
  }

  /** Number of attacking column pairs of the genome. */
  function Conflicts(g: seq<int>): nat
  {
    ConflictsFrom(g, 0)
  }

  /** Fitness of a genome with c conflicts. */
  function FitnessOfConflicts(c: int): real
  {
    (MaxConflicts as int - c) as real / MaxConflicts as real
  }

  /** The fitness a genome must carry. */
  function GenomeFitness(g: seq<int>): real
  {
    FitnessOfConflicts(Conflicts(g))
  }

  /** The fitness computation with the nested loops of the engine: every pair
      (i, j) with i < j < 8 is visited once and counted when it attacks. */
  method CalculateFitness(g: seq<int>) returns (f: real)
    requires |g| == BoardSize
    ensures f == GenomeFitness(g)
    ensures 0.0 <= f <= 1.0
    ensures f == 1.0 <==> NonAttacking(g)
  {
    var conflict: nat := 0;
    var i := 0;
    while i < BoardSize
      invariant 0 <= i <= BoardSize
      invariant conflict + ConflictsFrom(g, i) == Conflicts(g)
    {
      var j := i + 1;
      while j < BoardSize
        invariant i + 1 <= j <= BoardSize
        invariant conflict + RowConflicts(g, i, j) + ConflictsFrom(g, i + 1) == Conflicts(g)
      {
        if g[i] == g[j] || g[i] - i == g[j] - j || g[i] + i == g[j] + j {
          conflict := conflict + 1;
        }
        j := j + 1;
      }
      i := i + 1;
    }
    f := (MaxConflicts as int - conflict) as real / MaxConflicts as real;
    FitnessBounds(g);
    FitnessIsOneIffNonAttacking(g);
  }

  // ---------------------------------------------------------------------------
  // An independent reference: the set of attacking pairs.

  /** The attacking column pairs (i, j), i < j, of the genome. */
  ghost function AttackingPairs(g: seq<int>): set<(nat, nat)>
  {
    set i: nat, j: nat | i < j < |g| && Attacks(g, i, j) :: (i, j)
  }

  /** The attacking pairs (i, k) with k in [j, |g|). */
  ghost function RowPairs(g: seq<int>, i: nat, j: nat): set<(nat, nat)>
    requires i < |g| && j <= |g|
  {
    set k: nat | j <= k < |g| && Attacks(g, i, k) :: (i, k)
  }

  /** The attacking pairs (a, b) with i <= a < b. */
  ghost function PairsFrom(g: seq<int>, i: nat): set<(nat, nat)>
    requires i <= |g|
  {
    set a: nat, b: nat | i <= a < b < |g| && Attacks(g, a, b) :: (a, b)
  }

  lemma {:induction false} RowPairsCount(g: seq<int>, i: nat, j: nat)
    requires i < |g| && j <= |g|
    ensures |RowPairs(g, i, j)| == RowConflicts(g, i, j)
    decreases |g| - j
  {
    if j == |g| {
      assert RowPairs(g, i, j) == {};
    } else {
      RowPairsCount(g, i, j + 1);
      assert (i, j) !in RowPairs(g, i, j + 1);
      if Attacks(g, i, j) {
        assert RowPairs(g, i, j) == {(i, j)} + RowPairs(g, i, j + 1);
      } else {
        assert RowPairs(g, i, j) == RowPairs(g, i, j + 1);
      }
    }
  }

  lemma {:induction false} PairsFromCount(g: seq<int>, i: nat)
    requires i <= |g|
    ensures |PairsFrom(g, i)| == ConflictsFrom(g, i)
    decreases |g| - i
  {
    if i == |g| {
      assert PairsFrom(g, i) == {};
    } else {
      PairsFromCount(g, i + 1);
      RowPairsCount(g, i, i + 1);
      assert PairsFrom(g, i) == RowPairs(g, i, i + 1) + PairsFrom(g, i + 1);
      assert RowPairs(g, i, i + 1) !! PairsFrom(g, i + 1);
    }
  }

  /** The nested scan counts every attacking pair exactly once, whatever the
      order in which pairs are visited. */
  lemma ConflictsCountAttackingPairs(g: seq<int>)
    ensures Conflicts(g) == |AttackingPairs(g)|
  {
    PairsFromCount(g, 0);
    assert PairsFrom(g, 0) == AttackingPairs(g);
  }

  // ---------------------------------------------------------------------------
  // Bounds.

  /** C(n,2), the number of unordered pairs of n columns. */
  function PairCount(n: nat): nat
  {
    if n == 0 then 0 else n - 1 + PairCount(n - 1)
  }

  lemma {:induction false} RowConflictsBound(g: seq<int>, i: nat, j: nat)
    requires i < |g| && j <= |g|
    ensures RowConflicts(g, i, j) <= |g| - j
    ensures (forall k: nat :: j <= k < |g| ==> Attacks(g, i, k)) ==> RowConflicts(g, i, j) == |g| - j
    decreases |g| - j
  {
    if j < |g| {
      RowConflictsBound(g, i, j + 1);
    }
  }

  lemma {:induction false} ConflictsFromBound(g: seq<int>, i: nat)
    requires i <= |g|
    ensures ConflictsFrom(g, i) <= PairCount(|g| - i)
    ensures (forall a: nat, b: nat :: i <= a < b < |g| ==> Attacks(g, a, b)) ==> ConflictsFrom(g, i) == PairCount(|g| - i)
    decreases |g| - i
  {
    if i < |g| {
      RowConflictsBound(g, i, i + 1);
      ConflictsFromBound(g, i + 1);
    }
  }

  /** An 8-column genome has between 0 and 28 conflicts, so its fitness lies in [0, 1]. */
  lemma FitnessBounds(g: seq<int>)
    requires |g| == BoardSize
    ensures Conflicts(g) <= MaxConflicts
    ensures 0.0 <= GenomeFitness(g) <= 1.0
  {
    ConflictsFromBound(g, 0);
    assert PairCount(BoardSize) == MaxConflicts;
  }

  /** Fitness is exactly 1 when, and only when, no two queens attack each other. */
  lemma FitnessIsOneIffNonAttacking(g: seq<int>)
    ensures GenomeFitness(g) == 1.0 <==> NonAttacking(g)
  {
    ConflictsCountAttackingPairs(g);
    if NonAttacking(g) {
      assert AttackingPairs(g) == {};
    } else {
      var i: nat, j: nat :| i < j < |g| && Attacks(g, i, j);
      assert (i, j) in AttackingPairs(g);
    }
  }

  /** When all eight queens stand in one row every pair conflicts, so the
      fitness is 0: the range of fitness is [0, 1], not (0, 1]. */
  lemma FitnessIsZeroWhenAllEqual(g: seq<int>)
    requires |g| == BoardSize
    requires forall i :: 0 <= i < |g| ==> g[i] == g[0]
    ensures Conflicts(g) == MaxConflicts
    ensures GenomeFitness(g) == 0.0
  {
    forall a: nat, b: nat | 0 <= a < b < |g|
      ensures Attacks(g, a, b)
    {
      assert g[a] == g[0] == g[b];
    }
    ConflictsFromBound(g, 0);
    assert PairCount(BoardSize) == MaxConflicts;
  }

  /** A fitter genome is exactly one with fewer conflicts. */
  lemma FitterIffFewerConflicts(g: seq<int>, h: seq<int>)
    ensures GenomeFitness(g) > GenomeFitness(h) <==> Conflicts(g) < Conflicts(h)
    ensures GenomeFitness(g) == GenomeFitness(h) <==> Conflicts(g) == Conflicts(h)
  {
  }

  /** The placement [0, 4, 7, 5, 2, 6, 1, 3] solves the puzzle and has fitness 1. */
  lemma KnownSolution()
    ensures NonAttacking([0, 4, 7, 5, 2, 6, 1, 3])
    ensures GenomeFitness([0, 4, 7, 5, 2, 6, 1, 3]) == 1.0
  {
    var g := [0, 4, 7, 5, 2, 6, 1, 3];
    assert Conflicts(g) == 0;
    FitnessIsOneIffNonAttacking(g);
  }
}
