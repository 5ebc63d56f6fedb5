/** Elitism: the population sorted by descending fitness and the prefix of it
    that survives into the next generation unchanged.

    The sort is a stable insertion sort, as the engine's comparator
    `b.fitness - a.fitness` with a stable Array.prototype.sort gives; the
    contracts only promise sortedness and permutation, so they hold for any
    tie order.
 */
module Elitism {
  import opened Chromosomes

  /** Fitness never increases from one position to a later one. */
  ghost predicate SortedByFitness(s: seq<Chromosome>)
  {
    forall i, j :: 0 <= i < j < |s| ==> s[i].fitness >= s[j].fitness
  }

  /** Places c after every member at least as fit as c. */
  function InsertByFitness(c: Chromosome, s: seq<Chromosome>): (r: seq<Chromosome>)
    requires SortedByFitness(s)
    ensures SortedByFitness(r)
    ensures multiset(r) == multiset(s) + multiset{c}
    ensures |r| == |s| + 1
  {
    if |s| == 0 then [c]
    else if s[0].fitness >= c.fitness then
      var rest := InsertByFitness(c, s[1..]);
      assert s == [s[0]] + s[1..];
      HeadBoundsInsertion(s, c, rest);
      PrependKeepsSorted(s[0], rest);
      [s[0]] + rest
    else
      [c] + s
  }

  /** The head of a sorted sequence is at least as fit as every member of the
      rest of it with a less fit chromosome inserted. */
  lemma HeadBoundsInsertion(s: seq<Chromosome>, c: Chromosome, rest: seq<Chromosome>)
    requires |s| >= 1 && SortedByFitness(s) && s[0].fitness >= c.fitness
    requires multiset(rest) == multiset(s[1..]) + multiset{c}
    ensures forall x :: x in rest ==> s[0].fitness >= x.fitness
  {
    forall x | x in rest ensures s[0].fitness >= x.fitness {
      assert x in multiset(rest);
      if x != c {
        assert x in multiset(s[1..]);
        var k :| 0 <= k < |s[1..]| && s[1..][k] == x;
        assert s[k + 1] == x;
      }
    }
  }

  lemma PrependKeepsSorted(h: Chromosome, t: seq<Chromosome>)
    requires SortedByFitness(t)
    requires forall x :: x in t ==> h.fitness >= x.fitness
    ensures SortedByFitness([h] + t)
  {
    var r := [h] + t;
    forall i, j | 0 <= i < j < |r| ensures r[i].fitness >= r[j].fitness {
      assert r[j] == t[j - 1];
      if i > 0 {
        assert r[i] == t[i - 1];
      }
    }
  }

  /** The population sorted by descending fitness. */
  function SortByFitness(s: seq<Chromosome>): (r: seq<Chromosome>)
    ensures SortedByFitness(r)
    ensures multiset(r) == multiset(s)
    ensures |r| == |s|
  {
    if |s| == 0 then []
    else
      var n := |s| - 1;
      assert s == s[..n] + [s[n]];
      InsertByFitness(s[n], SortByFitness(s[..n]))
  }

  /** The end index `Array.prototype.slice(0, end)` stops at on a sequence of
      length len: a negative end counts back from the end of the sequence, and
      an end past the length is capped. */
  function SliceEnd(end: int, len: nat): (e: nat)
    ensures e <= len
  {
    if end < 0 then (if len + end < 0 then 0 else len + end)
    else if end < len then end
    else len
  }

  /** `elites` and some `rest` together are a permutation of `pop`, and every
      elite is at least as fit as every member of the rest. */
  ghost predicate IsTopByFitness(elites: seq<Chromosome>, pop: seq<Chromosome>)
  {
    exists rest: seq<Chromosome> :: IsSplitByFitness(elites, rest, pop)
  }

  ghost predicate IsSplitByFitness(elites: seq<Chromosome>, rest: seq<Chromosome>, pop: seq<Chromosome>)
  {
    && multiset(elites) + multiset(rest) == multiset(pop)
    && forall i, j :: 0 <= i < |elites| && 0 <= j < |rest| ==> elites[i].fitness >= rest[j].fitness
  }

  /** The first `count` members of the sorted population, with JavaScript's
      slice rules for a count that is negative or larger than the population. */
  function Elites(pop: seq<Chromosome>, count: int): (elites: seq<Chromosome>)
    ensures |elites| == SliceEnd(count, |pop|)
    ensures IsTopByFitness(elites, pop)
  {
    var sorted := SortByFitness(pop);
    var e := SliceEnd(count, |pop|);
    SortedPrefixIsTop(sorted, pop, e);
    sorted[..e]
  }

  lemma SortedPrefixIsTop(sorted: seq<Chromosome>, pop: seq<Chromosome>, e: nat)
    requires SortedByFitness(sorted) && multiset(sorted) == multiset(pop)
    requires e <= |sorted|
    ensures IsTopByFitness(sorted[..e], pop)
  {
    var front, back := sorted[..e], sorted[e..];
    assert sorted == front + back;
    forall i, j | 0 <= i < |front| && 0 <= j < |back| ensures front[i].fitness >= back[j].fitness {
      assert front[i] == sorted[i] && back[j] == sorted[e + j];
    }
    assert IsSplitByFitness(front, back, pop);
  }

  /** With at least one elite, the first elite is a fittest member of the population. */
  lemma FirstEliteIsFittest(pop: seq<Chromosome>, count: int)
    ensures SliceEnd(count, |pop|) >= 1 ==>
              forall j :: 0 <= j < |pop| ==> pop[j].fitness <= Elites(pop, count)[0].fitness
  {
    var sorted := SortByFitness(pop);
    forall j | 0 <= j < |pop| ensures pop[j].fitness <= sorted[0].fitness {
      assert pop[j] in multiset(sorted);
      var i :| 0 <= i < |sorted| && sorted[i] == pop[j];
    }
  }

  /** Every elite is a member of the population. */
  lemma ElitesArePopulationMembers(pop: seq<Chromosome>, count: int)
    ensures forall x :: x in Elites(pop, count) ==> x in pop
  {
    var sorted := SortByFitness(pop);
    forall x | x in Elites(pop, count) ensures x in pop {
      assert x in sorted;
      assert x in multiset(sorted);
    }
  }
}
