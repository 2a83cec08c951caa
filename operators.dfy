/** The genetic operators: tournament selection, BLX-alpha crossover and
    Gaussian mutation. Individuals are arrays, as the source's lists are
    updated in place; each operator draws its random numbers itself, like the
    source, and hands them back as ghost results so that its contract can say
    exactly what it computed from them. */
module Operators {
  import Rng
  import opened Genes

  /** `ind[:]`: a new list holding the same genes. */
  method Copy(ind: array<real>) returns (c: array<real>)
    ensures fresh(c)
    ensures c[..] == ind[..]
  {
    c := new real[ind.Length](i requires 0 <= i < ind.Length reads ind => ind[i]);
  }

  // ---------------------------------------------------------------------
  // Tournament selection
  // ---------------------------------------------------------------------

  /** Position `p` of the sample wins the tournament: no sampled index has
      greater fitness than `selected[p]`, and every sampled index before `p`
      has strictly smaller fitness (only a strictly greater fitness replaces
      the current candidate, so ties go to the first in sample order). */
  predicate WinsAt(fitnesses: seq<real>, selected: seq<nat>, p: nat) {
    && p < |selected|
    && (forall j :: 0 <= j < |selected| ==> selected[j] < |fitnesses|)
    && (forall j :: 0 <= j < |selected| ==> fitnesses[selected[j]] <= fitnesses[selected[p]])
    && (forall j :: 0 <= j < p ==> fitnesses[selected[j]] < fitnesses[selected[p]])
  }

  /** `best` is the index the tournament over `selected` keeps. */
  predicate IsTournamentWinner(fitnesses: seq<real>, selected: seq<nat>, best: nat) {
    exists p :: 0 <= p < |selected| && WinsAt(fitnesses, selected, p) && selected[p] == best
  }

  /** The scan of `tournament_selection` over the sampled indices. */
  method TournamentWinner(fitnesses: seq<real>, selected: seq<nat>) returns (best: nat)
    requires |selected| >= 1
    requires forall j :: 0 <= j < |selected| ==> selected[j] < |fitnesses|
    ensures best < |fitnesses|
    ensures IsTournamentWinner(fitnesses, selected, best)
  {
    best := selected[0];
    ghost var pos := 0;
    for i := 1 to |selected|
      invariant pos < i && selected[pos] == best
      invariant forall j :: 0 <= j < i ==> fitnesses[selected[j]] <= fitnesses[best]
      invariant forall j :: 0 <= j < pos ==> fitnesses[selected[j]] < fitnesses[best]
    {
      if fitnesses[selected[i]] > fitnesses[best] {
        best, pos := selected[i], i;
      }
    }
    assert WinsAt(fitnesses, selected, pos);
  }

  /** The tournament has exactly one winner. */
  lemma WinnerUnique(fitnesses: seq<real>, selected: seq<nat>, b1: nat, b2: nat)
    requires IsTournamentWinner(fitnesses, selected, b1)
    requires IsTournamentWinner(fitnesses, selected, b2)
    ensures b1 == b2
  {
  }

  /** The sequence without its element at position `p`. */
  function RemoveAt(s: seq<nat>, p: nat): (r: seq<nat>)
    requires p < |s|
    ensures |r| == |s| - 1
    ensures forall j :: 0 <= j < p ==> r[j] == s[j]
    ensures forall j :: p <= j < |r| ==> r[j] == s[j + 1]
  {
    s[..p] + s[p + 1..]
  }

  /** Pigeonhole: `k` distinct indices below `n` need `k <= n`, and when
      `k == n` they include every index below `n`. */
  lemma {:induction false} SampleCovers(s: seq<nat>, n: nat)
    requires Rng.IsSample(s, n, |s|)
    ensures |s| <= n
    ensures |s| == n ==> forall i :: 0 <= i < n ==> i in s
  {
    if n == 0 {
      if s != [] {
        assert false;
      }
    } else if n - 1 in s {
      var p :| 0 <= p < |s| && s[p] == n - 1;
      var t := RemoveAt(s, p);
      forall j | 0 <= j < |t|
        ensures t[j] < n - 1
      {
        if j < p {
          assert t[j] == s[j] && j != p;
        } else {
          assert t[j] == s[j + 1] && j + 1 != p;
        }
      }
      forall a, b | 0 <= a < b < |t|
        ensures t[a] != t[b]
      {
        var a', b' := if a < p then a else a + 1, if b < p then b else b + 1;
        assert t[a] == s[a'] && t[b] == s[b'] && a' < b';
      }
      SampleCovers(t, n - 1);
      if |s| == n {
        forall i | 0 <= i < n
          ensures i in s
        {
          if i < n - 1 {
            assert i in t;
            var j :| 0 <= j < |t| && t[j] == i;
            if j < p {
              assert s[j] == i;
            } else {
              assert s[j + 1] == i;
            }
          }
        }
      }
    } else {
      forall j | 0 <= j < |s|
        ensures s[j] < n - 1
      {
        assert s[j] != n - 1;
      }
      SampleCovers(s, n - 1);
    }
  }

  /** With `k == len(pop)` the tournament sees every individual, so it picks
      one of greatest fitness in the whole population. */
  lemma FullTournamentPicksBest(fitnesses: seq<real>, selected: seq<nat>, best: nat)
    requires Rng.IsSample(selected, |fitnesses|, |fitnesses|)
    requires IsTournamentWinner(fitnesses, selected, best)
    ensures forall i :: 0 <= i < |fitnesses| ==> fitnesses[i] <= fitnesses[best]
  {
    SampleCovers(selected, |fitnesses|);
    var p :| 0 <= p < |selected| && WinsAt(fitnesses, selected, p) && selected[p] == best;
    forall i | 0 <= i < |fitnesses|
      ensures fitnesses[i] <= fitnesses[best]
    {
      assert i in selected;
      var j :| 0 <= j < |selected| && selected[j] == i;
    }
  }

  /** `tournament_selection(pop, fitnesses, k)`: samples `k` distinct indices
      and returns a copy of the winner. Python raises `ValueError` when
      `k > len(pop)` and `IndexError` when `k == 0`. */
  method TournamentSelection(pop: seq<array<real>>, fitnesses: seq<real>, k: nat)
    returns (winner: array<real>, ghost selected: seq<nat>, ghost best: nat)
    requires 1 <= k <= |pop|
    requires |pop| <= |fitnesses|
    ensures Rng.IsSample(selected, |pop|, k)
    ensures best < |pop| && IsTournamentWinner(fitnesses, selected, best)
    ensures fresh(winner) && winner[..] == pop[best][..]
  {
    var sample := Rng.Sample(|pop|, k);
    selected := sample;
    var b := TournamentWinner(fitnesses, sample);
    best := b;
    winner := Copy(pop[b]);
  }

  // ---------------------------------------------------------------------
  // BLX-alpha crossover
  // ---------------------------------------------------------------------

  function Min(a: real, b: real): real {
    if a <= b then a else b
  }

  function Max(a: real, b: real): real {
    if a <= b then b else a
  }

  /** The interval one child gene is drawn from: the parents' interval
      `[cmin, cmax]` widened by `alpha * (cmax - cmin)` on each side. For
      `alpha == 0` it is exactly the parents' interval; for `alpha >= 0` it
      contains it. */
  function BlxInterval(a: real, b: real, alpha: real): (r: (real, real))
    ensures alpha == 0.0 ==> r == (Min(a, b), Max(a, b))
    ensures alpha >= 0.0 ==> r.0 <= Min(a, b) <= Max(a, b) <= r.1
  {
    var cmin, cmax := Min(a, b), Max(a, b);
    var width := cmax - cmin;
    assert alpha >= 0.0 ==> alpha * width >= 0.0 by {
      if alpha >= 0.0 {
        NonNegativeProduct(alpha, width);
      }
    }
    (cmin - alpha * width, cmax + alpha * width)
  }

  lemma NonNegativeProduct(x: real, y: real)
    requires x >= 0.0 && y >= 0.0
    ensures x * y >= 0.0
  {
  }

  /** A drawn child gene lies in the BLX-alpha interval of the parents' genes. */
  predicate InBlxInterval(x: real, a: real, b: real, alpha: real) {
    Rng.Between(x, BlxInterval(a, b, alpha).0, BlxInterval(a, b, alpha).1)
  }

  /** `blx_alpha_crossover(parent1, parent2, alpha, bounds)`. Both children
      start as copies of their parents; gene `i < len(parent1)` of each is
      replaced by its own `uniform(lo, hi)` draw; then both are clamped. The
      parents are only read. Python raises `IndexError` when `parent2` or
      `bounds` is longer than `parent1` would allow. */
  method BlxAlphaCrossover(parent1: array<real>, parent2: array<real>, alpha: real, bounds: Bounds)
    returns (child1: array<real>, child2: array<real>, ghost draws1: seq<real>, ghost draws2: seq<real>)
    requires parent1.Length <= parent2.Length
    requires |bounds| <= parent1.Length
    ensures fresh(child1) && fresh(child2) && child1 != child2
    ensures |draws1| == |draws2| == parent1.Length
    ensures forall i :: 0 <= i < parent1.Length ==>
      InBlxInterval(draws1[i], parent1[i], parent2[i], alpha) && InBlxInterval(draws2[i], parent1[i], parent2[i], alpha)
    ensures child1[..] == Clamp(draws1, bounds)
    ensures child2[..] == Clamp(draws2 + parent2[parent1.Length..], bounds)
  {
    child1 := Copy(parent1);
    child2 := Copy(parent2);
    draws1, draws2 := [], [];
    for i := 0 to parent1.Length
      invariant |draws1| == |draws2| == i
      invariant forall j :: 0 <= j < i ==>
        InBlxInterval(draws1[j], parent1[j], parent2[j], alpha) && InBlxInterval(draws2[j], parent1[j], parent2[j], alpha)
      invariant forall j :: 0 <= j < i ==> child1[j] == draws1[j] && child2[j] == draws2[j]
      invariant forall j :: i <= j < child1.Length ==> child1[j] == parent1[j]
      invariant forall j :: i <= j < child2.Length ==> child2[j] == parent2[j]
    {
      var interval := BlxInterval(parent1[i], parent2[i], alpha);
      var val1 := Rng.Uniform(interval.0, interval.1);
      var val2 := Rng.Uniform(interval.0, interval.1);
      child1[i] := val1;
      child2[i] := val2;
      draws1, draws2 := draws1 + [val1], draws2 + [val2];
    }
    assert child1[..] == draws1;
    assert child2[..] == draws2 + parent2[parent1.Length..];
    ClampIndividual(child1, bounds);
    ClampIndividual(child2, bounds);
  }

  // ---------------------------------------------------------------------
  // Gaussian mutation
  // ---------------------------------------------------------------------

  /** The genes after `ind[i] += noise[i]` for every `i`. */
  function Shift(genes: seq<real>, noise: seq<real>): seq<real>
    requires |noise| == |genes|
  {
    seq(|genes|, i requires 0 <= i < |genes| => genes[i] + noise[i])
  }

  /** `mutate(ind, mutation_rate, sigma, bounds)`, in place. One `random()`
      gate per individual: below `mutation_rate` every gene gets its own
      `gauss(0, sigma)` draw and the individual is clamped; otherwise it is
      left exactly as it was. Clamping (and Python's `IndexError` on bounds
      longer than the individual) can only happen when the gate can pass,
      that is when `mutation_rate > 0`. */
  method Mutate(ind: array<real>, mutationRate: real, sigma: real, bounds: Bounds)
    returns (ghost gate: real, ghost noise: seq<real>)
    requires 0.0 < mutationRate ==> |bounds| <= ind.Length
    modifies ind
    ensures 0.0 <= gate < 1.0
    ensures gate < mutationRate ==> |noise| == ind.Length && ind[..] == Clamp(Shift(old(ind[..]), noise), bounds)
    ensures mutationRate <= gate ==> ind[..] == old(ind[..])
  {
    var r := Rng.Random();
    gate := r;
    noise := [];
    if r < mutationRate {
      for i := 0 to ind.Length
        invariant |noise| == i
        invariant forall j :: 0 <= j < i ==> ind[j] == old(ind[j]) + noise[j]
        invariant forall j :: i <= j < ind.Length ==> ind[j] == old(ind[j])
      {
        var g := Rng.Gauss(0.0, sigma);
        ind[i] := ind[i] + g;
        noise := noise + [g];
      }
      assert ind[..] == Shift(old(ind[..]), noise);
      ClampIndividual(ind, bounds);
    }
  }

  /** An individual inside the box stays inside after mutation, whichever
      way the gate goes. */
  lemma MutationKeepsBounds(before: seq<real>, after: seq<real>, bounds: Bounds, mutated: bool, noise: seq<real>)
    requires Ordered(bounds)
    requires WithinBounds(before, bounds)
    requires mutated ==> |noise| == |before| && after == Clamp(Shift(before, noise), bounds)
    requires !mutated ==> after == before
    ensures |after| == |before|
    ensures WithinBounds(after, bounds)
  {
  }
}
