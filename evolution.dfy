/** The evolution driver `run_ga`: builds a random population, then for each
    generation ranks it, carries the elites over, refills the population from
    tournament winners by crossover and mutation, re-evaluates it and records
    the best individual. */
module Evolution {
  import Rng
  import opened Genes
  import opened Operators
  import opened Ranking

  /** The keyword arguments of `run_ga` besides the bounds and the fitness
      function. */
  datatype Config = Config(
    popSize: nat,
    gens: nat,
    tournamentK: nat,
    crossoverRate: real,
    mutationRate: real,
    mutationSigma: real,
    elitism: nat,
    blxAlpha: real)

  /** One entry of `best_over_time`: the generation number, the best fitness
      of that generation and a copy of the individual that has it. */
  datatype Record = Record(gen: nat, fitness: real, best: seq<real>)

  /** The fitness of every individual, position by position. */
  function Fitnesses(fitnessFn: seq<real> -> real, pop: seq<seq<real>>): seq<real> {
    seq(|pop|, i requires 0 <= i < |pop| => fitnessFn(pop[i]))
  }

  /** The history entry of generation `gen` whose population is `pop`. */
  function BestOf(fitnessFn: seq<real> -> real, gen: nat, pop: seq<seq<real>>): (r: Record)
    requires |pop| > 0
    ensures r.gen == gen
    ensures forall i :: 0 <= i < |pop| ==> fitnessFn(pop[i]) <= r.fitness
    ensures exists m :: (0 <= m < |pop| && r.best == pop[m] && r.fitness == fitnessFn(pop[m])
                         && forall j :: 0 <= j < m ==> fitnessFn(pop[j]) < r.fitness)
  {
    var fit := Fitnesses(fitnessFn, pop);
    assert forall j :: 0 <= j < |pop| ==> fit[j] == fitnessFn(pop[j]);
    Record(gen, MaxFitness(fit), pop[FirstArgMax(fit)])
  }

  /** An individual of `|bounds|` genes, inside the box when the bounds are
      ordered. */
  predicate Fits(genes: seq<real>, bounds: Bounds) {
    && |genes| == |bounds|
    && (Ordered(bounds) ==> WithinBounds(genes, bounds))
  }

  /** A population of `size` individuals that all fit the bounds. */
  predicate Admissible(pop: seq<seq<real>>, size: nat, bounds: Bounds) {
    && |pop| == size
    && forall i :: 0 <= i < |pop| ==> Fits(pop[i], bounds)
  }

  /** The first `elitism` members of `next` are the individuals ranked first
      in `prev`, in ranking order. */
  ghost predicate ElitesCarried(fitnessFn: seq<real> -> real, prev: seq<seq<real>>, next: seq<seq<real>>, elitism: nat) {
    var rank := RankByFitness(Fitnesses(fitnessFn, prev));
    && elitism <= |rank|
    && elitism <= |next|
    && forall a :: 0 <= a < elitism ==> next[a] == prev[rank[a]]
  }

  /** The random choices behind one child of the refill loop: the two
      tournaments (sample and winner), the crossover gate, this child's
      crossover draws, the child as it was before mutation (clamped draws or
      a copied winner), its mutation gate and noise, and whether it is the
      second child of its pair. */
  datatype Lineage = Lineage(
    sample1: seq<nat>,
    winner1: nat,
    sample2: seq<nat>,
    winner2: nat,
    crossGate: real,
    draws: seq<real>,
    crossed: seq<real>,
    mutGate: real,
    noise: seq<real>,
    second: bool)

  /** `child` is `before` after `mutate` with the gate and noise of `l`. */
  ghost predicate Mutated(cfg: Config, bounds: Bounds, l: Lineage, before: seq<real>, child: seq<real>) {
    if l.mutGate < cfg.mutationRate then
      && |l.noise| == |before|
      && |bounds| <= |before|
      && child == Clamp(Shift(before, l.noise), bounds)
    else
      child == before
  }

  /** `child` is what one pass of the refill loop makes, with the choices of
      `l`, from the population `vals` whose fitnesses are `fitnesses`: two
      tournament winners of that population, crossed over when the gate is
      below `crossover_rate` (each gene drawn from the BLX-alpha interval of
      the winners' genes, then clamped) or else copied (the first child from
      the first winner, the second from the second), then mutated. */
  ghost predicate Descends(vals: seq<seq<real>>, fitnesses: seq<real>, cfg: Config, bounds: Bounds,
                           l: Lineage, child: seq<real>) {
    && Rng.IsSample(l.sample1, |vals|, cfg.tournamentK)
    && l.winner1 < |vals|
    && IsTournamentWinner(fitnesses, l.sample1, l.winner1)
    && Rng.IsSample(l.sample2, |vals|, cfg.tournamentK)
    && l.winner2 < |vals|
    && IsTournamentWinner(fitnesses, l.sample2, l.winner2)
    && 0.0 <= l.crossGate < 1.0
    && 0.0 <= l.mutGate < 1.0
    && |vals[l.winner1]| == |bounds|
    && |vals[l.winner2]| == |bounds|
    && (if l.crossGate < cfg.crossoverRate then
          && |l.draws| == |bounds|
          && (forall i :: 0 <= i < |bounds| ==>
                InBlxInterval(l.draws[i], vals[l.winner1][i], vals[l.winner2][i], cfg.blxAlpha))
          && l.crossed == Clamp(l.draws, bounds)
        else
          l.crossed == if l.second then vals[l.winner2] else vals[l.winner1])
    && Mutated(cfg, bounds, l, l.crossed, child)
  }

  /** Some choices of the generator make `child` from `vals` in one pass of
      the refill loop. */
  ghost predicate IsOffspring(vals: seq<seq<real>>, fitnesses: seq<real>, cfg: Config, bounds: Bounds, child: seq<real>) {
    exists l :: Descends(vals, fitnesses, cfg, bounds, l, child)
  }

  /** Every member of `next` after the elites is offspring of `prev`. */
  ghost predicate Bred(fitnessFn: seq<real> -> real, cfg: Config, bounds: Bounds, prev: seq<seq<real>>, next: seq<seq<real>>) {
    forall i :: cfg.elitism <= i < |next| ==> IsOffspring(prev, Fitnesses(fitnessFn, prev), cfg, bounds, next[i])
  }

  /** Offspring of a population that fits the bounds fits them too, whatever
      the generator chose: clamped crossover draws, a copied parent, and a
      mutation that clamps all stay inside the box. */
  lemma OffspringFits(vals: seq<seq<real>>, fitnesses: seq<real>, cfg: Config, bounds: Bounds,
                      l: Lineage, child: seq<real>)
    requires forall i :: 0 <= i < |vals| ==> Fits(vals[i], bounds)
    requires Descends(vals, fitnesses, cfg, bounds, l, child)
    ensures Fits(child, bounds)
  {
    if Ordered(bounds) {
      if l.crossGate < cfg.crossoverRate {
        ClampWithinBounds(l.draws, bounds);
      } else {
        assert Fits(vals[l.winner1], bounds) && Fits(vals[l.winner2], bounds);
      }
      MutationKeepsBounds(l.crossed, child, bounds, l.mutGate < cfg.mutationRate, l.noise);
    }
  }

  /** With neither crossover nor mutation possible, the refill loop only
      selects: each child is a tournament winner of the population, the
      first child from the first tournament and the second from the second. */
  lemma OffspringOnlySelects(vals: seq<seq<real>>, fitnesses: seq<real>, cfg: Config, bounds: Bounds,
                             l: Lineage, child: seq<real>)
    requires cfg.crossoverRate <= 0.0 && cfg.mutationRate <= 0.0
    requires Descends(vals, fitnesses, cfg, bounds, l, child)
    ensures child == if l.second then vals[l.winner2] else vals[l.winner1]
    ensures IsTournamentWinner(fitnesses, if l.second then l.sample2 else l.sample1, if l.second then l.winner2 else l.winner1)
  {
  }

  /** `[fitness_fn(ind) for ind in population]`. */
  method Evaluate(fitnessFn: seq<real> -> real, pop: seq<array<real>>, ghost vals: seq<seq<real>>)
    returns (fitnesses: seq<real>)
    requires |vals| == |pop|
    requires forall i :: 0 <= i < |pop| ==> pop[i][..] == vals[i]
    ensures fitnesses == Fitnesses(fitnessFn, vals)
  {
    fitnesses := [];
    for i := 0 to |pop|
      invariant |fitnesses| == i
      invariant forall j :: 0 <= j < i ==> fitnesses[j] == fitnessFn(vals[j])
    {
      fitnesses := fitnesses + [fitnessFn(pop[i][..])];
    }
  }

  /** The population `[random_individual(bounds) for _ in range(pop_size)]`. */
  method InitialPopulation(bounds: Bounds, popSize: nat)
    returns (population: seq<array<real>>, ghost vals: seq<seq<real>>)
    ensures |population| == popSize
    ensures forall i :: 0 <= i < |population| ==> Fits(population[i][..], bounds)
    ensures Admissible(vals, popSize, bounds)
    ensures |population| == |vals|
    ensures forall i :: 0 <= i < |population| ==> population[i][..] == vals[i]
    ensures FreshAndDistinct(population)
  {
    population, vals := [], [];
    for i := 0 to popSize
      invariant Admissible(vals, i, bounds)
      invariant |population| == |vals|
      invariant forall j :: 0 <= j < i ==> population[j][..] == vals[j]
      invariant FreshAndDistinct(population)
    {
      var ind := RandomIndividual(bounds);
      if Ordered(bounds) {
        DrawnWithinBounds(ind[..], bounds);
      }
      population, vals := population + [ind], vals + [ind[..]];
    }
  }

  /** Distinct new lists: every member was allocated by the caller, and no
      two positions share a list. */
  twostate predicate FreshAndDistinct(new pop: seq<array<real>>) {
    && (forall i :: 0 <= i < |pop| ==> fresh(pop[i]))
    && (forall i, j :: 0 <= i < j < |pop| ==> pop[i] != pop[j])
  }

  /** `new_population = [ranked[i][:] for i in range(elitism)]`: copies of the
      `elitism` first-ranked individuals, in ranking order. */
  method Elites(population: seq<array<real>>, rank: seq<nat>, elitism: nat, ghost vals: seq<seq<real>>)
    returns (elites: seq<array<real>>, ghost eliteVals: seq<seq<real>>)
    requires |population| == |vals|
    requires forall i :: 0 <= i < |population| ==> population[i][..] == vals[i]
    requires elitism <= |rank|
    requires forall a :: 0 <= a < |rank| ==> rank[a] < |population|
    ensures |elites| == |eliteVals| == elitism
    ensures forall a :: 0 <= a < elitism ==> elites[a][..] == eliteVals[a] == vals[rank[a]]
    ensures FreshAndDistinct(elites)
  {
    elites, eliteVals := [], [];
    for a := 0 to elitism
      invariant |elites| == |eliteVals| == a
      invariant forall b :: 0 <= b < a ==> elites[b][..] == eliteVals[b] == vals[rank[b]]
      invariant FreshAndDistinct(elites)
    {
      var elite := Copy(population[rank[a]]);
      elites, eliteVals := elites + [elite], eliteVals + [elite[..]];
    }
  }

  /** The `while len(new_population) < pop_size` loop: pairs of children are
      appended until the population is full, the second child of the last
      pair being dropped when only one place is left. What was there before
      is kept as it is. */
  method Refill(bounds: Bounds, cfg: Config, population: seq<array<real>>, fitnesses: seq<real>,
                ghost vals: seq<seq<real>>, start: seq<array<real>>, ghost startVals: seq<seq<real>>)
    returns (newPop: seq<array<real>>, ghost newVals: seq<seq<real>>)
    requires Admissible(vals, cfg.popSize, bounds)
    requires |population| == |vals| == |fitnesses|
    requires forall i :: 0 <= i < |population| ==> population[i][..] == vals[i]
    requires |start| == |startVals| <= cfg.popSize
    requires forall i :: 0 <= i < |start| ==> start[i][..] == startVals[i] && Fits(startVals[i], bounds)
    requires |start| < cfg.popSize ==> 1 <= cfg.tournamentK <= cfg.popSize
    ensures |newPop| == |newVals| == cfg.popSize
    ensures newPop[..|start|] == start && newVals[..|start|] == startVals
    ensures forall i :: 0 <= i < |newPop| ==> newPop[i][..] == newVals[i] && Fits(newVals[i], bounds)
    ensures forall i :: |start| <= i < |newPop| ==> fresh(newPop[i])
    ensures forall i, j :: 0 <= i < j < |newPop| && |start| <= j ==> newPop[i] != newPop[j]
    ensures forall i {:trigger IsOffspring(vals, fitnesses, cfg, bounds, newVals[i])} :: |start| <= i < |newVals| ==>
      IsOffspring(vals, fitnesses, cfg, bounds, newVals[i])
  {
    var added: seq<array<real>> := [];
    ghost var addedVals: seq<seq<real>> := [];
    while |start| + |added| < cfg.popSize
      invariant |start| + |added| <= cfg.popSize
      invariant |added| == |addedVals|
      invariant forall i :: 0 <= i < |added| ==>
        fresh(added[i]) && added[i][..] == addedVals[i] && Fits(addedVals[i], bounds)
      invariant forall i {:trigger IsOffspring(vals, fitnesses, cfg, bounds, addedVals[i])} :: 0 <= i < |added| ==>
        IsOffspring(vals, fitnesses, cfg, bounds, addedVals[i])
      invariant forall i, j :: 0 <= i < j < |added| ==> added[i] != added[j]
      decreases cfg.popSize - |added|
    {
      var children;
      ghost var childVals;
      children, childVals := AddChildren(bounds, cfg, population, fitnesses, vals, |start| + |added|);
      added, addedVals := added + children, addedVals + childVals;
    }
    newPop, newVals := start + added, startVals + addedVals;
    assert newPop[..|start|] == start && newVals[..|start|] == startVals;
  }

  /** One pass of the refill loop, when `filled` places of the new
      population are taken: a pair of children is made, and both are
      appended, or only the first when a single place is left. Every
      appended member is a new list, offspring of the current population,
      and fits the bounds. */
  method AddChildren(bounds: Bounds, cfg: Config, population: seq<array<real>>, fitnesses: seq<real>,
                     ghost vals: seq<seq<real>>, filled: nat)
    returns (children: seq<array<real>>, ghost childVals: seq<seq<real>>)
    requires Admissible(vals, cfg.popSize, bounds)
    requires |population| == |vals| == |fitnesses|
    requires forall i :: 0 <= i < |population| ==> population[i][..] == vals[i]
    requires 1 <= cfg.tournamentK <= cfg.popSize
    requires filled < cfg.popSize
    ensures |children| == |childVals| == if filled + 1 < cfg.popSize then 2 else 1
    ensures forall i :: 0 <= i < |children| ==>
      fresh(children[i]) && children[i][..] == childVals[i] && Fits(childVals[i], bounds)
    ensures forall i {:trigger IsOffspring(vals, fitnesses, cfg, bounds, childVals[i])} :: 0 <= i < |children| ==>
      IsOffspring(vals, fitnesses, cfg, bounds, childVals[i])
    ensures |children| == 2 ==> children[0] != children[1]
  {
    var child1, child2;
    ghost var lineage1, lineage2;
    child1, child2, lineage1, lineage2 := Offspring(bounds, cfg, population, fitnesses, vals);
    children, childVals := [child1], [child1[..]];
    if filled + 1 < cfg.popSize {
      children, childVals := children + [child2], childVals + [child2[..]];
    }
  }

  /** The body of the `for gen` loop up to the replacement of the
      population: the elites, then the refill. Every member is a new list:
      no individual is shared with the previous population or with another
      member. */
  method NextGeneration(bounds: Bounds, cfg: Config, population: seq<array<real>>, fitnesses: seq<real>,
                        ghost fitnessFn: seq<real> -> real, ghost vals: seq<seq<real>>)
    returns (newPop: seq<array<real>>, ghost newVals: seq<seq<real>>)
    requires Admissible(vals, cfg.popSize, bounds)
    requires |population| == |vals|
    requires forall i :: 0 <= i < |population| ==> population[i][..] == vals[i]
    requires fitnesses == Fitnesses(fitnessFn, vals)
    requires cfg.elitism <= cfg.popSize
    requires cfg.elitism < cfg.popSize ==> 1 <= cfg.tournamentK <= cfg.popSize
    ensures Admissible(newVals, cfg.popSize, bounds)
    ensures |newPop| == |newVals|
    ensures forall i :: 0 <= i < |newPop| ==> newPop[i][..] == newVals[i]
    ensures ElitesCarried(fitnessFn, vals, newVals, cfg.elitism)
    ensures Bred(fitnessFn, cfg, bounds, vals, newVals)
    ensures FreshAndDistinct(newPop)
  {
    var rank := RankByFitness(fitnesses);
    var elites;
    ghost var eliteVals;
    elites, eliteVals := Elites(population, rank, cfg.elitism, vals);
    newPop, newVals := Refill(bounds, cfg, population, fitnesses, vals, elites, eliteVals);
    forall i, j | 0 <= i < j < |newPop|
      ensures newPop[i] != newPop[j]
    {
      if j < cfg.elitism {
        assert newPop[i] == elites[i] && newPop[j] == elites[j];
      }
    }
    forall i | 0 <= i < cfg.elitism
      ensures fresh(newPop[i])
    {
      assert newPop[i] == elites[i];
    }
  }

  /** Lines `if random() < crossover_rate: ... else: ...` of the refill
      loop: two BLX-alpha children of the parents, or copies of them. The
      parents are only read. */
  method CrossOrCopy(bounds: Bounds, cfg: Config, parent1: array<real>, parent2: array<real>)
    returns (child1: array<real>, child2: array<real>, ghost gate: real, ghost draws1: seq<real>, ghost draws2: seq<real>)
    requires parent1.Length == parent2.Length == |bounds|
    ensures fresh(child1) && fresh(child2) && child1 != child2
    ensures 0.0 <= gate < 1.0
    ensures gate < cfg.crossoverRate ==>
      && |draws1| == |draws2| == |bounds|
      && forall i :: 0 <= i < |bounds| ==>
           InBlxInterval(draws1[i], parent1[i], parent2[i], cfg.blxAlpha) && InBlxInterval(draws2[i], parent1[i], parent2[i], cfg.blxAlpha)
    ensures gate < cfg.crossoverRate ==> child1[..] == Clamp(draws1, bounds) && child2[..] == Clamp(draws2, bounds)
    ensures cfg.crossoverRate <= gate ==> child1[..] == parent1[..] && child2[..] == parent2[..]
  {
    var r := Rng.Random();
    gate := r;
    draws1, draws2 := [], [];
    if r < cfg.crossoverRate {
      child1, child2, draws1, draws2 := BlxAlphaCrossover(parent1, parent2, cfg.blxAlpha, bounds);
      assert draws2 + parent2[parent1.Length..] == draws2;
    } else {
      child1 := Copy(parent1);
      child2 := Copy(parent2);
    }
  }

  /** One iteration of the refill loop: two tournament winners, crossed over
      with probability `crossover_rate` (otherwise copied), each child then
      mutated. The children are new lists, distinct from each other; the
      lineages are the generator's choices that made them, and the two share
      their tournaments and crossover gate. */
  method Offspring(bounds: Bounds, cfg: Config, population: seq<array<real>>, fitnesses: seq<real>,
                   ghost vals: seq<seq<real>>)
    returns (child1: array<real>, child2: array<real>, ghost lineage1: Lineage, ghost lineage2: Lineage)
    requires Admissible(vals, cfg.popSize, bounds)
    requires |population| == |vals| == |fitnesses|
    requires forall i :: 0 <= i < |population| ==> population[i][..] == vals[i]
    requires 1 <= cfg.tournamentK <= cfg.popSize
    ensures fresh(child1) && fresh(child2) && child1 != child2
    ensures Fits(child1[..], bounds) && Fits(child2[..], bounds)
    ensures Descends(vals, fitnesses, cfg, bounds, lineage1, child1[..]) && !lineage1.second
    ensures Descends(vals, fitnesses, cfg, bounds, lineage2, child2[..]) && lineage2.second
    ensures lineage2 == lineage1.(draws := lineage2.draws, crossed := lineage2.crossed, mutGate := lineage2.mutGate,
                                  noise := lineage2.noise, second := true)
  {
    var parent1, s1, b1 := TournamentSelection(population, fitnesses, cfg.tournamentK);
    var parent2, s2, b2 := TournamentSelection(population, fitnesses, cfg.tournamentK);
    ghost var gate, draws1, draws2;
    child1, child2, gate, draws1, draws2 := CrossOrCopy(bounds, cfg, parent1, parent2);
    ghost var before1, before2 := child1[..], child2[..];
    ghost var gate1, noise1 := Mutate(child1, cfg.mutationRate, cfg.mutationSigma, bounds);
    ghost var gate2, noise2 := Mutate(child2, cfg.mutationRate, cfg.mutationSigma, bounds);
    lineage1 := Lineage(s1, b1, s2, b2, gate, draws1, before1, gate1, noise1, false);
    lineage2 := Lineage(s1, b1, s2, b2, gate, draws2, before2, gate2, noise2, true);
    assert Mutated(cfg, bounds, lineage1, before1, child1[..]);
    assert Mutated(cfg, bounds, lineage2, before2, child2[..]);
    assert vals[b1] == parent1[..] && vals[b2] == parent2[..];
    assert Descends(vals, fitnesses, cfg, bounds, lineage1, child1[..]);
    assert Descends(vals, fitnesses, cfg, bounds, lineage2, child2[..]);
    OffspringFits(vals, fitnesses, cfg, bounds, lineage1, child1[..]);
    OffspringFits(vals, fitnesses, cfg, bounds, lineage2, child2[..]);
  }

  /** One generation of the `for gen` loop: the next population, its
      fitnesses and the history entry `best_over_time` receives. */
  method Generation(bounds: Bounds, cfg: Config, gen: nat, population: seq<array<real>>, fitnesses: seq<real>,
                    fitnessFn: seq<real> -> real, ghost vals: seq<seq<real>>)
    returns (newPop: seq<array<real>>, newFitnesses: seq<real>, record: Record, ghost newVals: seq<seq<real>>)
    requires Admissible(vals, cfg.popSize, bounds)
    requires |population| == |vals|
    requires forall i :: 0 <= i < |population| ==> population[i][..] == vals[i]
    requires fitnesses == Fitnesses(fitnessFn, vals)
    requires 1 <= cfg.popSize && cfg.elitism <= cfg.popSize
    requires cfg.elitism < cfg.popSize ==> 1 <= cfg.tournamentK <= cfg.popSize
    ensures Admissible(newVals, cfg.popSize, bounds)
    ensures |newPop| == |newVals|
    ensures forall i :: 0 <= i < |newPop| ==> newPop[i][..] == newVals[i]
    ensures newFitnesses == Fitnesses(fitnessFn, newVals)
    ensures ElitesCarried(fitnessFn, vals, newVals, cfg.elitism)
    ensures Bred(fitnessFn, cfg, bounds, vals, newVals)
    ensures record == BestOf(fitnessFn, gen, newVals)
    ensures Step(fitnessFn, cfg, bounds, gen, vals, newVals, record)
    ensures FreshAndDistinct(newPop)
    ensures |newPop| == |newFitnesses| == cfg.popSize
    ensures record.gen == gen
    ensures forall j :: 0 <= j < |newFitnesses| ==> newFitnesses[j] <= record.fitness
    ensures exists m :: 0 <= m < |newPop| && record.best == newPop[m][..] && record.fitness == newFitnesses[m]
  {
    newPop, newVals := NextGeneration(bounds, cfg, population, fitnesses, fitnessFn, vals);
    newFitnesses := Evaluate(fitnessFn, newPop, newVals);
    var best := FirstArgMax(newFitnesses);
    record := Record(gen, newFitnesses[best], newPop[best][..]);
  }

  /** Generation `gen` turned the population `prev` into `next` and
      recorded `record`: `next` fits the bounds and has `pop_size` members,
      it starts with the elites of `prev` and continues with offspring of
      `prev`, and `record` is its history entry. */
  ghost predicate Step(fitnessFn: seq<real> -> real, cfg: Config, bounds: Bounds, gen: nat,
                       prev: seq<seq<real>>, next: seq<seq<real>>, record: Record) {
    && Admissible(next, cfg.popSize, bounds)
    && ElitesCarried(fitnessFn, prev, next, cfg.elitism)
    && Bred(fitnessFn, cfg, bounds, prev, next)
    && |next| > 0
    && record == BestOf(fitnessFn, gen, next)
  }

  /** `history` and the populations `trace` are those of a run so far: an
      admissible initial population, then one `Step` per history entry. */
  ghost predicate Run(fitnessFn: seq<real> -> real, cfg: Config, bounds: Bounds,
                      trace: seq<seq<seq<real>>>, history: seq<Record>) {
    && |trace| == |history| + 1
    && Admissible(trace[0], cfg.popSize, bounds)
    && forall g :: 0 <= g < |history| ==> Step(fitnessFn, cfg, bounds, g, trace[g], trace[g + 1], history[g])
  }

  /** A run extended by one more step is a run. */
  lemma ExtendRun(fitnessFn: seq<real> -> real, cfg: Config, bounds: Bounds,
                  trace: seq<seq<seq<real>>>, history: seq<Record>, next: seq<seq<real>>, record: Record)
    requires Run(fitnessFn, cfg, bounds, trace, history)
    requires Step(fitnessFn, cfg, bounds, |history|, trace[|history|], next, record)
    ensures Run(fitnessFn, cfg, bounds, trace + [next], history + [record])
  {
    var trace', history' := trace + [next], history + [record];
    forall g | 0 <= g < |history'|
      ensures Step(fitnessFn, cfg, bounds, g, trace'[g], trace'[g + 1], history'[g])
    {
      if g < |history| {
        assert trace'[g] == trace[g] && trace'[g + 1] == trace[g + 1] && history'[g] == history[g];
      } else {
        assert trace'[g] == trace[|history|] && trace'[g + 1] == next && history'[g] == record;
      }
    }
  }

  /** What a run of `gens` generations promises: `gens` history entries,
      entry `g` the record of population `g + 1`, every population
      admissible, the elites of each carried into the next and the rest bred
      from it, and, with at least one elite, a history whose fitness never
      decreases. */
  lemma RunProperties(fitnessFn: seq<real> -> real, cfg: Config, bounds: Bounds,
                      trace: seq<seq<seq<real>>>, history: seq<Record>)
    requires Run(fitnessFn, cfg, bounds, trace, history)
    ensures forall g :: 0 <= g < |trace| ==> Admissible(trace[g], cfg.popSize, bounds)
    ensures forall g :: 0 <= g < |history| ==>
      |trace[g + 1]| > 0 && history[g] == BestOf(fitnessFn, g, trace[g + 1])
    ensures forall g :: 0 <= g < |history| ==> ElitesCarried(fitnessFn, trace[g], trace[g + 1], cfg.elitism)
    ensures forall g :: 0 <= g < |history| ==> Bred(fitnessFn, cfg, bounds, trace[g], trace[g + 1])
    ensures cfg.elitism >= 1 ==> forall g :: 0 < g < |history| ==> history[g - 1].fitness <= history[g].fitness
  {
    forall g | 0 <= g < |trace|
      ensures Admissible(trace[g], cfg.popSize, bounds)
    {
      if g > 0 {
        assert Step(fitnessFn, cfg, bounds, g - 1, trace[g - 1], trace[g], history[g - 1]);
      }
    }
    forall g | 1 <= g < |trace|
      ensures |trace[g]| > 0
    {
      assert Step(fitnessFn, cfg, bounds, g - 1, trace[g - 1], trace[g], history[g - 1]);
    }
    forall g | 0 <= g < |history|
      ensures history[g] == BestOf(fitnessFn, g, trace[g + 1])
    {
      assert Step(fitnessFn, cfg, bounds, g, trace[g], trace[g + 1], history[g]);
    }
    forall g | 0 <= g < |history|
      ensures ElitesCarried(fitnessFn, trace[g], trace[g + 1], cfg.elitism)
    {
      assert Step(fitnessFn, cfg, bounds, g, trace[g], trace[g + 1], history[g]);
    }
    if cfg.elitism >= 1 {
      HistoryNeverDecreases(fitnessFn, trace, history, cfg.elitism);
    }
  }

  /** `run_ga(bounds, fitness_fn, ...)`. Besides the history it returns, as a
      ghost result, the values of every population it went through: `trace[0]`
      is the initial one, `trace[g + 1]` the one built in generation `g`.
      Python fails when a generation runs with `elitism > pop_size`
      (`IndexError`), with `pop_size == 0` (`max` of an empty range) or, when
      the refill loop runs, with a tournament size outside `1 .. pop_size`. */
  method RunGa(bounds: Bounds, fitnessFn: seq<real> -> real, cfg: Config)
    returns (history: seq<Record>, ghost trace: seq<seq<seq<real>>>)
    requires cfg.gens > 0 ==> 1 <= cfg.popSize && cfg.elitism <= cfg.popSize
    requires cfg.gens > 0 && cfg.elitism < cfg.popSize ==> 1 <= cfg.tournamentK <= cfg.popSize
    ensures |history| == cfg.gens
    ensures |trace| == cfg.gens + 1
    ensures forall g :: 0 <= g < |trace| ==> Admissible(trace[g], cfg.popSize, bounds)
    ensures forall g :: 0 <= g < |history| ==>
      |trace[g + 1]| > 0 && history[g] == BestOf(fitnessFn, g, trace[g + 1])
    ensures forall g :: 0 <= g < |history| ==> ElitesCarried(fitnessFn, trace[g], trace[g + 1], cfg.elitism)
    ensures forall g :: 0 <= g < |history| ==> Bred(fitnessFn, cfg, bounds, trace[g], trace[g + 1])
    ensures cfg.elitism >= 1 ==> forall g :: 0 < g < |history| ==> history[g - 1].fitness <= history[g].fitness
  {
    var population;
    ghost var vals;
    population, vals := InitialPopulation(bounds, cfg.popSize);
    var fitnesses := Evaluate(fitnessFn, population, vals);
    history, trace := [], [vals];
    for gen := 0 to cfg.gens
      invariant |history| == gen
      invariant Run(fitnessFn, cfg, bounds, trace, history)
      invariant trace[gen] == vals
      invariant Admissible(vals, cfg.popSize, bounds)
      invariant |population| == |vals|
      invariant forall i :: 0 <= i < |population| ==> population[i][..] == vals[i]
      invariant fitnesses == Fitnesses(fitnessFn, vals)
    {
      var record;
      ghost var newVals;
      population, fitnesses, record, newVals := Generation(bounds, cfg, gen, population, fitnesses, fitnessFn, vals);
      ExtendRun(fitnessFn, cfg, bounds, trace, history, newVals, record);
      history, trace := history + [record], trace + [newVals];
      vals := newVals;
    }
    RunProperties(fitnessFn, cfg, bounds, trace, history);
  }

  /** With at least one elite, the best fitness of the next generation is no
      lower than that of the previous one: the best individual is carried
      over unchanged and the fitness function is deterministic. */
  lemma BestNeverDecreases(fitnessFn: seq<real> -> real, prev: seq<seq<real>>, next: seq<seq<real>>, elitism: nat)
    requires |prev| > 0 && |next| > 0
    requires elitism >= 1
    requires ElitesCarried(fitnessFn, prev, next, elitism)
    ensures BestOf(fitnessFn, 0, prev).fitness <= BestOf(fitnessFn, 0, next).fitness
  {
    var fit := Fitnesses(fitnessFn, prev);
    var rank := RankByFitness(fit);
    RankHeadIsFirstArgMax(fit, rank);
    assert next[0] == prev[FirstArgMax(fit)];
  }

  /** The carried elites are the best of the previous generation: their
      fitness does not increase along the elite positions, and no individual
      of the previous generation outside the ranked elites is fitter than
      any of them. */
  lemma ElitesAreFittest(fitnessFn: seq<real> -> real, prev: seq<seq<real>>, next: seq<seq<real>>, elitism: nat)
    requires ElitesCarried(fitnessFn, prev, next, elitism)
    ensures forall a, b :: 0 <= a < b < elitism ==> fitnessFn(next[b]) <= fitnessFn(next[a])
    ensures forall a, j :: 0 <= a < elitism && 0 <= j < |prev| && j !in RankByFitness(Fitnesses(fitnessFn, prev))[..elitism] ==>
      fitnessFn(prev[j]) <= fitnessFn(next[a])
  {
    var fit := Fitnesses(fitnessFn, prev);
    ElitesAreBest(fit, RankByFitness(fit), elitism);
  }

  /** The recorded best fitness never decreases along the history when at
      least one elite is kept. */
  lemma HistoryNeverDecreases(fitnessFn: seq<real> -> real, trace: seq<seq<seq<real>>>, history: seq<Record>,
                              elitism: nat)
    requires elitism >= 1
    requires |trace| == |history| + 1
    requires forall g :: 0 <= g < |history| ==>
      |trace[g + 1]| > 0 && history[g] == BestOf(fitnessFn, g, trace[g + 1])
    requires forall g :: 0 <= g < |history| ==> ElitesCarried(fitnessFn, trace[g], trace[g + 1], elitism)
    ensures forall g :: 0 < g < |history| ==> history[g - 1].fitness <= history[g].fitness
  {
    forall g | 0 < g < |history|
      ensures history[g - 1].fitness <= history[g].fitness
    {
      BestNeverDecreases(fitnessFn, trace[g], trace[g + 1], elitism);
    }
  }
}
