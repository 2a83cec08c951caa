# Real-valued genetic algorithm, in Dafny

This project models the genetic algorithm of `algoritmo2.py`, which maximizes a user-supplied
fitness function over a box of real intervals. The model covers:

- `random_individual` draws one individual;
- `clamp_individual` clips its genes into the box;
- `tournament_selection` picks a parent;
- `blx_alpha_crossover` and `mutate` make children;
- `run_ga` drives the generations and returns the history
  `best_over_time` of `(generation, best fitness, copy of best individual)`;
- the example objective `fitness` (the negated Sphere function) is one fitness function among
  those `run_ga` accepts.

Modules:

- `Rng` models the calls into Python's `random`.
  - Each draw is a method that promises only the range the library documents.
  - So everything proved about a caller holds for every value any seed could produce.
- `Genes` covers the bounds, clamping and drawing an individual.
- `Fitness` is the Sphere example.
- `Ranking` covers the stable descending sort of indices by fitness and Python's `max`, which
  takes the first maximum.
- `Operators` covers copying, tournament selection, BLX-alpha crossover and Gaussian mutation.
- `Evolution` is `run_ga`.

Individuals are arrays of reals, updated in place exactly where the Python code updates its
lists. Populations are sequences of such arrays. The methods carry the values of those arrays
as ghost sequences, and the properties are stated over them:

- every gene stays in bounds;
- every population has exactly `pop_size` members;
- each population is made of new lists, so no list is shared by two members or with the
  previous generation (`InitialPopulation`, `NextGeneration` and `Generation` promise this);
- the elites are carried over;
- every other member is offspring of the previous population: two tournament winners, crossed
  over or copied, then mutated;
- history entry `g` belongs to generation `g`, with the maximal fitness and the first
  individual that reaches it;
- with elitism, the recorded best fitness never decreases.

## Model

| member | source | states |
|---|---|---|
| Rng.Random | algoritmo2.py:94 | `random.random()` returns a value in [0, 1) |
| Rng.Uniform | algoritmo2.py:49 | `random.uniform(a, b)` returns a value between `a` and `b`, in either order |
| Rng.Sample | algoritmo2.py:65 | `random.sample(range(n), k)` needs `k <= n` and returns `k` distinct indices below `n` |
| Genes.ClampGene | algoritmo2.py:54-57 | A gene below `lo` becomes `lo`, otherwise one above `hi` becomes `hi`, one inside is kept; with `lo <= hi` the result lies in `[lo, hi]` |
| Genes.ClampIndividual | algoritmo2.py:52-57 | Clamping in place: the first `len(bounds)` genes are clamped, the rest are unchanged; it needs `len(ind) >= len(bounds)` (else `IndexError`) |
| Genes.ClampWithinBounds | algoritmo2.py:52-57 | With ordered bounds, clamping keeps the length and puts every gene in `[lo_i, hi_i]` |
| Genes.ClampKeepsAdmissible | algoritmo2.py:52-57 | An individual already inside its bounds is left unchanged |
| Genes.ClampIdempotent | algoritmo2.py:52-57 | Clamping twice gives the same as clamping once |
| Genes.RandomIndividual | algoritmo2.py:48-49 | A new list of `len(bounds)` genes, gene `i` drawn between `lo_i` and `hi_i` |
| Genes.DrawnWithinBounds | algoritmo2.py:48-49 | With ordered bounds, a drawn individual is inside the box |
| Fitness.SumOfSquares | algoritmo2.py:41 | The sum of squares is never negative |
| Fitness.Sphere | algoritmo2.py:35-42 | The example fitness is never above 0 |
| Fitness.SphereOptimum | algoritmo2.py:35-42 | The example fitness is 0 exactly when every gene is 0 |
| Operators.Copy | algoritmo2.py:70 | A slice copy `[:]` is a new list with the same genes |
| Operators.TournamentWinner | algoritmo2.py:66-69 | The scan returns the sampled index at the first sample position whose fitness is maximal among the sampled ones; later equal fitness does not replace it |
| Operators.WinnerUnique | algoritmo2.py:66-69 | That winner is determined by the sample and the fitnesses: two winners of the same tournament are equal |
| Operators.SampleCovers | algoritmo2.py:65 | A sample of distinct indices below `n` has at most `n` members, and one of `n` members contains every index |
| Operators.FullTournamentPicksBest | algoritmo2.py:65-69 | A tournament over the whole population returns an individual of globally maximal fitness |
| Operators.TournamentSelection | algoritmo2.py:63-70 | Needs `1 <= k <= len(pop)`; returns a new list equal to `pop[best]`, where `best` is the winner of a sample of `k` distinct indices; the population is not modified |
| Operators.BlxInterval | algoritmo2.py:78-82 | The interval `[cmin - alpha*I, cmax + alpha*I]` contains the parents' interval when `alpha >= 0` and equals it when `alpha = 0` |
| Operators.BlxAlphaCrossover | algoritmo2.py:73-89 | Two new, distinct children, with the parents untouched. Each gene below `len(parent1)` is a draw from the BLX interval of the parents' genes. `child1` is the clamped draws. `child2` is the clamped draws followed by `parent2`'s extra genes. Needs `len(parent2) >= len(parent1) >= len(bounds)` |
| Operators.Mutate | algoritmo2.py:92-97 | The gate is in [0, 1). Below `mutation_rate`, every gene is shifted by its noise and then clamped. Otherwise the individual is exactly unchanged |
| Operators.MutationKeepsBounds | algoritmo2.py:92-97 | Mutation keeps the length, and keeps an in-bounds individual in bounds |
| Ranking.RankByFitness | algoritmo2.py:120 | The stable descending sort of `range(n)` by fitness: a permutation of the indices, ordered by fitness descending, with ties by ascending index |
| Ranking.RankingUnique | algoritmo2.py:120 | Any ordering of the indices sorted that way is `RankByFitness`, so the elites are determined by the fitnesses |
| Ranking.FirstArgMax | algoritmo2.py:151 | `max(range(n), key=...)` returns an index of maximal fitness, and every index before it has strictly lower fitness |
| Ranking.MaxFitness | algoritmo2.py:151-152 | The recorded fitness is one of the generation's fitnesses and no fitness exceeds it |
| Ranking.RankHeadIsFirstArgMax | algoritmo2.py:120-151 | The first-ranked index is the index `max` picks |
| Ranking.ElitesAreBest | algoritmo2.py:120-125 | The first `e` ranked indices have non-increasing fitness, and no other index is fitter than any of them |
| Evolution.Evaluate | algoritmo2.py:148 | The fitness list is `fitness_fn` applied to each individual, in order |
| Evolution.BestOf | algoritmo2.py:151-152 | The history entry of a generation has its number, its maximal fitness, and the first individual that reaches it |
| Evolution.InitialPopulation | algoritmo2.py:114 | `pop_size` new, pairwise distinct lists of `len(bounds)` genes, inside the box when the bounds are ordered |
| Evolution.Elites | algoritmo2.py:124-125 | New copies of the `elitism` first-ranked individuals, in ranking order |
| Evolution.CrossOrCopy | algoritmo2.py:133-137 | The gate is in [0, 1). Below `crossover_rate`, the children are the clamped BLX-alpha draws, each gene drawn from the parents' interval. Otherwise they are copies of `parent1` and `parent2`. Both are new, distinct lists; the parents are only read |
| Evolution.Offspring | algoritmo2.py:129-141 | Two new, distinct children that fit the bounds, each offspring of the current population (`Descends`). Each child comes from two tournament winners, drawn with `k` distinct indices and the first maximal fitness. Below the crossover gate, its genes are BLX-alpha draws from the winners' intervals, clamped. Otherwise it is a copy of its own winner: the first child of the first, the second of the second. It is then mutated. The two children share their tournaments and crossover gate |
| Evolution.OffspringFits | algoritmo2.py:129-141 | Whatever the generator draws, offspring of a population inside the box is inside the box |
| Evolution.OffspringOnlySelects | algoritmo2.py:129-141 | With `crossover_rate <= 0` and `mutation_rate <= 0`, each child equals a tournament winner: the first child the first tournament's, the second the second's |
| Evolution.AddChildren | algoritmo2.py:129-145 | One pass of the refill loop appends two children, or only the first when one place is left. Each is a new list that fits the bounds and is offspring of the current population |
| Evolution.Refill | algoritmo2.py:128-145 | The population is completed to exactly `pop_size`, keeping what was there. Every added member is a new list, distinct from all others, that fits the bounds and is offspring of the current population |
| Evolution.NextGeneration | algoritmo2.py:120-147 | The next population has exactly `pop_size` new, pairwise distinct members that fit the bounds. It starts with the ranked elites, and every later member is offspring of the previous population |
| Evolution.Generation | algoritmo2.py:119-152 | One generation yields `pop_size` new, pairwise distinct individuals and their fitnesses: the elites, then offspring of the previous population. Its history entry carries the generation number and the maximal fitness. The entry's individual is a copy of a member that has that fitness (the first one, by `BestOf`) |
| Evolution.RunProperties | algoritmo2.py:117-158 | From the generation steps of a run, every population fits the bounds and entry `g` is `BestOf` population `g + 1`. Each population carries the previous one's elites, and the rest is offspring of it. With `elitism >= 1`, the recorded fitness never decreases |
| Evolution.RunGa | algoritmo2.py:103-158 | The history has exactly `gens` entries. Entry `g` is `BestOf` generation `g`. Every population has the right size and fits the bounds. Each carries the previous one's elites, and its other members are offspring of the previous population. With `elitism >= 1`, the recorded fitness never decreases |
| Evolution.BestNeverDecreases | algoritmo2.py:120-152 | With an elite carried over, the next generation's best fitness is at least the previous one's |
| Evolution.ElitesAreFittest | algoritmo2.py:120-125 | The carried elites have non-increasing fitness, and no non-elite of the previous generation is fitter than any of them |
| Evolution.HistoryNeverDecreases | algoritmo2.py:117-158 | With `elitism >= 1`, the fitnesses along the history never decrease |

## Left out

- The periodic `print` in `run_ga` (algoritmo2.py:155-156) and the `__main__` block (algoritmo2.py:164-174) are console output and seeding.
- `producirexcel.py`, `manejoexcel.py` and `algoritmo3.py` are not part of this model. They are spreadsheet I/O, interactive input and printing demos.
- Rng.Gauss: only says that the noise is some real. The normal distribution is not modelled, and no property depends on it.
- The probability distributions of `random`: only the range of each draw is modelled. Statistical claims, such as convergence towards the optimum, are out of scope.
- Floating point: genes and fitnesses are mathematical reals, so IEEE-754 rounding, infinities and NaN are not modelled. In particular, a NaN fitness would break the sort and `max` properties.
- Negative counts: `pop_size`, `gens`, `tournament_k` and `elitism` are naturals. Python's `range` of a negative number is empty. A negative `tournament_k` makes `random.sample` raise `ValueError`.
- The code checks none of its parameters. The preconditions of `RunGa` are exactly the conditions under which Python would raise:
  - `pop_size == 0` with `gens > 0` makes `max` fail;
  - `elitism > pop_size` gives an `IndexError`;
  - a tournament size outside `1 .. pop_size` fails once the refill loop runs.
- The fitness function is a mathematical function. A `fitness_fn` with side effects, or one that is not deterministic, is not modelled.
- Operators.BlxAlphaCrossover: the order of the two draws per gene is not modelled, only that each draw lies in the gene's interval.
- Evolution.RunGa: the ghost trace holds the populations' values only. That each population is made of new lists is stated by `Generation`, not repeated by `RunGa`.
- Evolution.Offspring: `IsOffspring` says which choices of the generator make a child, not how likely they are.
- Evolution.RunGa: bounds with `lo > hi` are accepted, as in Python. The in-bounds part of `Admissible` then claims nothing, because clamping cannot satisfy an empty interval.
