# Two surface optimisers, modelled in Dafny

The repository minimises a function f(x, y) of two reals over a rectangle with
two metaheuristics, each a single Java class:

- **Particle swarm** (`Swarm.java`). `SWARM_SIZE` particles each carry a
  position, a personal best and a velocity, all jzy3d `Coord3d` objects.
  Each of `ITERATIONS` passes does four things:
  1. lowers each particle's best fitness when its position improves on it;
  2. scans the swarm for the global best, held in two static fields;
  3. moves every particle by the inertia / cognitive / social velocity rule;
  4. refreshes a display array: a particle inside the domain is shown by its
     own position object, and one outside is shown at the corner of both
     maxima or of both minima.
- **Genetic algorithm** (`Genetic.java`). `POPULATION_SIZE` chromosomes
  (x, y, z = f(x, y)) go through `MAX_GENERATIONS` generations. Each
  generation:
  1. weighs every chromosome by `(max - z) / (max - min)`, normalised to sum
     to 1;
  2. draws two parents per slot from a roulette wheel of those weights;
  3. replaces the population by blend crossovers, mutated with probability
     0.05.

Modelling choices:
- Java `float`/`double` values are Dafny `real`s.
- Every `Random` draw is an explicit parameter in [0, 1). `nextInt(2)` is a
  `bool`.
- The mxparser evaluator is a total function `f: (real, real) -> real`.

The model has three modules:

- `common.dfy` (module `Common`) holds the shared vocabulary:
  - the value of a point (`Point`) and `Option`;
  - sums and extremes of fitness lists;
  - the uniform sampling both optimisers use to seed their populations;
  - the two readings of "average" (see Findings).
- `swarm.dfy` (module `ParticleSwarm`) is imperative, as the source is.
  - `Coord` and `Particle` are classes whose fields are written in place.
  - The two static fields `globalBestFitness` and `globalBestPosition` are
    the state of class `Swarm`.
  - The object sharing of the source is reproduced. `generateParticles` gives
    each particle one `Coord3d` as both position and personal best, and the
    personal-best loop assigns the position object again. The predicate
    `Layout` states this sharing, and every state-changing method keeps it.
  - Consequence of the sharing: `updateParameters` moves the personal best
    together with the position, and the cognitive term of the velocity is
    always zero. The contracts of `UpdateSwarm` and `Advance` state the motion
    with the personal best equal to the position.
- `genetic.dfy` (module `Genetic`) is mixed.
  - Chromosomes are never changed after construction, so they are `Point`
    values.
  - `crossover` is a function.
  - The loops of `proportionalSelection`, `getParents`, `getNewPopulation`,
    `generatePopulation`, `findMin` and `findAverage` are methods over arrays
    and sequences. Each is proved against a specification function
    (`SelectionWeights`, `Spin`, `Crossover`, `SamplePoint`, `Min`,
    `ReportedAverage`).

The code is followed where it departs from the design description of the
system:
- The description asks for a fallback when every fitness is equal. The code
  divides zero by zero, which gives NaN weights; no parent is then picked, and
  `crossover` fails on a null parent. The model returns None there.
- The description has the personal best start at the starting fitness. In the
  code `bestFitness` is never assigned and starts at 0.
- The description has the global best corrected by a full scan before the
  first pass. The code seeds only the fitness, from `swarm[0]`, and leaves the
  position at the origin until `findBest` first improves on it.

## Model

| member | source | states |
|---|---|---|
| `Common.Sample` | src/main/java/org/example/Swarm.java:167-168 | A coordinate `lo + u * (hi - lo)` drawn with u in [0, 1) lies in [lo, hi) for a non-empty interval. |
| `Common.SamplePoint` | src/main/java/org/example/Genetic.java:194-199 | A sampled point lies in [xMin, xMax) x [yMin, yMax), and its z is f at its own (x, y). |
| `Common.Mean` | src/main/java/org/example/Genetic.java:205-211 | The intended average (sum / count) lies between the least and the greatest value. |
| `Common.ReportedAverageIsReciprocalOfMean` | src/main/java/org/example/Swarm.java:198-204 | For every list with a non-zero sum, what `findAverage` reports is 1 / mean, not the mean. |
| `Common.ReportedAverageOfOneAndThree` | src/main/java/org/example/Genetic.java:205-211 | For fitness values 1 and 3 the mean is 2, but 0.5 is reported. |
| `ParticleSwarm.Particle.constructor` | src/main/java/org/example/Swarm.java:222-232 | A particle holds the given objects, and its best fitness is Java's default 0. |
| `ParticleSwarm.NextVelocity` | src/main/java/org/example/Swarm.java:104-116 | With the personal best at the position, the cognitive pull vanishes and only inertia plus the social pull remain; at the global best, only inertia remains. |
| `ParticleSwarm.Move` | src/main/java/org/example/Swarm.java:102-124 | The new velocity follows the rule on each axis with its own draws; the position moves by exactly that velocity; z is f at the new position; the velocity's z is kept. |
| `ParticleSwarm.UpdatePersonalBests` | src/main/java/org/example/Swarm.java:75-82 | A particle strictly better than its best takes its position object and fitness as best; all others keep theirs. Positions and velocities are untouched, the layout is kept, and afterwards every best fitness is at most the current fitness. |
| `ParticleSwarm.GeneratePoint` | src/main/java/org/example/Swarm.java:163-174 | A fresh `Coord3d` holding the sampled point of the domain and its fitness. |
| `ParticleSwarm.GenerateParticles` | src/main/java/org/example/Swarm.java:149-161 | Exactly `SWARM_SIZE` fresh particles, each at its sampled point, at rest, with best fitness 0, its personal best being its position object, and no object shared between particles. |
| `ParticleSwarm.Displayed` | src/main/java/org/example/Swarm.java:177-191 | The reported point lies in any non-empty domain. A point inside the domain is reported as it is; one outside is replaced by the corner of both maxima or of both minima, evaluated there. |
| `ParticleSwarm.UpdateAnimation` | src/main/java/org/example/Swarm.java:176-192 | Slot j of the display array holds the reported point of particle j. It is the particle's own position object when that lies in the domain, and a fresh object otherwise. Only the display array is written. |
| `ParticleSwarm.FindMin` | src/main/java/org/example/Swarm.java:206-212 | Returns the position object of the first particle of least fitness. |
| `ParticleSwarm.FindBestFitness` | src/main/java/org/example/Swarm.java:214-220 | Returns the first particle of least fitness. |
| `ParticleSwarm.FindAverage` | src/main/java/org/example/Swarm.java:198-204 | As written: the particle count divided by the sum of the fitness values (None for a zero sum). |
| `ParticleSwarm.FindMean` | src/main/java/org/example/Swarm.java:198-204 | Corrected: the sum divided by the count, which lies between the least and greatest fitness. |
| `ParticleSwarm.CopyPositions` | src/main/java/org/example/Swarm.java:61-65 | The display array is new, of the same length, and made of new objects holding the values of the positions. |
| `ParticleSwarm.Swarm.constructor` | src/main/java/org/example/Swarm.java:21-22 | The global best starts at fitness 0 at the origin. |
| `ParticleSwarm.Swarm.SeedGlobalBest` | src/main/java/org/example/Swarm.java:70 | The global best fitness is seeded from the first particle while the global best position stays where it was. |
| `ParticleSwarm.Swarm.FindBest` | src/main/java/org/example/Swarm.java:129-141 | The global best fitness never rises and ends at or below every particle's fitness. It drops exactly when some particle is strictly better. It then holds the coordinates of the first particle of least fitness, and the position's z equals the fitness; otherwise the position is unchanged. No particle moves. |
| `ParticleSwarm.Swarm.UpdateParameters` | src/main/java/org/example/Swarm.java:102-127 | The particle's own velocity and position objects receive the values of `Move`. The new particle holds the same objects and the old best fitness. A personal best that is a separate object keeps its value. |
| `ParticleSwarm.Swarm.UpdateSlot` | src/main/java/org/example/Swarm.java:90 | Slot j gets a fresh particle over the same objects, moved as `Move` says. Every other slot and every other particle's values are unchanged, and the layout is kept. |
| `ParticleSwarm.Swarm.UpdateSwarm` | src/main/java/org/example/Swarm.java:88-91 | Every slot holds a fresh particle over its old objects and old best fitness, moved as `Move` says with the personal best equal to the position. The layout and the global best are kept. |
| `ParticleSwarm.Swarm.Evaluate` | src/main/java/org/example/Swarm.java:75-86 | Each particle strictly below its best fitness takes its position and fitness as best; the others keep theirs. The global best then has not risen, is at or below every particle's fitness, and drops exactly when some particle lies strictly lower (`ScannedBest`). After a drop it holds the coordinates and fitness of the first particle of least fitness; otherwise its position is unchanged. Positions are unchanged and the layout is kept. |
| `ParticleSwarm.Swarm.Advance` | src/main/java/org/example/Swarm.java:88-93 | Every particle moves as `Move` says. The display array then shows `Displayed` of each moved position. The global best position is unchanged. |
| `ParticleSwarm.Swarm.Iterate` | src/main/java/org/example/Swarm.java:72-94 | One pass: the global best never rises and ends at or below every fitness the swarm had when the pass began. The particles are fresh over the same objects, and the layout is kept. |
| `ParticleSwarm.Swarm.Run` | src/main/java/org/example/Swarm.java:58-100 | After all passes, the global best fitness is at most the first particle's starting fitness, and the swarm keeps its layout. |
| `Genetic.SelectionWeights` | src/main/java/org/example/Genetic.java:158-182 | The wheel is None exactly when every fitness is equal; otherwise it has one weight per value. |
| `Genetic.ProportionalSelection` | src/main/java/org/example/Genetic.java:158-182 | The three loops compute exactly `SelectionWeights`. |
| `Genetic.FitnessRange` | src/main/java/org/example/Genetic.java:160-166 | The scan yields the least and greatest fitness. |
| `Genetic.RelativeFitness` | src/main/java/org/example/Genetic.java:168-174 | The list of `(max - v) / (max - min)` in order, and its sum. |
| `Genetic.Normalise` | src/main/java/org/example/Genetic.java:176-179 | Every entry is divided in place by the sum. |
| `Genetic.FlippedBounds` | src/main/java/org/example/Genetic.java:170-174 | Each raw weight lies in [0, 1]; the least fitness gets 1 and the greatest gets 0. |
| `Genetic.FlippedSumAtLeastOne` | src/main/java/org/example/Genetic.java:170-178 | The raw weights sum to at least 1, so the normalising division is by a positive number. |
| `Genetic.WeightsFormDistribution` | src/main/java/org/example/Genetic.java:176-181 | When the values are not all equal, the normalised weights are non-negative, one per value, and sum to exactly 1. |
| `Genetic.WeightsReverseFitness` | src/main/java/org/example/Genetic.java:170-179 | One fitness is at most another exactly when its weight is at least the other's. |
| `Genetic.SpinIsFirstReach` | src/main/java/org/example/Genetic.java:143-152 | The scan lands on the first slot whose running total reaches the draw, and that slot is the only such first slot. If it runs off the wheel, no running total reaches the draw. |
| `Genetic.SpinLandsOnWheel` | src/main/java/org/example/Genetic.java:143-152 | A draw at most the wheel's total lands on a slot of a non-empty wheel. |
| `Genetic.GetParents` | src/main/java/org/example/Genetic.java:136-156 | A new array of the population's length; slot i holds the chromosome at the slot where draw i lands on the wheel. |
| `Genetic.WheelCoversDraws` | src/main/java/org/example/Genetic.java:140-152 | On the wheel of a population with unequal fitness, every draw in [0, 1) lands on a slot that is the first to reach it. |
| `Genetic.Blend` | src/main/java/org/example/Genetic.java:112-113 | A blended coordinate lies in the closed interval between the parents' coordinates. |
| `Genetic.MutationStep` | src/main/java/org/example/Genetic.java:116-120 | A mutation magnitude lies in [0.0001, 0.1). |
| `Genetic.Crossover` | src/main/java/org/example/Genetic.java:103-134 | Without mutation, x and y each lie between the parents' values. With mutation, each axis differs from its blend by its own magnitude in [0.0001, 0.1), in the one direction chosen for both axes. z is always f at the final (x, y). |
| `Genetic.CrossoverOfEqualParents` | src/main/java/org/example/Genetic.java:108-113 | Without mutation, parents at the same (x, y) give a child at that (x, y). |
| `Genetic.GetNewPopulation` | src/main/java/org/example/Genetic.java:84-101 | A new array of `parents1.length` entries. Entry i is the crossover of the i-th parents, mutated exactly when that slot's own draw is below 0.05. |
| `Genetic.GeneratePopulation` | src/main/java/org/example/Genetic.java:184-203 | `POPULATION_SIZE` points, each the sampled point of its draws: inside the rectangle, with z = f(x, y). |
| `Genetic.FindMin` | src/main/java/org/example/Genetic.java:213-219 | The result is the z of some chromosome and at most every z. |
| `Genetic.FindAverage` | src/main/java/org/example/Genetic.java:205-211 | As written: the population size divided by the sum of the fitness values (None for a zero sum). |
| `Genetic.FindMean` | src/main/java/org/example/Genetic.java:205-211 | Corrected: the sum divided by the size, which lies between the least and greatest fitness. |
| `Genetic.Child` | src/main/java/org/example/Genetic.java:84-156 | Slot i of the next generation: the crossover of the chromosomes where the slot's two parent draws land on the wheel. Its z is f at its own (x, y). |
| `Genetic.Bred` | src/main/java/org/example/Genetic.java:61-79 | One generation on values: None exactly when every fitness is equal, otherwise `POPULATION_SIZE` children, each with z = f at its own (x, y). |
| `Genetic.NextGeneration` | src/main/java/org/example/Genetic.java:61-79 | None exactly when every fitness is equal. Otherwise a new population of `POPULATION_SIZE`, equal to `Bred`: slot i is the crossover of the chromosomes where the two parent draws land, and every z is f at its own (x, y). |
| `Genetic.Seeded` | src/main/java/org/example/Genetic.java:184-203 | The first population on values: one sampled point per pair of draws, each with z = f at its own (x, y). |
| `Genetic.Evolve` | src/main/java/org/example/Genetic.java:53-82 | The generations in order on values, ending after the last one or at the first population of equal fitness. The population it ends with has `POPULATION_SIZE` chromosomes, and a stalled one has all fitness values equal. |
| `Genetic.Run` | src/main/java/org/example/Genetic.java:53-82 | The run is `Evolve` of the seeded population over the given draws. The result is None exactly when `Evolve` stalls at a population of equal fitness. Otherwise it is a fresh array holding `Evolve`'s final population, each z being f at its own coordinates. |

## Left out

- `main` of both classes is not modelled: syntax check, `System.exit`, printing of the results. Neither is the printing at the end of Swarm `run`. All of it is I/O.
- Plotting and pacing are UI only and not modelled: `Plotter`, `Scatter`, chart rendering and `Thread.sleep`.
- `FunctionParser` and the mxparser library are a foreign library. The evaluator is the parameter `f`, and `fitnessFunction` is `f(position.x, position.y)`.
- `java.util.Random` is replaced by explicit draws in [0, 1) passed as parameters.
- Float rounding, the `(float)` casts, and NaN or infinity from the evaluator or from a division are not modelled; numbers are exact reals.
- A zero fitness sum in `findAverage` is None rather than an infinity or NaN.
- With all fitness values equal, `proportionalSelection` would return NaN weights and `run` would then fail. This is None in `SelectionWeights`, `NextGeneration` and `Run`.
- Genetic.GetParents: requires every draw to be at most the wheel's total. The Java loop would leave a null slot otherwise. With exact reals this never happens on a wheel from `SelectionWeights` (`WheelCoversDraws`); only float accumulation could cause it.
- Genetic.GetNewPopulation: requires `parents2` to be at least as long as `parents1`. Java would throw an index exception otherwise; `run` always passes arrays of equal length.
- Genetic.ProportionalSelection: requires a non-empty list. Java throws on `get(0)` otherwise.
- Genetic.FindMin: requires a non-empty array. Java throws on `population[0]` otherwise.
- ParticleSwarm.FindMin: requires a non-empty array, since Java reads `particles[0]`.
- ParticleSwarm.FindBestFitness: requires a non-empty array, since Java reads `particles[0]`.
- ParticleSwarm.Swarm.Iterate: states only the global-best and layout facts of a pass. The personal bests and the scan are stated by `Evaluate`, and the motion towards the global best by `Advance`; `Iterate` runs the two in turn but does not repeat their contracts.
- ParticleSwarm.Swarm.Run: states the bound on the global best and the layout. The returned swarm's positions are not related to the draws beyond what each pass states.

## Findings

| source | as written | input that shows it | evidently intended | confidence | as-written member | corrected member |
|---|---|---|---|---|---|---|
| src/main/java/org/example/Swarm.java:198-204 | `findAverage` returns `particles.length / sum` | fitness values 1 and 3: reports 0.5 (`Common.ReportedAverageOfOneAndThree`) | `sum / particles.length`, i.e. 2 | not executed | `ParticleSwarm.FindAverage` | `ParticleSwarm.FindMean` |
| src/main/java/org/example/Genetic.java:205-211 | `findAverage` returns `population.length / sum` | fitness values 1 and 3: reports 0.5, the reciprocal of the mean (`Common.ReportedAverageIsReciprocalOfMean`) | `sum / population.length`, i.e. 2 | not executed | `Genetic.FindAverage` | `Genetic.FindMean` |
