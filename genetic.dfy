/**
 * The genetic algorithm of Genetic.java. A chromosome is a point (x, y) of
 * the search surface together with its fitness z = f(x, y); lower fitness is
 * better. Each generation weighs every chromosome by how far its fitness lies
 * below the worst one, draws two parents per slot from a roulette wheel of
 * those weights, and replaces the population by blended (and now and then
 * mutated) offspring.
 *
 * Chromosomes are never changed after they are built, so they are `Point`
 * values; the population arrays and the weight lists are built by loops as
 * in the source. Every `Random` draw is a parameter in [0, 1).
 */
module Genetic {
  import opened Common

  const POPULATION_SIZE: nat := 50
  const MAX_GENERATIONS: nat := 40
  const MUTATION_RATE: real := 0.05
  const MIN_MUTATION: real := 0.0001
  const MAX_MUTATION: real := 0.1

  /** The fitness values of a population, in order. */
  function Fitness(ps: seq<Point>): seq<real>
  {
    seq(|ps|, i requires 0 <= i < |ps| => ps[i].z)
  }

  // ---------------------------------------------------------------------
  // Proportional selection (Genetic.java:158-182)
  // ---------------------------------------------------------------------

  /** `(hi - v) / (hi - lo)` for every value v: 1 at the best, 0 at the worst. */
  function Flipped(fitness: seq<real>, lo: real, hi: real): seq<real>
    requires lo < hi
  {
    seq(|fitness|, i requires 0 <= i < |fitness| => (hi - fitness[i]) / (hi - lo))
  }

  /** Every weight divided by the total. */
  function Normalised(ws: seq<real>, total: real): seq<real>
    requires total != 0.0
  {
    seq(|ws|, i requires 0 <= i < |ws| => ws[i] / total)
  }

  /**
   * The roulette wheel of a list of fitness values: the flipped weights
   * normalised by their sum. When every value is the same the source divides
   * zero by zero and every weight is NaN; that case is None.
   */
  function SelectionWeights(fitness: seq<real>): (r: Option<seq<real>>)
    requires |fitness| > 0
    ensures r.None? <==> Min(fitness) == Max(fitness)
    ensures r.Some? ==> |r.value| == |fitness|
  {
    var lo := Min(fitness);
    var hi := Max(fitness);
    if lo == hi then None
    else
      FlippedSumAtLeastOne(fitness);
      var raw := Flipped(fitness, lo, hi);
      Some(Normalised(raw, Sum(raw)))
  }

  /**
   * `proportionalSelection`: a scan for the least and the greatest value, a
   * pass building the flipped weights and their sum, then a pass normalising
   * the list in place.
   */
  method ProportionalSelection(fitnessValues: seq<real>) returns (weights: Option<seq<real>>)
    requires |fitnessValues| > 0
    ensures weights == SelectionWeights(fitnessValues)
  {
    var min, max := FitnessRange(fitnessValues);
    if max == min {
      return None;
    }
    var relativeFitness, percentageSum := RelativeFitness(fitnessValues, min, max);
    FlippedSumAtLeastOne(fitnessValues);
    relativeFitness := Normalise(relativeFitness, percentageSum);
    weights := Some(relativeFitness);
  }

  /** The first loop of `proportionalSelection` (Genetic.java:160-166). */
  method FitnessRange(fitnessValues: seq<real>) returns (min: real, max: real)
    requires |fitnessValues| > 0
    ensures min == Min(fitnessValues) && max == Max(fitnessValues)
  {
    min := fitnessValues[0];
    max := fitnessValues[0];
    for i := 0 to |fitnessValues|
      invariant i > 0 ==> min == Min(fitnessValues[..i]) && max == Max(fitnessValues[..i])
      invariant i == 0 ==> min == fitnessValues[0] && max == fitnessValues[0]
    {
      assert fitnessValues[..i + 1][..i] == fitnessValues[..i];
      var value := fitnessValues[i];
      if value < min {
        min := value;
      }
      if value > max {
        max := value;
      }
    }
    assert fitnessValues[..|fitnessValues|] == fitnessValues;
  }

  /**
   * The second loop of `proportionalSelection` (Genetic.java:168-174): the
   * flipped weights in order, and their running sum.
   */
  method RelativeFitness(fitnessValues: seq<real>, min: real, max: real)
    returns (relativeFitness: seq<real>, percentageSum: real)
    requires min < max
    ensures relativeFitness == Flipped(fitnessValues, min, max)
    ensures percentageSum == Sum(relativeFitness)
  {
    ghost var raw := Flipped(fitnessValues, min, max);
    percentageSum := 0.0;
    relativeFitness := [];
    for i := 0 to |fitnessValues|
      invariant relativeFitness == raw[..i]
      invariant percentageSum == Sum(relativeFitness)
    {
      var flippedPercentage := (max - fitnessValues[i]) / (max - min);
      assert raw[..i + 1] == raw[..i] + [flippedPercentage];
      SumAppend(relativeFitness, flippedPercentage);
      percentageSum := percentageSum + flippedPercentage;
      relativeFitness := relativeFitness + [flippedPercentage];
    }
    assert raw[..|fitnessValues|] == raw;
  }

  /**
   * The third loop of `proportionalSelection` (Genetic.java:176-179): every
   * entry of the list, in place, divided by the sum.
   */
  method Normalise(relativeFitness: seq<real>, percentageSum: real) returns (normalised: seq<real>)
    requires percentageSum != 0.0
    ensures normalised == Normalised(relativeFitness, percentageSum)
  {
    normalised := relativeFitness;
    for i := 0 to |normalised|
      invariant |normalised| == |relativeFitness|
      invariant forall k :: 0 <= k < i ==> normalised[k] == relativeFitness[k] / percentageSum
      invariant forall k :: i <= k < |normalised| ==> normalised[k] == relativeFitness[k]
    {
      normalised := normalised[i := normalised[i] / percentageSum];
    }
  }

  /**
   * Before normalisation every weight lies in [0, 1]; a value equal to the
   * least gets 1 and a value equal to the greatest gets 0.
   */
  lemma FlippedBounds(fitness: seq<real>, i: int)
    requires |fitness| > 0 && Min(fitness) < Max(fitness) && 0 <= i < |fitness|
    ensures var raw := Flipped(fitness, Min(fitness), Max(fitness));
      && 0.0 <= raw[i] <= 1.0
      && (fitness[i] == Min(fitness) ==> raw[i] == 1.0)
      && (fitness[i] == Max(fitness) ==> raw[i] == 0.0)
  {
    FlippedWithin(fitness, Min(fitness), Max(fitness), i);
  }

  /** The same for any bounds lo < hi that enclose every value. */
  lemma FlippedWithin(fitness: seq<real>, lo: real, hi: real, i: int)
    requires lo < hi && 0 <= i < |fitness| && lo <= fitness[i] <= hi
    ensures var raw := Flipped(fitness, lo, hi);
      && 0.0 <= raw[i] <= 1.0
      && (fitness[i] == lo ==> raw[i] == 1.0)
      && (fitness[i] == hi ==> raw[i] == 0.0)
  {
    FlippedValue(fitness[i], lo, hi);
  }

  lemma FlippedValue(v: real, lo: real, hi: real)
    requires lo <= v <= hi && lo < hi
    ensures 0.0 <= (hi - v) / (hi - lo) <= 1.0
    ensures v == lo ==> (hi - v) / (hi - lo) == 1.0
    ensures v == hi ==> (hi - v) / (hi - lo) == 0.0
  {
    QuotientBounds(hi - v, hi - lo, 0.0, 1.0);
    if v == lo {
      DivSelf(hi - lo);
    }
    if v == hi {
      ZeroDiv(hi - lo);
    }
  }

  lemma DivSelf(d: real)
    requires d != 0.0
    ensures d / d == 1.0
  {
  }

  lemma ZeroDiv(d: real)
    requires d != 0.0
    ensures 0.0 / d == 0.0
  {
  }

  /** The flipped weights add up to at least 1, since the best one is 1. */
  lemma FlippedSumAtLeastOne(fitness: seq<real>)
    requires |fitness| > 0 && Min(fitness) < Max(fitness)
    ensures Sum(Flipped(fitness, Min(fitness), Max(fitness))) >= 1.0
  {
    var raw := Flipped(fitness, Min(fitness), Max(fitness));
    var k :| 0 <= k < |fitness| && fitness[k] == Min(fitness);
    forall i | 0 <= i < |raw|
      ensures raw[i] >= 0.0
    {
      FlippedBounds(fitness, i);
    }
    FlippedBounds(fitness, k);
    SumAtLeastElement(raw, k);
  }

  lemma {:induction false} SumNonnegative(s: seq<real>)
    requires forall i :: 0 <= i < |s| ==> s[i] >= 0.0
    ensures Sum(s) >= 0.0
  {
    if s != [] {
      SumNonnegative(s[..|s| - 1]);
    }
  }

  /** A sum of non-negative values is at least each of them. */
  lemma {:induction false} SumAtLeastElement(s: seq<real>, k: int)
    requires forall i :: 0 <= i < |s| ==> s[i] >= 0.0
    requires 0 <= k < |s|
    ensures Sum(s) >= s[k]
  {
    var prefix := s[..|s| - 1];
    if k == |s| - 1 {
      SumNonnegative(prefix);
    } else {
      SumAtLeastElement(prefix, k);
    }
  }

  /** Dividing every element by the total divides the sum by it. */
  lemma {:induction false} SumNormalised(ws: seq<real>, total: real)
    requires total != 0.0
    ensures Sum(Normalised(ws, total)) == Sum(ws) / total
  {
    if ws != [] {
      var n := |ws|;
      var prefix := ws[..n - 1];
      assert Normalised(ws, total)[..n - 1] == Normalised(prefix, total);
      SumNormalised(prefix, total);
      DivideSum(Sum(prefix), ws[n - 1], total);
    }
  }

  lemma DivideSum(a: real, b: real, d: real)
    requires d != 0.0
    ensures a / d + b / d == (a + b) / d
  {
  }

  /**
   * When the values are not all equal the wheel has one non-negative weight
   * per value and the weights sum to exactly 1.
   */
  lemma WeightsFormDistribution(fitness: seq<real>)
    requires |fitness| > 0 && Min(fitness) < Max(fitness)
    ensures var w := SelectionWeights(fitness).value;
      && |w| == |fitness|
      && (forall i :: 0 <= i < |w| ==> w[i] >= 0.0)
      && Sum(w) == 1.0
  {
    var raw := Flipped(fitness, Min(fitness), Max(fitness));
    forall i | 0 <= i < |raw|
      ensures raw[i] >= 0.0
    {
      FlippedBounds(fitness, i);
    }
    FlippedSumAtLeastOne(fitness);
    NormalisedDistribution(raw);
  }

  /** Non-negative weights divided by their positive sum are a distribution. */
  lemma NormalisedDistribution(raw: seq<real>)
    requires forall i :: 0 <= i < |raw| ==> raw[i] >= 0.0
    requires Sum(raw) > 0.0
    ensures var w := Normalised(raw, Sum(raw));
      && (forall i :: 0 <= i < |w| ==> w[i] >= 0.0)
      && Sum(w) == 1.0
  {
    var total := Sum(raw);
    var w := Normalised(raw, total);
    forall i | 0 <= i < |w|
      ensures w[i] >= 0.0
    {
      DivMonotone(0.0, raw[i], total);
      ZeroDiv(total);
    }
    SumNormalised(raw, total);
    DivSelf(total);
  }

  /** Dividing by a positive number keeps the order of two reals, both ways. */
  lemma DivMonotone(a: real, b: real, d: real)
    requires d > 0.0
    ensures a <= b <==> a / d <= b / d
  {
    var p, q := a / d, b / d;
    assert (q - p) * d == b - a;
  }

  /**
   * Lower fitness never gets a smaller weight: one value is at most another
   * exactly when its weight is at least the other's.
   */
  lemma WeightsReverseFitness(fitness: seq<real>, i: int, j: int)
    requires |fitness| > 0 && Min(fitness) < Max(fitness)
    requires 0 <= i < |fitness| && 0 <= j < |fitness|
    ensures fitness[i] <= fitness[j] <==>
      SelectionWeights(fitness).value[j] <= SelectionWeights(fitness).value[i]
  {
    var raw := Flipped(fitness, Min(fitness), Max(fitness));
    FlippedSumAtLeastOne(fitness);
    ReverseWithin(fitness, Min(fitness), Max(fitness), Sum(raw), i, j);
  }

  /** The same for any bounds lo < hi and any positive total. */
  lemma ReverseWithin(fitness: seq<real>, lo: real, hi: real, total: real, i: int, j: int)
    requires lo < hi && total > 0.0
    requires 0 <= i < |fitness| && 0 <= j < |fitness|
    ensures var w := Normalised(Flipped(fitness, lo, hi), total);
      fitness[i] <= fitness[j] <==> w[j] <= w[i]
  {
    var raw := Flipped(fitness, lo, hi);
    DivMonotone(hi - fitness[j], hi - fitness[i], hi - lo);
    DivMonotone(raw[j], raw[i], total);
  }

  // ---------------------------------------------------------------------
  // Roulette-wheel parent selection (Genetic.java:136-156)
  // ---------------------------------------------------------------------

  /**
   * j is the first slot of the wheel whose running total reaches the draw d:
   * the total up to and including j is at least d, every earlier one is not.
   */
  predicate FirstReach(wheel: seq<real>, d: real, j: int)
  {
    && 0 <= j < |wheel|
    && RunningTotal(wheel, j) >= d
    && forall k :: 0 <= k < j ==> RunningTotal(wheel, k) < d
  }

  /** The sum of the wheel's weights up to and including slot j. */
  function RunningTotal(wheel: seq<real>, j: int): real
    requires 0 <= j < |wheel|
  {
    Sum(wheel[..j + 1])
  }

  /**
   * The slot a roulette spin with draw d lands on when the wheel is scanned
   * from slot `from`: the first slot whose running total reaches d, or
   * |wheel| when none does.
   */
  function SpinFrom(wheel: seq<real>, d: real, from: nat): (j: nat)
    requires from <= |wheel|
    ensures from <= j <= |wheel|
    decreases |wheel| - from
  {
    if from == |wheel| then |wheel|
    else if RunningTotal(wheel, from) >= d then from
    else SpinFrom(wheel, d, from + 1)
  }

  /** The slot a roulette spin with draw d lands on, scanning from the first slot. */
  function Spin(wheel: seq<real>, d: real): (j: nat)
    ensures j <= |wheel|
  {
    SpinFrom(wheel, d, 0)
  }

  /**
   * The scan agrees with its declarative reading: when it lands on a slot,
   * that slot is the first to reach the draw; when it runs off the wheel, no
   * running total reaches the draw.
   */
  lemma SpinIsFirstReach(wheel: seq<real>, d: real)
    ensures Spin(wheel, d) < |wheel| ==> FirstReach(wheel, d, Spin(wheel, d))
    ensures Spin(wheel, d) == |wheel| ==> forall k :: 0 <= k < |wheel| ==> RunningTotal(wheel, k) < d
    ensures forall j :: FirstReach(wheel, d, j) ==> j == Spin(wheel, d)
  {
    SpinFromIsFirstReach(wheel, d, 0);
  }

  lemma {:induction false} SpinFromIsFirstReach(wheel: seq<real>, d: real, from: nat)
    requires from <= |wheel|
    requires forall k :: 0 <= k < from ==> RunningTotal(wheel, k) < d
    ensures SpinFrom(wheel, d, from) < |wheel| ==> FirstReach(wheel, d, SpinFrom(wheel, d, from))
    ensures SpinFrom(wheel, d, from) == |wheel| ==>
      forall k :: 0 <= k < |wheel| ==> RunningTotal(wheel, k) < d
    ensures forall j :: FirstReach(wheel, d, j) ==> j == SpinFrom(wheel, d, from)
    decreases |wheel| - from
  {
    if from < |wheel| && RunningTotal(wheel, from) < d {
      SpinFromIsFirstReach(wheel, d, from + 1);
    }
  }

  /** A draw no larger than the wheel's total lands on a slot of a non-empty wheel. */
  lemma SpinLandsOnWheel(wheel: seq<real>, d: real)
    requires |wheel| > 0 && d <= Sum(wheel)
    ensures Spin(wheel, d) < |wheel|
  {
    SpinIsFirstReach(wheel, d);
    assert wheel[..|wheel|] == wheel;
    assert RunningTotal(wheel, |wheel| - 1) == Sum(wheel);
  }

  /**
   * `getParents`: for every slot, the running total of the wheel is
   * accumulated until it reaches that slot's draw, and the chromosome at that
   * index is taken.
   */
  method GetParents(rouletteWheel: seq<real>, population: array<Point>, draws: seq<real>)
    returns (parents: array<Point>)
    requires |rouletteWheel| == population.Length == |draws|
    requires forall i :: 0 <= i < |draws| ==> draws[i] <= Sum(rouletteWheel)
    ensures fresh(parents) && parents.Length == population.Length
    ensures forall i :: 0 <= i < parents.Length ==>
      Spin(rouletteWheel, draws[i]) < population.Length
      && parents[i] == population[Spin(rouletteWheel, draws[i])]
  {
    parents := new Point[population.Length];
    for i := 0 to population.Length
      invariant forall k :: 0 <= k < i ==>
        Spin(rouletteWheel, draws[k]) < population.Length
        && parents[k] == population[Spin(rouletteWheel, draws[k])]
    {
      var randomValue := draws[i];
      var accumulatedFitness := 0.0;
      var j := 0;
      SpinLandsOnWheel(rouletteWheel, randomValue);
      while j < |rouletteWheel|
        invariant 0 <= j <= |rouletteWheel|
        invariant accumulatedFitness == Sum(rouletteWheel[..j])
        invariant Spin(rouletteWheel, randomValue) == SpinFrom(rouletteWheel, randomValue, j)
        invariant forall k :: 0 <= k < i ==> parents[k] == population[Spin(rouletteWheel, draws[k])]
      {
        assert rouletteWheel[..j + 1][..j] == rouletteWheel[..j];
        accumulatedFitness := accumulatedFitness + rouletteWheel[j];
        if accumulatedFitness >= randomValue {
          parents[i] := population[j];
          break;
        }
        j := j + 1;
      }
      if j == |rouletteWheel| {
        assert false;
      }
    }
  }

  /**
   * On the wheel of a population whose fitness values are not all equal,
   * every draw in [0, 1) lands on a slot, and that slot is the first whose
   * running total reaches the draw, so `getParents` fills every slot.
   */
  lemma WheelCoversDraws(fitness: seq<real>, d: real)
    requires |fitness| > 0 && Min(fitness) < Max(fitness) && InUnit(d)
    ensures d <= Sum(SelectionWeights(fitness).value)
    ensures Spin(SelectionWeights(fitness).value, d) < |fitness|
    ensures FirstReach(SelectionWeights(fitness).value, d, Spin(SelectionWeights(fitness).value, d))
  {
    var w := SelectionWeights(fitness).value;
    WeightsFormDistribution(fitness);
    SpinLandsOnWheel(w, d);
    SpinIsFirstReach(w, d);
  }

  // ---------------------------------------------------------------------
  // Crossover and mutation (Genetic.java:103-134)
  // ---------------------------------------------------------------------

  /**
   * The draws of one `crossover`: the blend factors for x and y, the
   * add-or-subtract choice (`nextInt(2) == 0` adds) and the two mutation
   * draws.
   */
  datatype CrossoverDraws = CrossoverDraws(alpha: real, beta: real, add: bool, mx: real, my: real)

  predicate ValidCrossoverDraws(d: CrossoverDraws)
  {
    InUnit(d.alpha) && InUnit(d.beta) && InUnit(d.mx) && InUnit(d.my)
  }

  /** v lies in the closed interval spanned by a and b. */
  predicate Between(v: real, a: real, b: real)
  {
    (a <= v <= b) || (b <= v <= a)
  }

  /** The weighted average `alpha * a + (1 - alpha) * b` of one coordinate. */
  function Blend(alpha: real, a: real, b: real): (r: real)
    requires InUnit(alpha)
    ensures Between(r, a, b)
  {
    BlendBetween(alpha, a, b);
    alpha * a + (1.0 - alpha) * b
  }

  lemma BlendBetween(alpha: real, a: real, b: real)
    requires InUnit(alpha)
    ensures Between(alpha * a + (1.0 - alpha) * b, a, b)
  {
    if a <= b {
      BlendOrdered(alpha, a, b);
    } else {
      BlendOrdered(1.0 - alpha, b, a);
      BlendSwap(alpha, a, b);
    }
  }

  /** A weighted average of lo <= hi lies between them. */
  lemma BlendOrdered(alpha: real, lo: real, hi: real)
    requires 0.0 <= alpha <= 1.0 && lo <= hi
    ensures lo <= alpha * lo + (1.0 - alpha) * hi <= hi
  {
    BlendGaps(alpha, lo, hi);
    MulNonnegative(1.0 - alpha, hi - lo);
    MulNonnegative(alpha, hi - lo);
  }

  /** How far a blend lies above lo and below hi. */
  lemma BlendGaps(alpha: real, lo: real, hi: real)
    ensures alpha * lo + (1.0 - alpha) * hi - lo == (1.0 - alpha) * (hi - lo)
    ensures hi - (alpha * lo + (1.0 - alpha) * hi) == alpha * (hi - lo)
  {
  }

  lemma MulNonnegative(a: real, b: real)
    requires a >= 0.0 && b >= 0.0
    ensures a * b >= 0.0
  {
  }

  lemma BlendSwap(alpha: real, a: real, b: real)
    ensures (1.0 - alpha) * b + (1.0 - (1.0 - alpha)) * a == alpha * a + (1.0 - alpha) * b
  {
  }

  /** A mutation magnitude `min + u * (max - min)`, within [0.0001, 0.1). */
  function MutationStep(u: real): (m: real)
    requires InUnit(u)
    ensures MIN_MUTATION <= m < MAX_MUTATION
  {
    Sample(MIN_MUTATION, MAX_MUTATION, u)
  }

  /**
   * `crossover`: x and y are blended independently from the parents; with
   * mutation both are then shifted by their own magnitude in [0.0001, 0.1),
   * in the one direction chosen for both; the fitness is evaluated at the
   * final coordinates.
   */
  function Crossover(parent1: Point, parent2: Point, mutate: bool, d: CrossoverDraws,
                     f: (real, real) -> real): (child: Point)
    requires ValidCrossoverDraws(d)
    ensures child.z == f(child.x, child.y)
    ensures !mutate ==> Between(child.x, parent1.x, parent2.x) && Between(child.y, parent1.y, parent2.y)
    ensures mutate ==>
      var dx := child.x - Blend(d.alpha, parent1.x, parent2.x);
      var dy := child.y - Blend(d.beta, parent1.y, parent2.y);
      && (if d.add then MIN_MUTATION <= dx < MAX_MUTATION else MIN_MUTATION <= -dx < MAX_MUTATION)
      && (if d.add then MIN_MUTATION <= dy < MAX_MUTATION else MIN_MUTATION <= -dy < MAX_MUTATION)
  {
    var x := Blend(d.alpha, parent1.x, parent2.x);
    var y := Blend(d.beta, parent1.y, parent2.y);
    var x' := if !mutate then x else if d.add then x + MutationStep(d.mx) else x - MutationStep(d.mx);
    var y' := if !mutate then y else if d.add then y + MutationStep(d.my) else y - MutationStep(d.my);
    Point(x', y', f(x', y'))
  }

  /** Without mutation, two parents at the same (x, y) have a child there too. */
  lemma CrossoverOfEqualParents(parent1: Point, parent2: Point, d: CrossoverDraws, f: (real, real) -> real)
    requires ValidCrossoverDraws(d)
    requires parent1.x == parent2.x && parent1.y == parent2.y
    ensures var child := Crossover(parent1, parent2, false, d, f);
      child.x == parent1.x && child.y == parent1.y && child.z == f(parent1.x, parent1.y)
  {
  }

  // ---------------------------------------------------------------------
  // A new generation (Genetic.java:84-101)
  // ---------------------------------------------------------------------

  /**
   * `getNewPopulation`: slot i is the crossover of the i-th parents, mutated
   * when the slot's draw falls below the mutation rate; the flag is reset for
   * the next slot.
   */
  method GetNewPopulation(parents1: array<Point>, parents2: array<Point>, mutationDraws: seq<real>,
                          crossDraws: seq<CrossoverDraws>, f: (real, real) -> real)
    returns (newPopulation: array<Point>)
    requires parents1.Length <= parents2.Length
    requires |mutationDraws| == |crossDraws| == parents1.Length
    requires forall i :: 0 <= i < |crossDraws| ==> ValidCrossoverDraws(crossDraws[i])
    ensures fresh(newPopulation) && newPopulation.Length == parents1.Length
    ensures forall i :: 0 <= i < newPopulation.Length ==>
      newPopulation[i]
        == Crossover(parents1[i], parents2[i], mutationDraws[i] < MUTATION_RATE, crossDraws[i], f)
  {
    newPopulation := new Point[parents1.Length];
    var mutate := false;
    for i := 0 to parents1.Length
      invariant !mutate
      invariant forall k :: 0 <= k < i ==>
        newPopulation[k]
          == Crossover(parents1[k], parents2[k], mutationDraws[k] < MUTATION_RATE, crossDraws[k], f)
    {
      if mutationDraws[i] < MUTATION_RATE {
        mutate := true;
      }
      newPopulation[i] := Crossover(parents1[i], parents2[i], mutate, crossDraws[i], f);
      mutate := false;
    }
  }

  // ---------------------------------------------------------------------
  // The first generation and the summaries (Genetic.java:184-219)
  // ---------------------------------------------------------------------

  /**
   * `generatePopulation`: `POPULATION_SIZE` points drawn over the rectangle,
   * each with its fitness.
   */
  method GeneratePopulation(xMin: real, xMax: real, yMin: real, yMax: real,
                            draws: seq<(real, real)>, f: (real, real) -> real)
    returns (points: array<Point>)
    requires |draws| == POPULATION_SIZE
    requires forall i :: 0 <= i < |draws| ==> InUnit(draws[i].0) && InUnit(draws[i].1)
    ensures fresh(points) && points.Length == POPULATION_SIZE
    ensures forall i :: 0 <= i < POPULATION_SIZE ==>
      points[i] == SamplePoint(xMin, xMax, yMin, yMax, draws[i].0, draws[i].1, f)
    ensures forall i :: 0 <= i < POPULATION_SIZE ==>
      && (xMin < xMax ==> xMin <= points[i].x < xMax)
      && (yMin < yMax ==> yMin <= points[i].y < yMax)
      && points[i].z == f(points[i].x, points[i].y)
  {
    points := new Point[POPULATION_SIZE];
    for i := 0 to POPULATION_SIZE
      invariant forall k :: 0 <= k < i ==>
        points[k] == SamplePoint(xMin, xMax, yMin, yMax, draws[k].0, draws[k].1, f)
    {
      var x := xMin + draws[i].0 * (xMax - xMin);
      var y := yMin + draws[i].1 * (yMax - yMin);
      var z := f(x, y);
      points[i] := Point(x, y, z);
    }
  }

  /** `findMin`: the least fitness of a non-empty population. */
  method FindMin(population: array<Point>) returns (min: real)
    requires population.Length > 0
    ensures exists k :: 0 <= k < population.Length && min == population[k].z
    ensures forall k :: 0 <= k < population.Length ==> min <= population[k].z
  {
    ghost var zs := Fitness(population[..]);
    min := population[0].z;
    for i := 0 to population.Length
      invariant min == (if i == 0 then zs[0] else Min(zs[..i]))
    {
      assert zs[..i + 1][..i] == zs[..i];
      if population[i].z < min {
        min := population[i].z;
      }
    }
    assert zs[..population.Length] == zs;
    assert min == Min(zs);
    assert forall k :: 0 <= k < population.Length ==> zs[k] == population[k].z;
  }

  /**
   * `findAverage`: the population size divided by the sum of the fitness
   * values, as written (see `ReportedAverage`).
   */
  method FindAverage(population: array<Point>) returns (average: Option<real>)
    ensures average == ReportedAverage(Fitness(population[..]))
  {
    ghost var zs := Fitness(population[..]);
    var sum := 0.0;
    for i := 0 to population.Length
      invariant sum == Sum(zs[..i])
    {
      assert zs[..i + 1] == zs[..i] + [zs[i]];
      SumAppend(zs[..i], zs[i]);
      sum := sum + population[i].z;
    }
    assert zs[..population.Length] == zs;
    average := if sum == 0.0 then None else Some(population.Length as real / sum);
  }

  /**
   * The average `findAverage` evidently means to report: the sum of the
   * fitness values divided by the population size. It lies between the least
   * and the greatest fitness.
   */
  method FindMean(population: array<Point>) returns (mean: real)
    requires population.Length > 0
    ensures mean == Mean(Fitness(population[..]))
    ensures Min(Fitness(population[..])) <= mean <= Max(Fitness(population[..]))
  {
    ghost var zs := Fitness(population[..]);
    var sum := 0.0;
    for i := 0 to population.Length
      invariant sum == Sum(zs[..i])
    {
      assert zs[..i + 1] == zs[..i] + [zs[i]];
      SumAppend(zs[..i], zs[i]);
      sum := sum + population[i].z;
    }
    assert zs[..population.Length] == zs;
    assert sum == Sum(zs);
    mean := sum / population.Length as real;
  }

  // ---------------------------------------------------------------------
  // One generation and the run (Genetic.java:53-82)
  // ---------------------------------------------------------------------

  /** The draws of one generation: two parent draws, a mutation draw and crossover draws per slot. */
  datatype GenerationDraws = GenerationDraws(
    parents1: seq<real>, parents2: seq<real>, mutation: seq<real>, cross: seq<CrossoverDraws>)

  predicate ValidGenerationDraws(d: GenerationDraws)
  {
    && |d.parents1| == |d.parents2| == |d.mutation| == |d.cross| == POPULATION_SIZE
    && (forall i :: 0 <= i < POPULATION_SIZE ==> InUnit(d.parents1[i]) && InUnit(d.parents2[i]))
    && (forall i :: 0 <= i < POPULATION_SIZE ==> ValidCrossoverDraws(d.cross[i]))
  }

  /**
   * Slot i of the next generation: the crossover of the two chromosomes the
   * slot's parent draws land on, on the wheel of a population whose fitness
   * values are not all equal.
   */
  function Child(population: seq<Point>, d: GenerationDraws, f: (real, real) -> real, i: nat): (child: Point)
    requires |population| == POPULATION_SIZE && ValidGenerationDraws(d) && i < POPULATION_SIZE
    requires Min(Fitness(population)) < Max(Fitness(population))
    ensures child.z == f(child.x, child.y)
  {
    var w := SelectionWeights(Fitness(population)).value;
    WheelCoversDraws(Fitness(population), d.parents1[i]);
    WheelCoversDraws(Fitness(population), d.parents2[i]);
    Crossover(population[Spin(w, d.parents1[i])], population[Spin(w, d.parents2[i])],
              d.mutation[i] < MUTATION_RATE, d.cross[i], f)
  }

  /**
   * One generation on values: None exactly when every fitness is equal,
   * otherwise `POPULATION_SIZE` evaluated children.
   */
  function Bred(population: seq<Point>, d: GenerationDraws, f: (real, real) -> real): (next: Option<seq<Point>>)
    requires |population| == POPULATION_SIZE && ValidGenerationDraws(d)
    ensures next.None? <==> Min(Fitness(population)) == Max(Fitness(population))
    ensures next.Some? ==> |next.value| == POPULATION_SIZE
    ensures next.Some? ==> forall i :: 0 <= i < POPULATION_SIZE ==>
      next.value[i].z == f(next.value[i].x, next.value[i].y)
  {
    if Min(Fitness(population)) == Max(Fitness(population)) then None
    else Some(seq(POPULATION_SIZE, i requires 0 <= i < POPULATION_SIZE => Child(population, d, f, i)))
  }

  /** How a run ends: after its last generation, or at a population of equal fitness. */
  datatype Evolution = Evolved(population: seq<Point>) | Stalled(population: seq<Point>)

  /** The generations of `run` on values, one draw record per generation, in order. */
  function Evolve(population: seq<Point>, generations: seq<GenerationDraws>, f: (real, real) -> real): (e: Evolution)
    requires |population| == POPULATION_SIZE
    requires forall g :: 0 <= g < |generations| ==> ValidGenerationDraws(generations[g])
    ensures |e.population| == POPULATION_SIZE
    ensures e.Stalled? ==> Min(Fitness(e.population)) == Max(Fitness(e.population))
    ensures generations == [] ==> e == Evolved(population)
    decreases |generations|
  {
    if generations == [] then Evolved(population)
    else
      match Bred(population, generations[0], f)
      case None => Stalled(population)
      case Some(next) => Evolve(next, generations[1..], f)
  }

  /** The first population of `run`: one sampled point per pair of draws. */
  function Seeded(xRange: Range, yRange: Range, draws: seq<(real, real)>, f: (real, real) -> real): (ps: seq<Point>)
    requires forall i :: 0 <= i < |draws| ==> InUnit(draws[i].0) && InUnit(draws[i].1)
    ensures |ps| == |draws|
    ensures forall i :: 0 <= i < |ps| ==> ps[i].z == f(ps[i].x, ps[i].y)
  {
    seq(|draws|, i requires 0 <= i < |draws| =>
      SamplePoint(xRange.min, xRange.max, yRange.min, yRange.max, draws[i].0, draws[i].1, f))
  }

  /**
   * The body of the generation loop of `run`: fitness list, wheel, two parent
   * arrays and the new population. When every fitness is the same the wheel
   * is all NaN, no parent is ever picked and `crossover` fails on a null
   * parent; that is the None result.
   */
  method NextGeneration(population: array<Point>, d: GenerationDraws, f: (real, real) -> real)
    returns (next: Option<array<Point>>)
    requires population.Length == POPULATION_SIZE && ValidGenerationDraws(d)
    ensures next.None? <==> Min(Fitness(population[..])) == Max(Fitness(population[..]))
    ensures next.Some? ==> fresh(next.value) && next.value.Length == POPULATION_SIZE
    ensures next.Some? ==> forall i :: 0 <= i < POPULATION_SIZE ==>
      next.value[i].z == f(next.value[i].x, next.value[i].y)
    ensures next.Some? ==> forall i :: 0 <= i < POPULATION_SIZE ==>
      var w := SelectionWeights(Fitness(population[..])).value;
      var j1, j2 := Spin(w, d.parents1[i]), Spin(w, d.parents2[i]);
      && j1 < POPULATION_SIZE && j2 < POPULATION_SIZE
      && next.value[i]
         == Crossover(population[j1], population[j2], d.mutation[i] < MUTATION_RATE, d.cross[i], f)
    ensures next.Some? ==> next.value[..] == Bred(population[..], d, f).value
  {
    ghost var zs := Fitness(population[..]);
    var fitnessValues: seq<real> := [];
    for i := 0 to population.Length
      invariant fitnessValues == zs[..i]
    {
      fitnessValues := fitnessValues + [population[i].z];
    }
    assert fitnessValues == zs;

    var rouletteWheel := ProportionalSelection(fitnessValues);
    if rouletteWheel.None? {
      return None;
    }
    var w := rouletteWheel.value;
    WeightsFormDistribution(fitnessValues);
    var parents1 := GetParents(w, population, d.parents1);
    var parents2 := GetParents(w, population, d.parents2);
    var newPopulation := GetNewPopulation(parents1, parents2, d.mutation, d.cross, f);
    assert forall i :: 0 <= i < POPULATION_SIZE ==> newPopulation[i] == Child(population[..], d, f, i);
    next := Some(newPopulation);
  }

  /**
   * `run` without its plotting: a first population, then `MAX_GENERATIONS`
   * generations. The run is `Evolve` from the seeded population: a result
   * when every generation breeds, and None exactly when some generation
   * meets a population of equal fitness.
   */
  method Run(xRange: Range, yRange: Range, initialDraws: seq<(real, real)>,
             generations: seq<GenerationDraws>, f: (real, real) -> real)
    returns (result: Option<array<Point>>)
    requires |initialDraws| == POPULATION_SIZE
    requires forall i :: 0 <= i < |initialDraws| ==> InUnit(initialDraws[i].0) && InUnit(initialDraws[i].1)
    requires |generations| == MAX_GENERATIONS
    requires forall g :: 0 <= g < |generations| ==> ValidGenerationDraws(generations[g])
    ensures result.Some? <==> Evolve(Seeded(xRange, yRange, initialDraws, f), generations, f).Evolved?
    ensures result.Some? ==> fresh(result.value)
    ensures result.Some? ==>
      result.value[..] == Evolve(Seeded(xRange, yRange, initialDraws, f), generations, f).population
    ensures result.Some? ==> forall i :: 0 <= i < POPULATION_SIZE ==>
      result.value[i].z == f(result.value[i].x, result.value[i].y)
  {
    var population := GeneratePopulation(xRange.min, xRange.max, yRange.min, yRange.max, initialDraws, f);
    ghost var run := Evolve(Seeded(xRange, yRange, initialDraws, f), generations, f);
    assert population[..] == Seeded(xRange, yRange, initialDraws, f);
    for g := 0 to MAX_GENERATIONS
      invariant fresh(population) && population.Length == POPULATION_SIZE
      invariant forall i :: 0 <= i < POPULATION_SIZE ==> population[i].z == f(population[i].x, population[i].y)
      invariant Evolve(population[..], generations[g..], f) == run
    {
      var next := NextGeneration(population, generations[g], f);
      assert generations[g..][0] == generations[g] && generations[g..][1..] == generations[g + 1..];
      if next.None? {
        return None;
      }
      population := next.value;
    }
    assert generations[MAX_GENERATIONS..] == [];
    result := Some(population);
  }
}
