/**
 * The particle swarm optimiser of Swarm.java.
 *
 * Particles and their jzy3d `Coord3d` objects are written in place and shared
 * by reference, so both are classes here. The swarm-wide global best, two
 * static fields of the Java class, is the state of class `Swarm`. Random
 * draws are parameters, and the expression evaluator is the function `f`.
 */
module ParticleSwarm {
  import opened Common

  const SWARM_SIZE := 100
  const ITERATIONS := 40
  const INERTIA_FACTOR := 0.5
  const COGNITIVE_COEFFICIENT := 1.6
  const SOCIAL_COEFFICIENT := 1.6

  /** A mutable `Coord3d`: a position, a personal best or a velocity. */
  class Coord {
    var x: real
    var y: real
    var z: real

    constructor (x: real, y: real, z: real)
      ensures Value() == Point(x, y, z)
    {
      this.x, this.y, this.z := x, y, z;
    }

    function Value(): Point
      reads this
    {
      Point(x, y, z)
    }
  }

  class Particle {
    var position: Coord
    var bestPosition: Coord
    var velocity: Coord
    var bestFitness: real

    /** `bestFitness` is never assigned here, so it keeps Java's default 0. */
    constructor (position: Coord, bestPosition: Coord, velocity: Coord)
      ensures this.position == position && this.bestPosition == bestPosition
      ensures this.velocity == velocity && bestFitness == 0.0
    {
      this.position := position;
      this.bestPosition := bestPosition;
      this.velocity := velocity;
      bestFitness := 0.0;
    }
  }

  /** The draws r1, r2 taken for the x axis, then the fresh r1, r2 for the y axis. */
  datatype VelocityDraws = VelocityDraws(r1x: real, r2x: real, r1y: real, r2y: real)

  /** A particle's position and velocity after one update. */
  datatype Motion = Motion(position: Point, velocity: Point)

  /**
   * The new velocity on one axis: inertia, a pull towards the personal best and
   * a pull towards the global best. When the personal best is the position
   * itself the cognitive pull is zero.
   */
  function NextVelocity(v: real, best: real, pos: real, globalBest: real, r1: real, r2: real): (v': real)
    ensures best == pos ==> v' == INERTIA_FACTOR * v + SOCIAL_COEFFICIENT * r2 * (globalBest - pos)
    ensures best == pos == globalBest ==> v' == INERTIA_FACTOR * v
  {
    INERTIA_FACTOR * v + COGNITIVE_COEFFICIENT * r1 * (best - pos)
      + SOCIAL_COEFFICIENT * r2 * (globalBest - pos)
  }

  /**
   * What `updateParameters` does to the values of one particle: each axis gets
   * its new velocity, the position moves by exactly that velocity, and the
   * fitness is re-evaluated at the new position.
   */
  function Move(position: Point, best: Point, velocity: Point, globalBest: Point,
                d: VelocityDraws, f: (real, real) -> real): (m: Motion)
    ensures m.velocity.x == NextVelocity(velocity.x, best.x, position.x, globalBest.x, d.r1x, d.r2x)
    ensures m.velocity.y == NextVelocity(velocity.y, best.y, position.y, globalBest.y, d.r1y, d.r2y)
    ensures m.velocity.z == velocity.z
    ensures m.position.x == position.x + m.velocity.x && m.position.y == position.y + m.velocity.y
    ensures m.position.z == f(m.position.x, m.position.y)
  {
    var vx := NextVelocity(velocity.x, best.x, position.x, globalBest.x, d.r1x, d.r2x);
    var vy := NextVelocity(velocity.y, best.y, position.y, globalBest.y, d.r1y, d.r2y);
    var x, y := position.x + vx, position.y + vy;
    Motion(Point(x, y, f(x, y)), Point(vx, vy, velocity.z))
  }

  ghost function Positions(ps: seq<Particle>): set<Coord>
    reads (set p | p in ps)`position
  {
    set p | p in ps :: p.position
  }

  ghost function Velocities(ps: seq<Particle>): set<Coord>
    reads (set p | p in ps)`velocity
  {
    set p | p in ps :: p.velocity
  }

  /** The fitness of every particle's current position. */
  ghost function Heights(ps: seq<Particle>): (zs: seq<real>)
    reads (set p | p in ps)`position, Positions(ps)
    ensures |zs| == |ps|
    ensures forall i :: 0 <= i < |ps| ==> zs[i] == ps[i].position.z
  {
    if ps == [] then [] else Heights(ps[..|ps| - 1]) + [ps[|ps| - 1].position.z]
  }

  /**
   * The object layout that `generateParticles` creates and every later step
   * keeps: a particle's personal best is the very `Coord3d` of its position
   * (Swarm.java:157 and :79 share it), its velocity is a `Coord3d` of its own,
   * and no two particles share a particle, a position or a velocity.
   */
  ghost predicate Layout(ps: seq<Particle>)
    reads (set p | p in ps)`position, (set p | p in ps)`velocity, (set p | p in ps)`bestPosition
  {
    && (forall i :: 0 <= i < |ps| ==>
          ps[i].bestPosition == ps[i].position && ps[i].velocity != ps[i].position)
    && (forall i, j :: 0 <= i < |ps| && 0 <= j < |ps| && i != j ==>
          && ps[i] != ps[j]
          && ps[i].position != ps[j].position
          && ps[i].velocity != ps[j].velocity
          && ps[i].position != ps[j].velocity)
  }

  /**
   * Putting into slot j a new particle over the same objects as the old one
   * keeps the layout.
   */
  lemma LayoutReplaced(ps: seq<Particle>, j: int, q: Particle, c: Coord)
    requires 0 <= j < |ps| && Layout(ps) && Apart(ps, c) && q !in ps
    requires q.position == ps[j].position && q.velocity == ps[j].velocity
    requires q.bestPosition == ps[j].bestPosition
    ensures Layout(ps[j := q]) && Apart(ps[j := q], c)
  {
  }

  /** No particle uses the `Coord3d` c as its position or velocity. */
  ghost predicate Apart(ps: seq<Particle>, c: Coord)
    reads (set p | p in ps)`position, (set p | p in ps)`velocity
  {
    forall i :: 0 <= i < |ps| ==> ps[i].position != c && ps[i].velocity != c
  }

  /**
   * What one scan of `findBest` leaves, starting from the global best `seed`
   * at `seedPosition`: the best drops exactly when some particle lies
   * strictly lower; after a drop it holds the coordinates of the first
   * particle of least fitness, and otherwise the position is the seed's.
   */
  ghost predicate ScannedBest(ps: seq<Particle>, seed: real, seedPosition: Point, best: real, bestPosition: Point)
    reads (set p | p in ps)`position, Positions(ps)
  {
    && (best < seed <==> exists i :: 0 <= i < |ps| && ps[i].position.z < seed)
    && (best < seed ==>
          && bestPosition.z == best
          && exists k :: FirstLowest(Heights(ps), k) && bestPosition == ps[k].position.Value())
    && (best == seed ==> bestPosition == seedPosition)
  }

  /** Index k holds the least value of zs, and no earlier index holds it. */
  ghost predicate FirstLowest(zs: seq<real>, k: int)
  {
    && 0 <= k < |zs|
    && (forall j :: 0 <= j < |zs| ==> zs[k] <= zs[j])
    && (forall j :: 0 <= j < k ==> zs[j] > zs[k])
  }

  /**
   * The personal-best loop of `run` (Swarm.java:75-82): a particle whose
   * current fitness is strictly below its best fitness takes its current
   * position object as personal best and that fitness as best fitness; every
   * other particle, and every position and velocity, is left as it was.
   */
  method UpdatePersonalBests(swarm: array<Particle>)
    requires Layout(swarm[..])
    modifies set p | p in swarm[..]
    ensures Layout(swarm[..])
    ensures forall i :: 0 <= i < swarm.Length ==>
      swarm[i].position == old(swarm[i].position) && swarm[i].velocity == old(swarm[i].velocity)
    ensures forall i :: 0 <= i < swarm.Length ==>
      swarm[i].position.Value() == old(swarm[i].position.Value())
      && swarm[i].velocity.Value() == old(swarm[i].velocity.Value())
    ensures forall i :: 0 <= i < swarm.Length ==>
      if old(swarm[i].position.z < swarm[i].bestFitness)
      then swarm[i].bestPosition == swarm[i].position && swarm[i].bestFitness == swarm[i].position.z
      else swarm[i].bestPosition == old(swarm[i].bestPosition) && swarm[i].bestFitness == old(swarm[i].bestFitness)
    ensures forall i :: 0 <= i < swarm.Length ==> swarm[i].bestFitness <= swarm[i].position.z
  {
    var i := 0;
    while i < swarm.Length
      invariant 0 <= i <= swarm.Length
      invariant Layout(swarm[..])
      invariant forall k :: 0 <= k < swarm.Length ==>
        swarm[k].position == old(swarm[k].position) && swarm[k].velocity == old(swarm[k].velocity)
      invariant forall k :: 0 <= k < i ==>
        if old(swarm[k].position.z < swarm[k].bestFitness)
        then swarm[k].bestPosition == swarm[k].position && swarm[k].bestFitness == swarm[k].position.z
        else swarm[k].bestPosition == old(swarm[k].bestPosition) && swarm[k].bestFitness == old(swarm[k].bestFitness)
      invariant forall k :: 0 <= k < i ==> swarm[k].bestFitness <= swarm[k].position.z
      invariant forall k :: i <= k < swarm.Length ==>
        swarm[k].bestPosition == old(swarm[k].bestPosition) && swarm[k].bestFitness == old(swarm[k].bestFitness)
    {
      var particle := swarm[i];
      if particle.position.z < particle.bestFitness {
        particle.bestPosition := particle.position;
        particle.bestFitness := particle.position.z;
      }
      i := i + 1;
    }
  }

  /** `generatePoint`: a fresh `Coord3d` drawn over the domain, with its fitness. */
  method GeneratePoint(xMin: real, xMax: real, yMin: real, yMax: real, u: real, v: real,
                       f: (real, real) -> real) returns (c: Coord)
    requires InUnit(u) && InUnit(v)
    ensures fresh(c)
    ensures c.Value() == SamplePoint(xMin, xMax, yMin, yMax, u, v, f)
  {
    var x := xMin + u * (xMax - xMin);
    var y := yMin + v * (yMax - yMin);
    var z := f(x, y);
    c := new Coord(x, y, z);
  }

  /**
   * `generateParticles`: `SWARM_SIZE` fresh particles, each at rest at its
   * sampled point, whose personal best is that same point object and whose
   * best fitness is 0; no objects are shared between particles.
   */
  method GenerateParticles(xMin: real, xMax: real, yMin: real, yMax: real,
                           draws: seq<(real, real)>, f: (real, real) -> real)
    returns (particles: array<Particle>)
    requires |draws| == SWARM_SIZE
    requires forall i :: 0 <= i < |draws| ==> InUnit(draws[i].0) && InUnit(draws[i].1)
    ensures fresh(particles) && particles.Length == SWARM_SIZE
    ensures Layout(particles[..])
    ensures forall i :: 0 <= i < SWARM_SIZE ==>
      fresh(particles[i]) && fresh(particles[i].position) && fresh(particles[i].velocity)
    ensures forall i :: 0 <= i < SWARM_SIZE ==>
      && particles[i].position.Value() == SamplePoint(xMin, xMax, yMin, yMax, draws[i].0, draws[i].1, f)
      && particles[i].velocity.Value() == Point(0.0, 0.0, 0.0)
      && particles[i].bestFitness == 0.0
  {
    var built: seq<Particle> := [];
    for i := 0 to SWARM_SIZE
      invariant |built| == i
      invariant Layout(built)
      invariant forall k :: 0 <= k < i ==>
        fresh(built[k]) && fresh(built[k].position) && fresh(built[k].velocity)
      invariant forall k :: 0 <= k < i ==>
        && built[k].position.Value() == SamplePoint(xMin, xMax, yMin, yMax, draws[k].0, draws[k].1, f)
        && built[k].velocity.Value() == Point(0.0, 0.0, 0.0)
        && built[k].bestFitness == 0.0
    {
      var newPoint := GeneratePoint(xMin, xMax, yMin, yMax, draws[i].0, draws[i].1, f);
      var velocity := new Coord(0.0, 0.0, 0.0);
      var particle := new Particle(newPoint, newPoint, velocity);
      built := built + [particle];
    }
    particles := new Particle[SWARM_SIZE](i requires 0 <= i < SWARM_SIZE => built[i]);
    assert particles[..] == built;
  }

  /** Whether `updateAnimation` reports a point as it is. */
  predicate InDomain(p: Point, xRange: Range, yRange: Range)
  {
    xRange.min <= p.x <= xRange.max && yRange.min <= p.y <= yRange.max
  }

  /**
   * The point `updateAnimation` reports for a particle at p: a point inside
   * the domain as it is; one past a maximum at the corner of both maxima; one
   * below a minimum at the corner of both minima, evaluated there. The report
   * always lies in a non-empty domain.
   */
  function Displayed(p: Point, xRange: Range, yRange: Range, f: (real, real) -> real): (r: Point)
    ensures xRange.min <= xRange.max && yRange.min <= yRange.max ==>
      InDomain(r, xRange, yRange)
    ensures InDomain(p, xRange, yRange) ==> r == p
    ensures !InDomain(p, xRange, yRange) ==>
      && r.z == f(r.x, r.y)
      && ((r.x, r.y) == (xRange.max, yRange.max) || (r.x, r.y) == (xRange.min, yRange.min))
  {
    if p.x > xRange.max || p.y > yRange.max then Point(xRange.max, yRange.max, f(xRange.max, yRange.max))
    else if p.x < xRange.min || p.y < yRange.min then Point(xRange.min, yRange.min, f(xRange.min, yRange.min))
    else p
  }

  /**
   * The clamp of `updateAnimation`: slot j of `scatterValues` receives the
   * reported point of particle j, the particle's own position object when it
   * lies in the domain and a fresh `Coord3d` otherwise. Only the array is
   * written; no particle or position changes.
   */
  method UpdateAnimation(swarm: array<Particle>, xRange: Range, yRange: Range,
                         scatterValues: array<Coord>, f: (real, real) -> real)
    requires swarm.Length == SWARM_SIZE && scatterValues.Length == SWARM_SIZE
    modifies scatterValues
    ensures forall j :: 0 <= j < SWARM_SIZE ==>
      scatterValues[j].Value() == Displayed(swarm[j].position.Value(), xRange, yRange, f)
    ensures forall j :: 0 <= j < SWARM_SIZE ==>
      if InDomain(swarm[j].position.Value(), xRange, yRange)
      then scatterValues[j] == swarm[j].position
      else fresh(scatterValues[j])
  {
    for j := 0 to SWARM_SIZE
      invariant forall k :: 0 <= k < j ==>
        scatterValues[k].Value() == Displayed(swarm[k].position.Value(), xRange, yRange, f)
      invariant forall k :: 0 <= k < j ==>
        if InDomain(swarm[k].position.Value(), xRange, yRange)
        then scatterValues[k] == swarm[k].position
        else fresh(scatterValues[k])
    {
      var position := swarm[j].position;
      if position.x > xRange.max || position.y > yRange.max {
        scatterValues[j] := new Coord(xRange.max, yRange.max, f(xRange.max, yRange.max));
      } else if position.x < xRange.min || position.y < yRange.min {
        scatterValues[j] := new Coord(xRange.min, yRange.min, f(xRange.min, yRange.min));
      } else {
        scatterValues[j] := position;
      }
    }
  }

  /**
   * `findMin`: the position object of the first particle of least fitness.
   * The Java method reads `particles[0]`, so the array must not be empty.
   */
  method FindMin(particles: array<Particle>) returns (min: Coord)
    requires particles.Length > 0
    ensures exists k :: FirstLowest(Heights(particles[..]), k) && min == particles[k].position
  {
    ghost var zs := Heights(particles[..]);
    ghost var k := 0;
    min := particles[0].position;
    for i := 0 to particles.Length
      invariant 0 <= k < particles.Length && min == particles[k].position
      invariant forall j :: 0 <= j < i ==> zs[k] <= zs[j]
      invariant forall j :: 0 <= j < k ==> zs[j] > zs[k]
    {
      if particles[i].position.z < min.z {
        min := particles[i].position;
        k := i;
      }
    }
  }

  /** `findBestFitness`: the first particle of least fitness. */
  method FindBestFitness(particles: array<Particle>) returns (best: Particle)
    requires particles.Length > 0
    ensures exists k :: FirstLowest(Heights(particles[..]), k) && best == particles[k]
  {
    ghost var zs := Heights(particles[..]);
    ghost var k := 0;
    best := particles[0];
    for i := 0 to particles.Length
      invariant 0 <= k < particles.Length && best == particles[k]
      invariant forall j :: 0 <= j < i ==> zs[k] <= zs[j]
      invariant forall j :: 0 <= j < k ==> zs[j] > zs[k]
    {
      if particles[i].position.z < best.position.z {
        best := particles[i];
        k := i;
      }
    }
  }

  /**
   * `findAverage`: the number of particles divided by the sum of their
   * fitness values, as written (see `ReportedAverage`).
   */
  method FindAverage(particles: array<Particle>) returns (average: Option<real>)
    ensures average == ReportedAverage(Heights(particles[..]))
  {
    ghost var zs := Heights(particles[..]);
    var sum := 0.0;
    for i := 0 to particles.Length
      invariant sum == Sum(zs[..i])
    {
      assert zs[..i + 1] == zs[..i] + [zs[i]];
      SumAppend(zs[..i], zs[i]);
      sum := sum + particles[i].position.z;
    }
    assert zs[..particles.Length] == zs;
    average := if sum == 0.0 then None else Some(particles.Length as real / sum);
    assert Heights(particles[..]) == zs;
  }

  /**
   * The average `findAverage` evidently means to report: the sum of the
   * fitness values divided by their number. It lies between the least and
   * the greatest fitness.
   */
  method FindMean(particles: array<Particle>) returns (mean: real)
    requires particles.Length > 0
    ensures mean == Mean(Heights(particles[..]))
    ensures Min(Heights(particles[..])) <= mean <= Max(Heights(particles[..]))
  {
    ghost var zs := Heights(particles[..]);
    var sum := 0.0;
    for i := 0 to particles.Length
      invariant sum == Sum(zs[..i])
    {
      assert zs[..i + 1] == zs[..i] + [zs[i]];
      SumAppend(zs[..i], zs[i]);
      sum := sum + particles[i].position.z;
    }
    assert zs[..particles.Length] == zs;
    assert sum == Sum(zs) && Heights(particles[..]) == zs;
    mean := sum / particles.Length as real;
  }

  /**
   * The display copy `run` makes before its loop: a new array of new
   * `Coord3d` objects holding the values of the particles' positions.
   */
  method CopyPositions(particles: array<Particle>) returns (copies: array<Coord>)
    ensures fresh(copies) && copies.Length == particles.Length
    ensures forall i :: 0 <= i < copies.Length ==>
      fresh(copies[i]) && copies[i].Value() == particles[i].position.Value()
  {
    var built: seq<Coord> := [];
    for i := 0 to particles.Length
      invariant |built| == i
      invariant forall k :: 0 <= k < i ==> fresh(built[k]) && built[k].Value() == particles[k].position.Value()
    {
      var position := particles[i].position;
      var copy := new Coord(position.x, position.y, position.z);
      built := built + [copy];
    }
    copies := new Coord[particles.Length](i requires 0 <= i < particles.Length => built[i]);
  }

  /** The static state of the Java class: the global best of the run. */
  class Swarm {
    var globalBestFitness: real
    const globalBestPosition: Coord

    /** Both statics start at Java's defaults: fitness 0 at the origin. */
    constructor ()
      ensures globalBestFitness == 0.0 && fresh(globalBestPosition)
      ensures globalBestPosition.Value() == Point(0.0, 0.0, 0.0)
    {
      globalBestFitness := 0.0;
      globalBestPosition := new Coord(0.0, 0.0, 0.0);
    }

    /**
     * `run` seeds the global best fitness from the first particle
     * (Swarm.java:70) but leaves the global best position where it was.
     */
    method SeedGlobalBest(swarm: array<Particle>)
      requires swarm.Length > 0
      modifies this
      ensures globalBestFitness == swarm[0].position.z
      ensures globalBestPosition.Value() == old(globalBestPosition.Value())
    {
      globalBestFitness := swarm[0].position.z;
    }

    /**
     * `findBest`: the global best only improves, ends at or below every
     * particle's fitness, and is replaced exactly when some particle is
     * strictly better; it then holds the coordinates and fitness of the first
     * particle of least fitness, and otherwise it is left untouched.
     */
    method FindBest(swarm: array<Particle>)
      requires Apart(swarm[..], globalBestPosition)
      modifies this, globalBestPosition
      ensures globalBestFitness <= old(globalBestFitness)
      ensures forall i :: 0 <= i < swarm.Length ==> globalBestFitness <= swarm[i].position.z
      ensures globalBestFitness < old(globalBestFitness) <==>
        exists i :: 0 <= i < swarm.Length && swarm[i].position.z < old(globalBestFitness)
      ensures globalBestFitness < old(globalBestFitness) ==>
        && globalBestPosition.z == globalBestFitness
        && exists k :: FirstLowest(Heights(swarm[..]), k) && globalBestPosition.Value() == swarm[k].position.Value()
      ensures globalBestFitness == old(globalBestFitness) ==>
        globalBestPosition.Value() == old(globalBestPosition.Value())
      ensures forall i :: 0 <= i < swarm.Length ==>
        swarm[i].position.Value() == old(swarm[i].position.Value())
        && swarm[i].velocity.Value() == old(swarm[i].velocity.Value())
    {
      ghost var zs := Heights(swarm[..]);
      ghost var b := -1;
      var i := 0;
      while i < swarm.Length
        invariant 0 <= i <= swarm.Length
        invariant forall k :: 0 <= k < swarm.Length ==> swarm[k].position.Value() == old(swarm[k].position.Value())
        invariant globalBestFitness <= old(globalBestFitness)
        invariant forall k :: 0 <= k < i ==> globalBestFitness <= zs[k]
        invariant globalBestFitness == old(globalBestFitness) ==>
          globalBestPosition.Value() == old(globalBestPosition.Value())
        invariant -1 <= b < i && (b == -1 <==> globalBestFitness == old(globalBestFitness))
        invariant b >= 0 ==>
          && globalBestFitness == zs[b]
          && globalBestPosition.Value() == swarm[b].position.Value()
          && forall j :: 0 <= j < b ==> zs[j] > zs[b]
      {
        var particle := swarm[i];
        assert particle.position.z == zs[i] && particle.position != globalBestPosition;
        if particle.position.z < globalBestFitness {
          globalBestFitness := particle.position.z;
          globalBestPosition.x := particle.position.x;
          globalBestPosition.y := particle.position.y;
          globalBestPosition.z := particle.position.z;
          assert globalBestPosition.Value() == particle.position.Value();
          b := i;
        }
        i := i + 1;
      }
      assert forall k :: 0 <= k < swarm.Length ==> Heights(swarm[..])[k] == zs[k];
    }

    /**
     * `updateParameters`: writes the new velocity and position into the
     * particle's own `Coord3d` objects and returns a new particle holding those
     * same objects and the old best fitness. A personal best that is the
     * position object moves with it; one that is not keeps its value.
     */
    method UpdateParameters(particle: Particle, d: VelocityDraws, f: (real, real) -> real)
      returns (next: Particle)
      requires particle.velocity != particle.position && particle.velocity != particle.bestPosition
      requires particle.position != globalBestPosition && particle.velocity != globalBestPosition
      modifies particle.velocity, particle.position
      ensures fresh(next)
      ensures next.position == particle.position && next.bestPosition == particle.bestPosition
      ensures next.velocity == particle.velocity && next.bestFitness == particle.bestFitness
      ensures Motion(next.position.Value(), next.velocity.Value())
           == Move(old(particle.position.Value()), old(particle.bestPosition.Value()),
                   old(particle.velocity.Value()), globalBestPosition.Value(), d, f)
      ensures particle.bestPosition != particle.position ==>
        particle.bestPosition.Value() == old(particle.bestPosition.Value())
    {
      ghost var m := Move(particle.position.Value(), particle.bestPosition.Value(),
                          particle.velocity.Value(), globalBestPosition.Value(), d, f);
      particle.velocity.x := INERTIA_FACTOR * particle.velocity.x
        + COGNITIVE_COEFFICIENT * d.r1x * (particle.bestPosition.x - particle.position.x)
        + SOCIAL_COEFFICIENT * d.r2x * (globalBestPosition.x - particle.position.x);
      assert particle.velocity.x == m.velocity.x;
      particle.velocity.y := INERTIA_FACTOR * particle.velocity.y
        + COGNITIVE_COEFFICIENT * d.r1y * (particle.bestPosition.y - particle.position.y)
        + SOCIAL_COEFFICIENT * d.r2y * (globalBestPosition.y - particle.position.y);
      assert particle.velocity.y == m.velocity.y;

      particle.position.x := particle.position.x + particle.velocity.x;
      particle.position.y := particle.position.y + particle.velocity.y;
      particle.position.z := f(particle.position.x, particle.position.y);
      assert particle.position.Value() == m.position && particle.velocity.Value() == m.velocity;

      next := new Particle(particle.position, particle.bestPosition, particle.velocity);
      next.bestFitness := particle.bestFitness;
    }

    /**
     * One step of the update loop of `run` (Swarm.java:90): slot j receives
     * the particle `updateParameters` returns for it. Every other slot, and
     * the position and velocity of every other particle, stay as they were.
     */
    method UpdateSlot(swarm: array<Particle>, j: int, d: VelocityDraws, f: (real, real) -> real)
      requires 0 <= j < swarm.Length
      requires Layout(swarm[..]) && Apart(swarm[..], globalBestPosition)
      modifies swarm, swarm[j].position, swarm[j].velocity
      ensures Layout(swarm[..]) && Apart(swarm[..], globalBestPosition)
      ensures globalBestPosition.Value() == old(globalBestPosition.Value())
      ensures fresh(swarm[j])
      ensures swarm[j].position == old(swarm[j].position) && swarm[j].velocity == old(swarm[j].velocity)
      ensures swarm[j].bestFitness == old(swarm[j].bestFitness)
      ensures Motion(swarm[j].position.Value(), swarm[j].velocity.Value())
           == Move(old(swarm[j].position.Value()), old(swarm[j].position.Value()),
                   old(swarm[j].velocity.Value()), globalBestPosition.Value(), d, f)
      ensures forall i :: 0 <= i < swarm.Length && i != j ==>
        && swarm[i] == old(swarm[i])
        && swarm[i].position.Value() == old(swarm[i].position.Value())
        && swarm[i].velocity.Value() == old(swarm[i].velocity.Value())
    {
      var next := UpdateParameters(swarm[j], d, f);
      LayoutReplaced(swarm[..], j, next, globalBestPosition);
      swarm[j] := next;
    }

    /**
     * The update loop of `run` (Swarm.java:88-91): every slot receives the
     * particle `updateParameters` returns, which moves by the velocity rule
     * with its own draws. The layout is kept, so each personal best still is
     * its position object and the cognitive pull stays zero.
     */
    method UpdateSwarm(swarm: array<Particle>, draws: seq<VelocityDraws>, f: (real, real) -> real)
      requires swarm.Length == SWARM_SIZE && |draws| == SWARM_SIZE
      requires Layout(swarm[..]) && Apart(swarm[..], globalBestPosition)
      modifies swarm, Positions(swarm[..]), Velocities(swarm[..])
      ensures Layout(swarm[..]) && Apart(swarm[..], globalBestPosition)
      ensures globalBestPosition.Value() == old(globalBestPosition.Value())
      ensures forall i :: 0 <= i < SWARM_SIZE ==>
        && fresh(swarm[i])
        && swarm[i].position == old(swarm[i].position) && swarm[i].velocity == old(swarm[i].velocity)
        && swarm[i].bestFitness == old(swarm[i].bestFitness)
      ensures forall i :: 0 <= i < SWARM_SIZE ==>
        Motion(swarm[i].position.Value(), swarm[i].velocity.Value())
          == Move(old(swarm[i].position.Value()), old(swarm[i].position.Value()),
                  old(swarm[i].velocity.Value()), globalBestPosition.Value(), draws[i], f)
    {
      var j := 0;
      while j < SWARM_SIZE
        invariant 0 <= j <= SWARM_SIZE
        invariant Layout(swarm[..]) && Apart(swarm[..], globalBestPosition)
        invariant globalBestPosition.Value() == old(globalBestPosition.Value())
        invariant forall i :: 0 <= i < SWARM_SIZE ==>
          && swarm[i].position == old(swarm[i].position) && swarm[i].velocity == old(swarm[i].velocity)
          && swarm[i].bestFitness == old(swarm[i].bestFitness)
        invariant forall i :: 0 <= i < j ==>
          && fresh(swarm[i])
          && Motion(swarm[i].position.Value(), swarm[i].velocity.Value())
             == Move(old(swarm[i].position.Value()), old(swarm[i].bestPosition.Value()),
                     old(swarm[i].velocity.Value()), globalBestPosition.Value(), draws[i], f)
        invariant forall i :: j <= i < SWARM_SIZE ==>
          && swarm[i] == old(swarm[i])
          && swarm[i].position.Value() == old(swarm[i].position.Value())
          && swarm[i].velocity.Value() == old(swarm[i].velocity.Value())
      {
        UpdateSlot(swarm, j, draws[j], f);
        j := j + 1;
      }
    }

    /**
     * The first half of a pass of `run` (Swarm.java:75-86): every particle
     * takes its current fitness as its personal best when that is lower, then
     * the global best is taken over the swarm, as `ScannedBest` describes.
     * Positions are left as they are, so the global best ends at or below
     * every particle's fitness.
     */
    method Evaluate(swarm: array<Particle>)
      requires Layout(swarm[..]) && Apart(swarm[..], globalBestPosition)
      modifies this, globalBestPosition, set p | p in swarm[..]
      ensures swarm[..] == old(swarm[..])
      ensures Layout(swarm[..]) && Apart(swarm[..], globalBestPosition)
      ensures globalBestFitness <= old(globalBestFitness)
      ensures forall i :: 0 <= i < swarm.Length ==> globalBestFitness <= swarm[i].position.z
      ensures forall i :: 0 <= i < swarm.Length ==>
        && swarm[i].position == old(swarm[i].position) && swarm[i].velocity == old(swarm[i].velocity)
        && swarm[i].position.Value() == old(swarm[i].position.Value())
      ensures forall i :: 0 <= i < swarm.Length ==>
        if old(swarm[i].position.z < swarm[i].bestFitness)
        then swarm[i].bestPosition == swarm[i].position && swarm[i].bestFitness == swarm[i].position.z
        else swarm[i].bestPosition == old(swarm[i].bestPosition) && swarm[i].bestFitness == old(swarm[i].bestFitness)
      ensures ScannedBest(swarm[..], old(globalBestFitness), old(globalBestPosition.Value()),
                          globalBestFitness, globalBestPosition.Value())
    {
      UpdatePersonalBests(swarm);
      assert Apart(swarm[..], globalBestPosition);
      ghost var seed, seedPosition := globalBestFitness, globalBestPosition.Value();
      assert seed == old(globalBestFitness) && seedPosition == old(globalBestPosition.Value());
      FindBest(swarm);
    }

    /**
     * The second half of a pass (Swarm.java:88-93): every particle moves, then
     * the display copy is refreshed from the moved swarm.
     */
    method Advance(swarm: array<Particle>, xRange: Range, yRange: Range, scatterValues: array<Coord>,
                   draws: seq<VelocityDraws>, f: (real, real) -> real)
      requires swarm.Length == SWARM_SIZE && scatterValues.Length == SWARM_SIZE && |draws| == SWARM_SIZE
      requires Layout(swarm[..]) && Apart(swarm[..], globalBestPosition)
      modifies swarm, scatterValues, Positions(swarm[..]), Velocities(swarm[..])
      ensures Layout(swarm[..]) && Apart(swarm[..], globalBestPosition)
      ensures globalBestPosition.Value() == old(globalBestPosition.Value())
      ensures forall i :: 0 <= i < SWARM_SIZE ==>
        && fresh(swarm[i])
        && swarm[i].position == old(swarm[i].position) && swarm[i].velocity == old(swarm[i].velocity)
        && swarm[i].bestFitness == old(swarm[i].bestFitness)
      ensures forall i :: 0 <= i < SWARM_SIZE ==>
        Motion(swarm[i].position.Value(), swarm[i].velocity.Value())
          == Move(old(swarm[i].position.Value()), old(swarm[i].position.Value()),
                  old(swarm[i].velocity.Value()), globalBestPosition.Value(), draws[i], f)
      ensures forall j :: 0 <= j < SWARM_SIZE ==>
        scatterValues[j].Value() == Displayed(swarm[j].position.Value(), xRange, yRange, f)
    {
      UpdateSwarm(swarm, draws, f);
      ghost var moved := swarm[..];
      UpdateAnimation(swarm, xRange, yRange, scatterValues, f);
      assert swarm[..] == moved;
    }

    /**
     * One pass of the loop of `run` (Swarm.java:74-94). The global best never
     * rises and ends at or below the fitness every particle had when the pass
     * began; every slot then holds a new particle over the same position and
     * velocity objects, so the layout survives the pass.
     */
    method Iterate(swarm: array<Particle>, xRange: Range, yRange: Range, scatterValues: array<Coord>,
                   draws: seq<VelocityDraws>, f: (real, real) -> real)
      requires swarm.Length == SWARM_SIZE && scatterValues.Length == SWARM_SIZE && |draws| == SWARM_SIZE
      requires Layout(swarm[..]) && Apart(swarm[..], globalBestPosition)
      modifies this, globalBestPosition, swarm, scatterValues
      modifies (set p | p in swarm[..]), Positions(swarm[..]), Velocities(swarm[..])
      ensures Layout(swarm[..]) && Apart(swarm[..], globalBestPosition)
      ensures globalBestFitness <= old(globalBestFitness)
      ensures forall i :: 0 <= i < SWARM_SIZE ==> globalBestFitness <= old(swarm[i].position.z)
      ensures forall i :: 0 <= i < SWARM_SIZE ==>
        && fresh(swarm[i])
        && swarm[i].position == old(swarm[i].position) && swarm[i].velocity == old(swarm[i].velocity)
    {
      Evaluate(swarm);
      ghost var best := globalBestFitness;
      Advance(swarm, xRange, yRange, scatterValues, draws, f);
      assert globalBestFitness == best;
    }

    /**
     * `run` without its plotting: a fresh swarm, a display copy of it, the
     * global best seeded from the first particle, then `ITERATIONS` passes.
     * The global best ends at or below the first particle's starting fitness.
     */
    method Run(xRange: Range, yRange: Range, pointDraws: seq<(real, real)>,
               passDraws: seq<seq<VelocityDraws>>, f: (real, real) -> real)
      returns (swarm: array<Particle>)
      requires |pointDraws| == SWARM_SIZE
      requires forall i :: 0 <= i < |pointDraws| ==> InUnit(pointDraws[i].0) && InUnit(pointDraws[i].1)
      requires |passDraws| == ITERATIONS && forall i :: 0 <= i < |passDraws| ==> |passDraws[i]| == SWARM_SIZE
      modifies this, globalBestPosition
      ensures fresh(swarm) && swarm.Length == SWARM_SIZE
      ensures Layout(swarm[..]) && Apart(swarm[..], globalBestPosition)
      ensures globalBestFitness
        <= SamplePoint(xRange.min, xRange.max, yRange.min, yRange.max, pointDraws[0].0, pointDraws[0].1, f).z
    {
      swarm := GenerateParticles(xRange.min, xRange.max, yRange.min, yRange.max, pointDraws, f);

      var scatterValues := CopyPositions(swarm);

      SeedGlobalBest(swarm);
      ghost var seed := globalBestFitness;

      for i := 0 to ITERATIONS
        invariant fresh(swarm) && swarm.Length == SWARM_SIZE && fresh(scatterValues)
        invariant Layout(swarm[..]) && Apart(swarm[..], globalBestPosition)
        invariant forall k :: 0 <= k < SWARM_SIZE ==>
          fresh(swarm[k]) && fresh(swarm[k].position) && fresh(swarm[k].velocity)
        invariant globalBestFitness <= seed
      {
        Iterate(swarm, xRange, yRange, scatterValues, passDraws[i], f);
      }
    }
  }
}
