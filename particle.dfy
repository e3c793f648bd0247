/** The particle world of `src/particle.rs`: particles move by one
    explicit Euler step of length `step` under a constant gravity and are
    reflected at the walls of the box [0, dimensions.x] x [0, dimensions.y].
    Random draws are given as the sequence of values the source's `rng`
    closure would return, in call order. */
module Particles {
  import opened Geometry

  /** `Particle` (src/particle.rs:12-21). */
  datatype Particle = Particle(position: V2, velocity: V2)

  /** One axis after the Euler step: below 0 it is put on 0, then above
      `hi` it is put on `hi`, each time with the velocity negated. The two
      tests follow each other, so with `hi < 0` both fire. */
  function Reflect(pos: real, vel: real, hi: real): (r: (real, real))
    ensures 0.0 <= hi ==> 0.0 <= r.0 <= hi
    ensures 0.0 <= pos <= hi ==> r == (pos, vel)
    ensures pos < 0.0 <= hi ==> r == (0.0, -vel)
    ensures 0.0 <= hi < pos ==> r == (hi, -vel)
  {
    var (p1, v1) := if pos < 0.0 then (0.0, -vel) else (pos, vel);
    if p1 > hi then (hi, -v1) else (p1, v1)
  }

  /** The explicit Euler step of `evolve` (src/particle.rs:58-61): the
      position moves with the old velocity, then gravity changes the
      velocity. */
  function Euler(p: Particle, gravity: V2, dt: real): Particle
  {
    Particle(Add(p.position, V2(p.velocity.x * dt, p.velocity.y * dt)),
             Add(p.velocity, V2(gravity.x * dt, gravity.y * dt)))
  }

  /** The wall tests of `evolve` (src/particle.rs:63-81), axis by axis. */
  function Bounce(p: Particle, dimensions: V2): (r: Particle)
    ensures 0.0 <= dimensions.x && 0.0 <= dimensions.y ==> InBox(r, dimensions)
  {
    var rx := Reflect(p.position.x, p.velocity.x, dimensions.x);
    var ry := Reflect(p.position.y, p.velocity.y, dimensions.y);
    Particle(V2(rx.0, ry.0), V2(rx.1, ry.1))
  }

  /** A particle after one step of `evolve` (src/particle.rs:58-81). */
  function Stepped(p: Particle, dimensions: V2, gravity: V2, dt: real): Particle
  {
    Bounce(Euler(p, gravity, dt), dimensions)
  }

  predicate InBox(p: Particle, dimensions: V2)
  {
    0.0 <= p.position.x <= dimensions.x && 0.0 <= p.position.y <= dimensions.y
  }

  /** With a box of non-negative size every particle ends up in the box. */
  lemma SteppedInBox(p: Particle, dimensions: V2, gravity: V2, dt: real)
    requires 0.0 <= dimensions.x && 0.0 <= dimensions.y
    ensures InBox(Stepped(p, dimensions, gravity, dt), dimensions)
  {
  }

  /** A particle whose Euler step stays in the box moves freely: its new
      position uses the old velocity, its new velocity adds gravity. */
  lemma SteppedFree(p: Particle, dimensions: V2, gravity: V2, dt: real)
    requires 0.0 <= p.position.x + p.velocity.x * dt <= dimensions.x
    requires 0.0 <= p.position.y + p.velocity.y * dt <= dimensions.y
    ensures Stepped(p, dimensions, gravity, dt) ==
      Particle(V2(p.position.x + p.velocity.x * dt, p.position.y + p.velocity.y * dt),
               V2(p.velocity.x + gravity.x * dt, p.velocity.y + gravity.y * dt))
  {
    var e := Euler(p, gravity, dt);
    assert Reflect(e.position.x, e.velocity.x, dimensions.x) == (e.position.x, e.velocity.x);
    assert Reflect(e.position.y, e.velocity.y, dimensions.y) == (e.position.y, e.velocity.y);
  }

  /** A particle that crosses the left wall sits on it and flies back
      with its post-gravity horizontal velocity negated. */
  lemma SteppedLeftWall(p: Particle, dimensions: V2, gravity: V2, dt: real)
    requires 0.0 <= dimensions.x
    requires p.position.x + p.velocity.x * dt < 0.0
    ensures Stepped(p, dimensions, gravity, dt).position.x == 0.0
    ensures Stepped(p, dimensions, gravity, dt).velocity.x == -(p.velocity.x + gravity.x * dt)
  {
  }

  /** A particle that crosses the right wall sits on it, reflected. */
  lemma SteppedRightWall(p: Particle, dimensions: V2, gravity: V2, dt: real)
    requires 0.0 <= dimensions.x
    requires p.position.x + p.velocity.x * dt > dimensions.x
    ensures Stepped(p, dimensions, gravity, dt).position.x == dimensions.x
    ensures Stepped(p, dimensions, gravity, dt).velocity.x == -(p.velocity.x + gravity.x * dt)
  {
  }

  /** The `k`-th particle `add_random_particles` makes from the draws
      (src/particle.rs:42-46): four draws per particle, in the order x, y,
      vx, vy. */
  function RandomParticle(dimensions: V2, rng: seq<real>, k: nat): Particle
    requires 4 * k + 3 < |rng|
  {
    Particle(V2(rng[4 * k] * dimensions.x, rng[4 * k + 1] * dimensions.y),
             V2(rng[4 * k + 2] * 100.0 - 50.0, rng[4 * k + 3] * 100.0 - 50.0))
  }

  lemma ScaleBelow(r: real, d: real)
    requires 0.0 <= r < 1.0 && 0.0 < d
    ensures 0.0 <= r * d < d
  {
    assert d - r * d == (1.0 - r) * d;
  }

  /** Draws in [0, 1) put random particles inside the box, with each
      velocity component in [-50, 50). */
  lemma RandomParticleBounds(dimensions: V2, rng: seq<real>, k: nat)
    requires 4 * k + 3 < |rng|
    requires forall j :: 0 <= j < |rng| ==> 0.0 <= rng[j] < 1.0
    requires 0.0 < dimensions.x && 0.0 < dimensions.y
    ensures var p := RandomParticle(dimensions, rng, k);
      0.0 <= p.position.x < dimensions.x && 0.0 <= p.position.y < dimensions.y &&
      -50.0 <= p.velocity.x < 50.0 && -50.0 <= p.velocity.y < 50.0
  {
    var p := RandomParticle(dimensions, rng, k);
    var a, b := rng[4 * k], rng[4 * k + 1];
    assert 0.0 <= a < 1.0 && 0.0 <= b < 1.0;
    ScaleBelow(a, dimensions.x);
    ScaleBelow(b, dimensions.y);
    assert p.position == V2(a * dimensions.x, b * dimensions.y);
  }

  /** `World` (src/particle.rs:23-28). Only `particles` ever changes. */
  class World {
    var particles: seq<Particle>
    const dimensions: V2
    const gravity: V2
    const step: real

    /** `World::new` (src/particle.rs:31-38). */
    constructor (dimensions: V2, gravity: V2)
      ensures particles == []
      ensures this.dimensions == dimensions && this.gravity == gravity
      ensures step == 0.05
    {
      this.particles := [];
      this.dimensions := dimensions;
      this.gravity := gravity;
      this.step := 0.05;
    }

    /** `World::add_random_particles` (src/particle.rs:40-49): `n`
        particles from the first `4 * n` draws, appended in order. */
    method AddRandomParticles(n: nat, rng: seq<real>)
      requires 4 * n <= |rng|
      modifies this
      ensures |particles| == |old(particles)| + n
      ensures particles[..|old(particles)|] == old(particles)
      ensures forall k :: 0 <= k < n ==> particles[|old(particles)| + k] == RandomParticle(dimensions, rng, k)
    {
      var next := 0;
      for i := 0 to n
        invariant next == 4 * i
        invariant |particles| == |old(particles)| + i
        invariant particles[..|old(particles)|] == old(particles)
        invariant forall k :: 0 <= k < i ==> particles[|old(particles)| + k] == RandomParticle(dimensions, rng, k)
      {
        var x := rng[next] * dimensions.x;
        var y := rng[next + 1] * dimensions.y;
        var vx := rng[next + 2] * 100.0 - 50.0;
        var vy := rng[next + 3] * 100.0 - 50.0;
        next := next + 4;
        particles := particles + [Particle(V2(x, y), V2(vx, vy))];
      }
    }

    /** `World::add_particle` (src/particle.rs:51-53). */
    method AddParticle(particle: Particle)
      modifies this
      ensures particles == old(particles) + [particle]
    {
      particles := particles + [particle];
    }

    /** The wall tests of the loop in `World::evolve`
        (src/particle.rs:63-81), in the source's order. */
    method Walls(p: Particle) returns (q: Particle)
      ensures q == Bounce(p, dimensions)
    {
      var position, velocity := p.position, p.velocity;
      if position.x < 0.0 {
        position := position.(x := 0.0);
        velocity := velocity.(x := -velocity.x);
      }
      if position.x > dimensions.x {
        position := position.(x := dimensions.x);
        velocity := velocity.(x := -velocity.x);
      }
      if position.y < 0.0 {
        position := position.(y := 0.0);
        velocity := velocity.(y := -velocity.y);
      }
      if position.y > dimensions.y {
        position := position.(y := dimensions.y);
        velocity := velocity.(y := -velocity.y);
      }
      q := Particle(position, velocity);
    }

    /** The body of the loop in `World::evolve` (src/particle.rs:58-81),
        updating one particle's fields in order. */
    method StepParticle(p: Particle, dt: real) returns (q: Particle)
      ensures q == Stepped(p, dimensions, gravity, dt)
    {
      var position := p.position;
      var velocity := p.velocity;
      ghost var e := Euler(p, gravity, dt);
      position := position.(x := position.x + velocity.x * dt);
      assert position.x == e.position.x;
      position := position.(y := position.y + velocity.y * dt);
      assert position == e.position;
      velocity := velocity.(x := velocity.x + gravity.x * dt);
      assert velocity.x == e.velocity.x;
      velocity := velocity.(y := velocity.y + gravity.y * dt);
      assert velocity == e.velocity;
      q := Walls(Particle(position, velocity));
    }

    /** `World::evolve` (src/particle.rs:55-83): every particle, in place
        and in order, takes one step. */
    method Evolve()
      modifies this
      ensures |particles| == |old(particles)|
      ensures forall k :: 0 <= k < |particles| ==>
        particles[k] == Stepped(old(particles)[k], dimensions, gravity, step)
      ensures 0.0 <= dimensions.x && 0.0 <= dimensions.y ==>
        forall k :: 0 <= k < |particles| ==> InBox(particles[k], dimensions)
    {
      var dt := step;
      for i := 0 to |particles|
        invariant |particles| == |old(particles)|
        invariant forall k :: 0 <= k < i ==> particles[k] == Stepped(old(particles)[k], dimensions, gravity, step)
        invariant forall k :: i <= k < |particles| ==> particles[k] == old(particles)[k]
      {
        var q := StepParticle(particles[i], dt);
        particles := particles[i := q];
      }
      if 0.0 <= dimensions.x && 0.0 <= dimensions.y {
        forall k | 0 <= k < |particles|
          ensures InBox(particles[k], dimensions)
        {
          SteppedInBox(old(particles)[k], dimensions, gravity, step);
        }
      }
    }
  }

  /** A concrete step: with `dt = 0.05` a particle at (1, 1) moving at
      (-40, 0) under gravity (0, 10) crosses the left wall of a 10 x 10
      box and bounces back. */
  lemma ExampleBounce()
    ensures Stepped(Particle(V2(1.0, 1.0), V2(-40.0, 0.0)), V2(10.0, 10.0), V2(0.0, 10.0), 0.05) ==
      Particle(V2(0.0, 1.0), V2(40.0, 0.5))
  {
  }
}
