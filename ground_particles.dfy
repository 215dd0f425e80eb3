// The particles that stream between the player and the brush while the
// terrain is raised or lowered (GroundParticle, GroundParticleSystemModel).
// A fixed pool of particle objects is recycled round-robin; each visible
// particle flies towards its target, speeding up as it gets closer, and
// disappears on arrival.
//
// `Math.sqrt` is a parameter (see Geometry.IsSqrt). The player is
// represented by its position, passed to the operations that read it.

module GroundParticles {
  import opened Wrappers
  import opened Geometry
  import opened BrushMode

  /** Where a particle flies: to the player, or to the point it was given. */
  datatype Direction = ToPlayer | ToMouse

  /** `Color.FromString("#00ff00")`, the default particle colour. */
  const Green := Color(0.0, 1.0, 0.0, 1.0)

  /** Everything a particle holds, as a value. */
  datatype ParticleState = ParticleState(
    position: Vec3, velocity: Vec3, mass: real, size: real, visible: bool,
    color: Color, t0: real, direction: Direction, baseSpeed: real,
    initialDistance: real, previousProgress: real, targetPos: Vec3)

  /** The speed factor for progress `p`: 0.8 at the start, growing with the square of `p`. */
  function SpeedUp(p: real): real {
    0.8 + 2.2 * p * p
  }

  /** On progress in [0, 1] the factor lies between 0.8 and 3, growing with the progress. */
  lemma SpeedUpBounds(p: real, q: real)
    requires 0.0 <= p <= q <= 1.0
    ensures 0.8 <= SpeedUp(p) <= SpeedUp(q) <= 3.0
  {
    assert p * p <= q * q by {
      assert p * p <= p * q <= q * q;
    }
    assert q * q <= 1.0 by {
      assert q * q <= q * 1.0;
    }
  }

  /** The progress `getSpeed` measures: distance covered as a fraction, plus time since emission. */
  function Progress(s: ParticleState, currentDistance: real, t: real): real
    requires s.initialDistance > 0.0
  {
    1.0 - (currentDistance / s.initialDistance) + (t - s.t0)
  }

  /** What `getSpeed` measures: the speed, and the progress it records. */
  datatype Reading = Reading(speed: real, progress: real)

  /**
   * `getSpeed` as a value: the speed and the new recorded progress. With no
   * initial distance the base speed, progress untouched; otherwise the
   * recorded progress is raised to the measured one and capped at 1.
   */
  function SpeedStep(s: ParticleState, currentDistance: real, t: real): (r: Reading) {
    if s.initialDistance <= 0.0 then Reading(s.baseSpeed, s.previousProgress)
    else
      var p := Min(1.0, Max(s.previousProgress, Progress(s, currentDistance, t)));
      Reading(s.baseSpeed * SpeedUp(p), p)
  }

  /**
   * The recorded progress never decreases and stays in [0, 1], and the
   * speed lies between 0.8 and 3 times a non-negative base speed.
   */
  lemma SpeedStepBounds(s: ParticleState, currentDistance: real, t: real)
    requires 0.0 <= s.previousProgress <= 1.0
    ensures var r := SpeedStep(s, currentDistance, t);
      s.previousProgress <= r.progress <= 1.0
      && (s.initialDistance <= 0.0 ==> r.speed == s.baseSpeed && r.progress == s.previousProgress)
      && (s.initialDistance > 0.0 && s.baseSpeed >= 0.0 ==> 0.8 * s.baseSpeed <= r.speed <= 3.0 * s.baseSpeed)
  {
    if s.initialDistance > 0.0 {
      var p := Min(1.0, Max(s.previousProgress, Progress(s, currentDistance, t)));
      var f := SpeedUp(p);
      SpeedUpBounds(p, p);
      var r := SpeedStep(s, currentDistance, t);
      assert r.progress == p;
      if s.baseSpeed >= 0.0 {
        SpeedScaled(s.baseSpeed, f, r.speed);
      }
    }
  }

  lemma SpeedScaled(base: real, f: real, speed: real)
    requires base >= 0.0 && 0.8 <= f <= 3.0 && speed == base * f
    ensures 0.8 * base <= speed <= 3.0 * base
  {
  }

  /** What `getTarget` returns: the player for a `ToPlayer` particle, its stored target otherwise. */
  function TargetOf(s: ParticleState, playerPos: Vec3): Vec3 {
    if s.direction == ToPlayer then playerPos else s.targetPos
  }

  /** Closer than this, a particle counts as arrived. */
  const ArrivalDistance: real := 0.01

  /**
   * One particle in one `timeUpdate` of the system, `elapsed` time after the
   * last: an invisible particle is left alone. A visible one measures the
   * distance to its target and its speed; it is hidden if this step would
   * reach or pass the target or it is already closer than 0.01, and
   * otherwise moves straight towards the target by speed times elapsed time.
   */
  function StepParticle(sqrt: real -> real, s: ParticleState, playerPos: Vec3, t: real, elapsed: real): ParticleState
  {
    if !s.visible then s
    else
      var target := TargetOf(s, playerPos);
      var d := Length(sqrt, target.Minus(s.position));
      StepToward(sqrt, s, target, d, SpeedStep(s, d, t), elapsed)
  }

  /**
   * The step of a visible particle aiming at `target`, at distance
   * `currentDistance` from it, once its speed is measured as `r`: it records
   * the progress, then moves or is hidden.
   */
  function StepToward(sqrt: real -> real, s: ParticleState, target: Vec3, currentDistance: real, r: Reading, elapsed: real): ParticleState
    requires currentDistance == Length(sqrt, target.Minus(s.position))
  {
    MoveToward(sqrt, s.(previousProgress := r.progress), target, currentDistance, r.speed * elapsed)
  }

  /**
   * The end of a visible particle's step, given its distance to the target
   * and how far it may move: hidden on arrival, otherwise moved along the
   * straight line to the target.
   */
  function MoveToward(sqrt: real -> real, s: ParticleState, target: Vec3, currentDistance: real, moveDistance: real): ParticleState
    requires currentDistance == Length(sqrt, target.Minus(s.position))
  {
    if moveDistance >= currentDistance || currentDistance < ArrivalDistance then s.(visible := false)
    else
      s.(position := s.position.Plus(Normalized(sqrt, target.Minus(s.position)).Times(moveDistance)))
  }

  /**
   * A step leaves an invisible particle as it is, never makes a particle
   * visible, changes nothing but visibility, position and recorded
   * progress, and keeps the recorded progress in [0, 1] and non-decreasing.
   */
  lemma StepParticleFrame(sqrt: real -> real, s: ParticleState, playerPos: Vec3, t: real, elapsed: real)
    requires 0.0 <= s.previousProgress <= 1.0
    ensures var r := StepParticle(sqrt, s, playerPos, t, elapsed);
      (!s.visible ==> r == s)
      && (r.visible ==> s.visible)
      && r == s.(visible := r.visible, position := r.position, previousProgress := r.previousProgress)
      && s.previousProgress <= r.previousProgress <= 1.0
  {
    if s.visible {
      var currentDistance := Length(sqrt, TargetOf(s, playerPos).Minus(s.position));
      SpeedStepBounds(s, currentDistance, t);
    }
  }

  /**
   * A particle still visible after a step was visible before, its step was
   * shorter than its distance to its target, and it ends exactly that much
   * closer to the target.
   */
  lemma {:induction false} StepParticleApproaches(sqrt: real -> real, s: ParticleState, playerPos: Vec3, t: real, elapsed: real)
    requires IsSqrt(sqrt)
    requires StepParticle(sqrt, s, playerPos, t, elapsed).visible
    ensures s.visible
    ensures var d := Length(sqrt, TargetOf(s, playerPos).Minus(s.position));
      ArrivalDistance <= d && SpeedStep(s, d, t).speed * elapsed < d
    ensures var target := TargetOf(s, playerPos);
      var d := Length(sqrt, target.Minus(s.position));
      Length(sqrt, target.Minus(StepParticle(sqrt, s, playerPos, t, elapsed).position)) == d - SpeedStep(s, d, t).speed * elapsed
  {
    var target := TargetOf(s, playerPos);
    var d := Length(sqrt, target.Minus(s.position));
    var step := SpeedStep(s, d, t);
    var s' := s.(previousProgress := step.progress);
    var m := step.speed * elapsed;
    StepParticleMoves(sqrt, s, playerPos, t, elapsed, target, d, s', m);
    MoveTowardApproaches(sqrt, s', target, d, m);
  }

  /** The step of a visible particle is `MoveToward` with the measured speed and progress. */
  lemma StepParticleMoves(sqrt: real -> real, s: ParticleState, playerPos: Vec3, t: real, elapsed: real,
                          target: Vec3, d: real, s': ParticleState, m: real)
    requires s.visible && target == TargetOf(s, playerPos) && d == Length(sqrt, target.Minus(s.position))
    requires s' == s.(previousProgress := SpeedStep(s, d, t).progress) && m == SpeedStep(s, d, t).speed * elapsed
    ensures StepParticle(sqrt, s, playerPos, t, elapsed) == MoveToward(sqrt, s', target, d, m)
  {
  }

  /** `MoveToward` either hides the particle or brings it exactly `moveDistance` closer. */
  lemma MoveTowardApproaches(sqrt: real -> real, s: ParticleState, target: Vec3, currentDistance: real, moveDistance: real)
    requires IsSqrt(sqrt) && currentDistance == Length(sqrt, target.Minus(s.position))
    requires MoveToward(sqrt, s, target, currentDistance, moveDistance).visible
    ensures ArrivalDistance <= currentDistance && moveDistance < currentDistance
    ensures Length(sqrt, target.Minus(MoveToward(sqrt, s, target, currentDistance, moveDistance).position))
         == currentDistance - moveDistance
  {
    StepApproachesTarget(sqrt, s.position, target, moveDistance);
  }

  /**
   * A particle that moves in a step ends exactly `moveDistance` closer to
   * the target it aimed at: it never overshoots, and it moves along the
   * straight line to the target.
   */
  lemma {:induction false} StepApproachesTarget(sqrt: real -> real, position: Vec3, target: Vec3, moveDistance: real)
    requires IsSqrt(sqrt)
    requires moveDistance < Length(sqrt, target.Minus(position)) && Length(sqrt, target.Minus(position)) > 0.0
    ensures target.Minus(position).SquaredLength() > 0.0
    ensures var direction := target.Minus(position);
      var moved := position.Plus(Normalized(sqrt, direction).Times(moveDistance));
      Length(sqrt, target.Minus(moved)) == Length(sqrt, direction) - moveDistance
  {
    var direction := target.Minus(position);
    var d := Length(sqrt, direction);
    if direction.SquaredLength() == 0.0 { SqrtUnique(sqrt, 0.0, 0.0); }
    SqrtOfSquare(sqrt, direction.SquaredLength());
    var k := 1.0 - moveDistance / d;
    RemainingFraction(d, moveDistance);
    var rest := target.Minus(position.Plus(Normalized(sqrt, direction).Times(moveDistance)));
    MovedRest(position, target, d, moveDistance);
    assert rest == direction.Times(k);
    ScaledLength(sqrt, direction, k, d);
  }

  /** Moving `m` short of a distance `d` leaves the positive fraction `1 - m / d`, that is `d - m`. */
  lemma RemainingFraction(d: real, m: real)
    requires m < d && d > 0.0
    ensures 1.0 - m / d > 0.0 && (1.0 - m / d) * d == d - m
  {
    assert m / d < 1.0;
  }

  /** Scaling a vector of length `d` by `k >= 0` gives length `k * d`. */
  lemma ScaledLength(sqrt: real -> real, v: Vec3, k: real, d: real)
    requires IsSqrt(sqrt) && 0.0 <= k && 0.0 <= d && d * d == v.SquaredLength()
    ensures Length(sqrt, v.Times(k)) == k * d
  {
    ScaledSquaredLength(v, k);
    SquareOfProduct(k, d, v.SquaredLength());
    SqrtUnique(sqrt, v.Times(k).SquaredLength(), k * d);
  }

  /** Moving `m` along the unit direction `(target - position) / d` leaves `(1 - m / d)` of the way. */
  lemma MovedRest(position: Vec3, target: Vec3, d: real, m: real)
    requires d > 0.0
    ensures var direction := target.Minus(position);
      var u := Vec3(direction.x / d, direction.y / d, direction.z / d);
      target.Minus(position.Plus(u.Times(m))) == direction.Times(1.0 - m / d)
  {
    var direction := target.Minus(position);
    var u := Vec3(direction.x / d, direction.y / d, direction.z / d);
    var rest := target.Minus(position.Plus(u.Times(m)));
    ScaledComponent(direction.x, d, m);
    ScaledComponent(direction.y, d, m);
    ScaledComponent(direction.z, d, m);
    assert rest.x == direction.x - u.x * m;
    assert rest.y == direction.y - u.y * m;
    assert rest.z == direction.z - u.z * m;
  }

  lemma SquareOfProduct(k: real, d: real, s: real)
    requires s == d * d
    ensures (k * k) * s == (k * d) * (k * d)
  {
  }

  lemma ScaledSquaredLength(v: Vec3, k: real)
    ensures v.Times(k).SquaredLength() == (k * k) * (v.SquaredLength())
  {
    assert (v.x * k) * (v.x * k) == (k * k) * (v.x * v.x);
    assert (v.y * k) * (v.y * k) == (k * k) * (v.y * v.y);
    assert (v.z * k) * (v.z * k) == (k * k) * (v.z * v.z);
  }

  lemma ScaledComponent(a: real, d: real, m: real)
    requires d > 0.0
    ensures a - (a / d) * m == a * (1.0 - m / d)
  {
  }

  /** The state `reset` leaves: every field reassigned, absent arguments replaced by their defaults. */
  function ResetState(sqrt: real -> real, dir: Direction, t0: real, position: Vec3, target: Vec3,
                      color: Option<Color>, speed: Option<real>, velocity: Option<Vec3>,
                      mass: Option<real>, size: Option<real>): ParticleState
  {
    ParticleState(position, velocity.GetOr(Zero3), mass.GetOr(1.0), size.GetOr(0.1), true,
                  color.GetOr(Green), t0, dir, speed.GetOr(3.0),
                  Length(sqrt, position.Minus(target)), 0.0, target)
  }

  class GroundParticle {
    // Fields of the particle base class.
    var position: Vec3
    var velocity: Vec3
    var mass: real
    var size: real
    var visible: bool
    // Fields of the ground particle.
    var color: Color
    var t0: real
    var direction: Direction
    var baseSpeed: real
    var initialDistance: real
    var previousProgress: real
    var targetPos: Vec3

    function State(): ParticleState
      reads this
    {
      ParticleState(position, velocity, mass, size, visible, color, t0, direction, baseSpeed,
                    initialDistance, previousProgress, targetPos)
    }

    /** The recorded progress lies in [0, 1]. */
    ghost predicate Valid()
      reads this
    {
      0.0 <= previousProgress <= 1.0
    }

    /**
     * `new GroundParticle(dir, speed, ..., color)`: base speed 3 and colour
     * green unless given, progress 0, initial distance 1. Position,
     * velocity, mass, size and visibility are set by the particle base
     * class and left unspecified here.
     */
    constructor (dir: Direction, speed: Option<real>, particleColor: Option<Color>)
      ensures Valid()
      ensures direction == dir && baseSpeed == speed.GetOr(3.0) && color == particleColor.GetOr(Green)
      ensures t0 == 0.0 && initialDistance == 1.0 && previousProgress == 0.0 && targetPos == Zero3
    {
      direction := dir;
      color := particleColor.GetOr(Green);
      baseSpeed := speed.GetOr(3.0);
      t0 := 0.0;
      initialDistance := 1.0;
      previousProgress := 0.0;
      targetPos := Zero3;
    }

    /** `getTarget`: the mouse position it is given plays no part. */
    function GetTarget(playerPos: Vec3, mousePos: Vec3): (target: Vec3)
      reads this
      ensures target == TargetOf(State(), playerPos)
      ensures direction == ToPlayer ==> target == playerPos
      ensures direction == ToMouse ==> target == targetPos
    {
      if direction == ToPlayer then playerPos else targetPos
    }

    /** `getSpeed`: the speed `SpeedStep` gives, recording its new progress. */
    method GetSpeed(currentDistance: real, t: real) returns (speed: real)
      modifies this`previousProgress
      ensures SpeedStep(old(State()), currentDistance, t) == Reading(speed, previousProgress)
      ensures old(Valid()) ==> Valid() && old(previousProgress) <= previousProgress
    {
      ghost var s := State();
      if initialDistance <= 0.0 {
        return baseSpeed;
      }
      var progress := 1.0 - (currentDistance / initialDistance) + (t - t0);
      assert progress == Progress(s, currentDistance, t);
      if previousProgress < progress {
        previousProgress := progress;
      }
      if previousProgress > 1.0 {
        previousProgress := 1.0;
      }
      assert previousProgress == Min(1.0, Max(s.previousProgress, progress));
      var speedUp := SpeedUp(previousProgress);
      if old(Valid()) {
        SpeedStepBounds(s, currentDistance, t);
      }
      return baseSpeed * speedUp;
    }

    /** `reset`: the particle starts over, visible, from `position` towards `target`. */
    method Reset(sqrt: real -> real, dir: Direction, t0: real, position: Vec3, target: Vec3,
                 color: Option<Color>, speed: Option<real>, velocity: Option<Vec3>,
                 mass: Option<real>, size: Option<real>)
      modifies this
      ensures State() == ResetState(sqrt, dir, t0, position, target, color, speed, velocity, mass, size)
      ensures Valid() && visible && previousProgress == 0.0
    {
      var r := ResetState(sqrt, dir, t0, position, target, color, speed, velocity, mass, size);
      this.position, this.velocity, this.mass, this.size, this.visible := r.position, r.velocity, r.mass, r.size, r.visible;
      this.color, this.t0, this.direction, this.baseSpeed := r.color, r.t0, r.direction, r.baseSpeed;
      this.initialDistance, this.previousProgress, this.targetPos := r.initialDistance, r.previousProgress, r.targetPos;
    }
  }

  // ---------------------------------------------------------------------
  // The particle system

  /** What `emitTerraformParticle` did. */
  datatype Emission =
    | Skipped            // no brush that moves ground, or too soon after the last emission
    | Emitted(index: nat) // the particle at `index` was recycled
    | NoParticles        // an empty pool: the index is NaN and the reset call throws

  /** `GroundParticleSystemModel.DEFAULT_MAX_PARTICLES`. */
  const DefaultMaxParticles: nat := 300

  /** The pool slot after `last`, round-robin over `n` slots. */
  function NextIndex(last: nat, n: nat): (i: nat)
    requires n > 0
    ensures i < n
  {
    (last + 1) % n
  }

  /**
   * What `emitTerraformParticle` decides: a particle goes out only for ADD
   * or REMOVE, and only once `1 / rate` time units have passed since the
   * last emission; it is then the next slot round-robin, and an empty pool
   * has none.
   */
  function EmissionOutcome(mode: Mode, t0: real, lastEmitTime: real, rate: real, last: nat, n: nat): (e: Emission)
    requires rate > 0.0
    ensures e.Emitted? <==> (mode == Add || mode == Remove) && t0 - lastEmitTime >= 1.0 / rate && n > 0
    ensures e.NoParticles? <==> (mode == Add || mode == Remove) && t0 - lastEmitTime >= 1.0 / rate && n == 0
    ensures e.Emitted? ==> e.index < n
  {
    if !(mode == Add || mode == Remove) || t0 - lastEmitTime < 1.0 / rate then Skipped
    else if n == 0 then NoParticles
    else Emitted(NextIndex(last, n))
  }

  /** Emission times accepted one after another: each at least `1 / rate` after the one before. */
  ghost predicate AcceptedTimes(ts: seq<real>, rate: real)
    requires rate > 0.0
  {
    forall i :: 0 < i < |ts| ==> ts[i] - ts[i - 1] >= 1.0 / rate
  }

  /**
   * The rate limit over any run of emissions: `k + 1` accepted emissions
   * span at least `k / rate` time units, so at most `rate` particles go
   * out per time unit.
   */
  lemma {:induction false} AtMostRatePerUnit(ts: seq<real>, rate: real)
    requires rate > 0.0 && |ts| > 0 && AcceptedTimes(ts, rate)
    ensures ts[|ts| - 1] - ts[0] >= (|ts| - 1) as real / rate
  {
    if |ts| > 1 {
      var front := ts[..|ts| - 1];
      assert AcceptedTimes(front, rate) by {
        forall i | 0 < i < |front|
          ensures front[i] - front[i - 1] >= 1.0 / rate
        {
          assert front[i] == ts[i] && front[i - 1] == ts[i - 1];
        }
      }
      AtMostRatePerUnit(front, rate);
      assert ts[|ts| - 1] - ts[|ts| - 2] >= 1.0 / rate;
      assert (|ts| - 1) as real / rate == (|ts| - 2) as real / rate + 1.0 / rate;
    }
  }

  /**
   * The state `emitTerraformParticle` gives the recycled particle: ADD
   * sends it from the player to the ground point, towards the mouse;
   * REMOVE sends it from the ground point back to the player. Either way
   * it shows, in the given colour, starting at time `t0` with no progress.
   */
  function EmittedState(sqrt: real -> real, mode: Mode, t0: real, playerPos: Vec3, groundPos: Vec3, color: Color): (s: ParticleState)
    ensures s.visible && s.t0 == t0 && s.color == color && s.previousProgress == 0.0
    ensures mode == Add ==> s.position == playerPos && s.targetPos == groundPos && s.direction == ToMouse
    ensures mode != Add ==> s.position == groundPos && s.targetPos == playerPos && s.direction == ToPlayer
  {
    if mode == Add then ResetState(sqrt, ToMouse, t0, playerPos, groundPos, Some(color), None, None, None, None)
    else ResetState(sqrt, ToPlayer, t0, groundPos, playerPos, Some(color), None, None, None, None)
  }

  /** The slot used by the `k`-th emission after one that used `last`. */
  function IndexAfter(last: nat, n: nat, k: nat): (i: nat)
    requires n > 0
    ensures i < n
  {
    if k == 0 then last % n else NextIndex(IndexAfter(last, n, k - 1), n)
  }

  /** Successive emissions walk the pool in order: the `k`-th uses slot `(last + k) mod n`. */
  lemma {:induction false} IndexAfterIsOffset(last: nat, n: nat, k: nat)
    requires n > 0
    ensures IndexAfter(last, n, k) == (last + k) % n
  {
    if k > 0 {
      var prev := IndexAfter(last, n, k - 1);
      IndexAfterIsOffset(last, n, k - 1);
      NextOfOffset(prev, last + (k - 1), n);
    }
  }

  /**
   * Round-robin recycling: `n` successive emissions use `n` different
   * particles, so each recycles the particle emitted least recently, and
   * the one after them reuses the first.
   */
  lemma {:induction false} RoundRobin(last: nat, n: nat, j: nat, k: nat)
    requires n > 0 && 0 < j < k <= n
    ensures IndexAfter(last, n, j) != IndexAfter(last, n, k)
    ensures IndexAfter(last, n, n + j) == IndexAfter(last, n, j)
  {
    IndexAfterIsOffset(last, n, j);
    IndexAfterIsOffset(last, n, k);
    IndexAfterIsOffset(last, n, n + j);
    ModDistinct(last + j, k - j, n);
    ModPeriod(last + j, n);
  }

  lemma MulAtLeast(d: int, n: int)
    requires n > 0 && d >= 1
    ensures d * n >= n
  {
    assert d * n == (d - 1) * n + n;
    assert (d - 1) * n >= 0;
  }

  lemma ModUnique(a: int, n: int, q: int, r: int)
    requires n > 0 && 0 <= r < n && a == q * n + r
    ensures a % n == r
  {
    var q0 := a / n;
    var r0 := a % n;
    assert a == q0 * n + r0;
    assert (q - q0) * n == r0 - r;
    if q - q0 >= 1 {
      MulAtLeast(q - q0, n);
    } else if q0 - q >= 1 {
      MulAtLeast(q0 - q, n);
    }
  }

  lemma NextOfOffset(prev: nat, a: nat, n: nat)
    requires n > 0 && prev == a % n
    ensures NextIndex(prev, n) == (a + 1) % n
  {
    ModSucc(a, n);
  }

  lemma ModSucc(a: nat, n: nat)
    requires n > 0
    ensures ((a % n) + 1) % n == (a + 1) % n
  {
    var q := a / n;
    var r := a % n;
    assert a == q * n + r;
    if r + 1 == n {
      ModUnique(r + 1, n, 1, 0);
      ModUnique(a + 1, n, q + 1, 0);
    } else {
      ModUnique(r + 1, n, 0, r + 1);
      ModUnique(a + 1, n, q, r + 1);
    }
  }

  lemma ModDistinct(a: nat, d: nat, n: nat)
    requires 0 < d < n
    ensures a % n != (a + d) % n
  {
    var q := a / n;
    var r := a % n;
    assert a == q * n + r;
    if r + d < n {
      ModUnique(a + d, n, q, r + d);
    } else {
      ModUnique(a + d, n, q + 1, r + d - n);
    }
  }

  lemma ModPeriod(a: nat, n: nat)
    requires n > 0
    ensures (a + n) % n == a % n
  {
    var q := a / n;
    assert a == q * n + a % n;
    ModUnique(a + n, n, q + 1, a % n);
  }

  class GroundParticleSystem {
    var particles: seq<GroundParticle>
    var lastEmittedIndex: nat
    var lastTimeUpdate: real
    const particlesPerSecond: real := 30.0
    var lastEmitTime: real
    var mousePos: Vec3

    /** The particles are distinct objects, each with its progress in [0, 1]. */
    ghost predicate Valid()
      reads this, particles
    {
      (forall i, j :: 0 <= i < j < |particles| ==> particles[i] != particles[j])
      && (forall i :: 0 <= i < |particles| ==> particles[i].Valid())
    }

    /**
     * `new GroundParticleSystemModel(player, nParticles)`. The base class's
     * constructor already calls `initParticles` with `nParticles`, or its
     * own default `baseDefault` when none is given; the subclass's
     * constructor then calls it again with `nParticles`, or 300. The pool
     * ends up holding both batches, every particle invisible and heading
     * for the player.
     */
    constructor (nParticles: Option<nat>, baseDefault: nat)
      ensures Valid()
      ensures |particles| == nParticles.GetOr(baseDefault) + nParticles.GetOr(DefaultMaxParticles)
      ensures forall i :: 0 <= i < |particles| ==>
        fresh(particles[i]) && !particles[i].visible && particles[i].direction == ToPlayer
      ensures lastEmittedIndex == 0 && lastTimeUpdate == -1.0 && lastEmitTime == -1.0 && mousePos == Zero3
    {
      particles := [];
      lastEmittedIndex := 0;
      lastTimeUpdate := -1.0;
      lastEmitTime := -1.0;
      mousePos := Zero3;
      new;
      InitParticles(nParticles.GetOr(baseDefault));
      InitParticles(nParticles.GetOr(DefaultMaxParticles));
    }

    /**
     * `initParticles`: appends `n` new particles heading for the player, at
     * base speed 3, green, and invisible.
     */
    method InitParticles(n: nat)
      modifies this`particles
      ensures |particles| == |old(particles)| + n && particles[..|old(particles)|] == old(particles)
      ensures forall i :: |old(particles)| <= i < |particles| ==>
        fresh(particles[i]) && !particles[i].visible && particles[i].direction == ToPlayer
        && particles[i].baseSpeed == 3.0 && particles[i].color == Green
      ensures old(Valid()) ==> Valid()
    {
      var i := 0;
      while i < n
        invariant 0 <= i <= n
        invariant |particles| == |old(particles)| + i && particles[..|old(particles)|] == old(particles)
        invariant forall k :: |old(particles)| <= k < |particles| ==>
          fresh(particles[k]) && !particles[k].visible && particles[k].direction == ToPlayer
          && particles[k].baseSpeed == 3.0 && particles[k].color == Green && particles[k].Valid()
        invariant old(Valid()) ==> Valid()
      {
        var newp := new GroundParticle(ToPlayer, None, None);
        newp.visible := false;
        particles := particles + [newp];
        i := i + 1;
      }
    }

    /**
     * `emitTerraformParticle`: nothing happens unless the brush adds or
     * removes ground and at least 1/30 of a time unit has passed since the
     * last emission. Otherwise the next particle round-robin is reset: when
     * adding ground it flies from the player to the ground point, when
     * removing from the ground point back to the player.
     */
    method EmitTerraformParticle(sqrt: real -> real, mode: Mode, groundPos: Vec3, color: Color, t0: real, playerPos: Vec3)
      returns (outcome: Emission)
      requires Valid()
      modifies this`lastEmittedIndex, this`lastEmitTime, particles
      ensures outcome == EmissionOutcome(mode, t0, old(lastEmitTime), particlesPerSecond, old(lastEmittedIndex), |particles|)
      ensures outcome.Emitted? ==>
        var i := outcome.index;
        particles[i].State() == EmittedState(sqrt, mode, t0, playerPos, groundPos, color)
        && lastEmittedIndex == i && lastEmitTime == t0
      ensures !outcome.Emitted? ==> lastEmittedIndex == old(lastEmittedIndex) && lastEmitTime == old(lastEmitTime)
      ensures forall k :: 0 <= k < |particles| && !(outcome.Emitted? && k == outcome.index) ==>
        particles[k].State() == old(particles[k].State())
      ensures Valid()
    {
      if mode == NoMode || mode == Flatten {
        return Skipped;
      }
      if t0 - lastEmitTime < 1.0 / particlesPerSecond {
        return Skipped;
      }
      if |particles| == 0 {
        return NoParticles;
      }
      var i := (lastEmittedIndex + 1) % |particles|;
      var startPos, targetPos, particleDir;
      if mode == Add {
        startPos, targetPos, particleDir := playerPos, groundPos, ToMouse;
      } else {
        startPos, targetPos, particleDir := groundPos, playerPos, ToPlayer;
      }
      particles[i].Reset(sqrt, particleDir, t0, startPos, targetPos, Some(color), None, None, None, None);
      lastEmittedIndex := i;
      lastEmitTime := t0;
      return Emitted(i);
    }

    /**
     * `timeUpdate`: the time since the previous update (none on the first)
     * is measured and recorded, and every particle takes its step.
     */
    method TimeUpdate(sqrt: real -> real, t: real, playerPos: Vec3)
      requires Valid()
      modifies this`lastTimeUpdate, particles
      ensures lastTimeUpdate == t
      ensures forall k :: 0 <= k < |particles| ==>
        particles[k].State()
        == StepParticle(sqrt, old(particles[k].State()), playerPos, t, Elapsed(old(lastTimeUpdate), t))
      ensures Valid()
    {
      if lastTimeUpdate < 0.0 {
        lastTimeUpdate := t;
      }
      var timePassed := t - lastTimeUpdate;
      assert timePassed == Elapsed(old(lastTimeUpdate), t);
      lastTimeUpdate := t;
      var i := 0;
      while i < |particles|
        invariant 0 <= i <= |particles| && lastTimeUpdate == t
        invariant forall k :: 0 <= k < i ==>
          particles[k].State() == StepParticle(sqrt, old(particles[k].State()), playerPos, t, Elapsed(old(lastTimeUpdate), t))
        invariant forall k :: i <= k < |particles| ==> particles[k].State() == old(particles[k].State())
        invariant Valid()
      {
        AdvanceParticle(sqrt, particles[i], playerPos, t, timePassed);
        i := i + 1;
      }
    }

    /** The body of `timeUpdate`'s loop, for one particle. */
    method AdvanceParticle(sqrt: real -> real, p: GroundParticle, playerPos: Vec3, t: real, timePassed: real)
      modifies p
      ensures p.State() == StepParticle(sqrt, old(p.State()), playerPos, t, timePassed)
      ensures old(p.Valid()) ==> p.Valid()
    {
      ghost var s := p.State();
      if old(p.Valid()) {
        StepParticleFrame(sqrt, s, playerPos, t, timePassed);
      }
      if p.visible {
        AdvanceVisible(sqrt, p, playerPos, t, timePassed);
      }
    }

    /** The loop body for a visible particle: measure, speed up, then move or hide. */
    method AdvanceVisible(sqrt: real -> real, p: GroundParticle, playerPos: Vec3, t: real, timePassed: real)
      requires p.visible
      modifies p
      ensures p.State() == StepParticle(sqrt, old(p.State()), playerPos, t, timePassed)
    {
      ghost var s := p.State();
      var target := p.GetTarget(playerPos, mousePos);
      var currentDistance := Length(sqrt, target.Minus(p.position));
      var speed := p.GetSpeed(currentDistance, t);
      var moveDistance := speed * timePassed;
      ghost var mid := p.State();
      assert mid == s.(previousProgress := p.previousProgress);
      assert SpeedStep(s, currentDistance, t) == Reading(speed, p.previousProgress);
      MoveParticle(sqrt, p, mid, target, currentDistance, moveDistance);
    }

    /** The end of the loop body: hide an arrived particle, move the others. */
    method MoveParticle(sqrt: real -> real, p: GroundParticle, ghost s: ParticleState,
                        target: Vec3, currentDistance: real, moveDistance: real)
      requires p.State() == s && currentDistance == Length(sqrt, target.Minus(s.position))
      modifies p
      ensures p.State() == MoveToward(sqrt, s, target, currentDistance, moveDistance)
    {
      var direction := target.Minus(p.position);
      if moveDistance >= currentDistance || currentDistance < 0.01 {
        p.visible := false;
      } else {
        p.position := p.position.Plus(Normalized(sqrt, direction).Times(moveDistance));
      }
    }
  }

  /** The time `timeUpdate` lets pass: none on the first update, otherwise the time since the last. */
  function Elapsed(lastTimeUpdate: real, t: real): (elapsed: real)
    ensures lastTimeUpdate < 0.0 ==> elapsed == 0.0
    ensures lastTimeUpdate >= 0.0 ==> lastTimeUpdate + elapsed == t
  {
    if lastTimeUpdate < 0.0 then 0.0 else t - lastTimeUpdate
  }
}
