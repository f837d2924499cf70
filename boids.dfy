/** The `Boids` behaviour: its rule list, the per-frame steering step
    (`UpdateMovement`) and the integration step (`Update`, `UpdatePosition`).

    A boid's `transform.position` and `velocity` are the state that changes;
    the manager it was initialised with is the `Config` it reads.  The hits
    of the physics query and `Time.deltaTime` are passed in. */
module Boids {
  import opened Vectors
  import opened GameObjects
  import opened BoidRules
  import opened BoidsManager

  /** `rule => rule.Movement(gameObject, neighbors)` */
  function MovementOf(mag: Vec -> real, boid: Vec, neighbors: seq<Body>): (r: Rule -> Vec)
    requires IsMagnitude(mag)
    ensures forall inner :: r(WeightedRule(inner, 0.0)) == Zero
  {
    rule => Movement(mag, rule, boid, neighbors)
  }

  /** `rules.Select(..).Aggregate(Vector3.zero, (acc, v) => acc + v)`: the
      rules' vectors added up from zero, in list order. */
  function RulesSum(mag: Vec -> real, rules: seq<Rule>, boid: Vec, neighbors: seq<Body>): (r: Vec)
    requires IsMagnitude(mag)
    ensures |rules| == 1 ==> r == Movement(mag, rules[0], boid, neighbors)
    ensures (forall i :: 0 <= i < |rules| ==> rules[i].WeightedRule? && rules[i].weight == 0.0) ==> r == Zero
  {
    var f := MovementOf(mag, boid, neighbors);
    SumOfZeros(f, rules);
    SumOf(f, rules)
  }

  /** The clamp of `UpdateMovement`: a vector longer than `speed` is rescaled
      to length `speed` in the same direction; any other is left alone.  A
      negative `speed` makes every non-zero vector longer than it, and the
      rescaling then reverses it and gives it length `-speed`. */
  function ClampToSpeed(mag: Vec -> real, v: Vec, speed: real): (r: Vec)
    requires IsMagnitude(mag)
    ensures mag(v) <= speed ==> r == v
    ensures 0.0 <= speed ==> mag(r) <= speed
    ensures 0.0 <= speed < mag(v) ==> mag(r) == speed
    ensures 0.0 < speed < mag(v) ==> Normalize(mag, r) == Normalize(mag, v)
    ensures speed < 0.0 && v == Zero ==> r == Zero
    ensures speed < 0.0 && v != Zero ==> mag(r) == -speed && Normalize(mag, r) == Neg(Normalize(mag, v))
  {
    if mag(v) > speed then
      ClampedLength(mag, v, speed);
      Scale(Normalize(mag, v), speed)
    else
      v
  }

  lemma ClampedLength(mag: Vec -> real, v: Vec, speed: real)
    requires IsMagnitude(mag)
    requires speed < mag(v)
    ensures var r := Scale(Normalize(mag, v), speed);
            (0.0 <= speed ==> mag(r) == speed) &&
            (0.0 < speed ==> Normalize(mag, r) == Normalize(mag, v)) &&
            (v == Zero ==> r == Zero) &&
            (speed < 0.0 && v != Zero ==> mag(r) == -speed && Normalize(mag, r) == Neg(Normalize(mag, v)))
  {
    MagnitudeZero(mag, v);
    var u := Normalize(mag, v);
    if v == Zero {
      ScaleZero(speed);
    } else if 0.0 <= speed {
      MagnitudeOfScaledUnit(mag, u, speed);
      if 0.0 < speed {
        NormalizeScaled(mag, u, speed);
        NormalizeUnit(mag, u);
      }
    } else {
      ReversedUnit(mag, u, speed);
    }
  }

  /** A unit vector scaled by a negative factor `k` has length `-k` and
      points the other way. */
  lemma ReversedUnit(mag: Vec -> real, u: Vec, k: real)
    requires IsMagnitude(mag)
    requires SqrMagnitude(u) == 1.0 && k < 0.0
    ensures mag(Scale(u, k)) == -k
    ensures Normalize(mag, Scale(u, k)) == Neg(u)
  {
    var p := -k;
    NegatedFactor(u, k);
    NegOfScale(u, p);
    ReversedUnitScaled(mag, u, p);
  }

  lemma NegOfScale(u: Vec, p: real)
    ensures Neg(Scale(u, p)) == Scale(Neg(u), p)
  {}

  /** The vector `UpdateMovement` returns: the summed rule vectors, clamped to
      `movementSpeed`. */
  function SteeringDelta(mag: Vec -> real, rules: seq<Rule>, boid: Vec, neighbors: seq<Body>, speed: real): (r: Vec)
    requires IsMagnitude(mag)
    ensures 0.0 <= speed ==> mag(r) <= speed
    ensures mag(RulesSum(mag, rules, boid, neighbors)) <= speed ==> r == RulesSum(mag, rules, boid, neighbors)
    ensures speed < 0.0 && RulesSum(mag, rules, boid, neighbors) != Zero ==> mag(r) == -speed
  {
    ClampToSpeed(mag, RulesSum(mag, rules, boid, neighbors), speed)
  }

  /** How far `UpdatePosition` moves the boid: the direction of the velocity
      times `movementSpeed * deltaTime`; nothing for a zero velocity. */
  function Displacement(mag: Vec -> real, velocity: Vec, speed: real, deltaTime: real): (r: Vec)
    requires IsMagnitude(mag)
    ensures velocity == Zero ==> r == Zero
    ensures velocity != Zero ==> SqrMagnitude(r) == Square(Mul(speed, deltaTime))
    ensures velocity != Zero && 0.0 <= Mul(speed, deltaTime) ==> mag(r) == Mul(speed, deltaTime)
    ensures velocity != Zero && Mul(speed, deltaTime) < 0.0 ==> mag(r) == -Mul(speed, deltaTime)
    ensures velocity != Zero && 0.0 < Mul(speed, deltaTime) ==> Normalize(mag, r) == Normalize(mag, velocity)
    ensures velocity != Zero && Mul(speed, deltaTime) < 0.0 ==> Normalize(mag, r) == Neg(Normalize(mag, velocity))
  {
    StepAlongVelocity(mag, velocity, speed, deltaTime);
    Scale(Scale(Normalize(mag, velocity), speed), deltaTime)
  }

  lemma StepAlongVelocity(mag: Vec -> real, velocity: Vec, speed: real, deltaTime: real)
    requires IsMagnitude(mag)
    ensures var r := Scale(Scale(Normalize(mag, velocity), speed), deltaTime);
            var s := Mul(speed, deltaTime);
            (velocity == Zero ==> r == Zero) &&
            (velocity != Zero ==> SqrMagnitude(r) == Square(s)) &&
            (velocity != Zero && 0.0 <= s ==> mag(r) == s) &&
            (velocity != Zero && s < 0.0 ==> mag(r) == -s) &&
            (velocity != Zero && 0.0 < s ==> Normalize(mag, r) == Normalize(mag, velocity)) &&
            (velocity != Zero && s < 0.0 ==> Normalize(mag, r) == Neg(Normalize(mag, velocity)))
  {
    var dir := Normalize(mag, velocity);
    var s := Mul(speed, deltaTime);
    ScaleTwice(dir, speed, deltaTime);
    if velocity == Zero {
      ScaleZero(s);
    } else {
      SqrMagnitudeScale(dir, s);
      if 0.0 <= s {
        MagnitudeOfScaledUnit(mag, dir, s);
        if 0.0 < s {
          NormalizeScaled(mag, dir, s);
          NormalizeUnit(mag, dir);
        }
      } else {
        ReversedUnit(mag, dir, s);
      }
    }
  }

  lemma ScaleTwice(v: Vec, a: real, b: real)
    ensures Scale(Scale(v, a), b) == Scale(v, Mul(a, b))
  {}

  /** The four rules `Init` builds, in this order. */
  function InitialRules(manager: Config): (r: seq<Rule>)
    ensures |r| == 4
    ensures forall i :: 0 <= i < |r| ==> r[i].WeightedRule? && !r[i].rule.WeightedRule?
    ensures forall i, j :: 0 <= i < j < |r| ==> r[i].rule != r[j].rule
  {
    [ WeightedRule(CohesionMovement, manager.cohesionForce),
      WeightedRule(AlignmentMovement, manager.alignmentForce),
      WeightedRule(SeparationMovement, manager.separationForce),
      WeightedRule(LimitMovement(manager.spawnRadius), manager.limitForce) ]
  }

  /** One boid.  `position` is its `transform.position`; its rotation is not
      modelled. */
  class Boid {
    const id: Id
    /* `manager` and `rules` are private and written only by `Init`. */
    const manager: Config
    var position: Vec
    var velocity: Vec
    const rules: seq<Rule>

    /** `Boids.Init`, for a boid spawned at `position` facing `forward`. */
    constructor Init(id: Id, position: Vec, forward: Vec, manager: Config)
      ensures this.id == id && this.position == position && this.manager == manager
      ensures velocity == Scale(forward, manager.movementSpeed)
      ensures rules == InitialRules(manager)
    {
      this.id := id;
      this.position := position;
      this.manager := manager;
      velocity := Scale(forward, manager.movementSpeed);
      this.rules := InitialRules(manager);
    }

    /** `Boids.UpdateMovement`: ask the manager for neighbours, add up the
        rules' vectors and clamp the sum to `movementSpeed`. */
    method UpdateMovement(mag: Vec -> real, hits: seq<Body>) returns (newVelocity: Vec)
      requires IsMagnitude(mag)
      ensures newVelocity == SteeringDelta(mag, rules, position, Neighbors(hits, id, manager.maxNeighbers), manager.movementSpeed)
      ensures 0.0 <= manager.movementSpeed ==> mag(newVelocity) <= manager.movementSpeed
    {
      var neighbors := GetNeighbors(hits, id, manager.maxNeighbers);
      newVelocity := RulesSum(mag, rules, position, neighbors);
      if mag(newVelocity) > manager.movementSpeed {
        newVelocity := Scale(Normalize(mag, newVelocity), manager.movementSpeed);
      }
    }

    /** `Boids.UpdatePosition`: normalises its own copy of the velocity and
        moves the boid along it by `movementSpeed * deltaTime`; the velocity
        field is left as it is. */
    method UpdatePosition(mag: Vec -> real, velocity: Vec, deltaTime: real)
      requires IsMagnitude(mag)
      modifies this`position
      ensures position == Add(old(position), Displacement(mag, velocity, manager.movementSpeed, deltaTime))
      ensures this.velocity == old(this.velocity)
    {
      var dir := Normalize(mag, velocity);
      position := Add(position, Scale(Scale(dir, manager.movementSpeed), deltaTime));
    }

    /** `Boids.Update`: add the clamped steering vector to the velocity (the
        velocity itself is not clamped), then move along the new velocity. */
    method Update(mag: Vec -> real, hits: seq<Body>, deltaTime: real)
      requires IsMagnitude(mag)
      modifies this`velocity, this`position
      ensures velocity == Add(old(velocity),
        SteeringDelta(mag, rules, old(position), Neighbors(hits, id, manager.maxNeighbers), manager.movementSpeed))
      ensures position == Add(old(position), Displacement(mag, velocity, manager.movementSpeed, deltaTime))
    {
      var delta := UpdateMovement(mag, hits);
      var newVelocity := Add(velocity, delta);
      velocity := newVelocity;
      UpdatePosition(mag, newVelocity, deltaTime);
    }
  }

  /* Properties of the steering step. */

  /** The order of the rules does not matter: any permutation of the rule
      list sums to the same vector. */
  lemma RulesSumPermutation(mag: Vec -> real, rules: seq<Rule>, others: seq<Rule>, boid: Vec, neighbors: seq<Body>)
    requires IsMagnitude(mag)
    requires multiset(rules) == multiset(others)
    ensures RulesSum(mag, rules, boid, neighbors) == RulesSum(mag, others, boid, neighbors)
  {
    SumOfPermutation(MovementOf(mag, boid, neighbors), rules, others);
  }

  /** With no neighbours (as when `maxNeighbers <= 0`) the initial rules
      reduce to the weighted limit rule alone. */
  lemma OnlyLimitWithoutNeighbours(mag: Vec -> real, manager: Config, boid: Vec)
    requires IsMagnitude(mag)
    ensures RulesSum(mag, InitialRules(manager), boid, [])
         == Scale(Limit(mag, manager.spawnRadius, boid), manager.limitForce)
  {
    var f := MovementOf(mag, boid, []);
    var rs := InitialRules(manager);
    InitialMovementsAlone(mag, manager, boid);
    assert f(rs[0]) == Zero && f(rs[1]) == Zero && f(rs[2]) == Zero;
    SumAfterZeros(f, rs);
  }

  /** Without neighbours the first three initial rules yield nothing and the
      last yields the weighted limit vector. */
  lemma InitialMovementsAlone(mag: Vec -> real, manager: Config, boid: Vec)
    requires IsMagnitude(mag)
    ensures var rs := InitialRules(manager);
            Movement(mag, rs[0], boid, []) == Zero &&
            Movement(mag, rs[1], boid, []) == Zero &&
            Movement(mag, rs[2], boid, []) == Zero &&
            Movement(mag, rs[3], boid, []) == Scale(Limit(mag, manager.spawnRadius, boid), manager.limitForce)
  {
    var rs := InitialRules(manager);
    ScaleZero(manager.cohesionForce);
    ScaleZero(manager.alignmentForce);
    ScaleZero(manager.separationForce);
    assert Movement(mag, rs[0], boid, []) == Zero by {
      assert Movement(mag, CohesionMovement, boid, []) == Cohesion(mag, boid, []) == Zero;
    }
    assert Movement(mag, rs[1], boid, []) == Zero by {
      assert Movement(mag, AlignmentMovement, boid, []) == Alignment(mag, []) == Zero;
    }
    assert Movement(mag, rs[2], boid, []) == Zero by {
      assert Movement(mag, SeparationMovement, boid, []) == Separation(mag, boid, []) == Zero;
    }
    assert Movement(mag, LimitMovement(manager.spawnRadius), boid, []) == Limit(mag, manager.spawnRadius, boid);
  }

  /** A sum of four vectors whose first three are zero is the fourth. */
  lemma SumAfterZeros<T>(f: T -> Vec, xs: seq<T>)
    requires |xs| == 4 && f(xs[0]) == Zero && f(xs[1]) == Zero && f(xs[2]) == Zero
    ensures SumOf(f, xs) == f(xs[3])
  {
    assert SumOf(f, xs[..1]) == Zero by {
      assert xs[..1][..0] == [];
    }
    assert SumOf(f, xs[..2]) == Zero by {
      assert xs[..2][..1] == xs[..1];
    }
    assert SumOf(f, xs[..3]) == Zero by {
      assert xs[..3][..2] == xs[..2];
    }
    assert xs[..|xs| - 1] == xs[..3];
  }

  /** The velocity field itself is not clamped: with `movementSpeed` 1, a
      boid flying at (1, 0, 0) whose rules ask for (1, 0, 0) more keeps that
      delta whole and ends up with a velocity of length 2. */
  lemma StoredVelocityIsNotClamped(mag: Vec -> real)
    requires IsMagnitude(mag)
    ensures var v := Vec(1.0, 0.0, 0.0);
            ClampToSpeed(mag, v, 1.0) == v && mag(Add(v, ClampToSpeed(mag, v, 1.0))) == 2.0
  {
    var v := Vec(1.0, 0.0, 0.0);
    MagnitudeOnAxis(mag, 1.0);
    assert Add(v, v) == Vec(2.0, 0.0, 0.0);
    MagnitudeOnAxis(mag, 2.0);
  }
}
