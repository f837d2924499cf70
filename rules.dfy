/** The steering rules of Boids.cs: `IBoidRule` as a closed datatype, the
    four concrete rules, and the `WeightedRule` decorator.

    A rule sees the boid's own position (the only part of the boid that any
    rule reads) and the snapshots of its neighbours. */
module BoidRules {
  import opened Vectors
  import opened GameObjects

  /** `IBoidRule`: one constructor per implementing class. */
  datatype Rule =
    | CohesionMovement
    | AlignmentMovement
    | SeparationMovement
    | LimitMovement(limitRadius: real)
    | WeightedRule(rule: Rule, weight: real)

  /* The three accumulators, summed in list order as the `foreach` loops do;
     each is the `Select`/`Aggregate` sum of its per-neighbour term. */

  /** Sum of `neighbor.position - boid` (cohesion's accumulator). */
  function CohesionSum(boid: Vec, neighbors: seq<Body>): (r: Vec)
    ensures r == SumOf((neighbor: Body) => Sub(neighbor.position, boid), neighbors)
  {
    if neighbors == [] then Zero
    else
      var n := |neighbors|;
      Add(CohesionSum(boid, neighbors[..n - 1]), Sub(neighbors[n - 1].position, boid))
  }

  /** Sum of `neighbor.forward` (alignment's accumulator). */
  function AlignmentSum(neighbors: seq<Body>): (r: Vec)
    ensures r == SumOf((neighbor: Body) => neighbor.forward, neighbors)
  {
    if neighbors == [] then Zero
    else
      var n := |neighbors|;
      Add(AlignmentSum(neighbors[..n - 1]), neighbors[n - 1].forward)
  }

  /** Sum of `boid - neighbor.position` (separation's accumulator). */
  function SeparationSum(boid: Vec, neighbors: seq<Body>): (r: Vec)
    ensures r == SumOf((neighbor: Body) => Sub(boid, neighbor.position), neighbors)
  {
    if neighbors == [] then Zero
    else
      var n := |neighbors|;
      Add(SeparationSum(boid, neighbors[..n - 1]), Sub(boid, neighbors[n - 1].position))
  }

  /** Sum of the neighbours' positions. */
  function PositionSum(neighbors: seq<Body>): Vec {
    if neighbors == [] then Zero
    else
      var n := |neighbors|;
      Add(PositionSum(neighbors[..n - 1]), neighbors[n - 1].position)
  }

  /** The centre of the neighbours' positions. */
  function Centroid(neighbors: seq<Body>): Vec
    requires neighbors != []
  {
    Div(PositionSum(neighbors), |neighbors| as real)
  }

  /** The common tail of the three averaging rules: divide the accumulator by
      the neighbour count and normalise; zero when there are no neighbours.
      Dividing by the count does not change the direction. */
  function AverageDirection(mag: Vec -> real, sum: Vec, count: nat): (r: Vec)
    requires IsMagnitude(mag)
    ensures count == 0 ==> r == Zero
    ensures 0 < count ==> r == Normalize(mag, sum)
    ensures r == Zero || SqrMagnitude(r) == 1.0
  {
    if count > 0 then
      NormalizeDiv(mag, sum, count as real);
      Normalize(mag, Div(sum, count as real))
    else
      Zero
  }

  /** `CohesionMovement.Movement`: the unit vector from the boid towards the
      centre of its neighbours; zero without neighbours (or when the boid
      sits exactly at that centre). */
  function Cohesion(mag: Vec -> real, boid: Vec, neighbors: seq<Body>): (r: Vec)
    requires IsMagnitude(mag)
    ensures neighbors == [] ==> r == Zero
    ensures neighbors != [] ==> r == Normalize(mag, Sub(Centroid(neighbors), boid))
    ensures r == Zero || SqrMagnitude(r) == 1.0
  {
    if neighbors != [] then
      CohesionTowardsCentroid(boid, neighbors);
      AverageDirection(mag, CohesionSum(boid, neighbors), |neighbors|)
    else
      Zero
  }

  /** `AlignmentMovement.Movement`: the unit vector along the neighbours'
      average heading; zero without neighbours (or when the headings cancel). */
  function Alignment(mag: Vec -> real, neighbors: seq<Body>): (r: Vec)
    requires IsMagnitude(mag)
    ensures neighbors == [] ==> r == Zero
    ensures neighbors != [] ==> r == Normalize(mag, AlignmentSum(neighbors))
    ensures r == Zero || SqrMagnitude(r) == 1.0
  {
    AverageDirection(mag, AlignmentSum(neighbors), |neighbors|)
  }

  /** `SeparationMovement.Movement`: the unit vector pointing away from the
      neighbours' centre; zero without neighbours. */
  function Separation(mag: Vec -> real, boid: Vec, neighbors: seq<Body>): (r: Vec)
    requires IsMagnitude(mag)
    ensures neighbors == [] ==> r == Zero
    ensures r == Zero || SqrMagnitude(r) == 1.0
  {
    AverageDirection(mag, SeparationSum(boid, neighbors), |neighbors|)
  }

  /** `LimitMovement.Movement`: nothing while the boid is within
      `limitRadius` of the world origin; beyond it, a pull towards the origin
      whose length is the overshoot `distance - limitRadius`. */
  function Limit(mag: Vec -> real, limitRadius: real, boid: Vec): (r: Vec)
    requires IsMagnitude(mag)
    ensures mag(boid) <= limitRadius ==> r == Zero
    ensures boid == Zero ==> r == Zero
    ensures limitRadius < mag(boid) && boid != Zero ==>
              mag(r) == mag(boid) - limitRadius
              && Normalize(mag, r) == Neg(Normalize(mag, boid))
  {
    var distance := mag(boid);
    if distance > limitRadius then
      var overshoot := distance - limitRadius;
      LimitPointsHome(mag, boid, overshoot);
      Scale(Neg(Normalize(mag, boid)), overshoot)
    else
      Zero
  }

  /** `IBoidRule.Movement`, dispatched on the rule; `WeightedRule` scales its
      inner rule's vector by its weight, so a weight of zero silences it. */
  function Movement(mag: Vec -> real, rule: Rule, boid: Vec, neighbors: seq<Body>): (r: Vec)
    requires IsMagnitude(mag)
    ensures rule.WeightedRule? && rule.weight == 0.0 ==> r == Zero
  {
    match rule
    case CohesionMovement => Cohesion(mag, boid, neighbors)
    case AlignmentMovement => Alignment(mag, neighbors)
    case SeparationMovement => Separation(mag, boid, neighbors)
    case LimitMovement(limitRadius) => Limit(mag, limitRadius, boid)
    case WeightedRule(inner, weight) =>
      var v := Movement(mag, inner, boid, neighbors);
      ScaleZeroFactor(v);
      Scale(v, weight)
  }

  /** A weighted rule scales the length of its inner rule's vector by the
      weight; a negative weight reverses the direction. */
  lemma WeightScalesMagnitude(mag: Vec -> real, inner: Rule, weight: real, boid: Vec, neighbors: seq<Body>)
    requires IsMagnitude(mag)
    ensures var v := Movement(mag, inner, boid, neighbors);
            var r := Movement(mag, WeightedRule(inner, weight), boid, neighbors);
            mag(r) == Mul(if weight < 0.0 then -weight else weight, mag(v)) &&
            (0.0 < weight ==> Normalize(mag, r) == Normalize(mag, v)) &&
            (weight < 0.0 ==> Normalize(mag, r) == Neg(Normalize(mag, v)))
  {
    var v := Movement(mag, inner, boid, neighbors);
    assert Movement(mag, WeightedRule(inner, weight), boid, neighbors) == Scale(v, weight);
    if 0.0 <= weight {
      MagnitudeScale(mag, v, weight);
      if 0.0 < weight {
        NormalizeScaled(mag, v, weight);
      }
    } else {
      var k := -weight;
      NegatedFactor(v, weight);
      assert Scale(v, weight) == Neg(Scale(v, k));
      ReversedScale(mag, v, k);
    }
  }

  /** Scaling by `-k`, for `k > 0`, scales the length by `k` and reverses
      the direction. */
  lemma ReversedScale(mag: Vec -> real, v: Vec, k: real)
    requires IsMagnitude(mag)
    requires 0.0 < k
    ensures mag(Neg(Scale(v, k))) == Mul(k, mag(v))
    ensures Normalize(mag, Neg(Scale(v, k))) == Neg(Normalize(mag, v))
  {
    MagnitudeScale(mag, v, k);
    MagnitudeNeg(mag, Scale(v, k));
    NormalizeNeg(mag, Scale(v, k));
    NormalizeScaled(mag, v, k);
  }

  lemma NegatedFactor(v: Vec, k: real)
    ensures Scale(v, k) == Neg(Scale(v, -k))
  {}

  /* The `foreach` loops themselves, each proved to compute its rule. */

  /** The loop of `CohesionMovement.Movement`. */
  method ComputeCohesion(mag: Vec -> real, boid: Vec, neighbors: seq<Body>) returns (velocity: Vec)
    requires IsMagnitude(mag)
    ensures velocity == Cohesion(mag, boid, neighbors)
  {
    velocity := Zero;
    if |neighbors| > 0 {
      for i := 0 to |neighbors|
        invariant velocity == CohesionSum(boid, neighbors[..i])
      {
        assert neighbors[..i + 1][..i] == neighbors[..i];
        velocity := Add(velocity, Sub(neighbors[i].position, boid));
      }
      assert neighbors[..|neighbors|] == neighbors;
      velocity := Div(velocity, |neighbors| as real);
      velocity := Normalize(mag, velocity);
    }
  }

  /** The loop of `AlignmentMovement.Movement`. */
  method ComputeAlignment(mag: Vec -> real, neighbors: seq<Body>) returns (velocity: Vec)
    requires IsMagnitude(mag)
    ensures velocity == Alignment(mag, neighbors)
  {
    velocity := Zero;
    if |neighbors| > 0 {
      for i := 0 to |neighbors|
        invariant velocity == AlignmentSum(neighbors[..i])
      {
        assert neighbors[..i + 1][..i] == neighbors[..i];
        velocity := Add(velocity, neighbors[i].forward);
      }
      assert neighbors[..|neighbors|] == neighbors;
      velocity := Div(velocity, |neighbors| as real);
      velocity := Normalize(mag, velocity);
    }
  }

  /** The loop of `SeparationMovement.Movement`. */
  method ComputeSeparation(mag: Vec -> real, boid: Vec, neighbors: seq<Body>) returns (velocity: Vec)
    requires IsMagnitude(mag)
    ensures velocity == Separation(mag, boid, neighbors)
  {
    velocity := Zero;
    if |neighbors| > 0 {
      for i := 0 to |neighbors|
        invariant velocity == SeparationSum(boid, neighbors[..i])
      {
        assert neighbors[..i + 1][..i] == neighbors[..i];
        velocity := Add(velocity, Sub(boid, neighbors[i].position));
      }
      assert neighbors[..|neighbors|] == neighbors;
      velocity := Div(velocity, |neighbors| as real);
      velocity := Normalize(mag, velocity);
    }
  }

  /* Properties of the rules. */

  /** Separation's accumulator is exactly the negation of cohesion's. */
  lemma {:induction false} SeparationSumIsNegatedCohesionSum(boid: Vec, neighbors: seq<Body>)
    ensures SeparationSum(boid, neighbors) == Neg(CohesionSum(boid, neighbors))
  {
    if neighbors != [] {
      SeparationSumIsNegatedCohesionSum(boid, neighbors[..|neighbors| - 1]);
    }
  }

  /** Separation always steers exactly opposite to cohesion. */
  lemma SeparationOpposesCohesion(mag: Vec -> real, boid: Vec, neighbors: seq<Body>)
    requires IsMagnitude(mag)
    ensures Separation(mag, boid, neighbors) == Neg(Cohesion(mag, boid, neighbors))
  {
    if neighbors != [] {
      var c := CohesionSum(boid, neighbors);
      var sep, coh := Separation(mag, boid, neighbors), Cohesion(mag, boid, neighbors);
      assert sep == Normalize(mag, Neg(c)) by {
        SeparationSumIsNegatedCohesionSum(boid, neighbors);
      }
      assert coh == Normalize(mag, c);
      assert Normalize(mag, Neg(c)) == Neg(Normalize(mag, c)) by {
        NormalizeNeg(mag, c);
      }
      assert sep == Neg(coh);
    } else {
      assert Separation(mag, boid, neighbors) == Zero;
      assert Cohesion(mag, boid, neighbors) == Zero;
      assert Neg(Zero) == Zero;
    }
  }

  /** The cohesion accumulator is the neighbours' position total minus
      `count` copies of the boid's position. */
  lemma {:induction false} CohesionSumFromTotal(boid: Vec, neighbors: seq<Body>)
    ensures CohesionSum(boid, neighbors) == Sub(PositionSum(neighbors), Scale(boid, |neighbors| as real))
  {
    if neighbors == [] {
      ScaleZeroFactor(boid);
    } else {
      var n := |neighbors|;
      CohesionSumFromTotal(boid, neighbors[..n - 1]);
      ScaleSucc(boid, (n - 1) as real);
    }
  }

  lemma ScaleZeroFactor(v: Vec)
    ensures Scale(v, 0.0) == Zero
  {}

  lemma ScaleSucc(v: Vec, k: real)
    ensures Scale(v, k + 1.0) == Add(Scale(v, k), v)
  {}

  lemma DivOfOffset(total: Vec, boid: Vec, n: real)
    requires 0.0 < n
    ensures Div(Sub(total, Scale(boid, n)), n) == Sub(Div(total, n), boid)
  {}

  /** Averaging the offsets gives the offset of the centre. */
  lemma CohesionTowardsCentroid(boid: Vec, neighbors: seq<Body>)
    requires neighbors != []
    ensures Div(CohesionSum(boid, neighbors), |neighbors| as real) == Sub(Centroid(neighbors), boid)
  {
    CohesionSumFromTotal(boid, neighbors);
    DivOfOffset(PositionSum(neighbors), boid, |neighbors| as real);
  }

  /** `-position.normalized * overshoot`: zero at the origin, otherwise a
      vector of length `overshoot` pointing opposite to the position. */
  lemma LimitPointsHome(mag: Vec -> real, boid: Vec, overshoot: real)
    requires IsMagnitude(mag)
    requires 0.0 < overshoot
    ensures boid == Zero ==> Scale(Neg(Normalize(mag, boid)), overshoot) == Zero
    ensures boid != Zero ==> mag(Scale(Neg(Normalize(mag, boid)), overshoot)) == overshoot
    ensures boid != Zero ==> Normalize(mag, Scale(Neg(Normalize(mag, boid)), overshoot)) == Neg(Normalize(mag, boid))
  {
    if boid == Zero {
      NoPullFromOrigin(overshoot);
    } else {
      ReversedUnitScaled(mag, Normalize(mag, boid), overshoot);
    }
  }

  lemma NoPullFromOrigin(overshoot: real)
    ensures Scale(Neg(Zero), overshoot) == Zero
  {
    assert Neg(Zero) == Zero;
    ScaleZero(overshoot);
  }

  lemma ReversedUnitScaled(mag: Vec -> real, u: Vec, overshoot: real)
    requires IsMagnitude(mag)
    requires SqrMagnitude(u) == 1.0 && 0.0 < overshoot
    ensures mag(Scale(Neg(u), overshoot)) == overshoot
    ensures Normalize(mag, Scale(Neg(u), overshoot)) == Neg(u)
  {
    SquareNeg(u.x);
    SquareNeg(u.y);
    SquareNeg(u.z);
    MagnitudeOfScaledUnit(mag, Neg(u), overshoot);
    NormalizeScaled(mag, Neg(u), overshoot);
    NormalizeUnit(mag, Neg(u));
  }

  /* The neighbour query returns its hits in no guaranteed order; none of the
     averaging rules depends on that order. */

  lemma SameLength<T>(ns: seq<T>, ms: seq<T>)
    requires multiset(ns) == multiset(ms)
    ensures |ns| == |ms|
  {
    assert |ns| == |multiset(ns)| && |ms| == |multiset(ms)|;
  }

  /** Reordering the neighbours does not change the alignment vector. */
  lemma AlignmentPermutation(mag: Vec -> real, ns: seq<Body>, ms: seq<Body>)
    requires IsMagnitude(mag)
    requires multiset(ns) == multiset(ms)
    ensures Alignment(mag, ns) == Alignment(mag, ms)
  {
    SameLength(ns, ms);
    SumOfPermutation((neighbor: Body) => neighbor.forward, ns, ms);
  }

  /** Reordering the neighbours does not change the cohesion vector. */
  lemma CohesionPermutation(mag: Vec -> real, boid: Vec, ns: seq<Body>, ms: seq<Body>)
    requires IsMagnitude(mag)
    requires multiset(ns) == multiset(ms)
    ensures Cohesion(mag, boid, ns) == Cohesion(mag, boid, ms)
  {
    SameLength(ns, ms);
    if ns != [] {
      SumOfPermutation((neighbor: Body) => Sub(neighbor.position, boid), ns, ms);
      CohesionTowardsCentroid(boid, ns);
      CohesionTowardsCentroid(boid, ms);
    }
  }

  /** Reordering the neighbours does not change the separation vector. */
  lemma SeparationPermutation(mag: Vec -> real, boid: Vec, ns: seq<Body>, ms: seq<Body>)
    requires IsMagnitude(mag)
    requires multiset(ns) == multiset(ms)
    ensures Separation(mag, boid, ns) == Separation(mag, boid, ms)
  {
    CohesionPermutation(mag, boid, ns, ms);
    SeparationOpposesCohesion(mag, boid, ns);
    SeparationOpposesCohesion(mag, boid, ms);
  }

  /** With a single neighbour, cohesion is the unit vector from the boid
      straight towards that neighbour. */
  lemma CohesionTowardsSingleNeighbour(mag: Vec -> real, boid: Vec, other: Body)
    requires IsMagnitude(mag)
    ensures Cohesion(mag, boid, [other]) == Normalize(mag, Sub(other.position, boid))
  {
    var ns := [other];
    assert Centroid(ns) == other.position by {
      assert ns[..0] == [];
      assert PositionSum(ns) == other.position;
      DivOne(other.position);
    }
  }

  /** A boid at distance `d` along the unit direction `u`, beyond the radius
      `limitRadius`, is pulled back along `-u` by exactly the overshoot. */
  lemma LimitPullsBackOvershoot(mag: Vec -> real, u: Vec, d: real, limitRadius: real)
    requires IsMagnitude(mag)
    requires SqrMagnitude(u) == 1.0 && 0.0 <= limitRadius < d
    ensures Limit(mag, limitRadius, Scale(u, d)) == Scale(Neg(u), d - limitRadius)
  {
    var boid := Scale(u, d);
    MagnitudeOfScaledUnit(mag, u, d);
    MagnitudeZero(mag, boid);
    NormalizeScaled(mag, u, d);
    NormalizeUnit(mag, u);
  }
}
