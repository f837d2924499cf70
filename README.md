# Boids — a Dafny model of the steering core

This project models the flocking behaviour of a small Unity boids
simulation. Each boid holds a velocity and a list of steering rules. Every
frame it does two things:

- it asks the manager for its neighbours (the other boids near it, at most
  `maxNeighbers` of them, rounded up);
- it adds up the vectors its rules produce (cohesion, alignment, separation,
  and a limit that pulls it back inside the spawn sphere, each one weighted),
  clamps that sum to `movementSpeed`, adds it to its velocity, and moves
  along the new velocity's direction by `movementSpeed * deltaTime`.

Modules:

- `Vectors` (`vectors.dfy`): the part of `Vector3` the core uses, over exact
  reals. Dafny has no square root, so the magnitude is a parameter `mag`
  constrained by `IsMagnitude(mag)`: it is non-negative and its square is the
  squared magnitude. Only the Euclidean length satisfies that, so every
  proved fact holds of it. The module also holds `Normalize` and `SumOf`, the sum
  that `Select` followed by `Aggregate` computes.
- `GameObjects` (`game_objects.dfy`): `Body`, a snapshot of a boid's
  GameObject (an identity, a position and a forward direction).
- `BoidsManager` (`boids_manager.dfy`): the manager's tuning fields as a
  `Config` value, and `GetNeighbors` as a loop. The loop is proved equal to
  "drop the boid itself, then keep the first `Capacity(maxNeighbers)` hits".
- `BoidRules` (`rules.dfy`): `IBoidRule` as a datatype with one constructor
  per class, including the `WeightedRule` decorator. Each `foreach`
  accumulation is a loop method, proved equal to a specification function.
- `Boids` (`boids.dfy`): the `Boids` component as a class. Its fields
  `position` and `velocity` change every frame. Its fields `rules` and
  `manager` are private and set only by `Init`, so they are constants of the
  class. Its methods are `Init`, `UpdateMovement`, `UpdatePosition` and
  `Update`.

The stored velocity is not clamped. `UpdateMovement` clamps the delta it
returns, but `Update` adds that delta to the stored velocity without a
further check, so the velocity can grow past `movementSpeed`
(`Boids.StoredVelocityIsNotClamped`).

## Model

| member | source | states |
|---|---|---|
| `BoidsManager.Capacity` | Assets/BoidsManager.cs:48 | the number of neighbours the loop admits is the least natural number not below the float `maxNeighbers` (0 when it is not positive) |
| `BoidsManager.BelowCapacity` | Assets/BoidsManager.cs:48 | the test `neighbors.Count >= maxNeighbers` fails exactly while the count is below `Capacity(maxNeighbers)` |
| `BoidsManager.NonSelf` | Assets/BoidsManager.cs:47 | a hit is kept if and only if it is one of the hits and is not the querying boid; the result is no longer than the hits |
| `BoidsManager.Neighbors` | Assets/BoidsManager.cs:39-53 | the neighbours are hits other than the boid itself, in query order (a prefix of the non-self hits); there are at most `maxNeighbers` of them, rounded up; there are none when `maxNeighbers <= 0`; all non-self hits are returned when they fit, and exactly `Capacity` of them when they do not |
| `BoidsManager.GetNeighbors` | Assets/BoidsManager.cs:39-53 | the `foreach` with `continue` on self and `break` on a full list returns exactly `Neighbors(hits, self, maxNeighbers)` |
| `BoidsManager.NonSelfPrefix` | Assets/BoidsManager.cs:45-51 | filtering a prefix of the hits gives a prefix of the filtered hits, which is why breaking early returns a prefix |
| `BoidsManager.FullPrefixDecides` | Assets/BoidsManager.cs:48 | once the hits scanned so far hold `cap` non-self hits, the first `cap` non-self hits of the whole list are those, so `break` loses nothing |
| `BoidsManager.NonSelfAppend` | Assets/BoidsManager.cs:45-47 | skipping self distributes over concatenation of the hit list |
| `BoidsManager.SelfHitTakesNoSlot` | Assets/BoidsManager.cs:47-48 | inserting the boid's own hit anywhere in the hits does not change the result: self is skipped by `continue` and never added, so it never counts towards `maxNeighbers` |
| `Vectors.Normalize` | Assets/Boids.cs:93 | `normalized`: zero exactly for the zero vector; otherwise a vector of length 1 which, times the input's length, gives back the input |
| `Vectors.NormalizeScaled` | Assets/Boids.cs:47 | normalising a vector scaled by a positive factor gives the same direction |
| `Vectors.NormalizeDiv` | Assets/Boids.cs:92-93 | dividing by a positive count before normalising does not change the result |
| `Vectors.NormalizeNeg` | Assets/Boids.cs:155 | the normalisation of `-v` is the negation of the normalisation of `v` |
| `Vectors.NormalizeUnit` | Assets/Boids.cs:54 | normalising a unit vector returns it unchanged |
| `Vectors.MagnitudeScale` | Assets/Boids.cs:56 | scaling by `k >= 0` scales the magnitude by `k` |
| `Vectors.MagnitudeZero` | Assets/Boids.cs:151 | the magnitude is zero exactly for the zero vector |
| `Vectors.SumOf` | Assets/Boids.cs:42-44 | definition of `Select(f).Aggregate(Vector3.zero, +)`: the summands added from zero in list order; a one-element list sums to its element |
| `Vectors.SumOfZeros` | Assets/Boids.cs:42-44 | summands that are all zero add up to zero |
| `Vectors.SumOfAppend` | Assets/Boids.cs:42-44 | the `Select`/`Aggregate` sum over a concatenated list is the sum of the two parts' sums |
| `Vectors.SumOfPermutation` | Assets/Boids.cs:42-44 | two lists with the same multiset of elements have the same `Select`/`Aggregate` sum |
| `BoidRules.CohesionSum` | Assets/Boids.cs:88-91 | definition of cohesion's accumulator, the `foreach` sum of `neighbor.position - boid` in list order; it equals the `Select`/`Aggregate` sum of the same terms |
| `BoidRules.AlignmentSum` | Assets/Boids.cs:109-112 | definition of alignment's accumulator, the `foreach` sum of `neighbor.forward` in list order; it equals the `Select`/`Aggregate` sum of the same terms |
| `BoidRules.SeparationSum` | Assets/Boids.cs:130-133 | definition of separation's accumulator, the `foreach` sum of `boid - neighbor.position` in list order; it equals the `Select`/`Aggregate` sum of the same terms |
| `BoidRules.AverageDirection` | Assets/Boids.cs:85-95 | `velocity /= Count; velocity.Normalize()` gives zero without neighbours; otherwise it gives the normalised accumulator (dividing by the count does not matter), always zero or of length 1 |
| `BoidRules.Cohesion` | Assets/Boids.cs:81-96 | zero without neighbours; otherwise the unit vector from the boid towards the centroid of the neighbours' positions (zero if the boid sits on it) |
| `BoidRules.Alignment` | Assets/Boids.cs:102-117 | zero without neighbours; otherwise the normalised sum of the neighbours' forward vectors; always zero or of length 1 |
| `BoidRules.Separation` | Assets/Boids.cs:123-138 | zero without neighbours; always zero or of length 1 |
| `BoidRules.Limit` | Assets/Boids.cs:149-159 | zero within `limitRadius` of the origin and at the origin; beyond it, a vector whose length is the overshoot `distance - limitRadius` and whose direction is the opposite of the boid's position |
| `BoidRules.Movement` | Assets/Boids.cs:72-75 | a `WeightedRule` with weight 0 yields the zero vector |
| `BoidRules.WeightScalesMagnitude` | Assets/Boids.cs:72-75 | a weighted rule's vector has length equal to the absolute value of `weight` times its inner rule's; it has the same direction for a positive weight and the opposite direction for a negative one |
| `BoidRules.ComputeCohesion` | Assets/Boids.cs:83-95 | the accumulation loop, division and `Normalize` compute `Cohesion` |
| `BoidRules.ComputeAlignment` | Assets/Boids.cs:104-116 | the accumulation loop, division and `Normalize` compute `Alignment` |
| `BoidRules.ComputeSeparation` | Assets/Boids.cs:125-137 | the accumulation loop, division and `Normalize` compute `Separation` |
| `BoidRules.SeparationSumIsNegatedCohesionSum` | Assets/Boids.cs:130-133 | separation's accumulator is the exact negation of cohesion's |
| `BoidRules.CohesionPermutation` | Assets/Boids.cs:81-96 | reordering the neighbours (the hits arrive in no guaranteed order) does not change the cohesion vector |
| `BoidRules.AlignmentPermutation` | Assets/Boids.cs:102-117 | reordering the neighbours does not change the alignment vector |
| `BoidRules.SeparationPermutation` | Assets/Boids.cs:123-138 | reordering the neighbours does not change the separation vector |
| `BoidRules.SeparationOpposesCohesion` | Assets/Boids.cs:123-138 | separation always equals the negation of cohesion, so it points from the centroid towards the boid |
| `BoidRules.CohesionSumFromTotal` | Assets/Boids.cs:88-91 | the sum of offsets `neighbor - boid` is the position total minus `Count` copies of the boid's position |
| `BoidRules.CohesionTowardsCentroid` | Assets/Boids.cs:88-92 | the averaged offset is the offset from the boid to the centroid |
| `BoidRules.LimitPointsHome` | Assets/Boids.cs:155 | `-position.normalized * overshoot` is zero at the origin; elsewhere it has length `overshoot` and points opposite to the position |
| `BoidRules.CohesionTowardsSingleNeighbour` | Assets/Boids.cs:81-96 | with one neighbour, cohesion is the normalised offset to that neighbour |
| `BoidRules.LimitPullsBackOvershoot` | Assets/Boids.cs:149-159 | a boid at distance `d > limitRadius` along unit direction `u` is pulled back by exactly `(d - limitRadius)` along `-u` |
| `Boids.MovementOf` | Assets/Boids.cs:43 | definition of the selector `rule => rule.Movement(gameObject, neighbors)`; a rule weighted by 0 maps to zero |
| `Boids.RulesSum` | Assets/Boids.cs:42-44 | definition of the steering sum, `SumOf` over the rules' vectors; a single rule's sum is its own vector, and rules that are all weighted by 0 sum to zero |
| `Boids.InitialRules` | Assets/Boids.cs:23-29 | definition of the list `Init` builds: four rules, each one plain rule wrapped once in `WeightedRule`, with no inner rule repeated |
| `Boids.RulesSumPermutation` | Assets/Boids.cs:42-44 | the order of the rule list does not change the summed steering vector |
| `Boids.ClampToSpeed` | Assets/Boids.cs:46-47 | a vector no longer than `speed` is returned unchanged; for `speed >= 0` a longer one is rescaled to length exactly `speed` with the same direction, so the result never exceeds `speed`; for `speed < 0` every non-zero vector is reversed and given length `-speed` |
| `Boids.SteeringDelta` | Assets/Boids.cs:38-50 | the summed rule vectors, clamped: the unclamped sum when it already fits; for `movementSpeed >= 0` never longer than `movementSpeed`; for a negative `movementSpeed` a non-zero sum comes out with length `-movementSpeed` |
| `Boids.Displacement` | Assets/Boids.cs:52-56 | no movement for a zero velocity; otherwise a step whose length is the absolute value of `movementSpeed * deltaTime`, along the velocity's direction when that product is positive and against it when it is negative |
| `Boids.Boid.Init` | Assets/Boids.cs:18-30 | velocity is `forward * movementSpeed`; the rules are cohesion, alignment, separation and limit(`spawnRadius`), in that order, each weighted by its force |
| `Boids.Boid.UpdateMovement` | Assets/Boids.cs:38-50 | returns `SteeringDelta` for the boid's position and the neighbours `GetNeighbors` returns; when `movementSpeed >= 0` it is never longer than `movementSpeed` |
| `Boids.Boid.UpdatePosition` | Assets/Boids.cs:52-56 | moves the position by `Displacement` of the given velocity (when `movementSpeed * deltaTime > 0`, a step of that length along its direction) and leaves the velocity field unchanged (the source normalises a copy) |
| `Boids.Boid.Update` | Assets/Boids.cs:32-36 | the new velocity is the old velocity plus the clamped steering delta; the new position is the old one moved by `Displacement` of the new velocity, that is along its direction when `movementSpeed * deltaTime > 0` and against it when that product is negative |
| `Boids.InitialMovementsAlone` | Assets/Boids.cs:23-29 | without neighbours the weighted cohesion, alignment and separation rules yield zero, and the fourth rule yields the weighted limit vector |
| `Boids.OnlyLimitWithoutNeighbours` | Assets/Boids.cs:23-29 | without neighbours (for instance when `maxNeighbers <= 0`) the steering sum is the weighted limit rule alone |
| `Boids.StoredVelocityIsNotClamped` | Assets/Boids.cs:32-36 | with `movementSpeed` 1, a velocity (1, 0, 0) and a delta (1, 0, 0) give a stored velocity of length 2: only the delta is clamped |

## Left out

- `BoidsManager.Awake` is not modelled. It spawns boids at random positions and rotations through `Instantiate`, which is engine randomness.
- `Physics.OverlapSphere` and `LayerMask.GetMask` are engine queries. Their result, the hit array in engine order, is an input to `GetNeighbors` and `Update`.
- `neighborDistance` feeds only that query, so it is in `Config` but unused.
- `Debug.DrawLine` and `OnDrawGizmos` only draw, so they are left out.
- `transform.rotation = Quaternion.LookRotation(velocity)` is not modelled, because rotation is not part of the model. The boid's own `forward` is therefore not updated. Neighbours' forward vectors arrive as snapshots in the hits.
- `Time.deltaTime` is a parameter `deltaTime` rather than a global clock.
- Single-precision floats are replaced by exact reals, so rounding is not modelled.
- Unity's normalisation returns zero below a small magnitude threshold. Here only the exact zero vector normalises to zero.
- The magnitude is the parameter `mag` described above.
- The scheduling of `Update` across boids within a frame is not modelled. Each call sees the positions carried by its hits as they are when the call starts.
- GameObject identity (`hit.gameObject == boid`) is equality of the `Id` in a `Body`.
- `movementSpeed` and `maxNeighbers` are read from the manager every frame (Assets/Boids.cs:46-47,56; Assets/BoidsManager.cs:48), and the editor can change them while the game runs. The model fixes them at `Init`. The forces and `spawnRadius` are copied into the rules at `Init` (Assets/Boids.cs:25-28), as in the model.
- `BoidRules.Separation`: its direction is stated by `SeparationOpposesCohesion` rather than in its own contract.
