/** BoidsManager: the tuning values every boid reads, and neighbour
    selection (`GetNeighbors`).

    The physics query `Physics.OverlapSphere` is outside the model: its
    result, the array of hits, is an input sequence.  Each hit is the
    snapshot of the GameObject it belongs to. */
module BoidsManager {
  import opened GameObjects

  /** The inspector fields of BoidsManager that the core reads.  The spawn
      fields `number` and `prefab` belong to `Awake`, which is not modelled. */
  datatype Config = Config(
    spawnRadius: real,
    limitForce: real,
    movementSpeed: real,
    neighborDistance: real,
    maxNeighbers: real,
    cohesionForce: real,
    alignmentForce: real,
    separationForce: real)

  /** How many neighbours the loop accepts: a hit is added while the count,
      an integer, is below the floating-point field `maxNeighbers`.  That is
      the least natural number not below `maxNeighbers`. */
  function Capacity(maxNeighbers: real): (c: nat)
    ensures maxNeighbers <= c as real
    ensures c == 0 || (c - 1) as real < maxNeighbers
  {
    if maxNeighbers <= 0.0 then 0
    else if maxNeighbers.Floor as real == maxNeighbers then maxNeighbers.Floor
    else maxNeighbers.Floor + 1
  }

  /** The loop's test `neighbors.Count >= maxNeighbers` fails exactly while
      the count is below the capacity. */
  lemma BelowCapacity(count: nat, maxNeighbers: real)
    ensures count < Capacity(maxNeighbers) <==> (count as real) < maxNeighbers
  {
    var c := Capacity(maxNeighbers);
    if count < c {
      assert count as real <= (c - 1) as real;
    }
  }

  /** The hits that are not the querying boid itself, in their original order. */
  function NonSelf(hits: seq<Body>, self: Id): (r: seq<Body>)
    ensures |r| <= |hits|
    ensures forall h :: h in r <==> h in hits && h.id != self
  {
    if hits == [] then []
    else
      var last := hits[|hits| - 1];
      var rest := NonSelf(hits[..|hits| - 1], self);
      assert hits == hits[..|hits| - 1] + [last];
      if last.id == self then rest else rest + [last]
  }

  /** The first `n` elements of `s`, or all of `s` if it is shorter. */
  function Take<T>(s: seq<T>, n: nat): (r: seq<T>)
    ensures |r| == if n <= |s| then n else |s|
    ensures r <= s
  {
    if n <= |s| then s[..n] else s
  }

  /** What `GetNeighbors` returns: the first `Capacity(maxNeighbers)` hits
      that are not the boid itself.  Every kept hit is a hit other than the
      boid, they keep the order in which the query returned them, there are
      at most `maxNeighbers` of them (rounded up), none when `maxNeighbers`
      is not positive, and all non-self hits when there are few enough. */
  function Neighbors(hits: seq<Body>, self: Id, maxNeighbers: real): (r: seq<Body>)
    ensures forall h :: h in r ==> h in hits && h.id != self
    ensures r <= NonSelf(hits, self)
    ensures |r| <= Capacity(maxNeighbers)
    ensures r == [] || (|r| as real) < maxNeighbers + 1.0
    ensures maxNeighbers <= 0.0 ==> r == []
    ensures |NonSelf(hits, self)| <= Capacity(maxNeighbers) ==> r == NonSelf(hits, self)
    ensures Capacity(maxNeighbers) < |NonSelf(hits, self)| ==> |r| == Capacity(maxNeighbers)
  {
    var all := NonSelf(hits, self);
    var r := Take(all, Capacity(maxNeighbers));
    assert forall h :: h in r ==> h in all;
    r
  }

  /** `BoidsManager.GetNeighbors`: walk the hits in order, skip the boid
      itself, stop once `maxNeighbers` neighbours are held, keep the rest. */
  method GetNeighbors(hits: seq<Body>, self: Id, maxNeighbers: real) returns (neighbors: seq<Body>)
    ensures neighbors == Neighbors(hits, self, maxNeighbers)
  {
    var cap := Capacity(maxNeighbers);
    neighbors := [];
    var i := 0;
    while i < |hits|
      invariant 0 <= i <= |hits|
      invariant neighbors == Take(NonSelf(hits[..i], self), cap)
    {
      var hit := hits[i];
      NonSelfStep(hits, i, self);
      i := i + 1;
      if hit.id == self {
        continue;
      }
      BelowCapacity(|neighbors|, maxNeighbers);
      if |neighbors| as real >= maxNeighbers {
        FullPrefixDecides(hits, i - 1, self, cap);
        break;
      }
      neighbors := neighbors + [hit];
    }
    assert i == |hits| ==> hits[..i] == hits;
  }

  /** Once the hits scanned so far hold `cap` non-self hits, the rest of the
      hits cannot change the first `cap` of them: this is why `break` is
      safe. */
  lemma FullPrefixDecides(hits: seq<Body>, i: nat, self: Id, cap: nat)
    requires i <= |hits|
    requires cap <= |NonSelf(hits[..i], self)|
    ensures Take(NonSelf(hits[..i], self), cap) == Take(NonSelf(hits, self), cap)
  {
    NonSelfPrefix(hits, i, self);
  }

  /** Extending the scanned prefix by one hit extends the filtered prefix by
      that hit, unless it is the boid itself. */
  lemma NonSelfStep(hits: seq<Body>, i: nat, self: Id)
    requires i < |hits|
    ensures NonSelf(hits[..i + 1], self) ==
            NonSelf(hits[..i], self) + (if hits[i].id == self then [] else [hits[i]])
  {
    assert hits[..i + 1][..i] == hits[..i];
  }

  /** Filtering a prefix of the hits gives a prefix of the filtered hits. */
  lemma NonSelfPrefix(hits: seq<Body>, i: nat, self: Id)
    requires i <= |hits|
    ensures NonSelf(hits[..i], self) <= NonSelf(hits, self)
  {
    assert hits == hits[..i] + hits[i..];
    NonSelfAppend(hits[..i], hits[i..], self);
  }

  /** Filtering distributes over concatenation. */
  lemma {:induction false} NonSelfAppend(a: seq<Body>, b: seq<Body>, self: Id)
    ensures NonSelf(a + b, self) == NonSelf(a, self) + NonSelf(b, self)
    decreases |b|
  {
    if b == [] {
      assert a + b == a;
    } else {
      var b' := b[..|b| - 1];
      assert (a + b)[..|a + b| - 1] == a + b';
      NonSelfAppend(a, b', self);
    }
  }

  /** A hit on the boid itself does not use up a neighbour slot, wherever it
      appears: it is skipped and never added to the list, and the count test
      looks only at the list's length. */
  lemma SelfHitTakesNoSlot(before: seq<Body>, me: Body, after: seq<Body>, maxNeighbers: real)
    ensures Neighbors(before + [me] + after, me.id, maxNeighbers)
         == Neighbors(before + after, me.id, maxNeighbers)
  {
    NonSelfAppend(before + [me], after, me.id);
    NonSelfAppend(before, [me], me.id);
    NonSelfAppend(before, after, me.id);
    assert NonSelf([me], me.id) == [] by {
      assert [me][..0] == [];
    }
  }
}
