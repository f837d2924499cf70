/** Exact-real model of the part of Unity's Vector3 that the boids core uses:
    addition, negation, scaling, division by a scalar, magnitude and
    normalisation.

    Dafny has no square root, so the magnitude is not computed here: it is
    passed in as a function `mag` that every caller constrains with
    `IsMagnitude(mag)` (non-negative, and its square is the squared
    magnitude).  Exactly one function satisfies that constraint, so every
    fact proved below holds of the true Euclidean magnitude. */
module Vectors {

  datatype Vec = Vec(x: real, y: real, z: real)

  const Zero := Vec(0.0, 0.0, 0.0)

  function Add(a: Vec, b: Vec): Vec {
    Vec(a.x + b.x, a.y + b.y, a.z + b.z)
  }

  function Sub(a: Vec, b: Vec): Vec {
    Vec(a.x - b.x, a.y - b.y, a.z - b.z)
  }

  function Neg(a: Vec): Vec {
    Vec(-a.x, -a.y, -a.z)
  }

  /** `a * k` */
  function Scale(a: Vec, k: real): Vec {
    Vec(a.x * k, a.y * k, a.z * k)
  }

  /** `a / d`, component by component */
  function Div(a: Vec, d: real): Vec
    requires d != 0.0
  {
    Vec(a.x / d, a.y / d, a.z / d)
  }

  /* Products are reasoned about through these two names: the solver then
     treats a square as a term of its own and does not lose facts about it
     when it rewrites raw products. */
  function Mul(a: real, b: real): real { a * b }

  function Square(a: real): real { Mul(a, a) }

  /** `a.sqrMagnitude` */
  function SqrMagnitude(a: Vec): real {
    Square(a.x) + Square(a.y) + Square(a.z)
  }

  /** `mag` is the Euclidean length: non-negative, and its square is the
      squared magnitude. */
  ghost predicate IsMagnitude(mag: Vec -> real) {
    forall v :: 0.0 <= mag(v) && Square(mag(v)) == SqrMagnitude(v)
  }

  lemma MulPositive(a: real, b: real)
    requires 0.0 < a && 0.0 < b
    ensures 0.0 < Mul(a, b)
  {}

  lemma MulNonNegative(a: real, b: real)
    requires 0.0 <= a && 0.0 <= b
    ensures 0.0 <= Mul(a, b)
  {}

  lemma MulNonZero(a: real, b: real)
    requires a != 0.0 && b != 0.0
    ensures Mul(a, b) != 0.0
  {}

  lemma SquareNeg(a: real)
    ensures Square(-a) == Square(a)
  {}

  lemma SquareOfProduct(a: real, b: real)
    ensures Square(a * b) == Mul(Square(a), Square(b))
  {}

  /** A square is non-negative, and zero only for zero. */
  lemma SquarePositive(a: real)
    ensures 0.0 <= Square(a)
    ensures a != 0.0 ==> 0.0 < Square(a)
  {
    if 0.0 < a {
      MulPositive(a, a);
    } else if a < 0.0 {
      MulPositive(-a, -a);
      SquareNeg(a);
    }
  }

  lemma DifferenceOfSquares(a: real, b: real)
    ensures Mul(a - b, a + b) == Square(a) - Square(b)
  {}

  /** A non-negative square root is unique. */
  lemma RootUnique(a: real, b: real)
    requires 0.0 <= a && 0.0 <= b
    requires Square(a) == Square(b)
    ensures a == b
  {
    if a != b {
      DifferenceOfSquares(a, b);
      MulNonZero(a - b, a + b);
    }
  }

  /** Only the zero vector has squared magnitude zero. */
  lemma SqrMagnitudeZero(v: Vec)
    ensures 0.0 <= SqrMagnitude(v)
    ensures SqrMagnitude(v) == 0.0 <==> v == Zero
  {
    SquarePositive(v.x);
    SquarePositive(v.y);
    SquarePositive(v.z);
  }

  lemma SqrMagnitudeScale(v: Vec, k: real)
    ensures SqrMagnitude(Scale(v, k)) == Mul(Square(k), SqrMagnitude(v))
  {
    SquareOfProduct(v.x, k);
    SquareOfProduct(v.y, k);
    SquareOfProduct(v.z, k);
  }

  lemma MagnitudeZero(mag: Vec -> real, v: Vec)
    requires IsMagnitude(mag)
    ensures mag(v) == 0.0 <==> v == Zero
  {
    SqrMagnitudeZero(v);
    SquarePositive(mag(v));
  }

  /** Scaling by a non-negative factor scales the magnitude by that factor. */
  lemma MagnitudeScale(mag: Vec -> real, v: Vec, k: real)
    requires IsMagnitude(mag)
    requires 0.0 <= k
    ensures mag(Scale(v, k)) == Mul(k, mag(v))
  {
    var m := mag(v);
    SqrMagnitudeScale(v, k);
    SquareOfProduct(k, m);
    MulNonNegative(k, m);
    RootUnique(mag(Scale(v, k)), Mul(k, m));
  }

  /** Negation keeps the magnitude. */
  lemma MagnitudeNeg(mag: Vec -> real, v: Vec)
    requires IsMagnitude(mag)
    ensures mag(Neg(v)) == mag(v)
  {
    SquareNeg(v.x);
    SquareNeg(v.y);
    SquareNeg(v.z);
    RootUnique(mag(Neg(v)), mag(v));
  }

  /** Multiplying a unit vector by `k >= 0` gives a vector of magnitude `k`. */
  lemma MagnitudeOfScaledUnit(mag: Vec -> real, u: Vec, k: real)
    requires IsMagnitude(mag)
    requires SqrMagnitude(u) == 1.0 && 0.0 <= k
    ensures mag(Scale(u, k)) == k
    ensures SqrMagnitude(Scale(u, k)) == Square(k)
  {
    SqrMagnitudeScale(u, k);
    RootUnique(mag(Scale(u, k)), k);
  }

  /** `v.normalized`: the zero vector stays zero; any other vector becomes the
      unit vector in its direction. */
  function Normalize(mag: Vec -> real, v: Vec): (r: Vec)
    requires IsMagnitude(mag)
    ensures v == Zero <==> r == Zero
    ensures v != Zero ==> 0.0 < mag(v) && SqrMagnitude(r) == 1.0 && mag(r) == 1.0
    ensures v != Zero ==> Scale(r, mag(v)) == v
  {
    MagnitudeZero(mag, v);
    if mag(v) > 0.0 then
      var m := mag(v);
      var r := Div(v, m);
      assert r == Scale(v, 1.0 / m);
      SqrMagnitudeScale(v, 1.0 / m);
      SquareOfProduct(1.0 / m, m);
      assert SqrMagnitude(r) == 1.0;
      SquarePositive(mag(r));
      RootUnique(mag(r), 1.0);
      r
    else
      Zero
  }

  /** Multiplying by a positive scalar before normalising changes nothing. */
  lemma NormalizeScaled(mag: Vec -> real, v: Vec, k: real)
    requires IsMagnitude(mag)
    requires 0.0 < k
    ensures Normalize(mag, Scale(v, k)) == Normalize(mag, v)
  {
    MagnitudeScale(mag, v, k);
    MagnitudeZero(mag, v);
    if v == Zero {
      ScaleZero(k);
    } else {
      var m := mag(v);
      MulPositive(k, m);
      DivScaled(v, k, m);
    }
  }

  lemma ScaleZero(k: real)
    ensures Scale(Zero, k) == Zero
  {}

  lemma DivScaled(v: Vec, k: real, m: real)
    requires k != 0.0 && m != 0.0
    ensures Mul(k, m) != 0.0
    ensures Div(Scale(v, k), Mul(k, m)) == Div(v, m)
  {
    MulNonZero(k, m);
    DivCancel(v.x, k, m);
    DivCancel(v.y, k, m);
    DivCancel(v.z, k, m);
  }

  lemma DivCancel(a: real, k: real, m: real)
    requires k != 0.0 && m != 0.0
    ensures Mul(k, m) != 0.0
    ensures (a * k) / Mul(k, m) == a / m
  {}

  lemma DivNeg(a: real, m: real)
    requires m != 0.0
    ensures (-a) / m == -(a / m)
  {}

  /** Dividing by a positive scalar before normalising changes nothing. */
  lemma NormalizeDiv(mag: Vec -> real, v: Vec, d: real)
    requires IsMagnitude(mag)
    requires 0.0 < d
    ensures Normalize(mag, Div(v, d)) == Normalize(mag, v)
  {
    assert Div(v, d) == Scale(v, 1.0 / d);
    NormalizeScaled(mag, v, 1.0 / d);
  }

  /** Normalising commutes with negation. */
  lemma NormalizeNeg(mag: Vec -> real, v: Vec)
    requires IsMagnitude(mag)
    ensures Normalize(mag, Neg(v)) == Neg(Normalize(mag, v))
  {
    MagnitudeNeg(mag, v);
    MagnitudeZero(mag, v);
    MagnitudeZero(mag, Neg(v));
    if v != Zero {
      var m := mag(v);
      DivNeg(v.x, m);
      DivNeg(v.y, m);
      DivNeg(v.z, m);
      assert Div(Neg(v), m) == Neg(Div(v, m));
    }
  }

  /** A unit vector is its own normalisation. */
  lemma NormalizeUnit(mag: Vec -> real, u: Vec)
    requires IsMagnitude(mag)
    requires SqrMagnitude(u) == 1.0
    ensures Normalize(mag, u) == u
  {
    SquarePositive(mag(u));
    RootUnique(mag(u), 1.0);
    assert u != Zero;
    DivOne(u);
  }

  lemma DivOne(u: Vec)
    ensures Div(u, 1.0) == u
  {}

  /** `xs.Select(f).Aggregate(Vector3.zero, (acc, v) => acc + v)`: the
      vectors `f` gives for the elements of `xs`, added up from zero, first
      to last. */
  function SumOf<T>(f: T -> Vec, xs: seq<T>): (r: Vec)
    ensures |xs| == 1 ==> r == f(xs[0])
  {
    if xs == [] then Zero
    else
      assert |xs| == 1 ==> xs[..0] == [];
      Add(SumOf(f, xs[..|xs| - 1]), f(xs[|xs| - 1]))
  }

  /** Summands that are all zero add up to zero. */
  lemma {:induction false} SumOfZeros<T>(f: T -> Vec, xs: seq<T>)
    ensures (forall i :: 0 <= i < |xs| ==> f(xs[i]) == Zero) ==> SumOf(f, xs) == Zero
  {
    if xs != [] {
      var front := xs[..|xs| - 1];
      assert forall i :: 0 <= i < |front| ==> front[i] == xs[i];
      SumOfZeros(f, front);
    }
  }

  lemma AddAssoc(a: Vec, b: Vec, c: Vec)
    ensures Add(Add(a, b), c) == Add(a, Add(b, c))
  {}

  /** Summing over a concatenation sums the parts. */
  lemma {:induction false} SumOfAppend<T>(f: T -> Vec, xs: seq<T>, ys: seq<T>)
    ensures SumOf(f, xs + ys) == Add(SumOf(f, xs), SumOf(f, ys))
    decreases |ys|
  {
    if ys == [] {
      assert xs + ys == xs;
    } else {
      var front, last := ys[..|ys| - 1], ys[|ys| - 1];
      assert (xs + ys)[..|xs + ys| - 1] == xs + front;
      SumOfAppend(f, xs, front);
      AddAssoc(SumOf(f, xs), SumOf(f, front), f(last));
    }
  }

  /** The order of the summands does not matter. */
  lemma {:induction false} SumOfPermutation<T>(f: T -> Vec, xs: seq<T>, ys: seq<T>)
    requires multiset(xs) == multiset(ys)
    ensures SumOf(f, xs) == SumOf(f, ys)
    decreases |xs|
  {
    if xs == [] {
      assert |ys| == |multiset(ys)| == 0;
    } else {
      var n := |xs|;
      var last := xs[n - 1];
      assert last in multiset(ys);
      var j :| 0 <= j < |ys| && ys[j] == last;
      var front, back := ys[..j], ys[j + 1..];
      RemoveLast(xs, ys, j);
      SumOfPermutation(f, xs[..n - 1], front + back);
      SumOfMiddle(f, front, last, back);
      assert ys == front + [last] + back;
    }
  }

  /** Taking the last element off `vs` and the same element off `ws` keeps
      the two multisets equal. */
  lemma RemoveLast<T>(vs: seq<T>, ws: seq<T>, j: nat)
    requires vs != [] && j < |ws| && ws[j] == vs[|vs| - 1]
    requires multiset(vs) == multiset(ws)
    ensures multiset(vs[..|vs| - 1]) == multiset(ws[..j] + ws[j + 1..])
  {
    var last := vs[|vs| - 1];
    assert vs == vs[..|vs| - 1] + [last];
    assert ws == ws[..j] + [last] + ws[j + 1..];
    assert multiset(ws[..j] + [last] + ws[j + 1..])
        == multiset(ws[..j] + [last]) + multiset(ws[j + 1..]);
    assert multiset(ws[..j] + [last]) == multiset(ws[..j]) + multiset{last};
    assert multiset(ws[..j] + ws[j + 1..]) == multiset(ws[..j]) + multiset(ws[j + 1..]);
    calc {
      multiset(vs[..|vs| - 1]) + multiset{last};
      multiset(vs);
      multiset(ws);
      multiset(ws[..j]) + multiset{last} + multiset(ws[j + 1..]);
      multiset(ws[..j] + ws[j + 1..]) + multiset{last};
    }
    assert multiset(vs[..|vs| - 1]) == multiset(vs[..|vs| - 1]) + multiset{last} - multiset{last};
  }

  /** A summand in the middle can be moved to the end. */
  lemma SumOfMiddle<T>(f: T -> Vec, front: seq<T>, x: T, back: seq<T>)
    ensures SumOf(f, front + [x] + back) == Add(SumOf(f, front + back), f(x))
  {
    SumOfAppend(f, front, back);
    SumOfAppend(f, front + [x], back);
    SumOfAppend(f, front, [x]);
    assert SumOf(f, [x]) == Add(Zero, f(x)) by {
      assert [x][..0] == [];
    }
  }

  /** The length of a vector along the x axis. */
  lemma MagnitudeOnAxis(mag: Vec -> real, a: real)
    requires IsMagnitude(mag)
    requires 0.0 <= a
    ensures mag(Vec(a, 0.0, 0.0)) == a
  {
    var v := Vec(a, 0.0, 0.0);
    assert SqrMagnitude(v) == Square(a);
    RootUnique(mag(v), a);
  }
}
