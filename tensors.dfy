/**
 * Vectors and tensors of reals, and the weighted axis elimination that the
 * agent's message passing, forward prediction and expected free energy are
 * all built from (the `Operators.average` primitive the agent imports).
 *
 * A tensor is a scalar or a stack of sub-tensors along its first axis.
 * Functions over tensors are total; their shape behaviour is stated by the
 * lemmas, under `HasShape`.
 */
module Tensors {

  type Vec = seq<real>

  datatype Tensor = Scalar(value: real) | Stack(slices: seq<Tensor>)

  function Min(a: nat, b: nat): nat { if a <= b then a else b }

  // ---------------------------------------------------------------------
  // Vectors
  // ---------------------------------------------------------------------

  function Sum(v: Vec): real
  {
    if |v| == 0 then 0.0 else v[0] + Sum(v[1..])
  }

  function Ones(n: nat): (r: Vec)
    ensures |r| == n
  {
    seq(n, _ => 1.0)
  }

  /** The one-hot encoding `torch.squeeze(one_hot(tensor([a]), n))`. */
  function OneHot(n: nat, a: nat): (r: Vec)
    ensures |r| == n
  {
    seq(n, i => if i == a then 1.0 else 0.0)
  }

  function ScaleVec(v: Vec, c: real): (r: Vec)
    ensures |r| == |v|
  {
    seq(|v|, i requires 0 <= i < |v| => v[i] * c)
  }

  /** Elementwise product (the `*` between two incoming messages). */
  function MulVec(a: Vec, b: Vec): (r: Vec)
    ensures |r| == Min(|a|, |b|)
  {
    seq(Min(|a|, |b|), i requires 0 <= i < Min(|a|, |b|) => a[i] * b[i])
  }

  predicate NonNegVec(v: Vec)
  {
    forall i :: 0 <= i < |v| ==> v[i] >= 0.0
  }

  /** The largest element (`tensor.max()`); an empty tensor has none. */
  function Max(v: Vec): (m: real)
    requires |v| > 0
    ensures forall i :: 0 <= i < |v| ==> v[i] <= m
    ensures exists i :: 0 <= i < |v| && v[i] == m
  {
    if |v| == 1 then v[0]
    else
      var rest := Max(v[1..]);
      assert forall i :: 1 <= i < |v| ==> v[i] == v[1..][i - 1];
      if v[0] >= rest then v[0] else rest
  }

  /**
   * Sup-norm normalisation of a message: an all-zero maximum leaves the
   * message as it is, otherwise every entry is divided by the maximum.
   */
  function SupNormalise(v: Vec): (r: Vec)
    requires |v| > 0
    ensures |r| == |v|
  {
    if Max(v) == 0.0 then v else ScaleVec(v, 1.0 / Max(v))
  }

  /**
   * Sum normalisation of a posterior, as the marginal computation does it:
   * when the mass is exactly zero, 1 is added to every entry first.
   */
  function MassNormalise(v: Vec): (r: Vec)
    ensures |r| == |v|
  {
    if |v| == 0 then v
    else
      var u := if Sum(v) == 0.0 then Incremented(v) else v;
      SumAddOne(v);
      ScaleVec(u, 1.0 / Sum(u))
  }

  function Incremented(v: Vec): (r: Vec)
    ensures |r| == |v|
  {
    seq(|v|, i requires 0 <= i < |v| => v[i] + 1.0)
  }

  lemma {:induction false} SumAppend(a: Vec, b: Vec)
    ensures Sum(a + b) == Sum(a) + Sum(b)
  {
    if |a| > 0 {
      assert (a + b)[1..] == a[1..] + b;
      SumAppend(a[1..], b);
    } else {
      assert a + b == b;
    }
  }

  lemma {:induction false} SumScale(v: Vec, c: real)
    ensures Sum(ScaleVec(v, c)) == Sum(v) * c
  {
    if |v| > 0 {
      var r := ScaleVec(v, c);
      assert r[1..] == ScaleVec(v[1..], c) by {
        forall i | 0 <= i < |v| - 1 ensures r[1..][i] == ScaleVec(v[1..], c)[i] {
          assert r[1..][i] == r[i + 1] == v[i + 1] * c;
        }
      }
      SumScale(v[1..], c);
      assert r[0] == v[0] * c;
    }
  }

  lemma {:induction false} SumAddOne(v: Vec)
    ensures Sum(Incremented(v)) == Sum(v) + |v| as real
  {
    var u := Incremented(v);
    if |v| > 0 {
      assert u[1..] == Incremented(v[1..]);
      SumAddOne(v[1..]);
    }
  }

  lemma {:induction false} SumOneHot(n: nat, a: nat)
    requires a < n
    ensures Sum(OneHot(n, a)) == 1.0
  {
    var v := OneHot(n, a);
    if a == 0 {
      SumZeros(v[1..]);
    } else {
      assert v[1..] == OneHot(n - 1, a - 1);
      SumOneHot(n - 1, a - 1);
    }
  }

  lemma {:induction false} SumZeros(v: Vec)
    requires forall i :: 0 <= i < |v| ==> v[i] == 0.0
    ensures Sum(v) == 0.0
  {
    if |v| > 0 {
      SumZeros(v[1..]);
    }
  }

  lemma {:induction false} SumNonNeg(v: Vec)
    requires NonNegVec(v)
    ensures Sum(v) >= 0.0
    ensures Sum(v) == 0.0 ==> forall i :: 0 <= i < |v| ==> v[i] == 0.0
  {
    if |v| > 0 {
      SumNonNeg(v[1..]);
      assert forall i :: 1 <= i < |v| ==> v[i] == v[1..][i - 1];
    }
  }

  lemma DivMul(x: real, m: real)
    requires m != 0.0
    ensures x * (1.0 / m) * m == x
  {
    assert (1.0 / m) * m == 1.0;
    assert x * (1.0 / m) * m == x * ((1.0 / m) * m);
  }

  lemma DivAtMostOne(x: real, m: real)
    requires m > 0.0 && x <= m
    ensures x * (1.0 / m) <= 1.0
  {
    assert x * (1.0 / m) <= m * (1.0 / m);
    assert m * (1.0 / m) == 1.0;
  }

  /** An entry no smaller than every other entry is the maximum. */
  lemma MaxIs(v: Vec, j: nat)
    requires j < |v| && forall i :: 0 <= i < |v| ==> v[i] <= v[j]
    ensures Max(v) == v[j]
  {
    var k :| 0 <= k < |v| && v[k] == Max(v);
  }

  /** Dividing by `m` and multiplying back gives the vector back. */
  lemma ScaleRoundTrip(v: Vec, m: real)
    requires m != 0.0
    ensures ScaleVec(ScaleVec(v, 1.0 / m), m) == v
  {
    var c := 1.0 / m;
    var r := ScaleVec(v, c);
    var back := ScaleVec(r, m);
    forall i | 0 <= i < |v| ensures back[i] == v[i] {
      var x, y := v[i], r[i];
      assert y == x * c;
      DivMul(x, m);
    }
  }

  /** Dividing by a bound of every entry leaves every entry at most 1. */
  lemma ScaledAtMostOne(v: Vec, m: real)
    requires m > 0.0 && forall i :: 0 <= i < |v| ==> v[i] <= m
    ensures var r := ScaleVec(v, 1.0 / m); forall i :: 0 <= i < |r| ==> r[i] <= 1.0
  {
    var r := ScaleVec(v, 1.0 / m);
    forall i | 0 <= i < |r| ensures r[i] <= 1.0 {
      DivAtMostOne(v[i], m);
    }
  }

  /** Dividing by the largest entry makes the largest entry 1. */
  lemma ScaleToUnitMax(v: Vec, m: real, j: nat)
    requires m > 0.0 && j < |v| && v[j] == m
    requires forall i :: 0 <= i < |v| ==> v[i] <= m
    ensures Max(ScaleVec(v, 1.0 / m)) == 1.0
  {
    var r := ScaleVec(v, 1.0 / m);
    ScaledAtMostOne(v, m);
    assert r[j] == 1.0 by {
      DivMul(1.0, m);
    }
    MaxIs(r, j);
  }

  /**
   * Sup-norm normalisation never divides by zero, passes an all-zero
   * message through unchanged, and otherwise rescales a non-negative
   * message so that its largest entry is 1 and multiplying back by the old
   * maximum recovers the message.
   */
  lemma SupNormalised(v: Vec)
    requires |v| > 0 && NonNegVec(v)
    ensures Max(v) == 0.0 ==> SupNormalise(v) == v && forall i :: 0 <= i < |v| ==> v[i] == 0.0
    ensures Max(v) != 0.0 ==>
      Max(SupNormalise(v)) == 1.0 && ScaleVec(SupNormalise(v), Max(v)) == v
  {
    var j :| 0 <= j < |v| && v[j] == Max(v);
    if Max(v) != 0.0 {
      assert Max(v) > 0.0 by { assert v[0] <= Max(v); }
      ScaleRoundTrip(v, Max(v));
      ScaleToUnitMax(v, Max(v), j);
    }
  }

  lemma SumToOne(u: Vec, m: real)
    requires m != 0.0 && Sum(u) == m
    ensures Sum(ScaleVec(u, 1.0 / m)) == 1.0
  {
    var c := 1.0 / m;
    SumScale(u, c);
    assert m * c == 1.0;
  }

  lemma ScaleOnes(u: Vec, c: real)
    requires forall i :: 0 <= i < |u| ==> u[i] == 1.0
    ensures forall i :: 0 <= i < |u| ==> ScaleVec(u, c)[i] == c
  {
    forall i | 0 <= i < |u| ensures ScaleVec(u, c)[i] == c {
      var x := u[i];
      assert ScaleVec(u, c)[i] == x * c;
    }
  }

  /**
   * A posterior of at least one entry is a distribution after
   * `MassNormalise`; a non-negative one with zero mass becomes uniform, and
   * otherwise multiplying back by the mass recovers the posterior.
   */
  lemma MassNormalised(v: Vec)
    requires |v| > 0
    ensures Sum(MassNormalise(v)) == 1.0
    ensures Sum(v) != 0.0 ==> ScaleVec(MassNormalise(v), Sum(v)) == v
    ensures Sum(v) == 0.0 && NonNegVec(v) ==>
      forall i :: 0 <= i < |v| ==> MassNormalise(v)[i] == 1.0 / |v| as real
  {
    SumAddOne(v);
    if Sum(v) != 0.0 {
      SumToOne(v, Sum(v));
      ScaleRoundTrip(v, Sum(v));
    } else {
      var u := Incremented(v);
      SumToOne(u, Sum(u));
      if NonNegVec(v) {
        SumNonNeg(v);
        ScaleOnes(u, 1.0 / Sum(u));
        assert Sum(u) == |v| as real;
      }
    }
  }

  // ---------------------------------------------------------------------
  // Tensors: shapes
  // ---------------------------------------------------------------------

  /** `t` has the given shape, with every axis of positive size. */
  predicate HasShape(t: Tensor, shape: seq<nat>)
    decreases t
  {
    match t
    case Scalar(_) => |shape| == 0
    case Stack(s) =>
      && |shape| > 0 && |s| == shape[0] && shape[0] > 0
      && forall k :: 0 <= k < |s| ==> HasShape(s[k], shape[1..])
  }

  /** The shape read along the first sub-tensor of every axis (`t.shape`). */
  function Dims(t: Tensor): seq<nat>
    decreases t
  {
    match t
    case Scalar(_) => []
    case Stack(s) => [|s|] + (if |s| == 0 then [] else Dims(s[0]))
  }

  function RemoveAt(shape: seq<nat>, i: nat): (r: seq<nat>)
    requires i < |shape|
    ensures |r| == |shape| - 1
  {
    shape[..i] + shape[i + 1..]
  }

  /** Flattening in row-major order (`view(-1)`). */
  function Elems(t: Tensor): Vec
    decreases t
  {
    match t
    case Scalar(x) => [x]
    case Stack(s) => Concat(seq(|s|, k requires 0 <= k < |s| => Elems(s[k])))
  }

  function Concat(vs: seq<Vec>): Vec
  {
    if |vs| == 0 then [] else vs[0] + Concat(vs[1..])
  }

  /** A 1-D tensor holding the entries of `v`. */
  function FromVec(v: Vec): Tensor
  {
    Stack(seq(|v|, i requires 0 <= i < |v| => Scalar(v[i])))
  }

  predicate NonNeg(t: Tensor)
    decreases t
  {
    match t
    case Scalar(x) => x >= 0.0
    case Stack(s) => forall k :: 0 <= k < |s| ==> NonNeg(s[k])
  }

  lemma {:induction false} ShapeDims(t: Tensor, shape: seq<nat>)
    requires HasShape(t, shape)
    ensures Dims(t) == shape
    decreases t
  {
    if t.Stack? {
      ShapeDims(t.slices[0], shape[1..]);
    }
  }

  // ---------------------------------------------------------------------
  // Tensors: elementwise arithmetic
  // ---------------------------------------------------------------------

  function TAdd(a: Tensor, b: Tensor): Tensor
    decreases a
  {
    match (a, b)
    case (Scalar(x), Scalar(y)) => Scalar(x + y)
    case (Stack(s), Stack(u)) =>
      Stack(seq(Min(|s|, |u|), k requires 0 <= k < Min(|s|, |u|) => TAdd(s[k], u[k])))
    case _ => a
  }

  function TScale(t: Tensor, c: real): Tensor
    decreases t
  {
    match t
    case Scalar(x) => Scalar(x * c)
    case Stack(s) => Stack(seq(|s|, k requires 0 <= k < |s| => TScale(s[k], c)))
  }

  /** Elementwise product of two tensors of the same shape. */
  function TMul(a: Tensor, b: Tensor): Tensor
    decreases a
  {
    match (a, b)
    case (Scalar(x), Scalar(y)) => Scalar(x * y)
    case (Stack(s), Stack(u)) =>
      Stack(seq(Min(|s|, |u|), k requires 0 <= k < Min(|s|, |u|) => TMul(s[k], u[k])))
    case _ => a
  }

  /** Applies `f` to every entry. */
  function TMap(t: Tensor, f: real -> real): Tensor
    decreases t
  {
    match t
    case Scalar(x) => Scalar(f(x))
    case Stack(s) => Stack(seq(|s|, k requires 0 <= k < |s| => TMap(s[k], f)))
  }

  function Filled(shape: seq<nat>, x: real): Tensor
    decreases |shape|
  {
    if |shape| == 0 then Scalar(x)
    else Stack(seq(shape[0], _ => Filled(shape[1..], x)))
  }

  function OnesTensor(shape: seq<nat>): Tensor { Filled(shape, 1.0) }

  function Zeros(shape: seq<nat>): Tensor { Filled(shape, 0.0) }

  // ---------------------------------------------------------------------
  // Axis elimination
  // ---------------------------------------------------------------------

  /** `w[0] * s[0] + ... + w[n-1] * s[n-1]`. */
  function WeightedSum(s: seq<Tensor>, w: Vec): Tensor
    decreases |s|
  {
    if |s| == 0 || |w| == 0 then Scalar(0.0)
    else if |s| == 1 || |w| == 1 then TScale(s[0], w[0])
    else TAdd(TScale(s[0], w[0]), WeightedSum(s[1..], w[1..]))
  }

  /**
   * `Operators.average(t, w, [axis])`: eliminates `axis` of `t` by summing
   * its slices weighted by the vector `w`; the other axes keep their order.
   */
  function Average(t: Tensor, w: Vec, axis: nat): Tensor
    decreases t
  {
    match t
    case Scalar(_) => t
    case Stack(s) =>
      if axis == 0 then WeightedSum(s, w)
      else Stack(seq(|s|, k requires 0 <= k < |s| => Average(s[k], w, axis - 1)))
  }

  /** The slice of `t` at index `a` of `axis` (the axis disappears). */
  function Select(t: Tensor, axis: nat, a: nat): Tensor
    decreases t
  {
    match t
    case Scalar(_) => t
    case Stack(s) =>
      if axis == 0 then (if a < |s| then s[a] else t)
      else Stack(seq(|s|, k requires 0 <= k < |s| => Select(s[k], axis - 1, a)))
  }

  /** Sum over the first axis: for a CPT, the mass of every column. */
  function SumFirstAxis(t: Tensor): Tensor
  {
    match t
    case Scalar(_) => t
    case Stack(s) => WeightedSum(s, Ones(|s|))
  }

  /**
   * A conditional probability table over its first axis: every column
   * (every index of the remaining axes) sums to 1.
   */
  predicate Stochastic(t: Tensor, shape: seq<nat>)
  {
    HasShape(t, shape) && |shape| >= 1 && SumFirstAxis(t) == OnesTensor(shape[1..])
  }

  // ---------------------------------------------------------------------
  // Shape lemmas
  // ---------------------------------------------------------------------

  predicate Positive(shape: seq<nat>)
  {
    forall i :: 0 <= i < |shape| ==> shape[i] > 0
  }

  lemma {:induction false} ShapePositive(t: Tensor, shape: seq<nat>)
    requires HasShape(t, shape)
    ensures Positive(shape)
    decreases t
  {
    if t.Stack? {
      ShapePositive(t.slices[0], shape[1..]);
      assert forall i :: 1 <= i < |shape| ==> shape[i] == shape[1..][i - 1];
    }
  }

  lemma {:induction false} ShapeFilled(shape: seq<nat>, x: real)
    requires Positive(shape)
    ensures HasShape(Filled(shape, x), shape)
    decreases |shape|
  {
    if |shape| > 0 {
      assert Positive(shape[1..]) by {
        assert forall i :: 0 <= i < |shape[1..]| ==> shape[1..][i] == shape[i + 1];
      }
      ShapeFilled(shape[1..], x);
    }
  }

  lemma {:induction false} ShapeAdd(a: Tensor, b: Tensor, shape: seq<nat>)
    requires HasShape(a, shape) && HasShape(b, shape)
    ensures HasShape(TAdd(a, b), shape)
    decreases a
  {
    if a.Stack? {
      forall k | 0 <= k < |a.slices| ensures HasShape(TAdd(a.slices[k], b.slices[k]), shape[1..]) {
        ShapeAdd(a.slices[k], b.slices[k], shape[1..]);
      }
    }
  }

  lemma {:induction false} ShapeScale(t: Tensor, c: real, shape: seq<nat>)
    requires HasShape(t, shape)
    ensures HasShape(TScale(t, c), shape)
    decreases t
  {
    if t.Stack? {
      forall k | 0 <= k < |t.slices| ensures HasShape(TScale(t.slices[k], c), shape[1..]) {
        ShapeScale(t.slices[k], c, shape[1..]);
      }
    }
  }

  lemma {:induction false} ShapeMul(a: Tensor, b: Tensor, shape: seq<nat>)
    requires HasShape(a, shape) && HasShape(b, shape)
    ensures HasShape(TMul(a, b), shape)
    decreases a
  {
    if a.Stack? {
      forall k | 0 <= k < |a.slices| ensures HasShape(TMul(a.slices[k], b.slices[k]), shape[1..]) {
        ShapeMul(a.slices[k], b.slices[k], shape[1..]);
      }
    }
  }

  lemma {:induction false} ShapeMap(t: Tensor, f: real -> real, shape: seq<nat>)
    requires HasShape(t, shape)
    ensures HasShape(TMap(t, f), shape)
    decreases t
  {
    if t.Stack? {
      forall k | 0 <= k < |t.slices| ensures HasShape(TMap(t.slices[k], f), shape[1..]) {
        ShapeMap(t.slices[k], f, shape[1..]);
      }
    }
  }

  predicate AllShaped(s: seq<Tensor>, shape: seq<nat>)
  {
    forall k :: 0 <= k < |s| ==> HasShape(s[k], shape)
  }

  lemma {:induction false} ShapeWeightedSum(s: seq<Tensor>, w: Vec, shape: seq<nat>)
    requires |s| == |w| >= 1 && AllShaped(s, shape)
    ensures HasShape(WeightedSum(s, w), shape)
    decreases |s|
  {
    ShapeScale(s[0], w[0], shape);
    if |s| > 1 {
      ShapeWeightedSum(s[1..], w[1..], shape);
      ShapeAdd(TScale(s[0], w[0]), WeightedSum(s[1..], w[1..]), shape);
    }
  }

  /** Eliminating an axis leaves the other axes, in their order. */
  lemma {:induction false} ShapeAverage(t: Tensor, w: Vec, axis: nat, shape: seq<nat>)
    requires HasShape(t, shape) && axis < |shape| && |w| == shape[axis]
    ensures HasShape(Average(t, w, axis), RemoveAt(shape, axis))
    decreases t
  {
    var s := t.slices;
    if axis == 0 {
      assert RemoveAt(shape, 0) == shape[1..];
      ShapeWeightedSum(s, w, shape[1..]);
    } else {
      assert RemoveAt(shape, axis) == [shape[0]] + RemoveAt(shape[1..], axis - 1);
      forall k | 0 <= k < |s| ensures HasShape(Average(s[k], w, axis - 1), RemoveAt(shape[1..], axis - 1)) {
        ShapeAverage(s[k], w, axis - 1, shape[1..]);
      }
    }
  }

  // ---------------------------------------------------------------------
  // Algebra of elementwise arithmetic
  // ---------------------------------------------------------------------

  lemma {:induction false} AddComm(a: Tensor, b: Tensor, shape: seq<nat>)
    requires HasShape(a, shape) && HasShape(b, shape)
    ensures TAdd(a, b) == TAdd(b, a)
    decreases a
  {
    if a.Stack? {
      forall k | 0 <= k < |a.slices| ensures TAdd(a.slices[k], b.slices[k]) == TAdd(b.slices[k], a.slices[k]) {
        AddComm(a.slices[k], b.slices[k], shape[1..]);
      }
    }
  }

  lemma {:induction false} AddAssoc(a: Tensor, b: Tensor, c: Tensor, shape: seq<nat>)
    requires HasShape(a, shape) && HasShape(b, shape) && HasShape(c, shape)
    ensures TAdd(TAdd(a, b), c) == TAdd(a, TAdd(b, c))
    decreases a
  {
    if a.Stack? {
      var s, u, v := a.slices, b.slices, c.slices;
      forall k | 0 <= k < |s| ensures TAdd(TAdd(s[k], u[k]), v[k]) == TAdd(s[k], TAdd(u[k], v[k])) {
        AddAssoc(s[k], u[k], v[k], shape[1..]);
      }
    }
  }

  lemma AddSwap(a: Tensor, b: Tensor, c: Tensor, d: Tensor, shape: seq<nat>)
    requires HasShape(a, shape) && HasShape(b, shape) && HasShape(c, shape) && HasShape(d, shape)
    ensures TAdd(TAdd(a, b), TAdd(c, d)) == TAdd(TAdd(a, c), TAdd(b, d))
  {
    ShapeAdd(c, d, shape);
    ShapeAdd(b, d, shape);
    ShapeAdd(b, c, shape);
    calc {
      TAdd(TAdd(a, b), TAdd(c, d));
      { AddAssoc(a, b, TAdd(c, d), shape); }
      TAdd(a, TAdd(b, TAdd(c, d)));
      { AddAssoc(b, c, d, shape); }
      TAdd(a, TAdd(TAdd(b, c), d));
      { AddComm(b, c, shape); }
      TAdd(a, TAdd(TAdd(c, b), d));
      { AddAssoc(c, b, d, shape); }
      TAdd(a, TAdd(c, TAdd(b, d)));
      { AddAssoc(a, c, TAdd(b, d), shape); }
      TAdd(TAdd(a, c), TAdd(b, d));
    }
  }

  lemma {:induction false} ScaleAdd(a: Tensor, b: Tensor, c: real, shape: seq<nat>)
    requires HasShape(a, shape) && HasShape(b, shape)
    ensures TScale(TAdd(a, b), c) == TAdd(TScale(a, c), TScale(b, c))
    decreases a
  {
    if a.Stack? {
      var s, u := a.slices, b.slices;
      forall k | 0 <= k < |s| ensures TScale(TAdd(s[k], u[k]), c) == TAdd(TScale(s[k], c), TScale(u[k], c)) {
        ScaleAdd(s[k], u[k], c, shape[1..]);
      }
    } else {
      assert (a.value + b.value) * c == a.value * c + b.value * c;
    }
  }

  lemma {:induction false} ScaleScale(t: Tensor, c: real, d: real)
    ensures TScale(TScale(t, c), d) == TScale(t, c * d)
    decreases t
  {
    if t.Stack? {
      forall k | 0 <= k < |t.slices| ensures TScale(TScale(t.slices[k], c), d) == TScale(t.slices[k], c * d) {
        ScaleScale(t.slices[k], c, d);
      }
    } else {
      assert t.value * c * d == t.value * (c * d);
    }
  }

  lemma {:induction false} ScaleOne(t: Tensor)
    ensures TScale(t, 1.0) == t
    decreases t
  {
    if t.Stack? {
      forall k | 0 <= k < |t.slices| ensures TScale(t.slices[k], 1.0) == t.slices[k] {
        ScaleOne(t.slices[k]);
      }
    }
  }

  lemma {:induction false} AddScales(t: Tensor, c: real, d: real)
    ensures TAdd(TScale(t, c), TScale(t, d)) == TScale(t, c + d)
    decreases t
  {
    if t.Stack? {
      forall k | 0 <= k < |t.slices| ensures TAdd(TScale(t.slices[k], c), TScale(t.slices[k], d)) == TScale(t.slices[k], c + d) {
        AddScales(t.slices[k], c, d);
      }
    } else {
      assert t.value * c + t.value * d == t.value * (c + d);
    }
  }

  lemma {:induction false} ScaleZero(t: Tensor, shape: seq<nat>)
    requires HasShape(t, shape)
    ensures TScale(t, 0.0) == Zeros(shape)
    decreases t
  {
    if t.Stack? {
      forall k | 0 <= k < |t.slices| ensures TScale(t.slices[k], 0.0) == Zeros(shape[1..]) {
        ScaleZero(t.slices[k], shape[1..]);
      }
    }
  }

  lemma {:induction false} ScaleFilled(shape: seq<nat>, x: real, c: real)
    ensures TScale(Filled(shape, x), c) == Filled(shape, x * c)
    decreases |shape|
  {
    if |shape| > 0 {
      ScaleFilled(shape[1..], x, c);
    }
  }

  lemma {:induction false} AddZero(t: Tensor, shape: seq<nat>)
    requires HasShape(t, shape)
    ensures TAdd(t, Zeros(shape)) == t && TAdd(Zeros(shape), t) == t
    decreases t
  {
    if t.Stack? {
      forall k | 0 <= k < |t.slices|
        ensures TAdd(t.slices[k], Zeros(shape[1..])) == t.slices[k]
        ensures TAdd(Zeros(shape[1..]), t.slices[k]) == t.slices[k]
      {
        AddZero(t.slices[k], shape[1..]);
      }
    }
  }

  // ---------------------------------------------------------------------
  // Weighted sums
  // ---------------------------------------------------------------------

  function AddSlices(s: seq<Tensor>, u: seq<Tensor>): seq<Tensor>
    requires |s| == |u|
  {
    seq(|s|, k requires 0 <= k < |s| => TAdd(s[k], u[k]))
  }

  lemma {:induction false} WeightedSumAdd(s: seq<Tensor>, u: seq<Tensor>, w: Vec, shape: seq<nat>)
    requires |s| == |u| == |w| >= 1 && AllShaped(s, shape) && AllShaped(u, shape)
    ensures WeightedSum(AddSlices(s, u), w) == TAdd(WeightedSum(s, w), WeightedSum(u, w))
    decreases |s|
  {
    var z := AddSlices(s, u);
    ScaleAdd(s[0], u[0], w[0], shape);
    if |s| > 1 {
      assert z[1..] == AddSlices(s[1..], u[1..]);
      WeightedSumAdd(s[1..], u[1..], w[1..], shape);
      ShapeScale(s[0], w[0], shape);
      ShapeScale(u[0], w[0], shape);
      ShapeWeightedSum(s[1..], w[1..], shape);
      ShapeWeightedSum(u[1..], w[1..], shape);
      AddSwap(TScale(s[0], w[0]), TScale(u[0], w[0]), WeightedSum(s[1..], w[1..]), WeightedSum(u[1..], w[1..]), shape);
    }
  }

  function ScaleSlices(s: seq<Tensor>, c: real): seq<Tensor>
  {
    seq(|s|, k requires 0 <= k < |s| => TScale(s[k], c))
  }

  lemma {:induction false} WeightedSumScale(s: seq<Tensor>, w: Vec, c: real, shape: seq<nat>)
    requires |s| == |w| >= 1 && AllShaped(s, shape)
    ensures WeightedSum(ScaleSlices(s, c), w) == TScale(WeightedSum(s, w), c)
    decreases |s|
  {
    var z := ScaleSlices(s, c);
    var s0, w0 := s[0], w[0];
    var cw, wc := c * w0, w0 * c;
    assert cw == wc;
    ScaleScale(s0, c, w0);
    ScaleScale(s0, w0, c);
    assert TScale(z[0], w0) == TScale(TScale(s0, w0), c);
    if |s| > 1 {
      assert z[1..] == ScaleSlices(s[1..], c);
      WeightedSumScale(s[1..], w[1..], c, shape);
      ShapeScale(s0, w0, shape);
      ShapeWeightedSum(s[1..], w[1..], shape);
      ScaleAdd(TScale(s0, w0), WeightedSum(s[1..], w[1..]), c, shape);
    }
  }

  lemma {:induction false} WeightedSumConst(x: Tensor, w: Vec)
    requires |w| >= 1
    ensures WeightedSum(seq(|w|, _ => x), w) == TScale(x, Sum(w))
    decreases |w|
  {
    var s := seq(|w|, _ => x);
    if |w| > 1 {
      assert s[1..] == seq(|w| - 1, _ => x);
      WeightedSumConst(x, w[1..]);
      AddScales(x, w[0], Sum(w[1..]));
    } else {
      assert Sum(w) == w[0];
    }
  }

  predicate IsOneHotAt(w: Vec, a: nat)
  {
    a < |w| && forall i :: 0 <= i < |w| ==> w[i] == (if i == a then 1.0 else 0.0)
  }

  lemma {:induction false} WeightedSumZeroWeights(s: seq<Tensor>, w: Vec, shape: seq<nat>)
    requires |s| == |w| >= 1 && AllShaped(s, shape)
    requires forall i :: 0 <= i < |w| ==> w[i] == 0.0
    ensures WeightedSum(s, w) == Zeros(shape)
    decreases |s|
  {
    ScaleZero(s[0], shape);
    if |s| > 1 {
      WeightedSumZeroWeights(s[1..], w[1..], shape);
      ShapePositive(s[0], shape);
      ShapeFilled(shape, 0.0);
      AddZero(Zeros(shape), shape);
    }
  }

  /** Weighting by a one-hot vector picks out one slice. */
  lemma {:induction false} WeightedSumOneHot(s: seq<Tensor>, w: Vec, a: nat, shape: seq<nat>)
    requires |s| == |w| && IsOneHotAt(w, a) && AllShaped(s, shape)
    ensures WeightedSum(s, w) == s[a]
    decreases |s|
  {
    ScaleOne(s[0]);
    if |s| > 1 {
      if a == 0 {
        WeightedSumZeroWeights(s[1..], w[1..], shape);
        AddZero(s[0], shape);
      } else {
        WeightedSumOneHot(s[1..], w[1..], a - 1, shape);
        ScaleZero(s[0], shape);
        AddZero(s[a], shape);
      }
    }
  }

  // ---------------------------------------------------------------------
  // Axis elimination: linearity and the facts the agent relies on
  // ---------------------------------------------------------------------

  lemma {:induction false} AverageAdd(x: Tensor, y: Tensor, w: Vec, axis: nat, shape: seq<nat>)
    requires HasShape(x, shape) && HasShape(y, shape) && axis < |shape| && |w| == shape[axis]
    ensures Average(TAdd(x, y), w, axis) == TAdd(Average(x, w, axis), Average(y, w, axis))
    decreases x
  {
    var s, u := x.slices, y.slices;
    if axis == 0 {
      assert TAdd(x, y).slices == AddSlices(s, u);
      WeightedSumAdd(s, u, w, shape[1..]);
    } else {
      forall k | 0 <= k < |s|
        ensures Average(TAdd(s[k], u[k]), w, axis - 1) == TAdd(Average(s[k], w, axis - 1), Average(u[k], w, axis - 1))
      {
        AverageAdd(s[k], u[k], w, axis - 1, shape[1..]);
      }
    }
  }

  lemma {:induction false} AverageScale(x: Tensor, c: real, w: Vec, axis: nat, shape: seq<nat>)
    requires HasShape(x, shape) && axis < |shape| && |w| == shape[axis]
    ensures Average(TScale(x, c), w, axis) == TScale(Average(x, w, axis), c)
    decreases x
  {
    var s := x.slices;
    if axis == 0 {
      assert TScale(x, c).slices == ScaleSlices(s, c);
      WeightedSumScale(s, w, c, shape[1..]);
    } else {
      forall k | 0 <= k < |s|
        ensures Average(TScale(s[k], c), w, axis - 1) == TScale(Average(s[k], w, axis - 1), c)
      {
        AverageScale(s[k], c, w, axis - 1, shape[1..]);
      }
    }
  }

  function AverageSlices(s: seq<Tensor>, w: Vec, axis: nat): seq<Tensor>
  {
    seq(|s|, k requires 0 <= k < |s| => Average(s[k], w, axis))
  }

  /** Elimination commutes with a weighted sum of same-shaped tensors. */
  lemma {:induction false} AverageWeightedSum(s: seq<Tensor>, v: Vec, w: Vec, axis: nat, shape: seq<nat>)
    requires |s| == |v| >= 1 && AllShaped(s, shape) && axis < |shape| && |w| == shape[axis]
    ensures Average(WeightedSum(s, v), w, axis) == WeightedSum(AverageSlices(s, w, axis), v)
    decreases |s|
  {
    var z := AverageSlices(s, w, axis);
    AverageScale(s[0], v[0], w, axis, shape);
    if |s| > 1 {
      assert z[1..] == AverageSlices(s[1..], w, axis);
      AverageWeightedSum(s[1..], v[1..], w, axis, shape);
      ShapeScale(s[0], v[0], shape);
      ShapeWeightedSum(s[1..], v[1..], shape);
      AverageAdd(TScale(s[0], v[0]), WeightedSum(s[1..], v[1..]), w, axis, shape);
    }
  }

  /** Summing out the first axis commutes with eliminating a later axis. */
  lemma SumFirstAxisAverage(t: Tensor, w: Vec, axis: nat, shape: seq<nat>)
    requires HasShape(t, shape) && 1 <= axis < |shape| && |w| == shape[axis]
    ensures SumFirstAxis(Average(t, w, axis)) == Average(SumFirstAxis(t), w, axis - 1)
  {
    var s := t.slices;
    assert Average(t, w, axis).slices == AverageSlices(s, w, axis - 1);
    AverageWeightedSum(s, Ones(|s|), w, axis - 1, shape[1..]);
  }

  lemma {:induction false} AverageFilled(shape: seq<nat>, x: real, w: Vec, axis: nat)
    requires Positive(shape) && axis < |shape| && |w| == shape[axis]
    ensures Average(Filled(shape, x), w, axis) == TScale(Filled(RemoveAt(shape, axis), x), Sum(w))
    decreases |shape|
  {
    var rest := Filled(shape[1..], x);
    assert Positive(shape[1..]) by {
      assert forall i :: 0 <= i < |shape[1..]| ==> shape[1..][i] == shape[i + 1];
    }
    if axis == 0 {
      assert RemoveAt(shape, 0) == shape[1..];
      assert Filled(shape, x).slices == seq(|w|, _ => rest);
      WeightedSumConst(rest, w);
    } else {
      assert RemoveAt(shape, axis) == [shape[0]] + RemoveAt(shape[1..], axis - 1);
      AverageFilled(shape[1..], x, w, axis - 1);
    }
  }

  /**
   * Eliminating a later axis of a CPT with a probability vector keeps it a
   * CPT: the predicted distribution over the first axis still sums to 1.
   */
  lemma StochasticAverage(t: Tensor, shape: seq<nat>, w: Vec, axis: nat)
    requires Stochastic(t, shape) && 1 <= axis < |shape| && |w| == shape[axis] && Sum(w) == 1.0
    ensures Stochastic(Average(t, w, axis), RemoveAt(shape, axis))
  {
    var rest := shape[1..];
    var out := RemoveAt(rest, axis - 1);
    ShapeAverage(t, w, axis, shape);
    SumFirstAxisAverage(t, w, axis, shape);
    ShapePositive(t, shape);
    assert Positive(rest) by {
      assert forall i :: 0 <= i < |rest| ==> rest[i] == shape[i + 1];
    }
    AverageFilled(rest, 1.0, w, axis - 1);
    ScaleOne(OnesTensor(out));
    assert RemoveAt(shape, axis)[1..] == out;
    calc {
      SumFirstAxis(Average(t, w, axis));
      Average(SumFirstAxis(t), w, axis - 1);
      Average(OnesTensor(rest), w, axis - 1);
      TScale(OnesTensor(out), 1.0);
      OnesTensor(out);
    }
  }

  lemma {:induction false} WeightedSumScalars(s: seq<Tensor>)
    requires |s| >= 1 && forall k :: 0 <= k < |s| ==> s[k].Scalar?
    ensures WeightedSum(s, Ones(|s|)) == Scalar(Sum(seq(|s|, k requires 0 <= k < |s| => s[k].value)))
    decreases |s|
  {
    var vals := seq(|s|, k requires 0 <= k < |s| => s[k].value);
    if |s| > 1 {
      assert Ones(|s|)[1..] == Ones(|s| - 1);
      WeightedSumScalars(s[1..]);
      assert vals[1..] == seq(|s[1..]|, k requires 0 <= k < |s[1..]| => s[1..][k].value);
    }
  }

  lemma {:induction false} ConcatSingletons(s: seq<Tensor>)
    requires forall k :: 0 <= k < |s| ==> s[k].Scalar?
    ensures Concat(seq(|s|, k requires 0 <= k < |s| => Elems(s[k]))) == seq(|s|, k requires 0 <= k < |s| => s[k].value)
    decreases |s|
  {
    if |s| > 0 {
      var es := seq(|s|, k requires 0 <= k < |s| => Elems(s[k]));
      assert es[1..] == seq(|s[1..]|, k requires 0 <= k < |s[1..]| => Elems(s[1..][k]));
      ConcatSingletons(s[1..]);
    }
  }

  /** A 1-D stochastic tensor is a probability vector. */
  lemma StochasticVector(t: Tensor, n: nat)
    requires Stochastic(t, [n])
    ensures |Elems(t)| == n && Sum(Elems(t)) == 1.0
  {
    var s := t.slices;
    assert forall k :: 0 <= k < |s| ==> HasShape(s[k], []);
    WeightedSumScalars(s);
    ConcatSingletons(s);
  }

  /** Eliminating an axis with a one-hot vector selects that slice. */
  lemma {:induction false} AverageOneHot(t: Tensor, shape: seq<nat>, axis: nat, a: nat)
    requires HasShape(t, shape) && axis < |shape| && a < shape[axis]
    ensures Average(t, OneHot(shape[axis], a), axis) == Select(t, axis, a)
    decreases t
  {
    var s := t.slices;
    if axis == 0 {
      WeightedSumOneHot(s, OneHot(shape[0], a), a, shape[1..]);
    } else {
      forall k | 0 <= k < |s| ensures Average(s[k], OneHot(shape[axis], a), axis - 1) == Select(s[k], axis - 1, a) {
        AverageOneHot(s[k], shape[1..], axis - 1, a);
      }
    }
  }

  lemma {:induction false} NonNegAdd(a: Tensor, b: Tensor)
    requires NonNeg(a) && NonNeg(b)
    ensures NonNeg(TAdd(a, b))
    decreases a
  {
    if a.Stack? && b.Stack? {
      forall k | 0 <= k < Min(|a.slices|, |b.slices|) ensures NonNeg(TAdd(a.slices[k], b.slices[k])) {
        NonNegAdd(a.slices[k], b.slices[k]);
      }
    }
  }

  lemma {:induction false} NonNegScale(t: Tensor, c: real)
    requires NonNeg(t) && c >= 0.0
    ensures NonNeg(TScale(t, c))
    decreases t
  {
    if t.Stack? {
      forall k | 0 <= k < |t.slices| ensures NonNeg(TScale(t.slices[k], c)) {
        NonNegScale(t.slices[k], c);
      }
    }
  }

  lemma {:induction false} NonNegWeightedSum(s: seq<Tensor>, w: Vec)
    requires (forall k :: 0 <= k < |s| ==> NonNeg(s[k])) && NonNegVec(w)
    ensures NonNeg(WeightedSum(s, w))
    decreases |s|
  {
    if |s| > 0 && |w| > 0 {
      NonNegScale(s[0], w[0]);
      if |s| > 1 && |w| > 1 {
        NonNegWeightedSum(s[1..], w[1..]);
        NonNegAdd(TScale(s[0], w[0]), WeightedSum(s[1..], w[1..]));
      }
    }
  }

  /** Eliminating an axis with non-negative weights keeps entries non-negative. */
  lemma {:induction false} NonNegAverage(t: Tensor, w: Vec, axis: nat)
    requires NonNeg(t) && NonNegVec(w)
    ensures NonNeg(Average(t, w, axis))
    decreases t
  {
    if t.Stack? {
      if axis == 0 {
        NonNegWeightedSum(t.slices, w);
      } else {
        forall k | 0 <= k < |t.slices| ensures NonNeg(Average(t.slices[k], w, axis - 1)) {
          NonNegAverage(t.slices[k], w, axis - 1);
        }
      }
    }
  }

  lemma {:induction false} NonNegElems(t: Tensor)
    requires NonNeg(t)
    ensures NonNegVec(Elems(t))
    decreases t
  {
    if t.Stack? {
      var s := t.slices;
      var es := seq(|s|, k requires 0 <= k < |s| => Elems(s[k]));
      forall k | 0 <= k < |s| ensures NonNegVec(es[k]) {
        NonNegElems(s[k]);
      }
      NonNegConcat(es);
    }
  }

  lemma {:induction false} NonNegConcat(vs: seq<Vec>)
    requires forall k :: 0 <= k < |vs| ==> NonNegVec(vs[k])
    ensures NonNegVec(Concat(vs))
  {
    if |vs| > 0 {
      NonNegConcat(vs[1..]);
    }
  }

  /** Eliminating an axis of the all-zero tensor gives the all-zero tensor. */
  lemma AverageZeros(shape: seq<nat>, w: Vec, axis: nat)
    requires Positive(shape) && axis < |shape| && |w| == shape[axis]
    ensures Average(Zeros(shape), w, axis) == Zeros(RemoveAt(shape, axis))
  {
    AverageFilled(shape, 0.0, w, axis);
    ScaleFilled(RemoveAt(shape, axis), 0.0, Sum(w));
  }
}
