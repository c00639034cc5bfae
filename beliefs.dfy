/**
 * The pure belief computations of a temporal slice: forward prediction
 * through a conditional probability table, the marginal posterior of a
 * state computed from its incoming messages, and the risk and ambiguity
 * terms of the expected free energy.
 *
 * `log` is a parameter: nothing is assumed about it except where a lemma
 * names a property of it as a hypothesis.
 */
module Beliefs {
  import opened Wrappers
  import opened Tensors
  import opened FactorGraphs

  /** A prior preference: the observed variables it covers and its table over their joint. */
  datatype Preference = Preference(group: seq<Name>, table: Tensor)

  /**
   * The generative model a temporal slice is built from, shared by every
   * slice of the planning tree: the action variable, the hidden states with
   * their transition tables and parents, the observations with their
   * likelihood tables and parents, and the prior preferences (in insertion
   * order, keyed by name).
   */
  datatype Model = Model(
    nActions: nat,
    actionName: Name,
    stateNames: seq<Name>,
    transition: map<Name, Tensor>,
    stateParents: map<Name, seq<Name>>,
    obsNames: seq<Name>,
    likelihood: map<Name, Tensor>,
    obsParents: map<Name, seq<Name>>,
    prefs: seq<(Name, Preference)>)

  /** Every lookup the slice makes into the model succeeds. */
  predicate ModelOk(m: Model)
  {
    && Distinct(m.stateNames) && Distinct(m.obsNames)
    && m.actionName !in m.stateNames
    && (forall s :: s in m.stateNames ==>
          && s in m.transition && s in m.stateParents && Distinct(m.stateParents[s])
          && forall p :: p in m.stateParents[s] ==> p == m.actionName || p in m.stateNames)
    && (forall o :: o in m.obsNames ==>
          && o in m.likelihood && o in m.obsParents && Distinct(m.obsParents[o])
          && forall p :: p in m.obsParents[o] ==> p in m.stateNames)
    && (forall k :: 0 <= k < |m.prefs| ==>
          && |m.prefs[k].1.group| > 0
          && forall o :: o in m.prefs[k].1.group ==> o in m.obsNames)
  }

  // ---------------------------------------------------------------------
  // Forward prediction
  // ---------------------------------------------------------------------

  predicate Covers(parents: seq<Name>, weights: map<Name, Vec>)
  {
    forall p :: p in parents ==> p in weights
  }

  /**
   * Eliminates `parents[k-1]`, ..., `parents[0]` from `t`, the last one
   * first; the parent found first at position `i` of `parents` sits on
   * axis `i + offset` and is weighted by `weights[parent]`.
   */
  function Eliminate(t: Tensor, parents: seq<Name>, weights: map<Name, Vec>, offset: nat, k: nat): Tensor
    requires k <= |parents| && Covers(parents, weights)
    decreases k
  {
    if k == 0 then t
    else
      var p := parents[k - 1];
      Eliminate(Average(t, weights[p], IndexOf(parents, p) + offset), parents, weights, offset, k - 1)
  }

  /**
   * `forward_prediction`: axis 0 of `params` is the predicted variable;
   * each parent is eliminated with the action vector when it is the action
   * variable and with its posterior otherwise.
   */
  function ForwardPrediction(params: Tensor, parents: seq<Name>, actionName: Name, action: Vec, posteriors: map<Name, Vec>): Tensor
    requires forall p :: p in parents ==> p == actionName || p in posteriors
  {
    Eliminate(params, parents, posteriors[actionName := action], 1, |parents|)
  }

  lemma {:induction false} EliminateStochastic(t: Tensor, n: nat, dims: seq<nat>, parents: seq<Name>, weights: map<Name, Vec>, k: nat)
    requires Distinct(parents) && Covers(parents, weights) && k <= |parents| && |dims| == |parents|
    requires Stochastic(t, [n] + dims[..k])
    requires forall j :: 0 <= j < |parents| ==> |weights[parents[j]]| == dims[j] && Sum(weights[parents[j]]) == 1.0
    ensures Stochastic(Eliminate(t, parents, weights, 1, k), [n])
    decreases k
  {
    if k == 0 {
      assert [n] + dims[..0] == [n];
    } else {
      var p := parents[k - 1];
      IndexOfDistinct(parents, k - 1);
      var shape := [n] + dims[..k];
      StochasticAverage(t, shape, weights[p], k);
      assert RemoveAt(shape, k) == [n] + dims[..k - 1];
      EliminateStochastic(Average(t, weights[p], k), n, dims, parents, weights, k - 1);
    }
  }

  /**
   * Predicting through a table whose every column sums to 1, with
   * posteriors and action vector that each sum to 1, gives a distribution
   * over the predicted variable.
   */
  lemma ForwardPredictionStochastic(params: Tensor, n: nat, dims: seq<nat>, parents: seq<Name>, actionName: Name, action: Vec, posteriors: map<Name, Vec>)
    requires forall p :: p in parents ==> p == actionName || p in posteriors
    requires Distinct(parents) && |dims| == |parents| && Stochastic(params, [n] + dims)
    requires forall j :: 0 <= j < |parents| ==>
      var w := posteriors[actionName := action][parents[j]]; |w| == dims[j] && Sum(w) == 1.0
    ensures var r := ForwardPrediction(params, parents, actionName, action, posteriors);
      Stochastic(r, [n]) && |Elems(r)| == n && Sum(Elems(r)) == 1.0
  {
    var r := ForwardPrediction(params, parents, actionName, action, posteriors);
    assert dims[..|parents|] == dims;
    EliminateStochastic(params, n, dims, parents, posteriors[actionName := action], |parents|);
    StochasticVector(r, n);
  }

  lemma {:induction false} EliminatePrefix(t: Tensor, parents: seq<Name>, ps: seq<Name>, w: map<Name, Vec>, v: map<Name, Vec>, k: nat)
    requires Distinct(parents) && |ps| <= |parents| && ps == parents[..|ps|] && k <= |ps|
    requires Covers(parents, w) && Covers(ps, v)
    requires forall p :: p in ps ==> w[p] == v[p]
    ensures Eliminate(t, parents, w, 1, k) == Eliminate(t, ps, v, 1, k)
    decreases k
  {
    if k > 0 {
      var p := ps[k - 1];
      assert p == parents[k - 1];
      IndexOfDistinct(parents, k - 1);
      IndexOfDistinct(ps, k - 1);
      EliminatePrefix(Average(t, w[p], k), parents, ps, w, v, k - 1);
    }
  }

  /**
   * The one-hot action vector selects that action's slice: when the
   * action variable is the last parent, predicting under action `a` is
   * predicting through the slice of the table at `a` over the other parents.
   */
  lemma ForwardPredictionSelects(params: Tensor, n: nat, dims: seq<nat>, ps: seq<Name>, actionName: Name, nActions: nat, a: nat, posteriors: map<Name, Vec>)
    requires Distinct(ps + [actionName]) && (forall p :: p in ps ==> p in posteriors)
    requires |dims| == |ps| + 1 && dims[|ps|] == nActions && a < nActions && HasShape(params, [n] + dims)
    ensures ForwardPrediction(params, ps + [actionName], actionName, OneHot(nActions, a), posteriors)
         == Eliminate(Select(params, |ps| + 1, a), ps, posteriors, 1, |ps|)
  {
    var parents := ps + [actionName];
    var w := posteriors[actionName := OneHot(nActions, a)];
    IndexOfDistinct(parents, |ps|);
    assert parents[|ps|] == actionName;
    AverageOneHot(params, [n] + dims, |ps| + 1, a);
    assert parents[..|ps|] == ps;
    forall p | p in ps ensures w[p] == posteriors[p] {
      assert p != actionName by {
        var j :| 0 <= j < |ps| && ps[j] == p;
        assert parents[j] == p;
      }
    }
    EliminatePrefix(Select(params, |ps| + 1, a), parents, ps, w, posteriors, |ps|);
  }

  // ---------------------------------------------------------------------
  // Marginal posteriors
  // ---------------------------------------------------------------------

  /**
   * The in-place multiplication of `acc` by the messages in slot order,
   * which stops at the first empty slot; the flag says whether every slot
   * held a message.
   */
  function Accumulate(acc: Vec, ms: seq<Option<Vec>>): (r: (Vec, bool))
    ensures r.1 <==> AllPresent(ms)
    ensures !r.1 ==> |r.0| <= |acc|
    decreases |ms|
  {
    if |ms| == 0 then (acc, true)
    else if ms[0].None? then (acc, false)
    else
      var r := Accumulate(MulVec(acc, ms[0].value), ms[1..]);
      assert AllPresent(ms) <==> AllPresent(ms[1..]);
      r
  }

  /**
   * `compute_posterior_distributions` for one state node with posterior
   * length `n`: the posterior written and whether every slot held a
   * message. On an empty slot the source raises, leaving the product of
   * the messages before it in place.
   */
  function Marginal(n: nat, ms: seq<Option<Vec>>): (r: (Vec, bool))
    ensures r.1 <==> AllPresent(ms)
  {
    var acc := Accumulate(Ones(n), ms);
    if acc.1 then (MassNormalise(acc.0), true) else acc
  }

  lemma {:induction false} AccumulateProduct(acc: Vec, ms: seq<Option<Vec>>, done: seq<Vec>, n: nat)
    requires AllPresent(ms) && SameLength(Values(ms), n) && SameLength(done, n)
    requires |acc| == n && forall i :: 0 <= i < n ==> acc[i] == ProdAt(done, i)
    ensures Accumulate(acc, ms).0 == seq(n, i requires 0 <= i < n => ProdAt(done + Values(ms), i))
    decreases |ms|
  {
    if |ms| == 0 {
      assert done + Values(ms) == done;
    } else {
      var m := ms[0].value;
      assert Values(ms)[0] == m;
      assert |m| == n;
      var acc' := MulVec(acc, m);
      var done' := done + [m];
      assert done'[..|done'| - 1] == done;
      assert SameLength(done', n);
      forall i | 0 <= i < n ensures acc'[i] == ProdAt(done', i) {
        var x, y := acc[i], m[i];
        assert acc'[i] == x * y;
        assert ProdAt(done', i) == ProdAt(done, i) * y;
      }
      assert Values(ms[1..]) == Values(ms)[1..];
      assert done' + Values(ms[1..]) == done + Values(ms);
      AccumulateProduct(acc', ms[1..], done', n);
    }
  }

  /**
   * With every slot filled by a message of length `n`, the marginal is the
   * entrywise product of the messages normalised to sum 1; a product of
   * zero mass is first lifted by 1, so a non-negative one becomes uniform.
   */
  lemma MarginalIsNormalisedProduct(n: nat, ms: seq<Option<Vec>>)
    requires n > 0 && AllPresent(ms) && SameLength(Values(ms), n)
    ensures var prod := seq(n, i requires 0 <= i < n => ProdAt(Values(ms), i));
      var r := Marginal(n, ms).0;
      && Marginal(n, ms).1
      && |r| == n && Sum(r) == 1.0
      && (Sum(prod) != 0.0 ==> ScaleVec(r, Sum(prod)) == prod)
      && (Sum(prod) == 0.0 && NonNegVec(prod) ==> forall i :: 0 <= i < n ==> r[i] == 1.0 / n as real)
  {
    var ones := Ones(n);
    assert forall i :: 0 <= i < n ==> ones[i] == ProdAt([], i);
    assert [] + Values(ms) == Values(ms);
    AccumulateProduct(ones, ms, [], n);
    var prod := seq(n, i requires 0 <= i < n => ProdAt(Values(ms), i));
    MassNormalised(prod);
  }

  // ---------------------------------------------------------------------
  // Risk
  // ---------------------------------------------------------------------

  /** `torch.outer(u, v).view(-1)`: row-major entries `u[i] * v[j]`. */
  function Outer(u: Vec, v: Vec): (r: Vec)
    ensures |r| == |u| * |v|
  {
    if |u| == 0 then []
    else
      var rest := Outer(u[1..], v);
      assert |rest| == (|u| - 1) * |v|;
      ScaleVec(v, u[0]) + rest
  }

  lemma {:induction false} SumOuter(u: Vec, v: Vec)
    ensures Sum(Outer(u, v)) == Sum(u) * Sum(v)
  {
    if |u| > 0 {
      var x, s, t := u[0], Sum(v), Sum(u[1..]);
      var head, rest := ScaleVec(v, x), Outer(u[1..], v);
      assert Outer(u, v) == head + rest;
      SumAppend(head, rest);
      SumScale(v, x);
      SumOuter(u[1..], v);
      assert s * x + t * s == (x + t) * s;
    }
  }

  /** The joint posterior of a preference's observed variables, first variable outermost. */
  function Joint(group: seq<Name>, obsPosterior: map<Name, Tensor>): Vec
    requires |group| > 0 && forall o :: o in group ==> o in obsPosterior
  {
    if |group| == 1 then Elems(obsPosterior[group[0]])
    else Outer(Joint(group[..|group| - 1], obsPosterior), Elems(obsPosterior[group[|group| - 1]]))
  }

  /** The joint of distributions is a distribution. */
  lemma {:induction false} JointSumsToOne(group: seq<Name>, obsPosterior: map<Name, Tensor>)
    requires |group| > 0 && forall o :: o in group ==> o in obsPosterior && Sum(Elems(obsPosterior[o])) == 1.0
    ensures Sum(Joint(group, obsPosterior)) == 1.0
  {
    if |group| > 1 {
      var last := group[|group| - 1];
      JointSumsToOne(group[..|group| - 1], obsPosterior);
      SumOuter(Joint(group[..|group| - 1], obsPosterior), Elems(obsPosterior[last]));
    }
  }

  /** The entries `q[i] * (log q[i] - log c[i])` of the analytic risk. */
  function RiskEntries(q: Vec, c: Vec, log: real -> real): (r: seq<real>)
    ensures |r| == Min(|q|, |c|)
    ensures forall i :: 0 <= i < |r| ==> r[i] == q[i] * (log(q[i]) - log(c[i]))
  {
    seq(Min(|q|, |c|), i requires 0 <= i < Min(|q|, |c|) => q[i] * (log(q[i]) - log(c[i])))
  }

  /** The analytic risk `sum q * (log q - log c)` of a joint `q` against a preference `c`. */
  function Risk(q: Vec, c: Vec, log: real -> real): real
  {
    Sum(RiskEntries(q, c, log))
  }

  /** Observations distributed exactly as preferred carry no risk. */
  lemma RiskOfMatch(q: Vec, log: real -> real)
    ensures Risk(q, q, log) == 0.0
  {
    var terms := RiskEntries(q, q, log);
    forall i | 0 <= i < |terms| ensures terms[i] == 0.0 {
      var x := q[i];
      assert terms[i] == x * (log(x) - log(x));
    }
    SumZeros(terms);
  }

  predicate PrefsCovered(prefs: seq<(Name, Preference)>, obsPosterior: map<Name, Tensor>)
  {
    forall k :: 0 <= k < |prefs| ==>
      |prefs[k].1.group| > 0 && forall o :: o in prefs[k].1.group ==> o in obsPosterior
  }

  function PrefRisk(pref: Preference, obsPosterior: map<Name, Tensor>, log: real -> real): real
    requires |pref.group| > 0 && forall o :: o in pref.group ==> o in obsPosterior
  {
    Risk(Joint(pref.group, obsPosterior), Elems(pref.table), log)
  }

  /**
   * `compute_risk_terms`: one term per preference, in order, skipping a
   * preference whose key is already among the variables of the processed
   * preferences.
   */
  function RiskTerms(prefs: seq<(Name, Preference)>, obsPosterior: map<Name, Tensor>, log: real -> real, processed: seq<Name>): (r: seq<real>)
    requires PrefsCovered(prefs, obsPosterior)
    ensures |r| <= |prefs|
  {
    if |prefs| == 0 then []
    else
      var (key, pref) := prefs[0];
      if key in processed then RiskTerms(prefs[1..], obsPosterior, log, processed)
      else [PrefRisk(pref, obsPosterior, log)] + RiskTerms(prefs[1..], obsPosterior, log, processed + pref.group)
  }

  /** No key occurs among the processed variables or in the group of an earlier preference. */
  predicate KeysFresh(prefs: seq<(Name, Preference)>, processed: seq<Name>)
  {
    forall i :: 0 <= i < |prefs| ==>
      && prefs[i].0 !in processed
      && forall j :: 0 <= j < i ==> prefs[i].0 !in prefs[j].1.group
  }

  /**
   * Every preference contributes its own risk term exactly when no key is
   * shadowed; otherwise some preference is skipped.
   */
  lemma RiskTermsOnePerPreference(prefs: seq<(Name, Preference)>, obsPosterior: map<Name, Tensor>, log: real -> real, processed: seq<Name>)
    requires PrefsCovered(prefs, obsPosterior)
    ensures KeysFresh(prefs, processed) ==>
      RiskTerms(prefs, obsPosterior, log, processed) == seq(|prefs|, i requires 0 <= i < |prefs| => PrefRisk(prefs[i].1, obsPosterior, log))
    ensures !KeysFresh(prefs, processed) ==> |RiskTerms(prefs, obsPosterior, log, processed)| < |prefs|
  {
    if KeysFresh(prefs, processed) {
      RiskTermsFresh(prefs, obsPosterior, log, processed);
    } else {
      RiskTermsShadowed(prefs, obsPosterior, log, processed);
    }
  }

  lemma {:induction false} RiskTermsFresh(prefs: seq<(Name, Preference)>, obsPosterior: map<Name, Tensor>, log: real -> real, processed: seq<Name>)
    requires PrefsCovered(prefs, obsPosterior) && KeysFresh(prefs, processed)
    ensures RiskTerms(prefs, obsPosterior, log, processed) == seq(|prefs|, i requires 0 <= i < |prefs| => PrefRisk(prefs[i].1, obsPosterior, log))
    decreases |prefs|
  {
    if |prefs| > 0 {
      var rest := prefs[1..];
      var processed' := processed + prefs[0].1.group;
      KeysFreshTail(prefs, processed);
      RiskTermsFresh(rest, obsPosterior, log, processed');
      var all := seq(|prefs|, i requires 0 <= i < |prefs| => PrefRisk(prefs[i].1, obsPosterior, log));
      var tail := seq(|rest|, i requires 0 <= i < |rest| => PrefRisk(rest[i].1, obsPosterior, log));
      assert all == [PrefRisk(prefs[0].1, obsPosterior, log)] + tail;
    }
  }

  /** Without shadowing, the tail is fresh once the head's group is processed. */
  lemma KeysFreshTail(prefs: seq<(Name, Preference)>, processed: seq<Name>)
    requires |prefs| > 0 && KeysFresh(prefs, processed)
    ensures KeysFresh(prefs[1..], processed + prefs[0].1.group)
  {
    var rest, processed' := prefs[1..], processed + prefs[0].1.group;
    forall i | 0 <= i < |rest| ensures rest[i].0 !in processed' && forall j :: 0 <= j < i ==> rest[i].0 !in rest[j].1.group {
      assert rest[i] == prefs[i + 1];
      forall j | 0 <= j < i ensures rest[i].0 !in rest[j].1.group {
        assert rest[j] == prefs[j + 1];
      }
    }
  }

  lemma {:induction false} RiskTermsShadowed(prefs: seq<(Name, Preference)>, obsPosterior: map<Name, Tensor>, log: real -> real, processed: seq<Name>)
    requires PrefsCovered(prefs, obsPosterior) && !KeysFresh(prefs, processed)
    ensures |RiskTerms(prefs, obsPosterior, log, processed)| < |prefs|
    decreases |prefs|
  {
    var (key, pref) := prefs[0];
    var rest := prefs[1..];
    if key !in processed {
      var processed' := processed + pref.group;
      var i :| 0 <= i < |prefs| && !(prefs[i].0 !in processed && forall j :: 0 <= j < i ==> prefs[i].0 !in prefs[j].1.group);
      assert i > 0;
      assert rest[i - 1] == prefs[i];
      if prefs[i].0 !in processed' {
        var j :| 0 <= j < i && prefs[i].0 in prefs[j].1.group;
        assert j > 0;
        assert rest[j - 1] == prefs[j];
      }
      assert !KeysFresh(rest, processed');
      RiskTermsShadowed(rest, obsPosterior, log, processed');
    }
  }

  // ---------------------------------------------------------------------
  // Ambiguity
  // ---------------------------------------------------------------------

  /** `-log L` weighted by `L` and summed over the observation axis: the entropy of each column. */
  function ColumnEntropy(likelihood: Tensor, log: real -> real): Tensor
  {
    SumFirstAxis(TMul(TMap(likelihood, x => -log(x)), likelihood))
  }

  /**
   * `.item()` on the analytic ambiguity, which holds a single entry once
   * every axis has been averaged out. On a tensor with several entries,
   * where `.item()` raises, this gives the first entry, and 0.0 on an empty
   * one; `SingleEntry` is the guarded form.
   */
  function Item(t: Tensor): real
  {
    var e := Elems(t); if |e| > 0 then e[0] else 0.0
  }

  /**
   * The analytic ambiguity of one modality: the column entropies averaged
   * over the parents' posteriors, the last parent first; after the
   * observation axis is gone the parent at position `i` sits on axis `i`.
   */
  function Ambiguity(likelihood: Tensor, parents: seq<Name>, posteriors: map<Name, Vec>, log: real -> real): real
    requires Covers(parents, posteriors)
  {
    Item(Eliminate(ColumnEntropy(likelihood, log), parents, posteriors, 0, |parents|))
  }

  /** `compute_ambiguity_terms`: one term per observation modality, in order. */
  function AmbiguityTerms(m: Model, posteriors: map<Name, Vec>, log: real -> real): (r: seq<real>)
    requires ModelOk(m) && forall s :: s in m.stateNames ==> s in posteriors
    ensures |r| == |m.obsNames|
    ensures forall k :: 0 <= k < |r| ==>
      r[k] == Ambiguity(m.likelihood[m.obsNames[k]], m.obsParents[m.obsNames[k]], posteriors, log)
  {
    seq(|m.obsNames|, k requires 0 <= k < |m.obsNames| =>
      var o := m.obsNames[k];
      Ambiguity(m.likelihood[o], m.obsParents[o], posteriors, log))
  }

  /** Every entry lies in [0, 1]. */
  predicate Probabilities(t: Tensor)
    decreases t
  {
    match t
    case Scalar(x) => 0.0 <= x <= 1.0
    case Stack(s) => forall k :: 0 <= k < |s| ==> Probabilities(s[k])
  }

  lemma {:induction false} NonNegNegLog(t: Tensor, log: real -> real)
    requires Probabilities(t) && forall x :: 0.0 <= x <= 1.0 ==> log(x) <= 0.0
    ensures NonNeg(TMap(t, x => -log(x)))
    decreases t
  {
    if t.Stack? {
      forall k | 0 <= k < |t.slices| ensures NonNeg(TMap(t.slices[k], x => -log(x))) {
        NonNegNegLog(t.slices[k], log);
      }
    }
  }

  lemma {:induction false} NonNegMul(a: Tensor, b: Tensor)
    requires NonNeg(a) && NonNeg(b)
    ensures NonNeg(TMul(a, b))
    decreases a
  {
    if a.Stack? && b.Stack? {
      forall k | 0 <= k < Min(|a.slices|, |b.slices|) ensures NonNeg(TMul(a.slices[k], b.slices[k])) {
        NonNegMul(a.slices[k], b.slices[k]);
      }
    }
  }

  lemma {:induction false} ProbabilitiesNonNeg(t: Tensor)
    requires Probabilities(t)
    ensures NonNeg(t)
    decreases t
  {
    if t.Stack? {
      forall k | 0 <= k < |t.slices| ensures NonNeg(t.slices[k]) {
        ProbabilitiesNonNeg(t.slices[k]);
      }
    }
  }

  lemma {:induction false} NonNegEliminate(t: Tensor, parents: seq<Name>, weights: map<Name, Vec>, offset: nat, k: nat)
    requires k <= |parents| && Covers(parents, weights) && NonNeg(t)
    requires forall p :: p in parents ==> NonNegVec(weights[p])
    ensures NonNeg(Eliminate(t, parents, weights, offset, k))
    decreases k
  {
    if k > 0 {
      var p := parents[k - 1];
      NonNegAverage(t, weights[p], IndexOf(parents, p) + offset);
      NonNegEliminate(Average(t, weights[p], IndexOf(parents, p) + offset), parents, weights, offset, k - 1);
    }
  }

  /**
   * Ambiguity is an expected entropy: it is never negative when the
   * likelihood holds probabilities, the posteriors are non-negative and
   * `log` is non-positive on [0, 1].
   */
  lemma AmbiguityNonNeg(likelihood: Tensor, parents: seq<Name>, posteriors: map<Name, Vec>, log: real -> real)
    requires Covers(parents, posteriors) && forall p :: p in parents ==> NonNegVec(posteriors[p])
    requires Probabilities(likelihood) && forall x :: 0.0 <= x <= 1.0 ==> log(x) <= 0.0
    ensures Ambiguity(likelihood, parents, posteriors, log) >= 0.0
  {
    NonNegNegLog(likelihood, log);
    ProbabilitiesNonNeg(likelihood);
    var h := TMul(TMap(likelihood, x => -log(x)), likelihood);
    NonNegMul(TMap(likelihood, x => -log(x)), likelihood);
    if h.Stack? {
      NonNegWeightedSum(h.slices, Ones(|h.slices|));
    }
    var e := Eliminate(ColumnEntropy(likelihood, log), parents, posteriors, 0, |parents|);
    NonNegEliminate(ColumnEntropy(likelihood, log), parents, posteriors, 0, |parents|);
    NonNegElems(e);
  }

  // ---------------------------------------------------------------------
  // Expected free energy
  // ---------------------------------------------------------------------

  /** `efe(-1)`: the sum of the analytic risk terms and the analytic ambiguity terms. */
  function Efe(m: Model, statesPosterior: map<Name, Vec>, obsPosterior: map<Name, Tensor>, log: real -> real): real
    requires ModelOk(m) && PrefsCovered(m.prefs, obsPosterior)
    requires forall s :: s in m.stateNames ==> s in statesPosterior
  {
    Sum(RiskTerms(m.prefs, obsPosterior, log, [])) + Sum(AmbiguityTerms(m, statesPosterior, log))
  }

  /**
   * When every preference is met exactly by the predicted joint and no key
   * is shadowed, the expected free energy is the ambiguity alone.
   */
  lemma EfeWithoutRisk(m: Model, statesPosterior: map<Name, Vec>, obsPosterior: map<Name, Tensor>, log: real -> real)
    requires ModelOk(m) && PrefsCovered(m.prefs, obsPosterior)
    requires forall s :: s in m.stateNames ==> s in statesPosterior
    requires KeysFresh(m.prefs, [])
    requires forall k :: 0 <= k < |m.prefs| ==> Elems(m.prefs[k].1.table) == Joint(m.prefs[k].1.group, obsPosterior)
    ensures Efe(m, statesPosterior, obsPosterior, log) == Sum(AmbiguityTerms(m, statesPosterior, log))
  {
    RiskTermsOnePerPreference(m.prefs, obsPosterior, log, []);
    var terms := RiskTerms(m.prefs, obsPosterior, log, []);
    forall k | 0 <= k < |terms| ensures terms[k] == 0.0 {
      RiskOfMatch(Joint(m.prefs[k].1.group, obsPosterior), log);
    }
    SumZeros(terms);
  }

  // ---------------------------------------------------------------------
  // Monte-Carlo estimates, from supplied draws
  // ---------------------------------------------------------------------

  function Mean(xs: seq<real>): real
    requires |xs| > 0
  {
    Sum(xs) / |xs| as real
  }

  lemma {:induction false} SumConst(xs: seq<real>, x: real)
    requires forall k :: 0 <= k < |xs| ==> xs[k] == x
    ensures Sum(xs) == |xs| as real * x
  {
    if |xs| > 0 {
      SumConst(xs[1..], x);
    }
  }

  /** The mean of equal values is that value. */
  lemma MeanConst(xs: seq<real>, x: real)
    requires |xs| > 0 && forall k :: 0 <= k < |xs| ==> xs[k] == x
    ensures Mean(xs) == x
  {
    SumConst(xs, x);
  }

  /**
   * The value of a tensor that holds exactly one entry (`.item()`): every
   * axis has size 1; any other tensor has no single value.
   */
  function SingleEntry(t: Tensor): (r: Option<real>)
    ensures r.Some? ==> Elems(t) == [r.value]
    decreases t
  {
    match t
    case Scalar(x) => Some(x)
    case Stack(s) =>
      if |s| == 1 then
        var e := SingleEntry(s[0]);
        if e.Some? then
          assert Elems(t) == Elems(s[0]) by {
            var vs := seq(|s|, k requires 0 <= k < |s| => Elems(s[k]));
            assert vs[1..] == [];
            assert Concat(vs) == vs[0] + Concat(vs[1..]);
          }
          e
        else None
      else None
  }

  /**
   * `prior_pref.log()[i]` on the table as it is stored (not flattened):
   * the row at `i` along the first axis, usable by `.item()` only when it
   * holds a single entry. A draw past the first axis (or a 0-d table)
   * is the IndexError.
   */
  function DrawnPreference(table: Tensor, i: nat): (r: Option<real>)
    ensures r.Some? ==> table.Stack? && i < |table.slices| && Elems(table.slices[i]) == [r.value]
  {
    if table.Stack? && i < |table.slices| then SingleEntry(table.slices[i]) else None
  }

  /**
   * The sampled risk: the mean of `log q[i] - log prior_pref[i]` over the
   * drawn joint indices `i` (the draws themselves are supplied, each in
   * range of the joint posterior `q`). It fails when there is no draw (the
   * division by `len(risk)`) and when a drawn row of the stored table is
   * out of range or holds more than one entry.
   */
  function SampledRisk(q: Vec, table: Tensor, draws: seq<nat>, log: real -> real): (r: Option<real>)
    requires forall k :: 0 <= k < |draws| ==> draws[k] < |q|
    ensures r.Some? <==> |draws| > 0 && forall k :: 0 <= k < |draws| ==> DrawnPreference(table, draws[k]).Some?
  {
    if |draws| == 0 || exists k :: 0 <= k < |draws| && DrawnPreference(table, draws[k]).None? then None
    else
      Some(Mean(seq(|draws|, k requires 0 <= k < |draws| =>
        log(q[draws[k]]) - log(DrawnPreference(table, draws[k]).value))))
  }

  lemma {:induction false} ConcatSingletons(vs: seq<Vec>)
    requires forall k :: 0 <= k < |vs| ==> |vs[k]| == 1
    ensures |Concat(vs)| == |vs|
    ensures forall k :: 0 <= k < |vs| ==> Concat(vs)[k] == vs[k][0]
  {
    if |vs| > 0 {
      ConcatSingletons(vs[1..]);
      assert forall k :: 1 <= k < |vs| ==> vs[1..][k - 1] == vs[k];
    }
  }

  /**
   * For a preference over one variable, the sampled risk averages
   * `log q[i] - log c[i]` over the draws, `c` being the flattened table
   * that the analytic risk uses.
   */
  lemma SampledRiskOneVariable(q: Vec, table: Tensor, n: nat, draws: seq<nat>, log: real -> real)
    requires HasShape(table, [n])
    requires |draws| > 0 && forall k :: 0 <= k < |draws| ==> draws[k] < |q| && draws[k] < n
    ensures |Elems(table)| == n
    ensures SampledRisk(q, table, draws, log) ==
      Some(Mean(seq(|draws|, k requires 0 <= k < |draws| => log(q[draws[k]]) - log(Elems(table)[draws[k]]))))
  {
    var s := table.slices;
    var vs := seq(|s|, k requires 0 <= k < |s| => Elems(s[k]));
    forall k | 0 <= k < |s|
      ensures |vs[k]| == 1 && vs[k][0] == s[k].value && DrawnPreference(table, k) == Some(s[k].value)
    {
      assert HasShape(s[k], []);
    }
    ConcatSingletons(vs);
    assert Elems(table) == Concat(vs);
    forall k | 0 <= k < |draws|
      ensures DrawnPreference(table, draws[k]) == Some(Elems(table)[draws[k]])
    {
    }
    var xs := seq(|draws|, k requires 0 <= k < |draws| =>
      log(q[draws[k]]) - log(DrawnPreference(table, draws[k]).value));
    assert xs == seq(|draws|, k requires 0 <= k < |draws| => log(q[draws[k]]) - log(Elems(table)[draws[k]]));
  }

  /** Like the analytic risk, the sampled risk vanishes when the one-variable preference is the joint. */
  lemma SampledRiskOfMatch(q: Vec, draws: seq<nat>, log: real -> real)
    requires |draws| > 0 && forall k :: 0 <= k < |draws| ==> draws[k] < |q|
    ensures SampledRisk(q, FromVec(q), draws, log) == Some(0.0)
  {
    forall k | 0 <= k < |draws|
      ensures DrawnPreference(FromVec(q), draws[k]) == Some(q[draws[k]])
    {
    }
    var xs := seq(|draws|, k requires 0 <= k < |draws| =>
      log(q[draws[k]]) - log(DrawnPreference(FromVec(q), draws[k]).value));
    MeanConst(xs, 0.0);
  }

  /**
   * A preference over two or more variables whose second axis has two or
   * more values (such as the agent's position/shape table) makes the
   * sampled branch fail whatever is drawn: each row it indexes is either
   * past the first axis or holds several entries.
   */
  lemma SampledRiskWideTable(q: Vec, table: Tensor, shape: seq<nat>, draws: seq<nat>, log: real -> real)
    requires HasShape(table, shape) && |shape| >= 2 && shape[1] >= 2
    requires forall k :: 0 <= k < |draws| ==> draws[k] < |q|
    ensures SampledRisk(q, table, draws, log) == None
  {
    if |draws| > 0 {
      var i := draws[0];
      if i < |table.slices| {
        var row := table.slices[i];
        assert HasShape(row, shape[1..]);
        assert row.Stack? && |row.slices| >= 2;
      }
      assert DrawnPreference(table, draws[0]).None?;
    }
  }

  /** The entry of `t` at the multi-index `idx`. */
  function Entry(t: Tensor, idx: seq<nat>): real
    decreases t
  {
    match t
    case Scalar(x) => x
    case Stack(s) => if |idx| > 0 && idx[0] < |s| then Entry(s[idx[0]], idx[1..]) else 0.0
  }

  /**
   * The sampled ambiguity: the mean of `-log L[idx]` over the drawn
   * multi-indices (one index per axis, drawn from the last axis to the
   * first in the source; the draws are supplied).
   */
  function SampledAmbiguity(likelihood: Tensor, draws: seq<seq<nat>>, log: real -> real): (r: Option<real>)
    ensures r.Some? <==> |draws| > 0
  {
    if |draws| == 0 then None
    else Some(Mean(seq(|draws|, k requires 0 <= k < |draws| => -log(Entry(likelihood, draws[k])))))
  }

  /** Repeating one draw gives that draw's surprise. */
  lemma SampledAmbiguityOfOneDraw(likelihood: Tensor, draws: seq<seq<nat>>, idx: seq<nat>, log: real -> real)
    requires |draws| > 0 && forall k :: 0 <= k < |draws| ==> draws[k] == idx
    ensures SampledAmbiguity(likelihood, draws, log) == Some(-log(Entry(likelihood, idx)))
  {
    var xs := seq(|draws|, k requires 0 <= k < |draws| => -log(Entry(likelihood, draws[k])));
    MeanConst(xs, -log(Entry(likelihood, idx)));
  }
}
