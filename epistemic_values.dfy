/**
 * The epistemic-value experiment on two hidden states and two outcomes:
 * exact posteriors by Bayes' rule for a family of likelihoods, then the
 * epistemic value of each likelihood under a variational posterior.
 *
 * Tables are 2×2: `likelihood[o][s]` is the probability of outcome `o` in
 * state `s`, and `posterior[s][o]` that of state `s` after outcome `o`.
 * The logarithm is a parameter.
 */
module EpistemicValues {

  /** A 2×2 table. */
  predicate Square(t: seq<seq<real>>)
  {
    |t| == 2 && |t[0]| == 2 && |t[1]| == 2
  }

  /** The contents of a 2×2 array. */
  function Table(a: array2<real>): (t: seq<seq<real>>)
    requires a.Length0 == 2 && a.Length1 == 2
    reads a
    ensures Square(t) && forall s, o :: 0 <= s < 2 && 0 <= o < 2 ==> t[s][o] == a[s, o]
  {
    [[a[0, 0], a[0, 1]], [a[1, 0], a[1, 1]]]
  }

  /** The joint probability of state `s` and outcome `o`. */
  function Joint(likelihood: seq<seq<real>>, prior: seq<real>, s: nat, o: nat): real
    requires Square(likelihood) && |prior| == 2 && s < 2 && o < 2
  {
    likelihood[o][s] * prior[s]
  }

  /** The probability of outcome `o` under the prior: the mass of column `o` before normalisation. */
  function Evidence(likelihood: seq<seq<real>>, prior: seq<real>, o: nat): real
    requires Square(likelihood) && |prior| == 2 && o < 2
  {
    Joint(likelihood, prior, 0, o) + Joint(likelihood, prior, 1, o)
  }

  /** Bayes' rule: the probability of state `s` after outcome `o`. */
  function Bayes(likelihood: seq<seq<real>>, prior: seq<real>, s: nat, o: nat): real
    requires Square(likelihood) && |prior| == 2 && s < 2 && o < 2 && Evidence(likelihood, prior, o) != 0.0
  {
    Joint(likelihood, prior, s, o) / Evidence(likelihood, prior, o)
  }

  /** Each column of a posterior sums to 1, and each entry is the joint probability over the evidence. */
  lemma BayesColumns(likelihood: seq<seq<real>>, prior: seq<real>, o: nat)
    requires Square(likelihood) && |prior| == 2 && o < 2 && Evidence(likelihood, prior, o) != 0.0
    ensures Bayes(likelihood, prior, 0, o) + Bayes(likelihood, prior, 1, o) == 1.0
    ensures forall s :: 0 <= s < 2 ==> Bayes(likelihood, prior, s, o) * Evidence(likelihood, prior, o) == likelihood[o][s] * prior[s]
  {
    var e := Evidence(likelihood, prior, o);
    DivAdd(Joint(likelihood, prior, 0, o), Joint(likelihood, prior, 1, o), e);
    DivSelf(e);
    DivMul(Joint(likelihood, prior, 0, o), e);
    DivMul(Joint(likelihood, prior, 1, o), e);
  }

  lemma DivAdd(a: real, b: real, e: real)
    requires e != 0.0
    ensures a / e + b / e == (a + b) / e
  {
  }

  lemma DivSelf(e: real)
    requires e != 0.0
    ensures e / e == 1.0
  {
  }

  lemma DivMul(a: real, e: real)
    requires e != 0.0
    ensures a / e * e == a
  {
  }

  /** Multiplying by the inverse is dividing. */
  lemma TimesInverse(x: real, m: real)
    requires m != 0.0
    ensures x * (1.0 / m) == x / m
  {
  }

  /** The first loops of `compute_posteriors`: `posterior[s][o] = likelihood[o][s] · prior[s]`, entry by entry. */
  method JointByState(likelihood: seq<seq<real>>, prior: seq<real>) returns (p: array2<real>)
    requires Square(likelihood) && |prior| == 2
    ensures fresh(p) && p.Length0 == 2 && p.Length1 == 2
    ensures forall s, o :: 0 <= s < 2 && 0 <= o < 2 ==> p[s, o] == Joint(likelihood, prior, s, o)
  {
    p := new real[2, 2]((_, _) => 0.0);
    for s := 0 to 2
      invariant forall s', o :: 0 <= s' < s && 0 <= o < 2 ==> p[s', o] == Joint(likelihood, prior, s', o)
    {
      for o := 0 to 2
        invariant forall s', o' :: 0 <= s' < 2 && 0 <= o' < 2 && (s' < s || (s' == s && o' < o)) ==>
          p[s', o'] == Joint(likelihood, prior, s', o')
      {
        p[s, o] := Joint(likelihood, prior, s, o);
      }
    }
  }

  /** `posterior *= 1 / posterior.sum(dim=0)`: every entry multiplied by the inverse of its column's sum. */
  method NormaliseColumns(p: array2<real>, ghost likelihood: seq<seq<real>>, ghost prior: seq<real>)
    requires p.Length0 == 2 && p.Length1 == 2 && Square(likelihood) && |prior| == 2
    requires Evidence(likelihood, prior, 0) != 0.0 && Evidence(likelihood, prior, 1) != 0.0
    requires forall s, o :: 0 <= s < 2 && 0 <= o < 2 ==> p[s, o] == Joint(likelihood, prior, s, o)
    modifies p
    ensures forall s, o :: 0 <= s < 2 && 0 <= o < 2 ==> p[s, o] == Bayes(likelihood, prior, s, o)
  {
    var mass0, mass1 := p[0, 0] + p[1, 0], p[0, 1] + p[1, 1];
    var a := Scaled(likelihood, prior, 0, 0, p[0, 0], mass0);
    var b := Scaled(likelihood, prior, 1, 0, p[1, 0], mass0);
    var c := Scaled(likelihood, prior, 0, 1, p[0, 1], mass1);
    var d := Scaled(likelihood, prior, 1, 1, p[1, 1], mass1);
    p[0, 0], p[1, 0], p[0, 1], p[1, 1] := a, b, c, d;
  }

  /** One entry times the inverse of its column's mass is Bayes' rule for that entry. */
  method Scaled(ghost likelihood: seq<seq<real>>, ghost prior: seq<real>, ghost s: nat, ghost o: nat, x: real, mass: real)
    returns (y: real)
    requires Square(likelihood) && |prior| == 2 && s < 2 && o < 2 && Evidence(likelihood, prior, o) != 0.0
    requires x == Joint(likelihood, prior, s, o) && mass == Evidence(likelihood, prior, o)
    ensures y == Bayes(likelihood, prior, s, o)
  {
    TimesInverse(x, mass);
    y := x * (1.0 / mass);
  }

  /** The posterior for one likelihood: the joint probabilities, then each column normalised. */
  method Posterior(likelihood: seq<seq<real>>, prior: seq<real>) returns (p: array2<real>)
    requires Square(likelihood) && |prior| == 2
    requires Evidence(likelihood, prior, 0) != 0.0 && Evidence(likelihood, prior, 1) != 0.0
    ensures fresh(p) && p.Length0 == 2 && p.Length1 == 2
    ensures forall s, o :: 0 <= s < 2 && 0 <= o < 2 ==> p[s, o] == Bayes(likelihood, prior, s, o)
  {
    p := JointByState(likelihood, prior);
    NormaliseColumns(p, likelihood, prior);
  }

  /** `compute_posteriors`: one posterior per likelihood of the family. */
  method ComputePosteriors(likelihoods: seq<seq<seq<real>>>, prior: seq<real>) returns (posteriors: seq<array2<real>>)
    requires |prior| == 2
    requires forall i :: 0 <= i < |likelihoods| ==> (Square(likelihoods[i])
      && Evidence(likelihoods[i], prior, 0) != 0.0 && Evidence(likelihoods[i], prior, 1) != 0.0)
    ensures |posteriors| == |likelihoods|
    ensures forall i :: 0 <= i < |posteriors| ==> (fresh(posteriors[i])
      && posteriors[i].Length0 == 2 && posteriors[i].Length1 == 2
      && forall s, o :: 0 <= s < 2 && 0 <= o < 2 ==> posteriors[i][s, o] == Bayes(likelihoods[i], prior, s, o))
  {
    posteriors := [];
    for i := 0 to |likelihoods|
      invariant |posteriors| == i
      invariant forall m :: 0 <= m < i ==> (fresh(posteriors[m])
        && posteriors[m].Length0 == 2 && posteriors[m].Length1 == 2
        && forall s, o :: 0 <= s < 2 && 0 <= o < 2 ==> posteriors[m][s, o] == Bayes(likelihoods[m], prior, s, o))
    {
      var p := Posterior(likelihoods[i], prior);
      posteriors := posteriors + [p];
    }
  }

  /**
   * The epistemic value of one likelihood: the sum over outcomes `o` and
   * states `s` of `(log posterior[s][o] - log q[s]) · likelihood[o][s] · q[s]`.
   */
  function EpistemicValue(q: seq<real>, posterior: seq<seq<real>>, likelihood: seq<seq<real>>, log: real -> real): real
    requires |q| == 2 && Square(posterior) && Square(likelihood)
  {
    Term(q, posterior, likelihood, log, 0, 0) + Term(q, posterior, likelihood, log, 0, 1)
    + Term(q, posterior, likelihood, log, 1, 0) + Term(q, posterior, likelihood, log, 1, 1)
  }

  /** The summand for outcome `o` and state `s`. */
  function Term(q: seq<real>, posterior: seq<seq<real>>, likelihood: seq<seq<real>>, log: real -> real, o: nat, s: nat): real
    requires |q| == 2 && Square(posterior) && Square(likelihood) && o < 2 && s < 2
  {
    LogRatio(q, posterior, log, o, s) * Joint(likelihood, q, s, o)
  }

  /** How much outcome `o` moves the log-probability of state `s` away from `q`. */
  function LogRatio(q: seq<real>, posterior: seq<seq<real>>, log: real -> real, o: nat, s: nat): real
    requires |q| == 2 && Square(posterior) && o < 2 && s < 2
  {
    log(posterior[s][o]) - log(q[s])
  }

  /** The first loops of `compute_epistemic_values`: `joint[o][s] = likelihood[o][s] · q[s]`. */
  method JointByOutcome(likelihood: seq<seq<real>>, q: seq<real>) returns (joint: array2<real>)
    requires Square(likelihood) && |q| == 2
    ensures fresh(joint) && joint.Length0 == 2 && joint.Length1 == 2
    ensures forall o, s :: 0 <= o < 2 && 0 <= s < 2 ==> joint[o, s] == Joint(likelihood, q, s, o)
  {
    joint := new real[2, 2]((_, _) => 0.0);
    for o := 0 to 2
      invariant forall o', s :: 0 <= o' < o && 0 <= s < 2 ==> joint[o', s] == Joint(likelihood, q, s, o')
    {
      for s := 0 to 2
        invariant forall o', s' :: 0 <= o' < 2 && 0 <= s' < 2 && (o' < o || (o' == o && s' < s)) ==>
          joint[o', s'] == Joint(likelihood, q, s', o')
      {
        joint[o, s] := Joint(likelihood, q, s, o);
      }
    }
  }

  /** The second loops of `compute_epistemic_values`: `inner[o][s] = log posterior[s][o] - log q[s]`. */
  method LogRatios(q: seq<real>, posterior: array2<real>, log: real -> real) returns (inner: array2<real>)
    requires |q| == 2 && posterior.Length0 == 2 && posterior.Length1 == 2
    ensures fresh(inner) && inner.Length0 == 2 && inner.Length1 == 2
    ensures forall o, s :: 0 <= o < 2 && 0 <= s < 2 ==> inner[o, s] == LogRatio(q, Table(posterior), log, o, s)
  {
    inner := new real[2, 2]((_, _) => 0.0);
    for o := 0 to 2
      invariant forall o', s :: 0 <= o' < o && 0 <= s < 2 ==> inner[o', s] == LogRatio(q, Table(posterior), log, o', s)
    {
      for s := 0 to 2
        invariant forall o', s' :: 0 <= o' < 2 && 0 <= s' < 2 && (o' < o || (o' == o && s' < s)) ==>
          inner[o', s'] == LogRatio(q, Table(posterior), log, o', s')
      {
        inner[o, s] := log(posterior[s, o]) - log(q[s]);
      }
    }
  }

  /** The epistemic value of one likelihood: the two tables, then the sum of their product. */
  method EpistemicValueOf(q: seq<real>, posterior: array2<real>, likelihood: seq<seq<real>>, log: real -> real)
    returns (value: real)
    requires |q| == 2 && Square(likelihood) && posterior.Length0 == 2 && posterior.Length1 == 2
    ensures value == EpistemicValue(q, Table(posterior), likelihood, log)
  {
    var joint := JointByOutcome(likelihood, q);
    var inner := LogRatios(q, posterior, log);
    ghost var t := Table(posterior);
    forall o, s | 0 <= o < 2 && 0 <= s < 2
      ensures inner[o, s] * joint[o, s] == Term(q, t, likelihood, log, o, s)
    {
      var a, b := inner[o, s], joint[o, s];
      assert a == LogRatio(q, t, log, o, s) && b == Joint(likelihood, q, s, o);
    }
    value := inner[0, 0] * joint[0, 0] + inner[0, 1] * joint[0, 1] + inner[1, 0] * joint[1, 0] + inner[1, 1] * joint[1, 1];
  }

  /** `compute_epistemic_values`: one value per likelihood, against the posterior computed for it. */
  method ComputeEpistemicValues(q: seq<real>, posteriors: seq<array2<real>>, likelihoods: seq<seq<seq<real>>>, log: real -> real)
    returns (values: seq<real>)
    requires |q| == 2 && |posteriors| >= |likelihoods|
    requires forall i :: 0 <= i < |likelihoods| ==> (Square(likelihoods[i])
      && posteriors[i].Length0 == 2 && posteriors[i].Length1 == 2)
    ensures |values| == |likelihoods|
    ensures forall i :: 0 <= i < |values| ==> values[i] == EpistemicValue(q, Table(posteriors[i]), likelihoods[i], log)
  {
    values := [];
    for i := 0 to |likelihoods|
      invariant |values| == i
      invariant forall m :: 0 <= m < i ==> values[m] == EpistemicValue(q, Table(posteriors[m]), likelihoods[m], log)
    {
      var v := EpistemicValueOf(q, posteriors[i], likelihoods[i], log);
      values := values + [v];
    }
  }

  /** A posterior that equals `q` whatever the outcome carries no epistemic value. */
  lemma NoChangeNoValue(q: seq<real>, posterior: seq<seq<real>>, likelihood: seq<seq<real>>, log: real -> real)
    requires |q| == 2 && Square(posterior) && Square(likelihood)
    requires forall s, o :: 0 <= s < 2 && 0 <= o < 2 ==> posterior[s][o] == q[s]
    ensures EpistemicValue(q, posterior, likelihood, log) == 0.0
  {
    assert Term(q, posterior, likelihood, log, 0, 0) == 0.0 && Term(q, posterior, likelihood, log, 0, 1) == 0.0;
    assert Term(q, posterior, likelihood, log, 1, 0) == 0.0 && Term(q, posterior, likelihood, log, 1, 1) == 0.0;
  }

  /** When the outcome does not depend on the state, Bayes' rule returns the (normalised) prior. */
  lemma UninformativeLikelihood(likelihood: seq<seq<real>>, prior: seq<real>, s: nat, o: nat)
    requires Square(likelihood) && |prior| == 2 && s < 2 && o < 2
    requires prior[0] + prior[1] == 1.0 && likelihood[o][0] == likelihood[o][1] && Evidence(likelihood, prior, o) != 0.0
    ensures Bayes(likelihood, prior, s, o) == prior[s]
  {
    var l := likelihood[o][0];
    assert Evidence(likelihood, prior, o) == l * (prior[0] + prior[1]);
  }

  /**
   * With a state-independent likelihood and the prior as variational
   * posterior, the experiment's epistemic value is 0: the outcome teaches
   * nothing about the state.
   */
  lemma UninformativeHasNoValue(likelihood: seq<seq<real>>, prior: seq<real>, log: real -> real)
    requires Square(likelihood) && |prior| == 2 && prior[0] + prior[1] == 1.0
    requires forall o :: 0 <= o < 2 ==> likelihood[o][0] == likelihood[o][1] && Evidence(likelihood, prior, o) != 0.0
    ensures var posterior := seq(2, s requires 0 <= s < 2 => seq(2, o requires 0 <= o < 2 => Bayes(likelihood, prior, s, o)));
      EpistemicValue(prior, posterior, likelihood, log) == 0.0
  {
    var posterior := seq(2, s requires 0 <= s < 2 => seq(2, o requires 0 <= o < 2 => Bayes(likelihood, prior, s, o)));
    forall s, o | 0 <= s < 2 && 0 <= o < 2
      ensures posterior[s][o] == prior[s]
    {
      UninformativeLikelihood(likelihood, prior, s, o);
    }
    NoChangeNoValue(prior, posterior, likelihood, log);
  }
}
