/**
 * The branching-time active-inference agent with multiple modalities and
 * factors (`BTAI_3MF`): the step that plans and picks an action, and the
 * builders of its likelihood, preference and prior tables.
 */
module Agents {
  import opened Wrappers
  import opened Tensors
  import opened FactorGraphs
  import opened Beliefs
  import opened TemporalSlices
  import opened Planning

  // ---------------------------------------------------------------------
  // Sums of filled vectors
  // ---------------------------------------------------------------------

  /** A vector of `|v|` copies of `e` sums to `|v|·e`. */
  lemma {:induction false} SumConst(v: Vec, e: real)
    requires forall j :: 0 <= j < |v| ==> v[j] == e
    ensures Sum(v) == |v| as real * e
  {
    if |v| > 0 {
      SumConst(v[1..], e);
    }
  }

  /** A vector holding `d` at index `s` and `e` everywhere else sums to `d + (|v| - 1)·e`. */
  lemma {:induction false} SumOneEntry(v: Vec, s: nat, d: real, e: real)
    requires s < |v| && v[s] == d && forall j :: 0 <= j < |v| && j != s ==> v[j] == e
    ensures Sum(v) == d + (|v| - 1) as real * e
  {
    if s == 0 {
      SumConst(v[1..], e);
    } else {
      SumOneEntry(v[1..], s - 1, d, e);
    }
  }

  /** `k` equal shares of `x` add up to `x`. */
  lemma Shares(k: nat, x: real)
    requires k > 0
    ensures k as real * (x / k as real) == x
  {
  }

  // ---------------------------------------------------------------------
  // Likelihoods (`a`)
  // ---------------------------------------------------------------------

  /** The diagonal entry of a noisy identity over `n` values: `1 - noise`, or 1 when `n` is 1. */
  function Diagonal(n: nat, noise: real): real
  {
    if n != 1 then 1.0 - noise else 1.0
  }

  /** The off-diagonal entry of a noisy identity over `n` values: `noise / (n - 1)`, or 0 when `n` is 1. */
  function OffDiagonal(n: nat, noise: real): real
  {
    if n != 1 then noise / (n as int - 1) as real else 0.0
  }

  /** Column `k` of a table stored row by row. */
  function Column(t: seq<seq<real>>, k: nat): (r: Vec)
    requires forall j :: 0 <= j < |t| ==> k < |t[j]|
    ensures |r| == |t|
  {
    seq(|t|, j requires 0 <= j < |t| => t[j][k])
  }

  /** `t` is the `n`×`n` noisy identity of `a()`. */
  predicate IsNoisyIdentity(t: seq<seq<real>>, n: nat, noise: real)
  {
    && |t| == n
    && forall j :: 0 <= j < n ==>
         (|t[j]| == n && forall k :: 0 <= k < n ==> t[j][k] == if j == k then Diagonal(n, noise) else OffDiagonal(n, noise))
  }

  /** The likelihood of one modality of `a()`: a noisy identity, filled first and then given its diagonal. */
  method NoisyIdentity(n: nat, noise: real) returns (t: seq<seq<real>>)
    ensures IsNoisyIdentity(t, n, noise)
  {
    var epsilon := OffDiagonal(n, noise);
    t := seq(n, _ => seq(n, _ => epsilon));
    var j := 0;
    while j < n
      invariant 0 <= j <= n && |t| == n
      invariant forall r :: 0 <= r < n ==>
        (|t[r]| == n && forall k :: 0 <= k < n ==> t[r][k] == if r == k && r < j then Diagonal(n, noise) else epsilon)
    {
      t := t[j := t[j][j := Diagonal(n, noise)]];
      j := j + 1;
    }
  }

  /** Every column of a noisy identity is a distribution: it sums to 1. */
  lemma NoisyIdentityColumns(t: seq<seq<real>>, n: nat, noise: real, k: nat)
    requires IsNoisyIdentity(t, n, noise) && k < n
    ensures Sum(Column(t, k)) == 1.0
  {
    var c := Column(t, k);
    SumOneEntry(c, k, Diagonal(n, noise), OffDiagonal(n, noise));
    if n != 1 {
      assert (n - 1) as real * (noise / (n - 1) as real) == noise;
    }
  }

  /** `names[i]` is not listed again after position `i` among the first `count` names. */
  predicate LastListed(names: seq<Name>, i: nat, count: nat)
    requires i < count <= |names|
  {
    forall j :: i < j < count ==> names[j] != names[i]
  }

  /**
   * `a()`: one noisy identity per modality, keyed by the modality's name;
   * when a name is listed twice, the later table wins.
   */
  method Likelihoods(sizes: seq<nat>, obsNames: seq<Name>, noise: real) returns (r: map<Name, seq<seq<real>>>)
    requires |sizes| <= |obsNames|
    ensures forall o :: o in r <==> o in obsNames[..|sizes|]
    ensures forall i :: 0 <= i < |sizes| && LastListed(obsNames, i, |sizes|) ==>
      IsNoisyIdentity(r[obsNames[i]], sizes[i], noise)
  {
    r := map[];
    var i := 0;
    while i < |sizes|
      invariant 0 <= i <= |sizes|
      invariant forall o :: o in r <==> o in obsNames[..i]
      invariant forall k :: 0 <= k < i && LastListed(obsNames, k, i) ==> IsNoisyIdentity(r[obsNames[k]], sizes[k], noise)
    {
      var t := NoisyIdentity(sizes[i], noise);
      assert forall o :: o in obsNames[..i + 1] <==> o in obsNames[..i] || o == obsNames[i];
      ghost var before := r;
      r := r[obsNames[i] := t];
      forall k | 0 <= k < i + 1 && LastListed(obsNames, k, i + 1) ensures IsNoisyIdentity(r[obsNames[k]], sizes[k], noise) {
        if k < i {
          assert LastListed(obsNames, k, i) && obsNames[i] != obsNames[k];
          assert r[obsNames[k]] == before[obsNames[k]];
        }
      }
      i := i + 1;
    }
  }

  // ---------------------------------------------------------------------
  // Preferences (`c`) and priors (`d`)
  // ---------------------------------------------------------------------

  /** A uniform distribution over `n` values. */
  function Uniform(n: nat): (r: Vec)
    ensures |r| == n
    ensures n > 0 ==> Sum(r) == 1.0
  {
    var r := seq(n, j requires 0 <= j < n => 1.0 / n as real);
    if n > 0 then SumConst(r, 1.0 / n as real); Shares(n, 1.0); r else r
  }

  /**
   * `n` entries, `peak` at index `s` and the rest of the mass `1 - peak`
   * shared evenly by the others. With a single entry there is nothing to
   * share the rest with: the fill is overwritten and the result is `[peak]`.
   */
  function Peaked(n: nat, s: nat, peak: real): (r: Vec)
    requires s < n
    ensures |r| == n && r[s] == peak
    ensures n >= 2 ==> Sum(r) == 1.0
    ensures n == 1 ==> r == [peak]
  {
    var r := seq(n, j requires 0 <= j < n => if j == s then peak else (1.0 - peak) / (n - 1) as real);
    if n >= 2 then
      SumOneEntry(r, s, peak, (1.0 - peak) / (n - 1) as real);
      Shares(n - 1, 1.0 - peak);
      r
    else r
  }

  /**
   * The preference over the `n` vertical positions in `c()`: 0.6 of the
   * mass spread over all rows but the last and 0.4 on the last (the
   * bottom). Indexing the last entry of an empty tensor raises.
   */
  method YPreference(n: nat) returns (r: Option<Vec>)
    ensures r.None? <==> n == 0
    ensures r.Some? ==> r.value == Peaked(n, n - 1, 0.4)
    ensures r.Some? && n >= 2 ==> Sum(r.value) == 1.0
  {
    if n == 0 {
      return None;
    }
    var fill := if n >= 2 then 0.6 / (n - 1) as real else 0.0;
    var pref := seq(n, _ => fill);
    pref := pref[n - 1 := 0.4];
    assert pref == Peaked(n, n - 1, 0.4);
    r := Some(pref);
  }

  /** The prior `d()` builds for a state of `n` values whose true value is `s`. */
  function PriorOf(n: nat, uniform: bool, noise: real, s: nat): (r: Vec)
    requires uniform || s < n
  {
    if uniform then Uniform(n) else Peaked(n, s, 1.0 - noise)
  }

  /**
   * The prior over one hidden state in `d()`: uniform, or `1 - noise` at the
   * true value `s` and `noise / (n - 1)` elsewhere. A true value outside the
   * range raises.
   */
  method StatePrior(n: nat, uniform: bool, noise: real, s: nat) returns (r: Option<Vec>)
    ensures r.None? <==> !uniform && s >= n
    ensures r.Some? ==> r.value == PriorOf(n, uniform, noise, s)
    ensures r.Some? && n >= 2 ==> Sum(r.value) == 1.0
  {
    if uniform {
      var prior := seq(n, j requires 0 <= j < n => 1.0 / n as real);
      return Some(prior);
    }
    if s >= n {
      return None;
    }
    var fill := if n >= 2 then noise / (n - 1) as real else 0.0;
    var prior := seq(n, _ => fill);
    prior := prior[s := 1.0 - noise];
    assert prior == Peaked(n, s, 1.0 - noise);
    r := Some(prior);
  }

  /** Every true value but the first lies in its state's range. */
  predicate TrueStatesInRange(sizes: seq<nat>, state: seq<nat>)
    requires |sizes| <= |state|
  {
    forall i :: 1 <= i < |sizes| ==> state[i] < sizes[i]
  }

  /**
   * `d()`: one prior per hidden state but the first (index 0 is skipped),
   * keyed by the state's name; fails when a true value is out of range.
   */
  method Priors(sizes: seq<nat>, stateNames: seq<Name>, state: seq<nat>, uniform: bool, noise: real)
    returns (r: Option<map<Name, Vec>>)
    requires |sizes| <= |stateNames| && |sizes| <= |state|
    ensures r.None? <==> !uniform && !TrueStatesInRange(sizes, state)
    ensures r.Some? && |sizes| == 0 ==> r.value == map[]
    ensures r.Some? && |sizes| > 0 ==> forall o :: o in r.value <==> o in stateNames[1..|sizes|]
    ensures r.Some? ==> forall i :: 1 <= i < |sizes| && LastListed(stateNames, i, |sizes|) ==>
      (uniform || state[i] < sizes[i]) && r.value[stateNames[i]] == PriorOf(sizes[i], uniform, noise, state[i])
  {
    var priors: map<Name, Vec> := map[];
    if |sizes| == 0 {
      return Some(priors);
    }
    var i := 1;
    while i < |sizes|
      invariant 1 <= i <= |sizes|
      invariant !uniform ==> forall k :: 1 <= k < i ==> state[k] < sizes[k]
      invariant forall o :: o in priors <==> o in stateNames[1..i]
      invariant forall k :: 1 <= k < i ==> stateNames[k] in priors
      invariant forall k :: 1 <= k < i && LastListed(stateNames, k, i) ==>
        priors[stateNames[k]] == PriorOf(sizes[k], uniform, noise, state[k])
    {
      var prior := StatePrior(sizes[i], uniform, noise, state[i]);
      if prior.None? {
        return None;
      }
      assert stateNames[1..i + 1] == stateNames[1..i] + [stateNames[i]];
      ghost var before := priors;
      priors := priors[stateNames[i] := prior.value];
      forall k | 1 <= k < i + 1 && LastListed(stateNames, k, i + 1)
        ensures stateNames[k] in priors && priors[stateNames[k]] == PriorOf(sizes[k], uniform, noise, state[k])
      {
        if k < i {
          assert LastListed(stateNames, k, i) && stateNames[i] != stateNames[k];
          assert priors[stateNames[k]] == before[stateNames[k]];
        }
      }
      i := i + 1;
    }
    r := Some(priors);
  }

  // ---------------------------------------------------------------------
  // The agent's step
  // ---------------------------------------------------------------------

  /** Why a step raised: the I-step raised, or `min`/`max` met an empty list. */
  datatype StepError = InferenceFailed(error: Error) | NoChoice

  /** Restarting a slice as a leaf with the same action keeps branching and action order. */
  lemma RestartKeepsOrder(slices: seq<Slice>, k: nat, x: Slice, nActions: nat)
    requires k < |slices| && x.children == [] && x.action == slices[k].action
    requires Branching(slices, nActions) && InActionOrder(slices)
    ensures Branching(slices[k := x], nActions) && InActionOrder(slices[k := x])
  {
    var t := slices[k := x];
    forall i, j | 0 <= i < |t| && 0 <= j < |t[i].children|
      ensures t[i].children[j] < |t| && t[t[i].children[j]].action == j
    {
      assert t[i] == slices[i];
    }
  }

  /** Changing posteriors only keeps the shape of the tree. */
  lemma PosteriorChangeKeepsShape(a: seq<Slice>, b: seq<Slice>, root: nat)
    requires OnlyPosteriorChanged(a, b, root)
    ensures SameShape(a, b)
  {
    forall k | 0 <= k < |a| ensures b[k].children == a[k].children && b[k].action == a[k].action && b[k].parent == a[k].parent {
      if k != root {
        assert b[k] == a[k];
      }
    }
  }

  /** Moving the root further down keeps the links of the tree. */
  lemma DeeperRootKeepsTree(slices: seq<Slice>, root: nat, next: nat)
    requires TreeOk(slices, root) && root <= next
    ensures TreeOk(slices, next)
  {
  }

  /** The position of the first of the slices `ch` that was reached by action `a`, or `|ch|` if none was (`next(filter(...))`). */
  function FirstWithAction(slices: seq<Slice>, ch: seq<nat>, a: int): (r: nat)
    requires forall j :: 0 <= j < |ch| ==> ch[j] < |slices|
    ensures r <= |ch|
    ensures r < |ch| ==> slices[ch[r]].action == a
    ensures forall j :: 0 <= j < r ==> slices[ch[j]].action != a
  {
    if |ch| == 0 then 0
    else if slices[ch[0]].action == a then 0
    else 1 + FirstWithAction(slices, ch[1..], a)
  }

  /** The visit counts of the slices `ch`. */
  function Visits(slices: seq<Slice>, ch: seq<nat>): (r: seq<real>)
    requires forall j :: 0 <= j < |ch| ==> ch[j] < |slices|
    ensures |r| == |ch| && forall j :: 0 <= j < |ch| ==> r[j] == slices[ch[j]].visits as real
  {
    seq(|ch|, j requires 0 <= j < |ch| => slices[ch[j]].visits as real)
  }

  /** The agent (`BTAI_3MF`): its planning tree, its planner and its planning budget. */
  class Agent {
    const tree: SearchTree
    const mcts: Mcts
    const maxPlanningSteps: nat

    /** The tree is well formed, every slice is a leaf or fully expanded, and children are listed in action order. */
    ghost predicate Valid()
      reads this, tree, tree.fg
    {
      tree.Valid() && Branching(tree.slices, tree.model.nActions) && InActionOrder(tree.slices)
    }

    constructor (tree: SearchTree, expConst: real, maxPlanningSteps: nat)
      requires tree.Valid() && Branching(tree.slices, tree.model.nActions) && InActionOrder(tree.slices)
      ensures Valid() && this.tree == tree && mcts.expConst == expConst && this.maxPlanningSteps == maxPlanningSteps
    {
      this.tree := tree;
      this.mcts := new Mcts(expConst);
      this.maxPlanningSteps := maxPlanningSteps;
    }

    /**
     * One planning iteration of `step`: select a leaf under the root, expand
     * it, evaluate the new slices and back up the cheapest one. The root
     * gains one visit and ends up fully expanded; with no actions, `min`
     * raises (`ok` is false).
     */
    method PlanningCycle(log: real -> real, sqrt: real -> real) returns (ok: bool)
      requires Valid()
      modifies tree
      ensures Valid() && tree.root == old(tree.root)
      ensures ok <==> tree.model.nActions > 0
      ensures ok ==> tree.slices[tree.root].visits == old(tree.slices[tree.root].visits) + 1
      ensures ok ==> |tree.slices[tree.root].children| == tree.model.nActions
    {
      ghost var s0 := tree.slices;
      var root := tree.root;
      var leaf := mcts.SelectNode(tree, root, log, sqrt);
      DescendUnder(s0, root, root, mcts.expConst, log, sqrt);
      assert leaf != root ==> |s0[root].children| != 0;
      var nodes := Grow(leaf, log);
      ghost var s2 := tree.slices;
      ok := Mcts.Propagation(tree, nodes, log);
      if ok {
        var j := Cheapest(tree.model, s2, nodes, log);
        var best := nodes[j];
        CycleEffect(tree.model.nActions, s0, s2, root, leaf, nodes, best);
      }
    }

    /**
     * Choosing an action (`step`): restart the current slice, infer its
     * hidden states with loopy belief propagation, run the planning budget
     * of iterations, take the action of the most visited child (the first
     * one on ties), make that child the current slice and write its state
     * posteriors into the graph as the priors of the next step. An
     * exception out of inference, and `max`/`min` over no slices, are
     * errors.
     */
    method Step(fuel: nat, log: real -> real, sqrt: real -> real) returns (r: Result<int, StepError>)
      requires Valid()
      modifies tree, tree.fg
      ensures Valid()
      ensures r.Err? && r.error.InferenceFailed? ==> !r.error.error.IsRuntimeError()
      ensures r == Err(NoChoice) ==> maxPlanningSteps == 0 || tree.model.nActions == 0
      ensures maxPlanningSteps == 0 || tree.model.nActions == 0 ==> r.Err?
      ensures r.Ok? ==> old(tree.root) < tree.root < |tree.slices| && Chosen(old(tree.root), r.value)
      ensures r.Ok? ==> tree.slices[old(tree.root)].visits == maxPlanningSteps + 1
      ensures r.Ok? ==> PriorsWritten()
    {
      var raised := Restart(fuel);
      if raised.Some? {
        return Err(InferenceFailed(raised.value));
      }
      var ok := Plan(log, sqrt);
      if !ok || maxPlanningSteps == 0 {
        return Err(NoChoice);
      }
      var action := Choose();
      r := Ok(action);
    }

    /**
     * The action taken from the slice at `root`: the current slice is the
     * child of `root` reached by `action`, and no child of `root` was
     * visited more often, nor as often before it.
     */
    ghost predicate Chosen(root: nat, action: int)
      reads this, tree
      requires tree.root < |tree.slices| && root < |tree.slices|
    {
      var ch := tree.slices[root].children;
      && 0 <= action < |ch| == tree.model.nActions
      && (forall j :: 0 <= j < |ch| ==> ch[j] < |tree.slices|)
      && tree.root == ch[action]
      && tree.slices[tree.root].action == action
      && tree.slices[tree.root].parent == Some(root)
      && (forall j :: 0 <= j < |ch| ==> tree.slices[ch[j]].visits <= tree.slices[tree.root].visits)
      && (forall j :: 0 <= j < action ==> tree.slices[ch[j]].visits < tree.slices[tree.root].visits)
    }

    /** Every state node of the graph holds the current slice's posterior over that state as its prior. */
    ghost predicate PriorsWritten()
      reads this, tree, tree.fg
      requires tree.root < |tree.slices|
    {
      forall n :: n in tree.model.stateNames ==>
        && n in tree.fg.nodes && n in tree.slices[tree.root].statesPosterior
        && tree.fg.nodes[n].params == Some(FromVec(tree.slices[tree.root].statesPosterior[n]))
    }

    /**
     * The start of `step`: `reset` the current slice to a fresh leaf and run
     * the I-step with loopy belief propagation; an exception that escapes
     * inference is returned.
     */
    method Restart(fuel: nat) returns (raised: Option<Error>)
      requires Valid()
      modifies tree, tree.fg
      ensures Valid() && tree.root == old(tree.root)
      ensures tree.slices[tree.root].visits == 1 && tree.slices[tree.root].children == []
      ensures raised.Some? ==> !raised.value.IsRuntimeError()
    {
      var root := tree.root;
      ghost var s0 := tree.slices;
      tree.Reset();
      RestartKeepsOrder(s0, root, tree.slices[root], tree.model.nActions);
      ghost var s1 := tree.slices;
      var outcome := tree.IStep(LoopyBeliefPropagation, fuel);
      PosteriorChangeKeepsShape(s1, tree.slices, root);
      SameShapeKeepsOrder(s1, tree.slices, tree.model.nActions);
      raised := if outcome.Raised? then Some(outcome.error) else None;
    }

    /**
     * The planning loop of `step`: `maxPlanningSteps` iterations from a
     * fresh root; it stops with `ok` false when `min` finds no slice to
     * back up, which happens exactly when there are no actions.
     */
    method Plan(log: real -> real, sqrt: real -> real) returns (ok: bool)
      requires Valid() && tree.slices[tree.root].visits == 1 && tree.slices[tree.root].children == []
      modifies tree
      ensures Valid() && tree.root == old(tree.root)
      ensures ok <==> maxPlanningSteps == 0 || tree.model.nActions > 0
      ensures ok ==> tree.slices[tree.root].visits == 1 + maxPlanningSteps
      ensures ok && maxPlanningSteps > 0 ==> |tree.slices[tree.root].children| == tree.model.nActions
    {
      var i := 0;
      while i < maxPlanningSteps
        invariant Valid() && tree.root == old(tree.root) && i <= maxPlanningSteps
        invariant tree.slices[tree.root].visits == 1 + i
        invariant i > 0 ==> |tree.slices[tree.root].children| == tree.model.nActions && tree.model.nActions > 0
      {
        ok := PlanningCycle(log, sqrt);
        if !ok {
          return;
        }
        i := i + 1;
      }
      ok := true;
    }

    /**
     * The end of `step`: the action of the most visited child of the root
     * (the first one on ties), the child reached by that action as the new
     * current slice, and its posteriors as the priors of the next step.
     */
    method Choose() returns (action: int)
      requires Valid() && |tree.slices[tree.root].children| == tree.model.nActions > 0
      modifies tree, tree.fg
      ensures Valid() && old(tree.root) < tree.root < |tree.slices| && tree.slices == old(tree.slices)
      ensures Chosen(old(tree.root), action) && PriorsWritten()
    {
      var root := tree.root;
      var ch := tree.slices[root].children;
      var best := FirstMax(Visits(tree.slices, ch));
      action := tree.slices[ch[best]].action;
      var next := FirstWithAction(tree.slices, ch, action);
      assert next == best;
      DeeperRootKeepsTree(tree.slices, root, ch[next]);
      tree.root := ch[next];
      tree.UsePosteriorsAsEmpiricalPriors();
    }

    /** Expansion of the selected leaf followed by evaluation of its new children. */
    method Grow(leaf: nat, log: real -> real) returns (nodes: seq<nat>)
      requires Valid() && tree.root <= leaf < |tree.slices| && |tree.slices[leaf].children| == 0
      modifies tree
      ensures Valid() && tree.root == old(tree.root)
      ensures |nodes| == tree.model.nActions && |tree.slices| == |old(tree.slices)| + |nodes|
      ensures forall a :: 0 <= a < |nodes| ==> nodes[a] == |old(tree.slices)| + a
      ensures Grown(old(tree.slices), tree.slices, leaf, nodes)
    {
      ghost var s0 := tree.slices;
      assert SliceOk(tree.model, s0[leaf]);
      nodes := Mcts.Expansion(tree, leaf);
      ghost var s1 := tree.slices;
      ExpandedLinks(tree.model, s0, s1, leaf, nodes);
      Mcts.Evaluation(tree, nodes, log);
      EvaluatedKeepsShape(tree.model, s1, nodes, log);
      SameShapeKeepsOrder(s1, tree.slices, tree.model.nActions);
      GrownThenCosted(s0, s1, tree.slices, leaf, nodes);
    }
  }

  /**
   * `s1` is `s0` with the slices after it appended as children of `leaf`:
   * the stored slices keep their links and visits, and only the leaf's
   * children grow, by `nodes`.
   */
  ghost predicate Grown(s0: seq<Slice>, s1: seq<Slice>, leaf: nat, nodes: seq<nat>)
  {
    && leaf < |s0| <= |s1|
    && (forall k :: 0 <= k < |s0| ==> s1[k].parent == s0[k].parent && s1[k].visits == s0[k].visits)
    && (forall k :: 0 <= k < |s0| && k != leaf ==> s1[k].children == s0[k].children)
    && s1[leaf].children == s0[leaf].children + nodes
    && forall k :: |s0| <= k < |s1| ==> s1[k].parent == Some(leaf)
  }

  /** `s2` differs from `s1` in costs only. */
  ghost predicate CostsChanged(s1: seq<Slice>, s2: seq<Slice>)
  {
    SameShape(s1, s2) && forall k :: 0 <= k < |s1| ==> s2[k].visits == s1[k].visits
  }

  /** Changing costs only keeps a growth step. */
  lemma GrownThenCosted(s0: seq<Slice>, s1: seq<Slice>, s2: seq<Slice>, leaf: nat, nodes: seq<nat>)
    requires Grown(s0, s1, leaf, nodes) && CostsChanged(s1, s2)
    ensures Grown(s0, s2, leaf, nodes)
  {
  }

  /** Expansion keeps the parent links and visits of the slices already stored and links the new ones to the expanded leaf. */
  lemma ExpandedLinks(m: Model, s0: seq<Slice>, s1: seq<Slice>, leaf: nat, nodes: seq<nat>)
    requires ModelOk(m) && leaf < |s0| && SliceOk(m, s0[leaf]) && |s1| == |s0| + |nodes|
    requires s1[..|s0|] == s0[leaf := s0[leaf].(children := s0[leaf].children + nodes)]
    requires forall a :: 0 <= a < |nodes| ==> s1[|s0| + a] == Child(m, s0[leaf], leaf, a)
    ensures Grown(s0, s1, leaf, nodes)
  {
    forall k | 0 <= k < |s0| ensures s1[k] == s1[..|s0|][k] { }
    forall k | |s0| <= k < |s1| ensures s1[k].parent == Some(leaf) {
      var a := k - |s0|;
      assert s1[|s0| + a] == Child(m, s0[leaf], leaf, a);
      ChildIsFreshLeaf(m, s0[leaf], leaf, a);
    }
  }

  /** A root above the leaf stays among the ancestors of the leaf's children when the links of the stored slices are kept. */
  lemma RootInChain(s0: seq<Slice>, s2: seq<Slice>, root: nat, leaf: nat)
    requires ParentsBefore(s0) && ParentsBefore(s2) && leaf < |s0| <= |s2|
    requires forall k :: 0 <= k < |s0| ==> s2[k].parent == s0[k].parent
    requires leaf == root || root in Chain(s0, s0[leaf].parent)
    ensures root in Chain(s2, Some(leaf))
  {
    ChainSameLinks(s0, s2, Some(leaf));
    assert Chain(s0, Some(leaf)) == [leaf] + Chain(s0, s0[leaf].parent);
  }

  /**
   * The effect of one planning iteration, from the tree `s0` through the
   * expanded and evaluated tree `s2` to the backed-up tree:
   * the slice backed up from is a new child of the selected leaf and the
   * leaf lies under the root, so the root gains exactly one visit; the root
   * is fully expanded; branching and action order are kept.
   */
  lemma CycleEffect(nActions: nat, s0: seq<Slice>, s2: seq<Slice>, root: nat, leaf: nat, nodes: seq<nat>, best: nat)
    requires root <= leaf < |s0| <= best < |s2|
    requires ParentsBefore(s0) && ParentsBefore(s2) && Branching(s2, nActions) && InActionOrder(s2)
    requires leaf == root || root in Chain(s0, s0[leaf].parent)
    requires |s0[leaf].children| == 0 && (leaf != root ==> |s0[root].children| == nActions)
    requires |nodes| == nActions && Grown(s0, s2, leaf, nodes)
    ensures var t := Backup(s2, Chain(s2, s2[best].parent), s2[best].cost);
      && t[root].visits == s0[root].visits + 1
      && |t[root].children| == nActions
      && Branching(t, nActions) && InActionOrder(t)
  {
    var anc := Chain(s2, s2[best].parent);
    assert s2[best].parent == Some(leaf);
    RootInChain(s0, s2, root, leaf);
    BackupEffect(s2, anc, s2[best].cost);
    BackupKeepsShape(s2, anc, s2[best].cost);
    SameShapeKeepsOrder(s2, Backup(s2, anc, s2[best].cost), nActions);
  }
}
