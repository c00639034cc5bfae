/**
 * Temporal slices and the planning tree they form.
 *
 * A temporal slice holds the beliefs of the agent at one point of a
 * policy: priors and posteriors over hidden states, predicted posteriors
 * over observations, the action that led to it, its cost (expected free
 * energy) and visit count, and its place in the tree. Every slice shares
 * one factor graph and one generative model. The tree is an arena: slices
 * are stored in a sequence, parents and children are indices, and a child
 * is always stored after its parent.
 */
module TemporalSlices {
  import opened Wrappers
  import opened Tensors
  import opened FactorGraphs
  import opened Beliefs

  /** The inference algorithms an I-step can run (back-propagation is not part of this model). */
  datatype Algorithm = BeliefPropagation | LoopyBeliefPropagation

  /**
   * How an I-step ended: it completed, it failed with a runtime error and
   * the loopy fallback completed, it failed and the error was only reported,
   * or an exception escaped.
   */
  datatype IStepOutcome = Completed | Recovered | Reported(error: Error) | Raised(error: Error)

  datatype Slice = Slice(
    initialStatesPrior: map<Name, Vec>,
    statesPrior: map<Name, Vec>,
    statesPosterior: map<Name, Vec>,
    obsPosterior: map<Name, Tensor>,
    action: int,
    cost: real,
    visits: nat,
    parent: Option<nat>,
    children: seq<nat>)

  function OnesLike(t: Tensor): Tensor
  {
    TMap(t, x => 1.0)
  }

  /**
   * A fresh slice (`TemporalSlice.__init__`): posteriors of all ones shaped
   * like the priors and the likelihood tables, no action (-1), cost 0, one
   * visit, no parent and no children.
   */
  function NewSlice(m: Model, prior: map<Name, Vec>): (s: Slice)
    requires ModelOk(m)
    ensures s.initialStatesPrior == prior && s.statesPrior == prior
    ensures s.statesPosterior.Keys == prior.Keys
    ensures forall k :: k in prior ==> |s.statesPosterior[k]| == |prior[k]| && forall i :: 0 <= i < |prior[k]| ==> s.statesPosterior[k][i] == 1.0
    ensures forall o :: o in s.obsPosterior <==> o in m.obsNames
    ensures s.action == -1 && s.cost == 0.0 && s.visits == 1 && s.parent.None? && s.children == []
  {
    Slice(prior, prior,
      map k | k in prior :: Ones(|prior[k]|),
      map o | o in m.obsNames :: OnesLike(m.likelihood[o]),
      -1, 0.0, 1, None, [])
  }

  /** A slice holds exactly one prior and posterior per state and one posterior per observation. */
  ghost predicate SliceOk(m: Model, s: Slice)
  {
    && (forall n :: n in s.statesPosterior <==> n in m.stateNames)
    && (forall n :: n in s.statesPrior <==> n in m.stateNames)
    && (forall n :: n in s.initialStatesPrior <==> n in m.stateNames)
    && (forall o :: o in s.obsPosterior <==> o in m.obsNames)
  }

  /**
   * The links of the tree: every slice has been visited, a parent is stored
   * before its children, children are stored after their parent, and below
   * the current root every child links back to its parent.
   */
  ghost predicate TreeOk(slices: seq<Slice>, root: nat)
  {
    forall i :: 0 <= i < |slices| ==>
      && slices[i].visits >= 1
      && (slices[i].parent.Some? ==> slices[i].parent.value < i)
      && (forall j :: 0 <= j < |slices[i].children| ==> i < slices[i].children[j] < |slices|)
      && (root <= i ==> forall j :: 0 <= j < |slices[i].children| ==> slices[slices[i].children[j]].parent == Some(i))
  }

  /** Every state of the model is a node of the graph, and every state node is a state of the model. */
  ghost predicate Consistent(m: Model, nodes: map<Name, Node>)
  {
    && (forall s :: s in m.stateNames ==> s in nodes)
    && (forall n :: n in nodes && nodes[n].kind == StateVariable ==> n in m.stateNames)
  }

  /** `uct`: the negated average cost plus the exploration bonus. */
  function Uct(s: Slice, parentVisits: nat, c: real, log: real -> real, sqrt: real -> real): real
    requires s.visits >= 1
  {
    - s.cost / s.visits as real + c * sqrt(log(parentVisits as real) / s.visits as real)
  }

  /** Between two slices with the same visit counts, the cheaper one has the larger criterion. */
  lemma UctPrefersLowerCost(s: Slice, t: Slice, parentVisits: nat, c: real, log: real -> real, sqrt: real -> real)
    requires s.visits >= 1 && s.visits == t.visits && s.cost <= t.cost
    ensures Uct(s, parentVisits, c, log, sqrt) >= Uct(t, parentVisits, c, log, sqrt)
  {
    var v := s.visits as real;
    assert s.cost / v <= t.cost / v;
  }

  // ---------------------------------------------------------------------
  // Message bookkeeping of belief propagation
  // ---------------------------------------------------------------------

  /** `received_message(from, to)`: the slot of `to` for `from` holds a message. */
  function ReceivedMessage(nodes: map<Name, Node>, from: Name, to: Name): bool
    requires to in nodes && from in nodes[to].inMessages
  {
    nodes[to].inMessages[from].Some?
  }

  /** `can_compute_message(to, from)`: every slot of `to` except the one for `from` holds a message. */
  function CanComputeMessage(nodes: map<Name, Node>, to: Name, from: Name): bool
    requires to in nodes && NodeOk(nodes[to])
  {
    AllPresent(OtherSlots(nodes[to], from))
  }

  /** Every slot but the one for `dest` is full exactly when no such slot is empty. */
  lemma {:induction false} SlotsOfPresent(nbs: seq<Name>, slots: map<Name, Option<Vec>>, dest: Name)
    requires forall k :: k in nbs ==> k in slots
    ensures AllPresent(SlotsOf(nbs, slots, dest)) <==> forall k :: k in nbs && k != dest ==> slots[k].Some?
  {
    if |nbs| > 0 {
      SlotsOfPresent(nbs[1..], slots, dest);
      assert forall k :: k in nbs <==> k == nbs[0] || k in nbs[1..];
      if nbs[0] != dest {
        PresentCons(slots[nbs[0]], SlotsOf(nbs[1..], slots, dest));
      }
    }
  }

  lemma PresentCons(x: Option<Vec>, rest: seq<Option<Vec>>)
    ensures AllPresent([x] + rest) <==> x.Some? && AllPresent(rest)
  {
    var all := [x] + rest;
    if AllPresent(all) {
      assert all[0] == x;
      forall k | 0 <= k < |rest| ensures rest[k].Some? {
        assert all[k + 1] == rest[k];
      }
    }
  }

  /** A node can send to `dest` exactly when its only possibly empty slot is the one for `dest`. */
  lemma CanComputeMessageIff(nodes: map<Name, Node>, to: Name, from: Name)
    requires to in nodes && NodeOk(nodes[to])
    ensures CanComputeMessage(nodes, to, from) <==>
      forall k :: k in nodes[to].neighbours && k != from ==> nodes[to].inMessages[k].Some?
  {
    SlotsOfPresent(nodes[to].neighbours, nodes[to].inMessages, from);
  }

  function TargetsAmong(nodes: map<Name, Node>, name: Name, nbs: seq<Name>): (r: seq<Name>)
    requires name in nodes && NodeOk(nodes[name])
    requires forall t :: t in nbs ==> t in nodes && name in nodes[t].inMessages
    ensures forall t :: t in r <==>
      t in nbs && !ReceivedMessage(nodes, name, t) && CanComputeMessage(nodes, name, t)
    ensures Distinct(nbs) ==> Distinct(r)
  {
    if |nbs| == 0 then []
    else
      var rest := TargetsAmong(nodes, name, nbs[1..]);
      var t := nbs[0];
      if !ReceivedMessage(nodes, name, t) && CanComputeMessage(nodes, name, t) then [t] + rest else rest
  }

  /**
   * `get_target_nodes`: the neighbours that have not received a message
   * from `name` yet and to which `name` can already send one.
   */
  function TargetNodes(nodes: map<Name, Node>, name: Name): (r: seq<Name>)
    requires WellFormed(nodes) && name in nodes
    ensures Distinct(r)
    ensures forall t :: t in r <==>
      && t in nodes[name].neighbours
      && !ReceivedMessage(nodes, name, t)
      && CanComputeMessage(nodes, name, t)
  {
    TargetsAmong(nodes, name, nodes[name].neighbours)
  }

  /** Every target from position `k` on still has an empty slot for `from`. */
  ghost predicate Awaiting(nodes: map<Name, Node>, from: Name, targets: seq<Name>, k: nat)
  {
    forall j :: k <= j < |targets| ==>
      targets[j] in nodes && from in nodes[targets[j]].inMessages && nodes[targets[j]].inMessages[from].None?
  }

  lemma AwaitingDeliver(nodes: map<Name, Node>, from: Name, targets: seq<Name>, k: nat, msg: Vec)
    requires Awaiting(nodes, from, targets, k) && Distinct(targets) && k < |targets|
    ensures Awaiting(WithMessage(nodes, targets[k], from, msg), from, targets, k + 1)
  {
  }

  /** Every slot of every node holds a message. */
  ghost predicate AllFilled(nodes: map<Name, Node>)
  {
    forall n, k :: n in nodes && k in nodes[n].inMessages ==> nodes[n].inMessages[k].Some?
  }

  /** Every slot of every node is empty. */
  ghost predicate AllCleared(nodes: map<Name, Node>)
  {
    forall n, k :: n in nodes && k in nodes[n].inMessages ==> nodes[n].inMessages[k].None?
  }

  lemma ResetClears(nodes: map<Name, Node>)
    ensures AllCleared(map n | n in nodes :: Cleared(nodes[n]))
  {
  }

  /** Every node of `targets` holds the message of `from`. */
  ghost predicate SentTo(nodes: map<Name, Node>, from: Name, targets: seq<Name>)
  {
    forall t :: t in targets ==> t in nodes && from in nodes[t].inMessages && nodes[t].inMessages[from].Some?
  }

  lemma SentToKeeps(a: map<Name, Node>, b: map<Name, Node>, from: Name, targets: seq<Name>)
    requires SentTo(a, from, targets) && Keeps(a, b)
    ensures SentTo(b, from, targets)
  {
  }

  lemma SentToDeliver(nodes: map<Name, Node>, from: Name, targets: seq<Name>, j: nat, msg: Vec)
    requires j < |targets| && SentTo(nodes, from, targets[..j]) && WellFormed(nodes)
    requires targets[j] in nodes && from in nodes[targets[j]].inMessages
    ensures SentTo(WithMessage(nodes, targets[j], from, msg), from, targets[..j + 1])
  {
    WithMessageKeeps(nodes, targets[j], from, msg);
    SentToKeeps(nodes, WithMessage(nodes, targets[j], from, msg), from, targets[..j]);
    assert forall t :: t in targets[..j + 1] <==> t in targets[..j] || t == targets[j];
  }

  /** Each of the first `i` nodes of `order` has sent its message to every neighbour. */
  ghost predicate Delivered(nodes: map<Name, Node>, order: seq<Name>, i: nat)
  {
    forall k :: 0 <= k < i && k < |order| ==> order[k] in nodes && SentTo(nodes, order[k], nodes[order[k]].neighbours)
  }

  lemma DeliveredKeeps(a: map<Name, Node>, b: map<Name, Node>, order: seq<Name>, i: nat)
    requires Delivered(a, order, i) && Keeps(a, b)
    ensures Delivered(b, order, i)
  {
    forall k | 0 <= k < i && k < |order|
      ensures order[k] in b && SentTo(b, order[k], b[order[k]].neighbours)
    {
      SentToKeeps(a, b, order[k], a[order[k]].neighbours);
    }
  }

  lemma DeliveredExtend(nodes: map<Name, Node>, order: seq<Name>, i: nat)
    requires Delivered(nodes, order, i) && i < |order| && order[i] in nodes
    requires SentTo(nodes, order[i], nodes[order[i]].neighbours)
    ensures Delivered(nodes, order, i + 1)
  {
  }

  /** Once every node has sent to every neighbour, every slot is full. */
  lemma DeliveredAll(nodes: map<Name, Node>, order: seq<Name>)
    requires WellFormed(nodes) && Delivered(nodes, order, |order|) && forall n :: n in nodes ==> n in order
    ensures AllFilled(nodes)
  {
    forall n, k | n in nodes && k in nodes[n].inMessages
      ensures nodes[n].inMessages[k].Some?
    {
      var i :| 0 <= i < |order| && order[i] == k;
      assert SentTo(nodes, k, nodes[k].neighbours);
      assert n in nodes[k].neighbours;
    }
  }

  lemma ExtendsKeeps(a: map<Name, Node>, b: map<Name, Node>)
    requires Extends(a, b)
    ensures Keeps(a, b)
  {
  }

  /** Filling an empty slot never overwrites a delivered message. */
  lemma FillExtends(nodes: map<Name, Node>, to: Name, from: Name, msg: Vec)
    requires to in nodes && from in nodes[to].inMessages && nodes[to].inMessages[from].None?
    ensures Extends(nodes, WithMessage(nodes, to, from, msg))
  {
    var after := WithMessage(nodes, to, from, msg);
    assert after.Keys == nodes.Keys;
    forall n | n in nodes
      ensures after[n].kind == nodes[n].kind && after[n].neighbours == nodes[n].neighbours
      ensures after[n].params == nodes[n].params && after[n].inMessages.Keys == nodes[n].inMessages.Keys
    {
    }
    assert SameStructure(nodes, after);
    forall n, k | n in nodes && k in nodes[n].inMessages && nodes[n].inMessages[k].Some?
      ensures after[n].inMessages[k] == nodes[n].inMessages[k]
    {
      if n == to {
        assert k != from;
      }
    }
  }

  /** `np.abs(a - b).max()` over the common prefix (0 when it is empty). */
  function MaxAbsDiff(a: Vec, b: Vec): (r: real)
    ensures r >= 0.0
    ensures forall i :: 0 <= i < |a| && i < |b| ==> a[i] - b[i] <= r && b[i] - a[i] <= r
    ensures |a| > 0 && |b| > 0 ==> exists i :: 0 <= i < |a| && i < |b| && (r == a[i] - b[i] || r == b[i] - a[i])
  {
    if |a| == 0 || |b| == 0 then 0.0
    else
      var d := if a[0] >= b[0] then a[0] - b[0] else b[0] - a[0];
      var rest := MaxAbsDiff(a[1..], b[1..]);
      assert forall i :: 1 <= i < |a| && i < |b| ==> a[i] == a[1..][i - 1] && b[i] == b[1..][i - 1];
      if d >= rest then d else rest
  }

  /**
   * A delivery's change is below `bound` exactly when no entry moved by
   * `bound` or more. With `bound` 1 this is the stopping test of the
   * sweeps of `i_step_lbp`: a sweep ends the loop exactly when every slot
   * it wrote was already full and no entry of any message moved by 1 or
   * more; in particular a sweep that delivers only unchanged messages ends it.
   */
  lemma MaxAbsDiffBelow(a: Vec, b: Vec, bound: real)
    requires bound > 0.0
    ensures MaxAbsDiff(a, b) < bound <==> forall i :: 0 <= i < |a| && i < |b| ==> -bound < a[i] - b[i] < bound
  {
    if |a| > 0 && |b| > 0 {
      var r := MaxAbsDiff(a, b);
      var i :| 0 <= i < |a| && i < |b| && (r == a[i] - b[i] || r == b[i] - a[i]);
    }
  }

  // ---------------------------------------------------------------------
  // Marginal posteriors of the states
  // ---------------------------------------------------------------------

  /**
   * The product loop of `compute_posterior_distributions` for one node:
   * starts from ones, multiplies by each slot in turn and stops at the
   * first empty one.
   */
  method MultiplyMessages(n: nat, ms: seq<Option<Vec>>) returns (acc: Vec, ok: bool)
    ensures (acc, ok) == Accumulate(Ones(n), ms)
  {
    acc := Ones(n);
    var j := 0;
    while j < |ms|
      invariant 0 <= j <= |ms|
      invariant Accumulate(Ones(n), ms) == Accumulate(acc, ms[j..])
    {
      assert ms[j..][0] == ms[j] && ms[j..][1..] == ms[j + 1..];
      if ms[j].None? {
        return acc, false;
      }
      acc := MulVec(acc, ms[j].value);
      j := j + 1;
    }
    return acc, true;
  }

  /**
   * The posteriors after visiting the state nodes `names` in turn, and
   * whether every visited node had all its messages. The pass stops at the
   * first node with an empty slot, after writing that node's partial product.
   */
  function PosteriorsFrom(post: map<Name, Vec>, names: seq<Name>, nodes: map<Name, Node>): (r: (map<Name, Vec>, bool))
    requires forall n :: n in names ==> n in nodes && NodeOk(nodes[n]) && n in post
    ensures r.0.Keys == post.Keys
    decreases |names|
  {
    if |names| == 0 then (post, true)
    else
      var n := names[0];
      var m := Marginal(|post[n]|, AllSlots(nodes[n]));
      if !m.1 then (post[n := m.0], false)
      else PosteriorsFrom(post[n := m.0], names[1..], nodes)
  }

  /** The loop of `compute_posterior_distributions` over the state nodes `names`. */
  method VisitStateNodes(init: map<Name, Vec>, names: seq<Name>, nodes: map<Name, Node>) returns (post: map<Name, Vec>, ok: bool)
    requires forall n :: n in names ==> n in nodes && NodeOk(nodes[n]) && n in init
    ensures (post, ok) == PosteriorsFrom(init, names, nodes)
  {
    post := init;
    var k := 0;
    while k < |names|
      invariant 0 <= k <= |names| && post.Keys == init.Keys
      invariant PosteriorsFrom(init, names, nodes) == PosteriorsFrom(post, names[k..], nodes)
    {
      var n := names[k];
      assert names[k..][0] == n && names[k..][1..] == names[k + 1..];
      var acc, full := MultiplyMessages(|post[n]|, AllSlots(nodes[n]));
      if !full {
        return post[n := acc], false;
      }
      post := post[n := MassNormalise(acc)];
      k := k + 1;
    }
    return post, true;
  }

  /**
   * The pass succeeds exactly when every visited node has all its messages,
   * and then each visited node's posterior is its normalised product of
   * messages while every other posterior is unchanged.
   */
  lemma {:induction false} PosteriorsFromOk(post: map<Name, Vec>, names: seq<Name>, nodes: map<Name, Node>)
    requires forall n :: n in names ==> n in nodes && NodeOk(nodes[n]) && n in post
    requires Distinct(names)
    ensures PosteriorsFrom(post, names, nodes).1 <==> forall n :: n in names ==> AllPresent(AllSlots(nodes[n]))
    ensures PosteriorsFrom(post, names, nodes).1 ==>
      && (forall n :: n in names ==> PosteriorsFrom(post, names, nodes).0[n] == Marginal(|post[n]|, AllSlots(nodes[n])).0)
      && (forall n :: n in post && n !in names ==> PosteriorsFrom(post, names, nodes).0[n] == post[n])
    decreases |names|
  {
    if |names| > 0 {
      var n := names[0];
      var m := Marginal(|post[n]|, AllSlots(nodes[n]));
      if m.1 {
        var post' := post[n := m.0];
        assert forall k :: k in names[1..] ==> k in names && k != n;
        PosteriorsFromOk(post', names[1..], nodes);
      }
    }
  }

  // ---------------------------------------------------------------------
  // Forward prediction of a child slice
  // ---------------------------------------------------------------------

  /** The predicted posterior of state `s` one step after `post` under action `a`. */
  function PredictedState(m: Model, post: map<Name, Vec>, a: nat, s: Name): Vec
    requires ModelOk(m) && s in m.stateNames && forall n :: n in m.stateNames ==> n in post
  {
    Elems(ForwardPrediction(m.transition[s], m.stateParents[s], m.actionName, OneHot(m.nActions, a), post))
  }

  function PredictedStates(m: Model, post: map<Name, Vec>, a: nat): (r: map<Name, Vec>)
    requires ModelOk(m) && forall n :: n in m.stateNames ==> n in post
    ensures forall n :: n in r <==> n in m.stateNames
  {
    map s | s in m.stateNames :: PredictedState(m, post, a, s)
  }

  /** The predicted posterior of observation `o` given predicted state posteriors `post`. */
  function PredictedObs(m: Model, post: map<Name, Vec>, a: nat, o: Name): Tensor
    requires ModelOk(m) && o in m.obsNames && forall n :: n in m.stateNames ==> n in post
  {
    ForwardPrediction(m.likelihood[o], m.obsParents[o], m.actionName, OneHot(m.nActions, a), post)
  }

  function PredictedObservations(m: Model, post: map<Name, Vec>, a: nat): (r: map<Name, Tensor>)
    requires ModelOk(m) && forall n :: n in m.stateNames ==> n in post
    ensures forall o :: o in r <==> o in m.obsNames
  {
    map o | o in m.obsNames :: PredictedObs(m, post, a, o)
  }

  /** The slice `p_step(a)` creates below the slice `p` stored at index `i`. */
  function Child(m: Model, p: Slice, i: nat, a: nat): Slice
    requires ModelOk(m) && SliceOk(m, p)
  {
    var states := PredictedStates(m, p.statesPosterior, a);
    NewSlice(m, p.statesPrior).(
      action := a, parent := Some(i),
      statesPosterior := states,
      obsPosterior := PredictedObservations(m, states, a))
  }

  /** The sizes of the parents' axes: the number of actions for the action, `size` for a state. */
  function ParentDims(m: Model, parents: seq<Name>, size: map<Name, nat>): (r: seq<nat>)
    requires forall p :: p in parents ==> p == m.actionName || p in size
    ensures |r| == |parents|
  {
    seq(|parents|, j requires 0 <= j < |parents| =>
      if parents[j] == m.actionName then m.nActions else size[parents[j]])
  }

  /**
   * Every transition and likelihood table is a conditional distribution
   * over its first axis, with one axis per parent of the sizes in `size`.
   */
  ghost predicate TablesOk(m: Model, size: map<Name, nat>, obsSize: map<Name, nat>)
    requires ModelOk(m)
  {
    && (forall s :: s in m.stateNames ==> s in size)
    && (forall s :: s in m.stateNames ==>
          Stochastic(m.transition[s], [size[s]] + ParentDims(m, m.stateParents[s], size)))
    && (forall o :: o in m.obsNames ==>
          o in obsSize && Stochastic(m.likelihood[o], [obsSize[o]] + ParentDims(m, m.obsParents[o], size)))
  }

  /** Each posterior is a distribution of the expected size. */
  ghost predicate Distributions(m: Model, post: map<Name, Vec>, size: map<Name, nat>)
  {
    forall s :: s in m.stateNames ==> s in post && s in size && |post[s]| == size[s] && Sum(post[s]) == 1.0
  }

  lemma PredictionWeights(m: Model, parents: seq<Name>, size: map<Name, nat>, post: map<Name, Vec>, a: nat)
    requires ModelOk(m) && a < m.nActions && Distributions(m, post, size)
    requires forall p :: p in parents ==> p == m.actionName || p in m.stateNames
    ensures forall p :: p in parents ==> p == m.actionName || p in size
    ensures forall j :: 0 <= j < |parents| ==>
      var w := post[m.actionName := OneHot(m.nActions, a)][parents[j]];
      |w| == ParentDims(m, parents, size)[j] && Sum(w) == 1.0
  {
    SumOneHot(m.nActions, a);
  }

  /**
   * Predicting from distributions through conditional distributions gives
   * distributions: every predicted state posterior and every predicted
   * observation posterior sums to 1 and has the size of its variable.
   */
  lemma PredictionsAreDistributions(m: Model, size: map<Name, nat>, obsSize: map<Name, nat>, post: map<Name, Vec>, a: nat)
    requires ModelOk(m) && TablesOk(m, size, obsSize) && a < m.nActions && Distributions(m, post, size)
    ensures Distributions(m, PredictedStates(m, post, a), size)
    ensures forall o :: o in m.obsNames ==>
      var e := Elems(PredictedObservations(m, PredictedStates(m, post, a), a)[o]);
      |e| == obsSize[o] && Sum(e) == 1.0
  {
    var states := PredictedStates(m, post, a);
    forall s | s in m.stateNames
      ensures |states[s]| == size[s] && Sum(states[s]) == 1.0
    {
      var ps := m.stateParents[s];
      PredictionWeights(m, ps, size, post, a);
      ForwardPredictionStochastic(m.transition[s], size[s], ParentDims(m, ps, size), ps, m.actionName, OneHot(m.nActions, a), post);
    }
    assert Distributions(m, states, size);
    forall o | o in m.obsNames
      ensures var e := Elems(PredictedObservations(m, states, a)[o]); |e| == obsSize[o] && Sum(e) == 1.0
    {
      var ps := m.obsParents[o];
      PredictionWeights(m, ps, size, states, a);
      ForwardPredictionStochastic(m.likelihood[o], obsSize[o], ParentDims(m, ps, size), ps, m.actionName, OneHot(m.nActions, a), states);
    }
  }

  /** `use_posteriors_as_empirical_priors`: each state node's parameters become its posterior. */
  function WithPriors(nodes: map<Name, Node>, names: seq<Name>, post: map<Name, Vec>): (r: map<Name, Node>)
    ensures r.Keys == nodes.Keys
  {
    map n | n in nodes :: if n in names && n in post then nodes[n].(params := Some(FromVec(post[n]))) else nodes[n]
  }

  /** Writing posteriors as priors keeps every slot and the structure of the graph. */
  lemma WithPriorsStep(nodes: map<Name, Node>, names: seq<Name>, k: nat, post: map<Name, Vec>)
    requires k < |names| && names[k] in nodes && names[k] in post
    ensures WithPriors(nodes, names[..k + 1], post)
         == WithPriors(nodes, names[..k], post)[names[k] := nodes[names[k]].(params := Some(FromVec(post[names[k]])))]
  {
    assert forall n :: n in names[..k + 1] <==> n in names[..k] || n == names[k];
  }

  /** Restarting the root as a leaf without parent keeps the links of the tree. */
  lemma RestartKeepsTree(slices: seq<Slice>, root: nat, s: Slice)
    requires TreeOk(slices, root) && root < |slices|
    requires s.visits >= 1 && s.parent.None? && s.children == []
    ensures TreeOk(slices[root := s], root)
  {
    var t := slices[root := s];
    forall i | 0 <= i < |t|
      ensures root <= i ==> forall j :: 0 <= j < |t[i].children| ==> t[t[i].children[j]].parent == Some(i)
    {
      if root < i {
        forall j | 0 <= j < |t[i].children| ensures t[t[i].children[j]].parent == Some(i) {
          assert t[i].children[j] == slices[i].children[j] > i;
        }
      }
    }
  }

  /** Appending a leaf child of `i` and listing it last among `i`'s children keeps the links of the tree. */
  lemma AppendKeepsTree(slices: seq<Slice>, root: nat, i: nat, child: Slice)
    requires TreeOk(slices, root) && i < |slices|
    requires child.visits >= 1 && child.parent == Some(i) && child.children == []
    ensures var c := |slices|;
      TreeOk(slices[i := slices[i].(children := slices[i].children + [c])] + [child], root)
  {
    var c := |slices|;
    var t := slices[i := slices[i].(children := slices[i].children + [c])] + [child];
    forall k | 0 <= k < |t|
      ensures t[k].visits >= 1 && (t[k].parent.Some? ==> t[k].parent.value < k)
      ensures forall j :: 0 <= j < |t[k].children| ==> k < t[k].children[j] < |t|
      ensures root <= k ==> forall j :: 0 <= j < |t[k].children| ==> t[t[k].children[j]].parent == Some(k)
    {
      if k < c {
        assert t[k].parent == slices[k].parent && t[k].visits == slices[k].visits;
        forall j | 0 <= j < |t[k].children|
          ensures k < t[k].children[j] < |t|
          ensures root <= k ==> t[t[k].children[j]].parent == Some(k)
        {
          if k == i && j == |slices[i].children| {
            assert t[k].children[j] == c;
          } else {
            assert t[k].children[j] == slices[k].children[j];
            assert t[slices[k].children[j]].parent == slices[slices[k].children[j]].parent;
          }
        }
      }
    }
  }

  lemma AppendKeepsSlices(m: Model, slices: seq<Slice>, i: nat, child: Slice)
    requires i < |slices| && SliceOk(m, child) && forall k :: 0 <= k < |slices| ==> SliceOk(m, slices[k])
    ensures var t := slices[i := slices[i].(children := slices[i].children + [|slices|])] + [child];
      forall k :: 0 <= k < |t| ==> SliceOk(m, t[k])
  {
    var t := slices[i := slices[i].(children := slices[i].children + [|slices|])] + [child];
    forall k | 0 <= k < |t| ensures SliceOk(m, t[k]) {
      if k < |slices| {
        assert SliceOk(m, slices[k]);
      }
    }
  }

  /** The loop of `p_step` over the states: one forward prediction per state. */
  method PredictStates(m: Model, post: map<Name, Vec>, a: nat) returns (states: map<Name, Vec>)
    requires ModelOk(m) && forall n :: n in m.stateNames ==> n in post
    ensures states == PredictedStates(m, post, a)
  {
    var names := m.stateNames;
    states := map[];
    var k := 0;
    while k < |names|
      invariant 0 <= k <= |names|
      invariant forall n :: n in states <==> n in names[..k]
      invariant forall n :: n in states ==> states[n] == PredictedState(m, post, a, n)
    {
      var s := names[k];
      states := states[s := PredictedState(m, post, a, s)];
      assert forall n :: n in names[..k + 1] <==> n in names[..k] || n == s;
      k := k + 1;
    }
    assert names[..k] == names;
  }

  /** The loop of `p_step` over the observations: one forward prediction per observation. */
  method PredictObservations(m: Model, states: map<Name, Vec>, a: nat) returns (observations: map<Name, Tensor>)
    requires ModelOk(m) && forall n :: n in m.stateNames ==> n in states
    ensures observations == PredictedObservations(m, states, a)
  {
    var names := m.obsNames;
    observations := map[];
    var k := 0;
    while k < |names|
      invariant 0 <= k <= |names|
      invariant forall n :: n in observations <==> n in names[..k]
      invariant forall n :: n in observations ==> observations[n] == PredictedObs(m, states, a, n)
    {
      var o := names[k];
      observations := observations[o := PredictedObs(m, states, a, o)];
      assert forall n :: n in names[..k + 1] <==> n in names[..k] || n == o;
      k := k + 1;
    }
    assert names[..k] == names;
  }

  /** Replacing a slice by one with the same links and visits keeps the links of the tree. */
  lemma ReplaceKeepsTree(m: Model, slices: seq<Slice>, root: nat, k: nat, s: Slice, t: seq<Slice>)
    requires TreeOk(slices, root) && k < |slices| && t == slices[k := s]
    requires s.visits == slices[k].visits && s.parent == slices[k].parent && s.children == slices[k].children
    requires SliceOk(m, s) && forall i :: 0 <= i < |slices| ==> SliceOk(m, slices[i])
    ensures TreeOk(t, root)
    ensures forall i :: 0 <= i < |t| ==> SliceOk(m, t[i])
  {
    forall i | 0 <= i < |t| ensures SliceOk(m, t[i]) {
      if i != k {
        assert t[i] == slices[i];
      }
    }
    forall i | 0 <= i < |t|
      ensures root <= i ==> forall j :: 0 <= j < |t[i].children| ==> t[t[i].children[j]].parent == Some(i)
    {
      if root <= i {
        forall j | 0 <= j < |t[i].children| ensures t[t[i].children[j]].parent == Some(i) {
          assert t[t[i].children[j]].parent == slices[slices[i].children[j]].parent;
        }
      }
    }
  }

  /** `b` is `a` with only the state posteriors of slice `root` replaced. */
  ghost predicate OnlyPosteriorChanged(a: seq<Slice>, b: seq<Slice>, root: nat)
  {
    && |a| == |b| && root < |a|
    && (forall i :: 0 <= i < |a| && i != root ==> b[i] == a[i])
    && b[root] == a[root].(statesPosterior := b[root].statesPosterior)
  }

  /**
   * The state posteriors after a complete pass: each listed state's
   * posterior is the normalised product of all its messages (of the
   * length its posterior had before), and every other posterior is unchanged.
   */
  ghost predicate PosteriorsAreMarginals(before: map<Name, Vec>, after: map<Name, Vec>, names: seq<Name>, nodes: map<Name, Node>)
    requires forall n :: n in names ==> n in nodes && NodeOk(nodes[n]) && n in before
  {
    && after.Keys == before.Keys
    && (forall n :: n in names ==> AllPresent(AllSlots(nodes[n])) && after[n] == Marginal(|before[n]|, AllSlots(nodes[n])).0)
    && (forall n :: n in before && n !in names ==> after[n] == before[n])
  }

  /** When every slot is full, every node has all its messages. */
  lemma FilledSlotsPresent(nodes: map<Name, Node>, names: seq<Name>)
    requires AllFilled(nodes) && forall n :: n in names ==> n in nodes && NodeOk(nodes[n])
    ensures forall n :: n in names ==> AllPresent(AllSlots(nodes[n]))
  {
  }

  /** The loop of `send_messages_to_neighbours`: what `SearchTree.SendToNeighbours` runs on the graph. */
  method SendAll(fg: FactorGraph, node: Name) returns (r: Result<real, Error>)
    requires fg.Valid() && node in fg.nodes
    modifies fg
    ensures fg.Valid() && fg.names == old(fg.names)
    ensures Keeps(old(fg.nodes), fg.nodes)
    ensures r.Ok? ==> r.value >= 0.0 && SentTo(fg.nodes, node, fg.nodes[node].neighbours)
    ensures r.Err? ==> r.error != MissingMarginalMessage && r.error != NotConverged
  {
    var nbs := fg.nodes[node].neighbours;
    var maxError := 0.0;
    var j := 0;
    while j < |nbs|
      invariant 0 <= j <= |nbs| && maxError >= 0.0
      invariant fg.Valid() && fg.names == old(fg.names)
      invariant Keeps(old(fg.nodes), fg.nodes)
      invariant node in fg.nodes && fg.nodes[node].neighbours == nbs
      invariant SentTo(fg.nodes, node, nbs[..j])
    {
      var t := nbs[j];
      ghost var pre := fg.nodes;
      var msg := fg.ComputeMessage(node, t, true);
      ExtendsKeeps(pre, fg.nodes);
      assert Keeps(old(fg.nodes), fg.nodes);
      if msg.Err? {
        MessageErrors(pre[node], t, true, msg);
        return Err(msg.error);
      }
      SentToKeeps(pre, fg.nodes, node, nbs[..j]);
      var previous := fg.nodes[t].inMessages[node];
      var e := if previous.None? then 1.0 else MaxAbsDiff(previous.value, msg.value);
      if e > maxError {
        maxError := e;
      }
      ghost var mid := fg.nodes;
      SentToDeliver(fg.nodes, node, nbs, j, msg.value);
      fg.Deliver(t, node, msg.value);
      assert Keeps(old(fg.nodes), fg.nodes);
      j := j + 1;
    }
    assert nbs[..j] == nbs;
    return Ok(maxError);
  }

  /**
   * The planning tree (the set of `TemporalSlice` objects reachable from the
   * agent's current slice) together with the factor graph and generative
   * model every slice shares.
   */
  class SearchTree {
    const fg: FactorGraph
    const model: Model
    var slices: seq<Slice>
    var root: nat

    ghost predicate Valid()
      reads this, fg
    {
      fg.Valid() && Consistent(model, fg.nodes) && SlicesOk()
    }

    /** The slices form a tree under the root and each fits the model. */
    ghost predicate SlicesOk()
      reads this
    {
      && ModelOk(model) && root < |slices| && TreeOk(slices, root)
      && forall i :: 0 <= i < |slices| ==> SliceOk(model, slices[i])
    }

    /** A tree made of one fresh slice with the given prior. */
    constructor (fg: FactorGraph, model: Model, prior: map<Name, Vec>)
      requires fg.Valid() && ModelOk(model) && Consistent(model, fg.nodes)
      requires forall n :: n in prior <==> n in model.stateNames
      ensures Valid() && this.fg == fg && this.model == model
      ensures slices == [NewSlice(model, prior)] && root == 0
    {
      this.fg := fg;
      this.model := model;
      slices := [NewSlice(model, prior)];
      root := 0;
    }

    /**
     * `reset`: empties every message slot of the graph and restores the
     * root's prior, cost, visit count, parent and children to those of a
     * fresh slice; its posteriors are kept.
     */
    method Reset()
      requires Valid()
      modifies this, fg
      ensures Valid() && root == old(root)
      ensures fg.names == old(fg.names)
      ensures fg.nodes == map n | n in old(fg.nodes) :: Cleared(old(fg.nodes)[n])
      ensures AllCleared(fg.nodes)
      ensures slices == old(slices)[root := old(slices[root]).(
        statesPrior := old(slices[root]).initialStatesPrior,
        cost := 0.0, visits := 1, parent := None, children := [])]
    {
      fg.ResetMessages();
      ResetClears(old(fg.nodes));
      assert Consistent(model, fg.nodes);
      var s := slices[root];
      var restarted := s.(statesPrior := s.initialStatesPrior, cost := 0.0, visits := 1, parent := None, children := []);
      RestartKeepsTree(slices, root, restarted);
      assert SliceOk(model, restarted);
      slices := slices[root := restarted];
    }

    /**
     * `use_posteriors_as_empirical_priors`: every state node of the graph
     * takes the root's posterior over that state as its parameters; nothing
     * else changes.
     */
    method UsePosteriorsAsEmpiricalPriors()
      requires Valid()
      modifies fg
      ensures Valid() && fg.names == old(fg.names)
      ensures fg.nodes == WithPriors(old(fg.nodes), model.stateNames, slices[root].statesPosterior)
    {
      var post := slices[root].statesPosterior;
      var names := model.stateNames;
      var k := 0;
      assert names[..0] == [];
      assert WithPriors(fg.nodes, names[..0], post) == fg.nodes;
      while k < |names|
        invariant 0 <= k <= |names|
        invariant fg.Valid() && fg.names == old(fg.names)
        invariant fg.nodes == WithPriors(old(fg.nodes), names[..k], post)
      {
        var s := names[k];
        WithPriorsStep(old(fg.nodes), names, k, post);
        fg.SetParams(s, FromVec(post[s]));
        k := k + 1;
      }
      assert names[..k] == names;
      assert SameKinds: forall n :: n in fg.nodes <==> n in old(fg.nodes);
      assert Consistent(model, fg.nodes);
    }

    /**
     * `p_step(a)`: appends to the tree a child of slice `i` reached by
     * action `a`, whose state posteriors are predicted from `i`'s through the
     * transition tables and whose observation posteriors are predicted from
     * those through the likelihood tables; `i` lists the child last.
     */
    method PStep(i: nat, a: nat) returns (c: nat)
      requires Valid() && i < |slices| && a < model.nActions
      modifies this
      ensures Valid() && root == old(root)
      ensures c == |old(slices)| && |slices| == c + 1
      ensures slices[..c] == old(slices)[i := old(slices[i]).(children := old(slices[i]).children + [c])]
      ensures slices[c] == Child(model, old(slices[i]), i, a)
    {
      var p := slices[i];
      var states := PredictStates(model, p.statesPosterior, a);
      var observations := PredictObservations(model, states, a);
      var child := NewSlice(model, p.statesPrior).(action := a, parent := Some(i));
      child := child.(statesPosterior := states, obsPosterior := observations);
      c := |slices|;
      assert child == Child(model, p, i, a);
      assert SliceOk(model, child);
      AppendKeepsTree(slices, root, i, child);
      AppendKeepsSlices(model, slices, i, child);
      slices := slices[i := p.(children := p.children + [c])] + [child];
    }

    /** The state names of the graph all have posteriors in the root. */
    lemma StateNodesHavePosteriors()
      requires Valid()
      ensures forall n :: n in fg.StateNodes() ==> n in fg.nodes && NodeOk(fg.nodes[n]) && n in slices[root].statesPosterior
      ensures Distinct(fg.StateNodes())
    {
      assert SliceOk(model, slices[root]);
    }

    /**
     * `compute_posterior_distributions` on the root: visits the state nodes
     * in graph order; each posterior becomes the normalised product of the
     * node's messages, and the pass raises at the first node with an empty
     * slot, after writing that node's partial product.
     */
    method ComputePosteriors() returns (r: Result<(), Error>)
      requires Valid()
      modifies this
      ensures Valid() && root == old(root) && OnlyPosteriorChanged(old(slices), slices, root)
      ensures forall n :: n in fg.StateNodes() ==> n in fg.nodes && NodeOk(fg.nodes[n]) && n in old(slices[root].statesPosterior)
      ensures slices[root].statesPosterior == PosteriorsFrom(old(slices[root].statesPosterior), fg.StateNodes(), fg.nodes).0
      ensures r.Ok? <==> forall n :: n in fg.StateNodes() ==> AllPresent(AllSlots(fg.nodes[n]))
      ensures r.Ok? ==> PosteriorsAreMarginals(old(slices[root].statesPosterior), slices[root].statesPosterior, fg.StateNodes(), fg.nodes)
      ensures r.Err? ==> r.error == MissingMarginalMessage
    {
      StateNodesHavePosteriors();
      var names := fg.StateNodes();
      PosteriorsFromOk(slices[root].statesPosterior, names, fg.nodes);
      var post, ok := VisitStateNodes(slices[root].statesPosterior, names, fg.nodes);
      SetRootPosterior(post);
      r := if ok then Ok(()) else Err(MissingMarginalMessage);
    }

    method SetRootPosterior(post: map<Name, Vec>)
      requires Valid() && forall n :: n in post <==> n in model.stateNames
      modifies this
      ensures Valid() && root == old(root) && OnlyPosteriorChanged(old(slices), slices, root)
      ensures slices[root].statesPosterior == post
    {
      var s := slices[root].(statesPosterior := post);
      assert SliceOk(model, slices[root]);
      ReplaceKeepsTree(model, slices, root, root, s, slices[root := s]);
      slices := slices[root := s];
    }

    /**
     * One turn of the queue loop of `i_step_bp`: `node` sends to each of its
     * targets in turn, and a target left with at most one empty slot is
     * queued. Each delivery fills one empty slot of the graph.
     */
    method ServeTargets(node: Name, q: seq<Name>) returns (r: Result<seq<Name>, Error>)
      requires fg.Valid() && node in fg.nodes && forall n :: n in q ==> n in fg.nodes
      modifies fg
      ensures fg.Valid() && fg.names == old(fg.names)
      ensures Extends(old(fg.nodes), fg.nodes)
      ensures r.Ok? ==> forall n :: n in r.value ==> n in fg.nodes
      ensures r.Ok? ==> EmptySlots(fg.names, fg.nodes) + |TargetNodes(old(fg.nodes), node)| == EmptySlots(old(fg.names), old(fg.nodes))
      ensures r.Ok? && |TargetNodes(old(fg.nodes), node)| == 0 ==> r.value == q
    {
      var targets := TargetNodes(fg.nodes, node);
      var queue := q;
      var k := 0;
      while k < |targets|
        invariant 0 <= k <= |targets|
        invariant fg.Valid() && fg.names == old(fg.names)
        invariant Extends(old(fg.nodes), fg.nodes)
        invariant forall n :: n in queue ==> n in fg.nodes
        invariant node in fg.nodes
        invariant Awaiting(fg.nodes, node, targets, k)
        invariant EmptySlots(fg.names, fg.nodes) + k == EmptySlots(old(fg.names), old(fg.nodes))
        invariant k == 0 ==> queue == q
      {
        var t := targets[k];
        var msg := fg.ComputeMessage(node, t, false);
        if msg.Err? {
          return Err(msg.error);
        }
        ghost var pre := fg.nodes;
        EmptySlotsFill(fg.names, fg.nodes, t, node, msg.value);
        FillExtends(fg.nodes, t, node, msg.value);
        AwaitingDeliver(fg.nodes, node, targets, k, msg.value);
        fg.Deliver(t, node, msg.value);
        assert Extends(old(fg.nodes), fg.nodes);
        if CountNone(fg.nodes[t]) <= 1 {
          queue := queue + [t];
        }
        k := k + 1;
      }
      return Ok(queue);
    }

    /**
     * The message passing of `i_step_bp`: a queue seeded with the leaves;
     * each node taken from it sends to every neighbour that still waits for
     * its message and that it can already serve, and a neighbour left with
     * at most one empty slot joins the queue. Every delivery fills an empty
     * slot, so the queue runs dry, and no delivered message is overwritten.
     */
    method PropagateBeliefs() returns (r: Result<(), Error>)
      requires Valid()
      modifies fg
      ensures Valid() && fg.names == old(fg.names)
      ensures Extends(old(fg.nodes), fg.nodes)
    {
      var q := fg.LeafNodes();
      while |q| > 0
        invariant fg.Valid() && fg.names == old(fg.names)
        invariant Extends(old(fg.nodes), fg.nodes)
        invariant forall n :: n in q ==> n in fg.nodes
        decreases EmptySlots(fg.names, fg.nodes), |q|
      {
        var node := q[0];
        ghost var pre := fg.nodes;
        var served := ServeTargets(node, q[1..]);
        assert Extends(old(fg.nodes), fg.nodes);
        if served.Err? {
          assert Consistent(model, fg.nodes);
          return Err(served.error);
        }
        q := served.value;
      }
      assert Consistent(model, fg.nodes);
      return Ok(());
    }

    /**
     * One node's turn in a sweep of `i_step_lbp`: it sends to every
     * neighbour in order (empty slots of a factor count as all ones) and
     * reports the largest change of a message entry, 1 when a slot was empty.
     */
    method SendToNeighbours(node: Name) returns (r: Result<real, Error>)
      requires Valid() && node in fg.nodes
      modifies fg
      ensures Valid() && fg.names == old(fg.names)
      ensures Keeps(old(fg.nodes), fg.nodes)
      ensures r.Ok? ==> r.value >= 0.0 && SentTo(fg.nodes, node, fg.nodes[node].neighbours)
      ensures r.Err? ==> r.error != MissingMarginalMessage && r.error != NotConverged
    {
      r := SendAll(fg, node);
      assert Consistent(model, fg.nodes);
    }

    /**
     * The message passing of `i_step_lbp`: sweeps over the factor nodes and
     * then the variable nodes, each sending to all its neighbours, until a
     * sweep changes no message entry by 1 or more. A sweep is allowed only
     * while `fuel` lasts. Slots are never emptied, and after a completed
     * sweep every slot is full.
     */
    method PropagateLoopy(fuel: nat) returns (r: Result<(), Error>)
      requires Valid()
      modifies fg
      ensures Valid() && fg.names == old(fg.names)
      ensures Keeps(old(fg.nodes), fg.nodes)
      ensures r.Ok? ==> AllFilled(fg.nodes)
      ensures r.Err? ==> r.error != MissingMarginalMessage
    {
      var order := fg.FactorNodes() + fg.VariableNodes();
      var maxError := 1.0;
      var sweeps := 0;
      while maxError >= 1.0
        invariant Valid() && fg.names == old(fg.names)
        invariant Keeps(old(fg.nodes), fg.nodes)
        invariant forall n :: n in fg.nodes <==> n in order
        invariant sweeps <= fuel
        invariant sweeps == 0 ==> maxError >= 1.0
        invariant sweeps > 0 ==> AllFilled(fg.nodes)
        decreases fuel - sweeps
      {
        if sweeps == fuel {
          return Err(NotConverged);
        }
        maxError := 0.0;
        var i := 0;
        while i < |order|
          invariant 0 <= i <= |order|
          invariant Valid() && fg.names == old(fg.names)
          invariant Keeps(old(fg.nodes), fg.nodes)
          invariant forall n :: n in fg.nodes <==> n in order
          invariant Delivered(fg.nodes, order, i)
        {
          var node := order[i];
          ghost var pre := fg.nodes;
          var sent := SendToNeighbours(node);
          assert Keeps(old(fg.nodes), fg.nodes);
          if sent.Err? {
            return Err(sent.error);
          }
          if sent.value > maxError {
            maxError := sent.value;
          }
          DeliveredKeeps(pre, fg.nodes, order, i);
          DeliveredExtend(fg.nodes, order, i);
          i := i + 1;
        }
        DeliveredAll(fg.nodes, order);
        sweeps := sweeps + 1;
      }
      return Ok(());
    }

    /**
     * `i_step_bp`: belief propagation, then the marginal posteriors of the
     * root. No delivered message is overwritten, and only the root's state
     * posteriors change.
     */
    method IStepBP() returns (r: Result<(), Error>)
      requires Valid()
      modifies this, fg
      ensures Valid() && root == old(root) && OnlyPosteriorChanged(old(slices), slices, root)
      ensures Extends(old(fg.nodes), fg.nodes)
      ensures r.Ok? ==>
        && (forall n :: n in fg.StateNodes() ==> n in fg.nodes && NodeOk(fg.nodes[n]) && n in old(slices[root].statesPosterior))
        && PosteriorsAreMarginals(old(slices[root].statesPosterior), slices[root].statesPosterior, fg.StateNodes(), fg.nodes)
    {
      r := PropagateBeliefs();
      if r.Err? {
        return;
      }
      r := ComputePosteriors();
    }

    /**
     * `i_step_lbp`: loopy belief propagation, then the marginal posteriors
     * of the root. Once the sweeps converge every slot is full, so the
     * posterior pass cannot fail.
     */
    method IStepLBP(fuel: nat) returns (r: Result<(), Error>)
      requires Valid()
      modifies this, fg
      ensures Valid() && root == old(root) && OnlyPosteriorChanged(old(slices), slices, root)
      ensures Keeps(old(fg.nodes), fg.nodes)
      ensures r.Err? ==> r.error != MissingMarginalMessage
      ensures r.Ok? ==>
        && AllFilled(fg.nodes)
        && (forall n :: n in fg.StateNodes() ==> n in fg.nodes && NodeOk(fg.nodes[n]) && n in old(slices[root].statesPosterior))
        && PosteriorsAreMarginals(old(slices[root].statesPosterior), slices[root].statesPosterior, fg.StateNodes(), fg.nodes)
    {
      r := PropagateLoopy(fuel);
      if r.Err? {
        return;
      }
      StateNodesHavePosteriors();
      FilledSlotsPresent(fg.nodes, fg.StateNodes());
      r := ComputePosteriors();
    }

    /**
     * `i_step`: runs the requested algorithm; a runtime error empties every
     * slot and, unless the request was loopy propagation already, loopy
     * propagation runs once more as a last resort. Other errors escape.
     */
    method IStep(alg: Algorithm, fuel: nat) returns (outcome: IStepOutcome)
      requires Valid()
      modifies this, fg
      ensures Valid() && root == old(root) && OnlyPosteriorChanged(old(slices), slices, root)
      ensures SameStructure(old(fg.nodes), fg.nodes)
      ensures outcome.Completed? ==> forall n :: n in fg.StateNodes() ==> n in fg.nodes && NodeOk(fg.nodes[n]) && AllPresent(AllSlots(fg.nodes[n]))
      ensures outcome.Completed? && alg == LoopyBeliefPropagation ==> AllFilled(fg.nodes)
      ensures outcome.Recovered? ==> alg == BeliefPropagation && AllFilled(fg.nodes)
      ensures outcome.Reported? ==> alg == LoopyBeliefPropagation && outcome.error == EmptyMessage && AllCleared(fg.nodes)
      ensures outcome.Raised? ==> outcome.error != MissingMarginalMessage
      ensures outcome.Raised? && alg == LoopyBeliefPropagation ==> !outcome.error.IsRuntimeError()
    {
      var r;
      if alg == BeliefPropagation {
        r := IStepBP();
        ExtendsKeeps(old(fg.nodes), fg.nodes);
      } else {
        r := IStepLBP(fuel);
      }
      if r.Ok? {
        return Completed;
      }
      if !r.error.IsRuntimeError() {
        return Raised(r.error);
      }
      ghost var failed := fg.nodes;
      ghost var slicesFailed := slices;
      fg.ResetMessages();
      ResetClears(failed);
      assert Consistent(model, fg.nodes);
      if alg == LoopyBeliefPropagation {
        return Reported(r.error);
      }
      var again := IStepLBP(fuel);
      if again.Ok? {
        return Recovered;
      }
      return Raised(again.error);
    }
  }
}
