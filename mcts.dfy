/**
 * The Monte-Carlo tree search of branching-time active inference: descend
 * the tree by the UCT criterion to a leaf, expand the leaf with one child
 * per action, evaluate the new children by their expected free energy and
 * back the cost of the cheapest one up through its ancestors.
 */
module Planning {
  import opened Wrappers
  import opened Tensors
  import opened FactorGraphs
  import opened Beliefs
  import opened TemporalSlices

  // ---------------------------------------------------------------------
  // First maximum and first minimum (`max` and `min` keep the first on ties)
  // ---------------------------------------------------------------------

  /** The index of the first largest entry. */
  function FirstMax(s: seq<real>): (r: nat)
    requires |s| > 0
    ensures r < |s|
    ensures forall j :: 0 <= j < |s| ==> s[j] <= s[r]
    ensures forall j :: 0 <= j < r ==> s[j] < s[r]
  {
    if |s| == 1 then 0
    else
      var b := FirstMax(s[..|s| - 1]);
      if s[|s| - 1] > s[b] then |s| - 1 else b
  }

  /** The index of the first smallest entry. */
  function FirstMin(s: seq<real>): (r: nat)
    requires |s| > 0
    ensures r < |s|
    ensures forall j :: 0 <= j < |s| ==> s[r] <= s[j]
    ensures forall j :: 0 <= j < r ==> s[r] < s[j]
  {
    if |s| == 1 then 0
    else
      var b := FirstMin(s[..|s| - 1]);
      if s[|s| - 1] < s[b] then |s| - 1 else b
  }

  // ---------------------------------------------------------------------
  // Selection
  // ---------------------------------------------------------------------

  /** The children of slice `i` are stored in the tree and have been visited. */
  predicate ChildrenStored(slices: seq<Slice>, i: nat)
  {
    && i < |slices|
    && forall j :: 0 <= j < |slices[i].children| ==>
         slices[i].children[j] < |slices| && slices[slices[i].children[j]].visits >= 1
  }

  /**
   * The UCT criterion of each child of slice `i`. A child's parent is `i`
   * (the back-link of the tree), so its parent's visit count is `i`'s.
   */
  function ChildScores(slices: seq<Slice>, i: nat, c: real, log: real -> real, sqrt: real -> real): (r: seq<real>)
    requires ChildrenStored(slices, i)
    ensures |r| == |slices[i].children|
    ensures forall j :: 0 <= j < |r| ==> r[j] == Uct(slices[slices[i].children[j]], slices[i].visits, c, log, sqrt)
  {
    var ch := slices[i].children;
    seq(|ch|, j requires 0 <= j < |ch| => Uct(slices[ch[j]], slices[i].visits, c, log, sqrt))
  }

  /** The child `select_node` moves to from slice `i`: the first with the largest criterion. */
  function BestChild(slices: seq<Slice>, i: nat, c: real, log: real -> real, sqrt: real -> real): (r: nat)
    requires ChildrenStored(slices, i) && |slices[i].children| > 0
    ensures r in slices[i].children
    ensures forall j :: 0 <= j < |slices[i].children| ==>
      Uct(slices[slices[i].children[j]], slices[i].visits, c, log, sqrt) <= Uct(slices[r], slices[i].visits, c, log, sqrt)
  {
    slices[i].children[FirstMax(ChildScores(slices, i, c, log, sqrt))]
  }

  /** The average cost of a visited slice. */
  function AverageCost(s: Slice): real
    requires s.visits >= 1
  {
    s.cost / s.visits as real
  }

  /** At exploration 0 the bonus vanishes. */
  lemma UctWithoutBonus(s: Slice, parentVisits: nat, log: real -> real, sqrt: real -> real)
    requires s.visits >= 1
    ensures Uct(s, parentVisits, 0.0, log, sqrt) == - AverageCost(s)
  {
    var v := s.visits as real;
    var q, n := s.cost / v, (- s.cost) / v;
    assert q * v == s.cost && n * v == - s.cost;
    assert (n + q) * v == 0.0;
  }

  /**
   * Without exploration `select_node` is greedy: it moves to a child of
   * least average cost, and every child before it costs more on average.
   */
  lemma GreedyWithoutExploration(slices: seq<Slice>, i: nat, log: real -> real, sqrt: real -> real)
    requires ChildrenStored(slices, i) && |slices[i].children| > 0
    ensures var ch := slices[i].children;
      var b := BestChild(slices, i, 0.0, log, sqrt);
      exists p :: 0 <= p < |ch| && ch[p] == b
        && (forall j :: 0 <= j < |ch| ==> AverageCost(slices[b]) <= AverageCost(slices[ch[j]]))
        && (forall j :: 0 <= j < p ==> AverageCost(slices[b]) < AverageCost(slices[ch[j]]))
  {
    var ch := slices[i].children;
    var scores := ChildScores(slices, i, 0.0, log, sqrt);
    var p := FirstMax(scores);
    forall j | 0 <= j < |ch|
      ensures scores[j] == - AverageCost(slices[ch[j]])
    {
      UctWithoutBonus(slices[ch[j]], slices[i].visits, log, sqrt);
    }
    assert ch[p] == BestChild(slices, i, 0.0, log, sqrt);
  }

  /** The leaf `select_node` reaches from slice `i` by always moving to the best child. */
  function Descend(slices: seq<Slice>, root: nat, i: nat, c: real, log: real -> real, sqrt: real -> real): (r: nat)
    requires TreeOk(slices, root) && root <= i < |slices|
    ensures i <= r < |slices| && |slices[r].children| == 0
    decreases |slices| - i
  {
    if |slices[i].children| == 0 then i
    else
      var b := BestChild(slices, i, c, log, sqrt);
      Descend(slices, root, b, c, log, sqrt)
  }

  /** Every parent is stored before its child. */
  predicate ParentsBefore(slices: seq<Slice>)
  {
    forall k :: 0 <= k < |slices| && slices[k].parent.Some? ==> slices[k].parent.value < k
  }

  /** The ancestors of a slice, nearest first, starting from its parent link `p`. */
  function Chain(slices: seq<Slice>, p: Option<nat>): (r: seq<nat>)
    requires p.Some? ==> p.value < |slices|
    requires ParentsBefore(slices)
    ensures p.None? <==> r == []
    ensures p.Some? ==> r[0] == p.value
    ensures forall j :: 0 <= j < |r| ==> r[j] < |slices|
    ensures forall j, k :: 0 <= j < k < |r| ==> r[j] > r[k]
    decreases if p.Some? then p.value + 1 else 0
  {
    if p.None? then [] else [p.value] + Chain(slices, slices[p.value].parent)
  }

  /** The ancestor chain is closed under taking parents. */
  lemma {:induction false} ChainClosed(slices: seq<Slice>, p: Option<nat>, x: nat)
    requires p.Some? ==> p.value < |slices|
    requires ParentsBefore(slices)
    requires x in Chain(slices, p) && slices[x].parent.Some?
    ensures slices[x].parent.value in Chain(slices, p)
    decreases if p.Some? then p.value + 1 else 0
  {
    var rest := Chain(slices, slices[p.value].parent);
    assert Chain(slices, p) == [p.value] + rest;
    if x == p.value {
      assert rest[0] == slices[x].parent.value;
    } else {
      ChainClosed(slices, slices[p.value].parent, x);
    }
  }

  /**
   * The leaf reached from `i` lies under `i`: it is `i` itself or `i` is
   * among its ancestors, so backing up from it reaches `i`.
   */
  lemma {:induction false} DescendUnder(slices: seq<Slice>, root: nat, i: nat, c: real, log: real -> real, sqrt: real -> real)
    requires TreeOk(slices, root) && root <= i < |slices|
    ensures var r := Descend(slices, root, i, c, log, sqrt);
      r == i || i in Chain(slices, slices[r].parent)
    decreases |slices| - i
  {
    if |slices[i].children| != 0 {
      var b := BestChild(slices, i, c, log, sqrt);
      var r := Descend(slices, root, b, c, log, sqrt);
      DescendUnder(slices, root, b, c, log, sqrt);
      assert slices[b].parent == Some(i);
      if r == b {
        assert Chain(slices, slices[r].parent)[0] == i;
      } else {
        ChainClosed(slices, slices[r].parent, b);
      }
    }
  }

  // ---------------------------------------------------------------------
  // Expansion, evaluation and back-up as functions of the tree
  // ---------------------------------------------------------------------

  /** Every slice is a leaf or has exactly one child per action. */
  ghost predicate Branching(slices: seq<Slice>, nActions: nat)
  {
    forall i :: 0 <= i < |slices| ==> |slices[i].children| == 0 || |slices[i].children| == nActions
  }

  /** A fresh child of the slice stored at `i` (`p_step`): it records its action and parent, costs nothing yet, and is a leaf visited once. */
  lemma ChildIsFreshLeaf(m: Model, p: Slice, i: nat, a: nat)
    requires ModelOk(m) && SliceOk(m, p)
    ensures var c := Child(m, p, i, a);
      c.action == a && c.parent == Some(i) && c.cost == 0.0 && c.visits == 1 && c.children == []
      && c.statesPrior == p.statesPrior && c.initialStatesPrior == p.statesPrior
  {
  }

  /** A child does not depend on its parent's list of children. */
  lemma ChildIgnoresChildren(m: Model, p: Slice, ch: seq<nat>, i: nat, a: nat)
    requires ModelOk(m) && SliceOk(m, p)
    ensures SliceOk(m, p.(children := ch))
    ensures Child(m, p.(children := ch), i, a) == Child(m, p, i, a)
  {
  }

  /** A slice's predicted observations cover every preference and its posteriors cover every state. */
  lemma SliceCovers(m: Model, s: Slice)
    requires ModelOk(m) && SliceOk(m, s)
    ensures PrefsCovered(m.prefs, s.obsPosterior)
    ensures forall n :: n in m.stateNames ==> n in s.statesPosterior
  {
  }

  /** `node.efe(-1)`: the analytic expected free energy of a slice. */
  function SliceEfe(m: Model, s: Slice, log: real -> real): (r: real)
    requires ModelOk(m) && SliceOk(m, s)
    ensures
      && PrefsCovered(m.prefs, s.obsPosterior) && KeysFresh(m.prefs, [])
      && (forall k :: 0 <= k < |m.prefs| ==> Elems(m.prefs[k].1.table) == Joint(m.prefs[k].1.group, s.obsPosterior))
      ==>
      r == Sum(AmbiguityTerms(m, s.statesPosterior, log))
  {
    SliceCovers(m, s);
    if KeysFresh(m.prefs, []) && forall k :: 0 <= k < |m.prefs| ==> Elems(m.prefs[k].1.table) == Joint(m.prefs[k].1.group, s.obsPosterior) then
      EfeWithoutRisk(m, s.statesPosterior, s.obsPosterior, log);
      Efe(m, s.statesPosterior, s.obsPosterior, log)
    else
      Efe(m, s.statesPosterior, s.obsPosterior, log)
  }

  /** The slices of `slices` listed in `nodes`, with `evaluation`'s cost written in. */
  ghost function Evaluated(m: Model, slices: seq<Slice>, nodes: seq<nat>, log: real -> real): (r: seq<Slice>)
    requires ModelOk(m) && forall k :: 0 <= k < |slices| ==> SliceOk(m, slices[k])
    ensures |r| == |slices|
    ensures forall k :: 0 <= k < |r| ==> r[k] == slices[k].(cost := r[k].cost)
    ensures forall k :: 0 <= k < |r| && k in nodes ==> r[k].cost == SliceEfe(m, slices[k], log)
    ensures forall k :: 0 <= k < |r| && k !in nodes ==> r[k] == slices[k]
  {
    seq(|slices|, k requires 0 <= k < |slices| =>
      if k in nodes then slices[k].(cost := SliceEfe(m, slices[k], log)) else slices[k])
  }

  /** The analytic expected free energy of each listed slice. */
  function NodeEfes(m: Model, slices: seq<Slice>, nodes: seq<nat>, log: real -> real): (r: seq<real>)
    requires ModelOk(m) && forall j :: 0 <= j < |nodes| ==> nodes[j] < |slices| && SliceOk(m, slices[nodes[j]])
    ensures |r| == |nodes|
    ensures forall j :: 0 <= j < |r| ==> r[j] == SliceEfe(m, slices[nodes[j]], log)
  {
    seq(|nodes|, j requires 0 <= j < |nodes| => SliceEfe(m, slices[nodes[j]], log))
  }

  /**
   * The position in `nodes` of the slice `propagation` backs up from: the
   * first listed slice of least expected free energy.
   */
  function Cheapest(m: Model, slices: seq<Slice>, nodes: seq<nat>, log: real -> real): (r: nat)
    requires ModelOk(m) && |nodes| > 0
    requires forall j :: 0 <= j < |nodes| ==> nodes[j] < |slices| && SliceOk(m, slices[nodes[j]])
    ensures r < |nodes|
    ensures forall j :: 0 <= j < |nodes| ==> SliceEfe(m, slices[nodes[r]], log) <= SliceEfe(m, slices[nodes[j]], log)
    ensures forall j :: 0 <= j < r ==> SliceEfe(m, slices[nodes[r]], log) < SliceEfe(m, slices[nodes[j]], log)
  {
    FirstMin(NodeEfes(m, slices, nodes, log))
  }

  /** Each slice of `anc` with `cost` added to its cost and one more visit; the others as they were. */
  function Backup(slices: seq<Slice>, anc: seq<nat>, cost: real): (r: seq<Slice>)
    ensures |r| == |slices|
  {
    seq(|slices|, k requires 0 <= k < |slices| =>
      if k in anc then slices[k].(cost := slices[k].cost + cost, visits := slices[k].visits + 1) else slices[k])
  }

  /**
   * Backing up changes costs and visit counts only: visit counts never
   * decrease, each ancestor gains exactly one visit and the cost backed up,
   * and every other slice is untouched.
   */
  lemma BackupEffect(slices: seq<Slice>, anc: seq<nat>, cost: real)
    ensures var r := Backup(slices, anc, cost);
      forall k :: 0 <= k < |slices| ==>
        && r[k] == slices[k].(cost := r[k].cost, visits := r[k].visits)
        && r[k].visits >= slices[k].visits
        && (k in anc ==> r[k].visits == slices[k].visits + 1 && r[k].cost == slices[k].cost + cost)
        && (k !in anc ==> r[k] == slices[k])
  {
  }

  /** Backing up keeps the tree and every slice's fit to the model. */
  lemma BackupKeepsTree(m: Model, slices: seq<Slice>, root: nat, anc: seq<nat>, cost: real)
    requires TreeOk(slices, root) && forall k :: 0 <= k < |slices| ==> SliceOk(m, slices[k])
    ensures var r := Backup(slices, anc, cost);
      TreeOk(r, root) && forall k :: 0 <= k < |r| ==> SliceOk(m, r[k])
  {
    var r := Backup(slices, anc, cost);
    forall k | 0 <= k < |r| ensures SliceOk(m, r[k]) {
      assert SliceOk(m, slices[k]);
    }
    forall i | 0 <= i < |r|
      ensures root <= i ==> forall j :: 0 <= j < |r[i].children| ==> r[r[i].children[j]].parent == Some(i)
    {
      if root <= i {
        forall j | 0 <= j < |r[i].children| ensures r[r[i].children[j]].parent == Some(i) {
          assert r[r[i].children[j]].parent == slices[slices[i].children[j]].parent;
        }
      }
    }
  }

  /**
   * The slice backed up from and its siblings are not among its ancestors,
   * so back-up leaves them unchanged.
   */
  lemma SiblingsUntouched(slices: seq<Slice>, root: nat, b: nat, s: nat)
    requires TreeOk(slices, root) && b < |slices| && s < |slices|
    requires slices[s].parent == slices[b].parent
    ensures s !in Chain(slices, slices[b].parent)
  {
    var ch := Chain(slices, slices[b].parent);
    forall j | 0 <= j < |ch| ensures ch[j] < s {
      assert ch[0] == slices[s].parent.value < s;
    }
  }

  /** Slices whose parent links agree have the same ancestor chains. */
  lemma {:induction false} ChainSameLinks(a: seq<Slice>, b: seq<Slice>, p: Option<nat>)
    requires |a| <= |b| && (p.Some? ==> p.value < |a|)
    requires ParentsBefore(a) && ParentsBefore(b)
    requires forall k :: 0 <= k < |a| ==> b[k].parent == a[k].parent
    ensures Chain(a, p) == Chain(b, p)
    decreases if p.Some? then p.value + 1 else 0
  {
    if p.Some? {
      ChainSameLinks(a, b, a[p.value].parent);
    }
  }

  /** Writing the cost of one more listed slice. */
  lemma EvaluatedStep(m: Model, slices: seq<Slice>, nodes: seq<nat>, j: nat, log: real -> real)
    requires ModelOk(m) && forall k :: 0 <= k < |slices| ==> SliceOk(m, slices[k])
    requires j < |nodes| && nodes[j] < |slices|
    ensures var k := nodes[j];
      Evaluated(m, slices, nodes[..j + 1], log)
      == Evaluated(m, slices, nodes[..j], log)[k := slices[k].(cost := SliceEfe(m, slices[k], log))]
  {
    assert forall i :: i in nodes[..j + 1] <==> i in nodes[..j] || i == nodes[j];
  }

  /** Evaluation keeps the tree and every slice's fit to the model. */
  lemma EvaluatedKeepsTree(m: Model, slices: seq<Slice>, root: nat, nodes: seq<nat>, log: real -> real)
    requires ModelOk(m) && TreeOk(slices, root) && forall k :: 0 <= k < |slices| ==> SliceOk(m, slices[k])
    ensures var r := Evaluated(m, slices, nodes, log);
      TreeOk(r, root) && forall k :: 0 <= k < |r| ==> SliceOk(m, r[k])
  {
    var r := Evaluated(m, slices, nodes, log);
    forall k | 0 <= k < |r| ensures SliceOk(m, r[k]) {
      assert SliceOk(m, slices[k]);
    }
    forall i | 0 <= i < |r|
      ensures root <= i ==> forall j :: 0 <= j < |r[i].children| ==> r[r[i].children[j]].parent == Some(i)
    {
      if root <= i {
        forall j | 0 <= j < |r[i].children| ensures r[r[i].children[j]].parent == Some(i) {
          assert r[r[i].children[j]].parent == slices[slices[i].children[j]].parent;
        }
      }
    }
  }

  /** Backing up one more ancestor. */
  lemma BackupStep(slices: seq<Slice>, done: seq<nat>, c: nat, cost: real)
    requires c < |slices| && c !in done
    ensures Backup(slices, done + [c], cost)
      == Backup(slices, done, cost)[c := slices[c].(cost := slices[c].cost + cost, visits := slices[c].visits + 1)]
  {
    assert forall i :: i in done + [c] <==> i in done || i == c;
  }

  /** Entry `i` of `anc` is a stored slice whose parent is the next entry, or none for the last entry. */
  predicate Linked(slices: seq<Slice>, anc: seq<nat>, i: nat)
    requires i < |anc|
  {
    anc[i] < |slices| && slices[anc[i]].parent == if i + 1 < |anc| then Some(anc[i + 1]) else None
  }

  /** Each slice of the chain of ancestors links to the next one, and the last one has no parent. */
  lemma {:induction false} ChainLink(slices: seq<Slice>, p: Option<nat>, i: nat)
    requires ParentsBefore(slices) && (p.Some? ==> p.value < |slices|) && i < |Chain(slices, p)|
    ensures Linked(slices, Chain(slices, p), i)
    decreases i
  {
    var rest := Chain(slices, slices[p.value].parent);
    assert Chain(slices, p) == [p.value] + rest;
    if i > 0 {
      ChainLink(slices, slices[p.value].parent, i - 1);
    }
  }

  /** Appending one more child of `node` extends the list of children recorded in the first `n` slices. */
  lemma PrefixAfterAppend(orig: seq<Slice>, before: seq<Slice>, after: seq<Slice>, node: nat, p: Slice, nodes: seq<nat>, c: nat, n: nat)
    requires node < n <= |before| && |orig| == n && c == |before| && c <= |after|
    requires before[..n] == orig[node := p.(children := p.children + nodes)]
    requires after[..c] == before[node := before[node].(children := before[node].children + [c])]
    ensures after[..n] == orig[node := p.(children := p.children + (nodes + [c]))]
  {
    assert before[node] == before[..n][node];
    assert p.children + nodes + [c] == p.children + (nodes + [c]);
    forall k | 0 <= k < n ensures after[k] == orig[node := p.(children := p.children + (nodes + [c]))][k] {
      assert after[k] == after[..c][k];
      if k != node {
        assert before[k] == before[..n][k];
      }
    }
  }

  /** The children appended so far stay in place when one more is appended. */
  lemma NewChildrenKept(m: Model, p: Slice, node: nat, before: seq<Slice>, after: seq<Slice>, n: nat, a: nat)
    requires ModelOk(m) && SliceOk(m, p) && node < n && |before| == n + a && |after| == n + a + 1
    requires forall k :: 0 <= k < a ==> before[n + k] == Child(m, p, node, k)
    requires after[..n + a] == before[node := before[node].(children := before[node].children + [n + a])]
    requires after[n + a] == Child(m, p, node, a)
    ensures forall k :: 0 <= k < a + 1 ==> after[n + k] == Child(m, p, node, k)
  {
    var pre := after[..n + a];
    forall idx | n <= idx < n + a
      ensures after[idx] == before[idx]
    {
      assert after[idx] == pre[idx];
    }
  }

  /** Expanding a leaf into one child per action keeps every slice a leaf or fully expanded. */
  lemma ExpandedBranching(m: Model, orig: seq<Slice>, t: seq<Slice>, node: nat, nodes: seq<nat>)
    requires ModelOk(m) && node < |orig| && SliceOk(m, orig[node])
    requires Branching(orig, m.nActions) && InActionOrder(orig) && orig[node].children == []
    requires |nodes| == m.nActions && |t| == |orig| + |nodes|
    requires forall a :: 0 <= a < |nodes| ==> nodes[a] == |orig| + a
    requires t[..|orig|] == orig[node := orig[node].(children := orig[node].children + nodes)]
    requires forall a :: 0 <= a < |nodes| ==> t[|orig| + a] == Child(m, orig[node], node, a)
    ensures Branching(t, m.nActions) && InActionOrder(t)
  {
    var n := |orig|;
    forall i | 0 <= i < |t|
      ensures |t[i].children| == 0 || |t[i].children| == m.nActions
      ensures forall j :: 0 <= j < |t[i].children| ==> t[i].children[j] < |t| && t[t[i].children[j]].action == j
    {
      if i >= n {
        ChildIsFreshLeaf(m, orig[node], node, i - n);
      } else {
        assert t[i] == t[..n][i];
        forall j | 0 <= j < |t[i].children| ensures t[i].children[j] < |t| && t[t[i].children[j]].action == j {
          if i == node {
            ChildIsFreshLeaf(m, orig[node], node, j);
          } else {
            var c := orig[i].children[j];
            assert t[c] == t[..n][c];
          }
        }
      }
    }
  }

  /** The children of every slice are listed in action order: the `j`-th child was reached by action `j`. */
  ghost predicate InActionOrder(slices: seq<Slice>)
  {
    forall i, j :: 0 <= i < |slices| && 0 <= j < |slices[i].children| ==>
      slices[i].children[j] < |slices| && slices[slices[i].children[j]].action == j
  }

  /** `b` has the same slices as `a` up to costs, visit counts and beliefs. */
  ghost predicate SameShape(a: seq<Slice>, b: seq<Slice>)
  {
    && |a| == |b|
    && forall k :: 0 <= k < |a| ==>
         b[k].children == a[k].children && b[k].action == a[k].action && b[k].parent == a[k].parent
  }

  /** The shape of the tree decides branching and action order. */
  lemma SameShapeKeepsOrder(a: seq<Slice>, b: seq<Slice>, nActions: nat)
    requires SameShape(a, b)
    ensures Branching(a, nActions) ==> Branching(b, nActions)
    ensures InActionOrder(a) ==> InActionOrder(b)
  {
    if InActionOrder(a) {
      forall i, j | 0 <= i < |b| && 0 <= j < |b[i].children|
        ensures b[i].children[j] < |b| && b[b[i].children[j]].action == j
      {
        assert b[i].children[j] == a[i].children[j];
      }
    }
  }

  /** Evaluation changes costs only. */
  lemma EvaluatedKeepsShape(m: Model, slices: seq<Slice>, nodes: seq<nat>, log: real -> real)
    requires ModelOk(m) && forall k :: 0 <= k < |slices| ==> SliceOk(m, slices[k])
    ensures SameShape(slices, Evaluated(m, slices, nodes, log))
    ensures forall k :: 0 <= k < |slices| ==> Evaluated(m, slices, nodes, log)[k].visits == slices[k].visits
  {
  }

  /** Backing up changes only costs and visits. */
  lemma BackupKeepsShape(slices: seq<Slice>, anc: seq<nat>, cost: real)
    ensures SameShape(slices, Backup(slices, anc, cost))
  {
  }


  /** The planner (`MCTS`) with its exploration constant. */
  class Mcts {
    const expConst: real

    constructor (expConst: real)
      ensures this.expConst == expConst
    {
      this.expConst := expConst;
    }

    /**
     * `select_node`: from slice `start`, repeatedly moves to the first child
     * with the largest UCT criterion until it reaches a leaf.
     */
    method SelectNode(tree: SearchTree, start: nat, log: real -> real, sqrt: real -> real) returns (leaf: nat)
      requires tree.Valid() && tree.root <= start < |tree.slices|
      ensures leaf == Descend(tree.slices, tree.root, start, expConst, log, sqrt)
      ensures start <= leaf < |tree.slices| && |tree.slices[leaf].children| == 0
    {
      leaf := start;
      while |tree.slices[leaf].children| != 0
        invariant tree.root <= leaf < |tree.slices|
        invariant Descend(tree.slices, tree.root, leaf, expConst, log, sqrt) == Descend(tree.slices, tree.root, start, expConst, log, sqrt)
        decreases |tree.slices| - leaf
      {
        var scores := ChildScores(tree.slices, leaf, expConst, log, sqrt);
        leaf := tree.slices[leaf].children[FirstMax(scores)];
      }
    }

    /**
     * `expansion`: one `p_step` per action, in order; the new slices are
     * appended to the tree and listed, in that order, as `node`'s children.
     */
    static method Expansion(tree: SearchTree, node: nat) returns (nodes: seq<nat>)
      requires tree.Valid() && node < |tree.slices|
      modifies tree
      ensures tree.Valid() && tree.root == old(tree.root)
      ensures var n := |old(tree.slices)|;
        && |nodes| == tree.model.nActions && |tree.slices| == n + |nodes|
        && (forall a :: 0 <= a < |nodes| ==> nodes[a] == n + a)
        && tree.slices[..n] == old(tree.slices)[node := old(tree.slices[node]).(children := old(tree.slices[node]).children + nodes)]
        && forall a :: 0 <= a < |nodes| ==> tree.slices[n + a] == Child(tree.model, old(tree.slices[node]), node, a)
      ensures Branching(old(tree.slices), tree.model.nActions) && InActionOrder(old(tree.slices)) && old(tree.slices[node]).children == []
        ==> Branching(tree.slices, tree.model.nActions) && InActionOrder(tree.slices)
    {
      var n := |tree.slices|;
      var p := tree.slices[node];
      nodes := [];
      var a := 0;
      assert p.(children := p.children + nodes) == p;
      assert tree.slices[..n] == old(tree.slices)[node := p];
      assert SliceOk(tree.model, p);
      while a < tree.model.nActions
        invariant 0 <= a <= tree.model.nActions && SliceOk(tree.model, p)
        invariant tree.Valid() && tree.root == old(tree.root)
        invariant |nodes| == a && |tree.slices| == n + a
        invariant forall k :: 0 <= k < a ==> nodes[k] == n + k
        invariant tree.slices[..n] == old(tree.slices)[node := p.(children := p.children + nodes)]
        invariant forall k :: 0 <= k < a ==> tree.slices[n + k] == Child(tree.model, p, node, k)
      {
        ghost var before := tree.slices;
        var c := tree.PStep(node, a);
        PrefixAfterAppend(old(tree.slices), before, tree.slices, node, p, nodes, c, n);
        assert before[node] == before[..n][node] == p.(children := p.children + nodes);
        ChildIgnoresChildren(tree.model, p, p.children + nodes, node, a);
        NewChildrenKept(tree.model, p, node, before, tree.slices, n, a);
        ghost var prev := nodes;
        nodes := nodes + [c];
        forall k | 0 <= k < a + 1 ensures nodes[k] == n + k {
          if k < a {
            assert nodes[k] == prev[k];
          }
        }
        a := a + 1;
      }
      if Branching(old(tree.slices), tree.model.nActions) && InActionOrder(old(tree.slices)) && p.children == [] {
        ExpandedBranching(tree.model, old(tree.slices), tree.slices, node, nodes);
      }
    }

    /** `evaluation`: each listed slice's cost becomes its expected free energy; nothing else changes. */
    static method Evaluation(tree: SearchTree, nodes: seq<nat>, log: real -> real)
      requires tree.Valid() && forall j :: 0 <= j < |nodes| ==> nodes[j] < |tree.slices|
      modifies tree
      ensures tree.Valid() && tree.root == old(tree.root)
      ensures tree.slices == Evaluated(tree.model, old(tree.slices), nodes, log)
    {
      var original := tree.slices;
      var j := 0;
      assert nodes[..0] == [];
      assert Evaluated(tree.model, original, [], log) == original;
      while j < |nodes|
        invariant 0 <= j <= |nodes| && tree.root == old(tree.root)
        invariant tree.slices == Evaluated(tree.model, original, nodes[..j], log)
      {
        var k := nodes[j];
        assert SliceOk(tree.model, original[k]);
        var e := SliceEfe(tree.model, original[k], log);
        EvaluatedStep(tree.model, original, nodes, j, log);
        tree.slices := tree.slices[k := original[k].(cost := e)];
        j := j + 1;
      }
      assert nodes[..j] == nodes;
      EvaluatedKeepsTree(tree.model, original, tree.root, nodes, log);
    }

    /**
     * `propagation`: the first listed slice of least expected free energy
     * passes its cost up: every ancestor, from its parent to the top of the
     * tree, adds that cost and one visit. With no slices listed, `min`
     * raises and nothing changes (`ok` is false).
     */
    static method Propagation(tree: SearchTree, nodes: seq<nat>, log: real -> real) returns (ok: bool)
      requires tree.Valid() && forall j :: 0 <= j < |nodes| ==> nodes[j] < |tree.slices|
      modifies tree
      ensures tree.Valid() && tree.root == old(tree.root)
      ensures ok <==> |nodes| > 0
      ensures !ok ==> tree.slices == old(tree.slices)
      ensures ok ==> var best := nodes[Cheapest(tree.model, old(tree.slices), nodes, log)];
        tree.slices == Backup(old(tree.slices), Chain(old(tree.slices), old(tree.slices[best]).parent), old(tree.slices[best]).cost)
    {
      if |nodes| == 0 {
        return false;
      }
      ok := true;
      var best := nodes[Cheapest(tree.model, tree.slices, nodes, log)];
      ghost var anc := Chain(tree.slices, tree.slices[best].parent);
      BackupKeepsTree(tree.model, tree.slices, tree.root, anc, tree.slices[best].cost);
      BackUpFrom(tree, tree.slices[best].parent, tree.slices[best].cost);
    }

    /** The walk of `propagation` up the parent links from `start`, adding `cost` and one visit to each slice met. */
    static method BackUpFrom(tree: SearchTree, start: Option<nat>, cost: real)
      requires ParentsBefore(tree.slices) && (start.Some? ==> start.value < |tree.slices|)
      modifies tree
      ensures tree.root == old(tree.root)
      ensures tree.slices == Backup(old(tree.slices), Chain(old(tree.slices), start), cost)
    {
      ghost var anc := Chain(tree.slices, start);
      forall i | 0 <= i < |anc| ensures Linked(tree.slices, anc, i) {
        ChainLink(tree.slices, start, i);
      }
      BackUpAlong(tree, start, anc, cost);
    }

    /** The same walk, along a chain `anc` of distinct slices linked by their parents. */
    static method BackUpAlong(tree: SearchTree, start: Option<nat>, ghost anc: seq<nat>, cost: real)
      requires start == if |anc| > 0 then Some(anc[0]) else None
      requires Distinct(anc) && forall i :: 0 <= i < |anc| ==> Linked(tree.slices, anc, i)
      modifies tree
      ensures tree.root == old(tree.root)
      ensures tree.slices == Backup(old(tree.slices), anc, cost)
    {
      var original := tree.slices;
      var current: Option<nat> := start;
      var i := 0;
      assert Backup(original, anc[..0], cost) == original;
      while current.Some?
        invariant tree.root == old(tree.root) && 0 <= i <= |anc|
        invariant current == if i < |anc| then Some(anc[i]) else None
        invariant tree.slices == Backup(original, anc[..i], cost)
        decreases |anc| - i
      {
        var c := current.value;
        assert Linked(original, anc, i);
        assert c !in anc[..i] by {
          forall j | 0 <= j < i ensures anc[..i][j] != c {
            assert anc[j] != anc[i];
          }
        }
        BackupStep(original, anc[..i], c, cost);
        assert anc[..i + 1] == anc[..i] + [c];
        var s := original[c];
        tree.slices := tree.slices[c := s.(cost := s.cost + cost, visits := s.visits + 1)];
        current := s.parent;
        i := i + 1;
      }
      assert anc[..i] == anc;
    }
  }
}
