/**
 * The factor graph shared by every temporal slice of a planning episode.
 *
 * Nodes live in an arena keyed by name. Each node keeps its neighbour list
 * and one incoming-message slot per neighbour (`in_messages`), which is
 * empty (`None`) until that neighbour's message has been delivered. A
 * factor node also holds its conditional probability table, whose axes
 * follow the neighbour order. Slots are iterated in neighbour order.
 */
module FactorGraphs {
  import opened Wrappers
  import opened Tensors

  type Name = string

  datatype Kind = Factor | StateVariable | ObservedVariable

  datatype Node = Node(kind: Kind, neighbours: seq<Name>, inMessages: map<Name, Option<Vec>>, params: Option<Tensor>)

  /** Why a message or an inference pass stopped. */
  datatype Error =
    | ParamsMissing           // a factor without parameters (a plain exception)
    | AbsentMessage           // an empty slot used where a tensor is needed (a type error)
    | NoIncomingMessage       // a variable node with nothing to multiply (attribute error on None)
    | EmptyMessage            // the maximum of an empty tensor (a runtime error)
    | AxisOutOfRange          // a default message for an axis the factor does not have
    | MissingMarginalMessage  // the marginal computation met an empty slot (a runtime error)
    | NotConverged            // loopy propagation ran out of sweeps
  {
    /** The errors the I-step's fallback catches. */
    predicate IsRuntimeError() { this == EmptyMessage || this == MissingMarginalMessage }
  }

  predicate Distinct<T(==)>(s: seq<T>)
  {
    forall i, j :: 0 <= i < j < |s| ==> s[i] != s[j]
  }

  /** `list.index`: the first position of `x`, or `|s|` when it is absent. */
  function IndexOf<T(==)>(s: seq<T>, x: T): (i: nat)
    ensures i <= |s|
    ensures i < |s| ==> s[i] == x
    ensures forall k :: 0 <= k < i ==> s[k] != x
  {
    if |s| == 0 then 0
    else if s[0] == x then 0
    else 1 + IndexOf(s[1..], x)
  }

  lemma IndexOfDistinct<T>(s: seq<T>, j: nat)
    requires Distinct(s) && j < |s|
    ensures IndexOf(s, s[j]) == j
  {
  }

  /** Every neighbour has a slot. */
  predicate NodeOk(node: Node)
  {
    forall k :: k in node.neighbours ==> k in node.inMessages
  }

  /** The slots in neighbour order, skipping the one from `dest`. */
  function OtherSlots(node: Node, dest: Name): seq<Option<Vec>>
    requires NodeOk(node)
  {
    SlotsOf(node.neighbours, node.inMessages, dest)
  }

  function SlotsOf(nbs: seq<Name>, slots: map<Name, Option<Vec>>, dest: Name): seq<Option<Vec>>
    requires forall k :: k in nbs ==> k in slots
  {
    if |nbs| == 0 then []
    else if nbs[0] == dest then SlotsOf(nbs[1..], slots, dest)
    else [slots[nbs[0]]] + SlotsOf(nbs[1..], slots, dest)
  }

  /** Every slot of `node`, in neighbour order. */
  function AllSlots(node: Node): (r: seq<Option<Vec>>)
    requires NodeOk(node)
    ensures |r| == |node.neighbours|
  {
    seq(|node.neighbours|, j requires 0 <= j < |node.neighbours| => node.inMessages[node.neighbours[j]])
  }

  /** `count_none_messages`: the number of slots still empty. */
  function CountNone(node: Node): nat
    requires NodeOk(node)
  {
    NoneIn(node.neighbours, node.inMessages)
  }

  function NoneIn(nbs: seq<Name>, slots: map<Name, Option<Vec>>): nat
    requires forall k :: k in nbs ==> k in slots
  {
    if |nbs| == 0 then 0 else (if slots[nbs[0]].None? then 1 else 0) + NoneIn(nbs[1..], slots)
  }

  /** Filling one empty slot of a neighbour listed once lowers the count by one. */
  lemma {:induction false} NoneInFill(nbs: seq<Name>, slots: map<Name, Option<Vec>>, from: Name, msg: Vec)
    requires Distinct(nbs) && from in nbs && (forall k :: k in nbs ==> k in slots) && slots[from].None?
    ensures NoneIn(nbs, slots[from := Some(msg)]) + 1 == NoneIn(nbs, slots)
  {
    var filled := slots[from := Some(msg)];
    if nbs[0] == from {
      assert from !in nbs[1..];
      NoneInSame(nbs[1..], slots, filled);
    } else {
      NoneInFill(nbs[1..], slots, from, msg);
    }
  }

  lemma {:induction false} NoneInSame(nbs: seq<Name>, a: map<Name, Option<Vec>>, b: map<Name, Option<Vec>>)
    requires forall k :: k in nbs ==> k in a && k in b && a[k] == b[k]
    ensures NoneIn(nbs, a) == NoneIn(nbs, b)
  {
    if |nbs| > 0 {
      NoneInSame(nbs[1..], a, b);
    }
  }

  /** Well-formed arena: distinct neighbours, one slot per neighbour, symmetric edges. */
  ghost predicate WellFormed(nodes: map<Name, Node>)
  {
    forall n :: n in nodes ==>
      && Distinct(nodes[n].neighbours)
      && (forall k :: k in nodes[n].inMessages <==> k in nodes[n].neighbours)
      && (forall m :: m in nodes[n].neighbours ==> m in nodes && n in nodes[m].neighbours)
  }

  /** The same graph with possibly different slot contents. */
  ghost predicate SameStructure(a: map<Name, Node>, b: map<Name, Node>)
  {
    && a.Keys == b.Keys
    && forall n :: n in a ==>
      && b[n].kind == a[n].kind && b[n].neighbours == a[n].neighbours
      && b[n].params == a[n].params && b[n].inMessages.Keys == a[n].inMessages.Keys
  }

  /** `b` only fills slots that are empty in `a`: no delivered message is ever overwritten. */
  ghost predicate Extends(a: map<Name, Node>, b: map<Name, Node>)
  {
    && SameStructure(a, b)
    && forall n, k :: n in a && k in a[n].inMessages && a[n].inMessages[k].Some? ==>
         b[n].inMessages[k] == a[n].inMessages[k]
  }

  /** `b` has the same slots as `a` and every slot full in `a` is full in `b` (its message may differ). */
  ghost predicate Keeps(a: map<Name, Node>, b: map<Name, Node>)
  {
    && SameStructure(a, b)
    && forall n, k :: n in a && k in a[n].inMessages && a[n].inMessages[k].Some? ==> b[n].inMessages[k].Some?
  }

  lemma SameStructureWellFormed(a: map<Name, Node>, b: map<Name, Node>)
    requires WellFormed(a) && SameStructure(a, b)
    ensures WellFormed(b)
  {
  }

  /** The arena with `msg` in the slot of node `to` that belongs to `from`. */
  function WithMessage(nodes: map<Name, Node>, to: Name, from: Name, msg: Vec): map<Name, Node>
    requires to in nodes
  {
    nodes[to := nodes[to].(inMessages := nodes[to].inMessages[from := Some(msg)])]
  }

  lemma WithMessageKeeps(nodes: map<Name, Node>, to: Name, from: Name, msg: Vec)
    requires WellFormed(nodes) && to in nodes && from in nodes[to].inMessages
    ensures var after := WithMessage(nodes, to, from, msg);
      WellFormed(after) && Keeps(nodes, after) && after.Keys == nodes.Keys
  {
    var x := nodes[to].(inMessages := nodes[to].inMessages[from := Some(msg)]);
    assert x.inMessages.Keys == nodes[to].inMessages.Keys;
    ReplaceNodeKeeps(nodes, to, x);
  }

  /** Replacing one node by one with the same structure whose full slots stay full. */
  lemma ReplaceNodeKeeps(nodes: map<Name, Node>, to: Name, x: Node)
    requires to in nodes && x.kind == nodes[to].kind && x.neighbours == nodes[to].neighbours
    requires x.params == nodes[to].params && x.inMessages.Keys == nodes[to].inMessages.Keys
    requires forall k :: k in nodes[to].inMessages && nodes[to].inMessages[k].Some? ==> x.inMessages[k].Some?
    ensures Keeps(nodes, nodes[to := x])
    ensures WellFormed(nodes) ==> WellFormed(nodes[to := x])
  {
    var after := nodes[to := x];
    forall n | n in nodes
      ensures after[n].kind == nodes[n].kind && after[n].neighbours == nodes[n].neighbours
      ensures after[n].params == nodes[n].params && after[n].inMessages.Keys == nodes[n].inMessages.Keys
    {
      if n != to {
        assert after[n] == nodes[n];
      }
    }
    if WellFormed(nodes) {
      SameStructureWellFormed(nodes, after);
    }
  }

  /** The number of empty slots of the nodes named in `names`. */
  function EmptySlots(names: seq<Name>, nodes: map<Name, Node>): nat
    requires forall n :: n in names ==> n in nodes && NodeOk(nodes[n])
  {
    if |names| == 0 then 0 else CountNone(nodes[names[0]]) + EmptySlots(names[1..], nodes)
  }

  lemma {:induction false} EmptySlotsSame(names: seq<Name>, a: map<Name, Node>, b: map<Name, Node>)
    requires forall n :: n in names ==> n in a && n in b && a[n] == b[n] && NodeOk(a[n])
    ensures EmptySlots(names, a) == EmptySlots(names, b)
  {
    if |names| > 0 {
      EmptySlotsSame(names[1..], a, b);
    }
  }

  /** Filling an empty slot lowers the arena's count of empty slots by one. */
  lemma EmptySlotsFill(names: seq<Name>, nodes: map<Name, Node>, to: Name, from: Name, msg: Vec)
    requires Distinct(names) && to in names && WellFormed(nodes) && forall n :: n in names ==> n in nodes
    requires from in nodes[to].neighbours && nodes[to].inMessages[from].None?
    ensures var after := WithMessage(nodes, to, from, msg);
      (forall n :: n in names ==> n in after && NodeOk(after[n]))
      && EmptySlots(names, after) + 1 == EmptySlots(names, nodes)
  {
    var after := WithMessage(nodes, to, from, msg);
    assert forall n :: n in names ==> NodeOk(nodes[n]);
    assert NodeOk(after[to]) && Distinct(nodes[to].neighbours);
    EmptySlotsFillCount(names, nodes, after, to, from, msg);
  }

  lemma {:induction false} EmptySlotsFillCount(names: seq<Name>, nodes: map<Name, Node>, after: map<Name, Node>, to: Name, from: Name, msg: Vec)
    requires Distinct(names) && to in names && to in nodes && after == WithMessage(nodes, to, from, msg)
    requires forall n :: n in names ==> n in nodes && NodeOk(nodes[n])
    requires NodeOk(after[to]) && Distinct(nodes[to].neighbours)
    requires from in nodes[to].neighbours && from in nodes[to].inMessages && nodes[to].inMessages[from].None?
    ensures forall n :: n in names ==> n in after && NodeOk(after[n])
    ensures EmptySlots(names, after) + 1 == EmptySlots(names, nodes)
  {
    if names[0] == to {
      assert to !in names[1..];
      NoneInFill(nodes[to].neighbours, nodes[to].inMessages, from, msg);
      EmptySlotsSame(names[1..], nodes, after);
    } else {
      EmptySlotsFillCount(names[1..], nodes, after, to, from, msg);
    }
  }

  function Cleared(node: Node): Node
  {
    node.(inMessages := map k | k in node.inMessages :: None)
  }

  // ---------------------------------------------------------------------
  // Factor node messages
  // ---------------------------------------------------------------------

  /** `b` keeps every delivered message of `a` and has the same slots. */
  predicate SlotsExtend(a: map<Name, Option<Vec>>, b: map<Name, Option<Vec>>)
  {
    a.Keys == b.Keys && forall k :: k in a && a[k].Some? ==> k in b && b[k] == a[k]
  }

  /** State of the factor message computation: the tensor, the slots, and the first failure. */
  datatype Elim = Elim(out: Tensor, slots: map<Name, Option<Vec>>, failure: Option<Error>)

  /**
   * Eliminates one neighbour's axis (position `j`), as one iteration of the
   * reversed neighbour loop does.
   */
  function EliminateStep(st: Elim, nbs: seq<Name>, dest: Name, useDefault: bool, j: nat): (r: Elim)
    requires j < |nbs| && nbs[j] in st.slots
    ensures SlotsExtend(st.slots, r.slots)
    ensures !useDefault ==> r.slots == st.slots
    ensures r.failure.Some? ==> r.failure == st.failure || r.failure == Some(AbsentMessage) || r.failure == Some(AxisOutOfRange)
  {
    if st.failure.Some? || nbs[j] == dest then st
    else
      var i := IndexOf(nbs, nbs[j]);
      match st.slots[nbs[j]]
      case Some(m) => st.(out := Average(st.out, m, i))
      case None =>
        if !useDefault then st.(failure := Some(AbsentMessage))
        else if i >= |Dims(st.out)| then st.(failure := Some(AxisOutOfRange))
        else
          var ones := Ones(Dims(st.out)[i]);
          Elim(Average(st.out, ones, i), st.slots[nbs[j] := Some(ones)], None)
  }

  /** The state after positions `j..|nbs|-1` have been processed, the last one first. */
  function EliminateFrom(params: Tensor, nbs: seq<Name>, slots: map<Name, Option<Vec>>, dest: Name, useDefault: bool, j: nat): (r: Elim)
    requires j <= |nbs| && forall k :: k in nbs ==> k in slots
    ensures SlotsExtend(slots, r.slots)
    ensures !useDefault ==> r.slots == slots
    ensures r.failure.Some? ==> r.failure == Some(AbsentMessage) || r.failure == Some(AxisOutOfRange)
    decreases |nbs| - j
  {
    if j == |nbs| then Elim(params, slots, None)
    else EliminateStep(EliminateFrom(params, nbs, slots, dest, useDefault, j + 1), nbs, dest, useDefault, j)
  }

  /** The sup-norm normalised message read off the remaining tensor. */
  function Finish(out: Tensor): Result<Vec, Error>
  {
    var v := Elems(out);
    if |v| == 0 then Err(EmptyMessage) else Ok(SupNormalise(v))
  }

  /** `FactorNode.compute_message`: the message and the slots afterwards. */
  function FactorOutcome(node: Node, dest: Name, useDefault: bool): (r: (Result<Vec, Error>, map<Name, Option<Vec>>))
    requires NodeOk(node)
    ensures r.0.Err? ==> r.0.error in {ParamsMissing, AbsentMessage, AxisOutOfRange, EmptyMessage}
  {
    if node.params.None? then (Err(ParamsMissing), node.inMessages)
    else
      var st := EliminateFrom(node.params.value, node.neighbours, node.inMessages, dest, useDefault, 0);
      (if st.failure.Some? then Err(st.failure.value) else Finish(st.out), st.slots)
  }

  /**
   * The loop of `compute_message` for a factor: runs over the neighbours
   * from last to first, eliminating each one's axis with its message (or,
   * with `useDefault`, with ones stored in its empty slot), and stops
   * at the first failure.
   */
  method EliminateNeighbours(params: Tensor, nbs: seq<Name>, slots0: map<Name, Option<Vec>>, dest: Name, useDefault: bool) returns (st: Elim)
    requires forall k :: k in nbs ==> k in slots0
    ensures st == EliminateFrom(params, nbs, slots0, dest, useDefault, 0)
  {
    var out := params;
    var slots := slots0;
    var failure: Option<Error> := None;
    var j := |nbs|;
    while j > 0
      invariant 0 <= j <= |nbs|
      invariant failure.None? ==> EliminateFrom(params, nbs, slots0, dest, useDefault, j) == Elim(out, slots, None)
      invariant failure.Some? ==> EliminateFrom(params, nbs, slots0, dest, useDefault, 0) == Elim(out, slots, failure)
    {
      j := j - 1;
      if failure.None? {
        StepAt(params, nbs, slots0, dest, useDefault, j, out, slots);
        var nb := nbs[j];
        if nb != dest {
          var i := IndexOf(nbs, nb);
          var message := slots[nb];
          if message.None? {
            if !useDefault {
              failure := Some(AbsentMessage);
            } else {
              var dims := Dims(out);
              if i >= |dims| {
                failure := Some(AxisOutOfRange);
              } else {
                var ones := Ones(dims[i]);
                slots := slots[nb := Some(ones)];
                out := Average(out, ones, i);
              }
            }
            if failure.Some? {
              FailureIsFinal(params, nbs, slots0, dest, useDefault, j);
            }
          } else {
            out := Average(out, message.value, i);
          }
        }
      }
    }
    st := Elim(out, slots, failure);
  }

  /** Position `j` is processed on the state left by the positions after it. */
  lemma StepAt(params: Tensor, nbs: seq<Name>, slots: map<Name, Option<Vec>>, dest: Name, useDefault: bool, j: nat, out: Tensor, now: map<Name, Option<Vec>>)
    requires j < |nbs| && forall k :: k in nbs ==> k in slots
    requires EliminateFrom(params, nbs, slots, dest, useDefault, j + 1) == Elim(out, now, None)
    ensures nbs[j] in now
    ensures EliminateFrom(params, nbs, slots, dest, useDefault, j) == EliminateStep(Elim(out, now, None), nbs, dest, useDefault, j)
  {
    assert nbs[j] in nbs;
  }

  /** Once a step fails, the remaining steps change nothing. */
  lemma {:induction false} FailureIsFinal(params: Tensor, nbs: seq<Name>, slots: map<Name, Option<Vec>>, dest: Name, useDefault: bool, j: nat)
    requires j <= |nbs| && forall k :: k in nbs ==> k in slots
    requires EliminateFrom(params, nbs, slots, dest, useDefault, j).failure.Some?
    ensures EliminateFrom(params, nbs, slots, dest, useDefault, 0) == EliminateFrom(params, nbs, slots, dest, useDefault, j)
    decreases j
  {
    if j > 0 {
      FailureIsFinal(params, nbs, slots, dest, useDefault, j - 1);
    }
  }

  // ---------------------------------------------------------------------
  // Variable node messages
  // ---------------------------------------------------------------------

  /**
   * The fold of `VariableNode.compute_message`: an empty accumulator takes
   * the next slot as it is (so leading empty slots are skipped), a full one
   * is multiplied by the next message, and an empty slot after a full
   * accumulator is a type error.
   */
  function ProductFold(ms: seq<Option<Vec>>, acc: Option<Vec>): (r: Result<Option<Vec>, Error>)
    ensures r.Err? ==> r.error == AbsentMessage
  {
    if |ms| == 0 then Ok(acc)
    else if acc.None? then ProductFold(ms[1..], ms[0])
    else if ms[0].None? then Err(AbsentMessage)
    else ProductFold(ms[1..], Some(MulVec(acc.value, ms[0].value)))
  }

  /** `VariableNode.compute_message`; `use_default_val` has no effect on it. */
  function VariableMessage(node: Node, dest: Name): (r: Result<Vec, Error>)
    requires NodeOk(node)
    ensures r.Err? ==> r.error in {AbsentMessage, NoIncomingMessage, EmptyMessage}
  {
    match ProductFold(OtherSlots(node, dest), None)
    case Err(e) => Err(e)
    case Ok(None) => Err(NoIncomingMessage)
    case Ok(Some(v)) => if |v| == 0 then Err(EmptyMessage) else Ok(SupNormalise(v))
  }

  /** Entry `i` of the left-to-right product of `vs`, starting from 1. */
  function ProdAt(vs: seq<Vec>, i: nat): real
    requires forall k :: 0 <= k < |vs| ==> i < |vs[k]|
  {
    if |vs| == 0 then 1.0
    else ProdAt(vs[..|vs| - 1], i) * vs[|vs| - 1][i]
  }

  predicate AllPresent(ms: seq<Option<Vec>>)
  {
    forall k :: 0 <= k < |ms| ==> ms[k].Some?
  }

  function Values(ms: seq<Option<Vec>>): (vs: seq<Vec>)
    requires AllPresent(ms)
    ensures |vs| == |ms|
  {
    seq(|ms|, k requires 0 <= k < |ms| => ms[k].value)
  }

  predicate SameLength(vs: seq<Vec>, n: nat)
  {
    forall k :: 0 <= k < |vs| ==> |vs[k]| == n
  }

  lemma {:induction false} ProductFoldPresent(ms: seq<Option<Vec>>, done: seq<Vec>, acc: Vec, n: nat)
    requires AllPresent(ms) && |done| >= 1 && SameLength(done, n) && SameLength(Values(ms), n)
    requires |acc| == n && forall i :: 0 <= i < n ==> acc[i] == ProdAt(done, i)
    ensures ProductFold(ms, Some(acc)).Ok? && ProductFold(ms, Some(acc)).value.Some?
    ensures var p := ProductFold(ms, Some(acc)).value.value;
      |p| == n && forall i :: 0 <= i < n ==> p[i] == ProdAt(done + Values(ms), i)
    decreases |ms|
  {
    if |ms| == 0 {
      assert done + Values(ms) == done;
    } else {
      var m := ms[0].value;
      assert Values(ms)[0] == m;
      assert |m| == n;
      var acc' := MulVec(acc, m);
      var done' := done + [m];
      assert done'[..|done'| - 1] == done;
      assert SameLength(done', n);
      forall i | 0 <= i < n ensures acc'[i] == ProdAt(done', i) {
        var x, y := acc[i], m[i];
        assert acc'[i] == x * y;
        assert ProdAt(done', i) == ProdAt(done, i) * y;
      }
      assert Values(ms[1..]) == Values(ms)[1..];
      assert done' + Values(ms[1..]) == done + Values(ms);
      ProductFoldPresent(ms[1..], done', acc', n);
    }
  }

  /**
   * When every other slot holds a message of the same length `n >= 1`, the
   * variable message is the sup-norm normalised entrywise product of all of
   * them, in neighbour order.
   */
  lemma VariableMessageProduct(node: Node, dest: Name, n: nat)
    requires NodeOk(node) && n >= 1
    requires var ms := OtherSlots(node, dest); |ms| >= 1 && AllPresent(ms) && SameLength(Values(ms), n)
    ensures var ms := OtherSlots(node, dest);
      exists p: Vec ::
        && |p| == n
        && (forall i :: 0 <= i < n ==> p[i] == ProdAt(Values(ms), i))
        && VariableMessage(node, dest) == Ok(SupNormalise(p))
  {
    var ms := OtherSlots(node, dest);
    var first := ms[0].value;
    assert Values(ms)[0] == first;
    forall i | 0 <= i < n ensures first[i] == ProdAt([first], i) {
    }
    assert ProductFold(ms, None) == ProductFold(ms[1..], Some(first));
    assert Values(ms[1..]) == Values(ms)[1..];
    assert [first] + Values(ms[1..]) == Values(ms);
    ProductFoldPresent(ms[1..], [first], first, n);
  }

  /** With no other message to multiply the variable message fails. */
  lemma {:induction false} ProductFoldNothing(ms: seq<Option<Vec>>)
    requires forall k :: 0 <= k < |ms| ==> ms[k].None?
    ensures ProductFold(ms, None) == Ok(None)
  {
    if |ms| > 0 {
      ProductFoldNothing(ms[1..]);
    }
  }

  lemma VariableMessageNoInput(node: Node, dest: Name)
    requires NodeOk(node)
    requires forall k :: 0 <= k < |OtherSlots(node, dest)| ==> OtherSlots(node, dest)[k].None?
    ensures VariableMessage(node, dest) == Err(NoIncomingMessage)
  {
    ProductFoldNothing(OtherSlots(node, dest));
  }

  /** A message after which a slot is empty makes the fold fail. */
  lemma {:induction false} ProductFoldGap(ms: seq<Option<Vec>>, acc: Option<Vec>, a: nat, b: nat)
    requires a < b < |ms| && ms[a].Some? && ms[b].None?
    ensures ProductFold(ms, acc).Err?
    decreases |ms|
  {
    if a == 0 {
      var acc' := if acc.None? then ms[0] else Some(MulVec(acc.value, ms[0].value));
      assert ProductFold(ms, acc) == ProductFold(ms[1..], acc');
      GapAfterFull(ms[1..], acc', b - 1);
    } else if acc.None? {
      ProductFoldGap(ms[1..], ms[0], a - 1, b - 1);
    } else if ms[0].Some? {
      ProductFoldGap(ms[1..], Some(MulVec(acc.value, ms[0].value)), a - 1, b - 1);
    }
  }

  lemma {:induction false} GapAfterFull(ms: seq<Option<Vec>>, acc: Option<Vec>, b: nat)
    requires acc.Some? && b < |ms| && ms[b].None?
    ensures ProductFold(ms, acc).Err?
    decreases |ms|
  {
    if ms[0].Some? {
      GapAfterFull(ms[1..], Some(MulVec(acc.value, ms[0].value)), b - 1);
    }
  }

  /**
   * The variable message fails with a type error when an empty slot follows
   * a delivered one; empty slots before the first delivered one are skipped.
   */
  lemma VariableMessageGap(node: Node, dest: Name, a: nat, b: nat)
    requires NodeOk(node)
    requires var ms := OtherSlots(node, dest); a < b < |ms| && ms[a].Some? && ms[b].None?
    ensures VariableMessage(node, dest).Err?
  {
    ProductFoldGap(OtherSlots(node, dest), None, a, b);
  }

  // ---------------------------------------------------------------------
  // Arena queries
  // ---------------------------------------------------------------------

  function KindFilter(names: seq<Name>, nodes: map<Name, Node>, factors: bool): (r: seq<Name>)
    ensures forall n :: n in r ==> n in names && n in nodes && (nodes[n].kind == Factor <==> factors)
    ensures forall n :: n in names && n in nodes && (nodes[n].kind == Factor <==> factors) ==> n in r
  {
    if |names| == 0 then []
    else
      var rest := KindFilter(names[1..], nodes, factors);
      if names[0] in nodes && (nodes[names[0]].kind == Factor <==> factors) then [names[0]] + rest else rest
  }

  function StateFilter(names: seq<Name>, nodes: map<Name, Node>): (r: seq<Name>)
    ensures forall n :: n in r ==> n in names && n in nodes && nodes[n].kind == StateVariable
    ensures forall n :: n in names && n in nodes && nodes[n].kind == StateVariable ==> n in r
    ensures Distinct(names) ==> Distinct(r)
  {
    if |names| == 0 then []
    else
      var rest := StateFilter(names[1..], nodes);
      if names[0] in nodes && nodes[names[0]].kind == StateVariable then [names[0]] + rest else rest
  }

  /** Nodes with at most one neighbour, in arena order. */
  function LeafFilter(names: seq<Name>, nodes: map<Name, Node>): (r: seq<Name>)
    ensures forall n :: n in r ==> n in names && n in nodes && |nodes[n].neighbours| <= 1
    ensures forall n :: n in names && n in nodes && |nodes[n].neighbours| <= 1 ==> n in r
  {
    if |names| == 0 then []
    else
      var rest := LeafFilter(names[1..], nodes);
      if names[0] in nodes && |nodes[names[0]].neighbours| <= 1 then [names[0]] + rest else rest
  }

  class FactorGraph {
    var names: seq<Name>
    var nodes: map<Name, Node>

    ghost predicate Valid()
      reads this
    {
      && Distinct(names)
      && (forall n :: n in nodes <==> n in names)
      && WellFormed(nodes)
    }

    constructor (names: seq<Name>, nodes: map<Name, Node>)
      requires Distinct(names) && (forall n :: n in nodes <==> n in names) && WellFormed(nodes)
      ensures Valid() && this.names == names && this.nodes == nodes
    {
      this.names := names;
      this.nodes := nodes;
    }

    function FactorNodes(): seq<Name>
      reads this
    {
      KindFilter(names, nodes, true)
    }

    function VariableNodes(): seq<Name>
      reads this
    {
      KindFilter(names, nodes, false)
    }

    function StateNodes(): seq<Name>
      reads this
    {
      StateFilter(names, nodes)
    }

    function LeafNodes(): seq<Name>
      reads this
    {
      LeafFilter(names, nodes)
    }

    /** `reset_messages`: every slot becomes empty. */
    method ResetMessages()
      requires Valid()
      modifies this
      ensures Valid() && names == old(names)
      ensures nodes == map n | n in old(nodes) :: Cleared(old(nodes)[n])
      ensures SameStructure(old(nodes), nodes)
    {
      nodes := map n | n in nodes :: Cleared(nodes[n]);
    }

    /**
     * `FactorNode.compute_message`: eliminates every other neighbour's axis,
     * last neighbour first, weighted by that neighbour's message (an empty
     * slot is filled with, and stored as, all ones when `useDefault`), then
     * normalises by the maximum.
     */
    method FactorMessage(name: Name, dest: Name, useDefault: bool) returns (r: Result<Vec, Error>)
      requires Valid() && name in nodes && nodes[name].kind == Factor
      modifies this
      ensures Valid() && names == old(names)
      ensures r == FactorOutcome(old(nodes[name]), dest, useDefault).0
      ensures nodes == old(nodes)[name := old(nodes[name]).(inMessages := FactorOutcome(old(nodes[name]), dest, useDefault).1)]
      ensures Extends(old(nodes), nodes)
      ensures !useDefault ==> nodes == old(nodes)
    {
      var node := nodes[name];
      Settled(nodes, name, dest, useDefault);
      if node.params.None? {
        assert nodes == old(nodes)[name := node.(inMessages := node.inMessages)];
        return Err(ParamsMissing);
      }
      var st := EliminateNeighbours(node.params.value, node.neighbours, node.inMessages, dest, useDefault);
      nodes := nodes[name := node.(inMessages := st.slots)];
      r := if st.failure.Some? then Err(st.failure.value) else Finish(st.out);
    }

    /** `compute_message` dispatched on the node's kind. */
    method ComputeMessage(name: Name, dest: Name, useDefault: bool) returns (r: Result<Vec, Error>)
      requires Valid() && name in nodes
      modifies this
      ensures Valid() && names == old(names)
      ensures Extends(old(nodes), nodes)
      ensures !useDefault ==> nodes == old(nodes)
      ensures old(nodes[name]).kind == Factor ==> r == FactorOutcome(old(nodes[name]), dest, useDefault).0
      ensures old(nodes[name]).kind != Factor ==> r == VariableMessage(old(nodes[name]), dest) && nodes == old(nodes)
      ensures r.Ok? ==> |r.value| > 0
    {
      var node := nodes[name];
      assert NodeOk(node);
      if node.kind == Factor {
        r := FactorMessage(name, dest, useDefault);
        if r.Ok? {
          FactorOkNonEmpty(node, dest, useDefault);
        }
      } else {
        r := VariableMessage(node, dest);
      }
    }

    /** `fg[to].in_messages[from] = msg`. */
    method Deliver(to: Name, from: Name, msg: Vec)
      requires Valid() && to in nodes && from in nodes[to].inMessages
      modifies this
      ensures Valid() && names == old(names)
      ensures nodes == WithMessage(old(nodes), to, from, msg)
      ensures Keeps(old(nodes), nodes)
    {
      WithMessageKeeps(nodes, to, from, msg);
      nodes := WithMessage(nodes, to, from, msg);
    }

    /** `fg[name].params = params`. */
    method SetParams(name: Name, params: Tensor)
      requires Valid() && name in nodes
      modifies this
      ensures Valid() && names == old(names)
      ensures nodes == old(nodes)[name := old(nodes[name]).(params := Some(params))]
    {
      nodes := nodes[name := nodes[name].(params := Some(params))];
    }
  }

  /** Writing the factor's slots back keeps the arena well formed and extends it. */
  lemma Settled(nodes: map<Name, Node>, name: Name, dest: Name, useDefault: bool)
    requires WellFormed(nodes) && name in nodes
    ensures var after := nodes[name := nodes[name].(inMessages := FactorOutcome(nodes[name], dest, useDefault).1)];
      WellFormed(after) && Extends(nodes, after) && (!useDefault ==> after == nodes)
  {
    var after := nodes[name := nodes[name].(inMessages := FactorOutcome(nodes[name], dest, useDefault).1)];
    assert SameStructure(nodes, after);
    SameStructureWellFormed(nodes, after);
  }

  /** Computing a message never fails for a reason that belongs to the posterior pass or to convergence. */
  lemma MessageErrors(node: Node, dest: Name, useDefault: bool, r: Result<Vec, Error>)
    requires NodeOk(node)
    requires node.kind == Factor ==> r == FactorOutcome(node, dest, useDefault).0
    requires node.kind != Factor ==> r == VariableMessage(node, dest)
    ensures r.Err? ==> r.error != MissingMarginalMessage && r.error != NotConverged
  {
  }

  lemma FactorOkNonEmpty(node: Node, dest: Name, useDefault: bool)
    requires NodeOk(node) && FactorOutcome(node, dest, useDefault).0.Ok?
    ensures |FactorOutcome(node, dest, useDefault).0.value| > 0
  {
  }
}
