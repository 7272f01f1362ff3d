/**
 * The dataflow graph: an append-only list of nodes (operators, constants and
 * value placeholders), a depth-first planner that orders the operators needed
 * for a set of requested outputs, and an executor that runs that order
 * against the bound inputs and constants.
 *
 * Tensors are an abstract value type `V` here: the graph never looks inside
 * them. An operator is a total function from its positional inputs to one
 * value; in this revision `Operator::run` returns a bare tensor, so no
 * operator error reaches the graph.
 */
module Graph {
  import opened Wrappers

  type NodeId = nat

  datatype OperatorNode<!V> = OperatorNode(inputs: seq<NodeId>, output: NodeId, operator: seq<V> -> V)

  datatype Node<!V> = Operator(opNode: OperatorNode<V>) | Constant(value: V) | Value

  /** `timing` only switches on logging of operator run times. */
  datatype RunOptions = RunOptions(timing: bool)

  function DefaultRunOptions(): RunOptions
  {
    RunOptions(timing := false)
  }

  /**
   * Why `run` stops. Both are panics in the source: planning fails with
   * "Missing value N", and a second request for the same operator output
   * finds its temporary value already removed (`unreachable!()`).
   */
  datatype RunError = MissingValue(id: NodeId) | OutputRemoved(id: NodeId)

  type PlanStep<!V> = (NodeId, OperatorNode<V>)

  // ---------------------------------------------------------------------
  // What the planner and the executor see of the graph

  /**
   * The operator producing each value, keyed by its output id. Later nodes
   * win, as in a map collected from the node list.
   */
  function OperatorNodes<V>(nodes: seq<Node<V>>): (m: map<NodeId, OperatorNode<V>>)
    ensures forall id :: id in m ==> m[id].output == id
  {
    if |nodes| == 0 then map[]
    else
      var m := OperatorNodes(nodes[..|nodes| - 1]);
      match nodes[|nodes| - 1]
      case Operator(op) => m[op.output := op]
      case _ => m
  }

  function ConstantIds<V>(nodes: seq<Node<V>>): set<NodeId>
  {
    set id | 0 <= id < |nodes| && nodes[id].Constant?
  }

  /** The inputs as a map; a later binding of the same id wins. */
  function InputMap<V>(inputs: seq<(NodeId, V)>): map<NodeId, V>
  {
    if |inputs| == 0 then map[]
    else InputMap(inputs[..|inputs| - 1])[inputs[|inputs| - 1].0 := inputs[|inputs| - 1].1]
  }

  /**
   * The values bound before any operator runs: the inputs, then every
   * constant, so a constant replaces an input bound to the same id.
   */
  function BoundValues<V>(inputs: seq<(NodeId, V)>, nodes: seq<Node<V>>): (m: map<NodeId, V>)
    ensures m.Keys == InputMap(inputs).Keys + ConstantIds(nodes)
  {
    map id | id in InputMap(inputs).Keys + ConstantIds(nodes) ::
      if id in ConstantIds(nodes) then nodes[id].value else InputMap(inputs)[id]
  }

  // ---------------------------------------------------------------------
  // Acyclicity, availability and the reference semantics

  /**
   * `rank` orders the operators so that every operator's operator-produced
   * inputs come strictly before it. The source has no cycle detection (the
   * planner would recurse forever), so callers supply such a ranking.
   */
  ghost predicate Ranked<V>(opNodes: map<NodeId, OperatorNode<V>>, rank: map<NodeId, nat>)
  {
    forall o :: o in opNodes ==>
      o in rank && forall i :: i in opNodes[o].inputs && i in opNodes ==> i in rank && rank[i] < rank[o]
  }

  ghost function Height<V>(opNodes: map<NodeId, OperatorNode<V>>, rank: map<NodeId, nat>, id: NodeId): nat
    requires Ranked(opNodes, rank)
  {
    if id in opNodes then rank[id] + 1 else 0
  }

  /** `id` is bound, or produced by an operator all of whose inputs are available. */
  ghost predicate Available<V>(bound: set<NodeId>, opNodes: map<NodeId, OperatorNode<V>>, rank: map<NodeId, nat>, id: NodeId)
    requires Ranked(opNodes, rank)
    decreases Height(opNodes, rank, id), 1
  {
    id in bound || (id in opNodes && InputsAvailable(bound, opNodes, rank, id))
  }

  ghost predicate InputsAvailable<V>(bound: set<NodeId>, opNodes: map<NodeId, OperatorNode<V>>, rank: map<NodeId, nat>, id: NodeId)
    requires Ranked(opNodes, rank) && id in opNodes
    decreases Height(opNodes, rank, id), 0
  {
    forall i :: i in opNodes[id].inputs ==> Available(bound, opNodes, rank, i)
  }

  /**
   * A requested id can be planned: an operator output whose inputs are all
   * available (it is visited even when bound), or else a bound value.
   */
  ghost predicate Requestable<V>(bound: set<NodeId>, opNodes: map<NodeId, OperatorNode<V>>, rank: map<NodeId, nat>, id: NodeId)
    requires Ranked(opNodes, rank)
  {
    if id in opNodes then InputsAvailable(bound, opNodes, rank, id) else id in bound
  }

  /**
   * The value of `id`: the bound value if there is one, otherwise the result
   * of its operator applied to the values of its inputs, in declared order.
   */
  ghost function Eval<V>(values: map<NodeId, V>, opNodes: map<NodeId, OperatorNode<V>>, rank: map<NodeId, nat>, id: NodeId): Option<V>
    requires Ranked(opNodes, rank)
    decreases Height(opNodes, rank, id), 1, 0
  {
    if id in values then Some(values[id])
    else if id in opNodes then
      match EvalAll(values, opNodes, rank, opNodes[id].inputs, id)
      case Some(args) => Some(opNodes[id].operator(args))
      case None => None
    else None
  }

  ghost function EvalAll<V>(values: map<NodeId, V>, opNodes: map<NodeId, OperatorNode<V>>, rank: map<NodeId, nat>, ids: seq<NodeId>, parent: NodeId): (r: Option<seq<V>>)
    requires Ranked(opNodes, rank) && parent in opNodes
    requires forall i :: i in ids ==> i in opNodes[parent].inputs
    ensures r.Some? <==> forall k :: 0 <= k < |ids| ==> Eval(values, opNodes, rank, ids[k]).Some?
    ensures r.Some? ==> |r.value| == |ids| && forall k :: 0 <= k < |ids| ==> Eval(values, opNodes, rank, ids[k]) == Some(r.value[k])
    decreases Height(opNodes, rank, parent), 0, |ids|
  {
    if |ids| == 0 then Some([])
    else
      var first := Eval(values, opNodes, rank, ids[0]);
      var rest := EvalAll(values, opNodes, rank, ids[1..], parent);
      assert forall k :: 1 <= k < |ids| ==> ids[k] == ids[1..][k - 1];
      if first.Some? && rest.Some? then Some([first.value] + rest.value) else None
  }

  // ---------------------------------------------------------------------
  // Properties of a plan

  ghost function PlanIds<V>(plan: seq<PlanStep<V>>): set<NodeId>
  {
    set k | 0 <= k < |plan| :: plan[k].0
  }

  /**
   * Every step runs the operator producing its id, and each of its inputs is
   * bound or produced by an earlier step.
   */
  ghost predicate ValidPlan<V>(bound: set<NodeId>, opNodes: map<NodeId, OperatorNode<V>>, plan: seq<PlanStep<V>>)
  {
    forall k :: 0 <= k < |plan| ==>
      plan[k].0 in opNodes && plan[k].1 == opNodes[plan[k].0] &&
      forall i :: i in plan[k].1.inputs ==> i in bound || i in PlanIds(plan[..k])
  }

  /** An id appears twice in the plan only when it was itself requested. */
  ghost predicate RepeatsOnlyRequested<V>(plan: seq<PlanStep<V>>, outputs: seq<NodeId>)
  {
    forall k :: 0 <= k < |plan| && plan[k].0 in PlanIds(plan[..k]) ==> plan[k].0 in outputs
  }

  /** Each push in `plan[from..to]` is an id that no earlier step has, ranked below `limit`. */
  ghost predicate PushedBelow<V>(plan: seq<PlanStep<V>>, from: nat, to: nat, rank: map<NodeId, nat>, limit: nat)
  {
    && from <= to <= |plan|
    && (forall k :: from <= k < to ==> plan[k].0 !in PlanIds(plan[..k]))
    && (forall k :: from <= k < to ==> plan[k].0 in rank && rank[plan[k].0] < limit)
  }

  /** No step of `plan[from..to]` recomputes a bound value. */
  ghost predicate NoneBound<V>(plan: seq<PlanStep<V>>, from: int, to: int, bound: set<NodeId>)
  {
    forall k :: 0 <= from <= k < to <= |plan| ==> plan[k].0 !in bound
  }

  /** `longer` starts with `plan`. */
  ghost predicate Extends<V>(longer: seq<PlanStep<V>>, plan: seq<PlanStep<V>>)
  {
    |plan| <= |longer| && longer[..|plan|] == plan
  }

  lemma ExtendsFacts<V>(longer: seq<PlanStep<V>>, plan: seq<PlanStep<V>>)
    requires Extends(longer, plan)
    ensures PlanIds(plan) <= PlanIds(longer)
    ensures forall k :: 0 <= k <= |plan| ==> longer[..k] == plan[..k]
    ensures forall k :: 0 <= k < |plan| ==> longer[k] == plan[k]
  {
    forall k | 0 <= k < |plan| ensures longer[k] == plan[k] {
      assert longer[..|plan|][k] == longer[k];
    }
    forall x | x in PlanIds(plan) ensures x in PlanIds(longer) {
      var m :| 0 <= m < |plan| && plan[m].0 == x;
      assert longer[m] == plan[m];
    }
  }

  lemma ExtendsTrans<V>(a: seq<PlanStep<V>>, b: seq<PlanStep<V>>, c: seq<PlanStep<V>>)
    requires Extends(b, a) && Extends(c, b)
    ensures Extends(c, a)
  {
    assert c[..|a|] == c[..|b|][..|a|];
  }

  /** The pushes of a child visit, and the child itself, join the parent's pushes. */
  lemma ChildPushed<V>(before: seq<PlanStep<V>>, after: seq<PlanStep<V>>, start: nat, rank: map<NodeId, nat>, limit: nat, child: NodeId)
    requires PushedBelow(before, start, |before|, rank, limit)
    requires Extends(after, before) && |after| > |before| && after[|after| - 1].0 == child
    requires child in rank && rank[child] < limit
    requires PushedBelow(after, |before|, |after| - 1, rank, rank[child])
    requires child !in PlanIds(after[..|after| - 1])
    ensures PushedBelow(after, start, |after|, rank, limit)
  {
    ExtendsFacts(after, before);
  }

  /** The pushes of one more input visit join those made since `startPlan`. */
  lemma JoinPushes<V>(startPlan: seq<PlanStep<V>>, before: seq<PlanStep<V>>, plan: seq<PlanStep<V>>, rank: map<NodeId, nat>, limit: nat, bound: set<NodeId>)
    requires Extends(before, startPlan) && Extends(plan, before)
    requires PushedBelow(before, |startPlan|, |before|, rank, limit) && PushedBelow(plan, |before|, |plan|, rank, limit)
    requires NoneBound(before, |startPlan|, |before|, bound) && NoneBound(plan, |before|, |plan|, bound)
    ensures Extends(plan, startPlan)
    ensures PushedBelow(plan, |startPlan|, |plan|, rank, limit) && NoneBound(plan, |startPlan|, |plan|, bound)
  {
    ExtendsFacts(plan, before);
    ExtendsTrans(startPlan, before, plan);
  }

  lemma PushedBelowExtends<V>(plan: seq<PlanStep<V>>, longer: seq<PlanStep<V>>, from: nat, to: nat, rank: map<NodeId, nat>, limit: nat)
    requires PushedBelow(plan, from, to, rank, limit) && Extends(longer, plan)
    ensures PushedBelow(longer, from, to, rank, limit)
  {
    ExtendsFacts(longer, plan);
  }

  /** An id ranked at `limit` is not among pushes ranked below it. */
  lemma NotPushed<V>(plan: seq<PlanStep<V>>, start: nat, rank: map<NodeId, nat>, id: NodeId)
    requires id in rank && PushedBelow(plan, start, |plan|, rank, rank[id])
    requires id !in PlanIds(plan[..start])
    ensures id !in PlanIds(plan)
  {
    forall k | 0 <= k < |plan| ensures plan[k].0 != id {
      if k < start {
        assert plan[k] == plan[..start][k];
      }
    }
  }

  lemma PlanIdsSnoc<V>(plan: seq<PlanStep<V>>, k: nat)
    requires k < |plan|
    ensures PlanIds(plan[..k + 1]) == PlanIds(plan[..k]) + {plan[k].0}
  {
    var a, b := plan[..k], plan[..k + 1];
    forall x | x in PlanIds(b) ensures x in PlanIds(a) + {plan[k].0} {
      var m :| 0 <= m < |b| && b[m].0 == x;
      if m < k {
        assert a[m].0 == x;
      }
    }
    forall x | x in PlanIds(a) ensures x in PlanIds(b) {
      var m :| 0 <= m < |a| && a[m].0 == x;
      assert b[m].0 == x;
    }
    assert b[k].0 == plan[k].0;
  }

  /** Appending a step whose inputs are resolved keeps a plan valid. */
  lemma PushStep<V>(bound: set<NodeId>, opNodes: map<NodeId, OperatorNode<V>>, plan: seq<PlanStep<V>>, step: PlanStep<V>)
    requires ValidPlan(bound, opNodes, plan)
    requires step.0 in opNodes && step.1 == opNodes[step.0]
    requires forall i :: i in step.1.inputs ==> i in bound || i in PlanIds(plan)
    ensures ValidPlan(bound, opNodes, plan + [step])
    ensures PlanIds(plan + [step]) == PlanIds(plan) + {step.0}
    ensures Extends(plan + [step], plan) && (plan + [step])[..|plan|] == plan
  {
    var p := plan + [step];
    assert p[..|plan|] == plan;
    ExtendsFacts(p, plan);
    forall x | x in PlanIds(p) ensures x in PlanIds(plan) + {step.0} {
      var k :| 0 <= k < |p| && p[k].0 == x;
      if k < |plan| {
        assert plan[k].0 == x;
      }
    }
    assert p[|plan|].0 == step.0;
  }

  /** Requesting `o` and planning it keeps repeated ids among the requested ones. */
  lemma RequestedPush<V>(before: seq<PlanStep<V>>, after: seq<PlanStep<V>>, outputs: seq<NodeId>, o: NodeId)
    requires RepeatsOnlyRequested(before, outputs) && Extends(after, before) && |after| > |before|
    requires PushedBelow(after, |before|, |after| - 1, map[], 0) || forall k :: |before| <= k < |after| - 1 ==> after[k].0 !in PlanIds(after[..k])
    requires after[|after| - 1].0 == o && o in outputs
    ensures RepeatsOnlyRequested(after, outputs)
  {
    ExtendsFacts(after, before);
  }

  /** A valid plan only holds operator outputs. */
  lemma PlanIdsAreOperators<V>(bound: set<NodeId>, opNodes: map<NodeId, OperatorNode<V>>, plan: seq<PlanStep<V>>)
    ensures ValidPlan(bound, opNodes, plan) ==> PlanIds(plan) <= opNodes.Keys
  {
    if ValidPlan(bound, opNodes, plan) {
      forall x | x in PlanIds(plan) ensures x in opNodes {
        var k :| 0 <= k < |plan| && plan[k].0 == x;
      }
    }
  }

  /** Every operator a valid plan runs can be computed from the bound values. */
  lemma {:induction false} PlanAvailable<V>(bound: set<NodeId>, opNodes: map<NodeId, OperatorNode<V>>, rank: map<NodeId, nat>, plan: seq<PlanStep<V>>)
    requires Ranked(opNodes, rank) && ValidPlan(bound, opNodes, plan)
    ensures forall x :: x in PlanIds(plan) ==> Available(bound, opNodes, rank, x)
  {
    if |plan| > 0 {
      var init := plan[..|plan| - 1];
      var last := plan[|plan| - 1];
      assert Extends(plan, init);
      ExtendsFacts(plan, init);
      PlanAvailable(bound, opNodes, rank, init);
      assert InputsAvailable(bound, opNodes, rank, last.0);
      forall x | x in PlanIds(plan) ensures x in PlanIds(init) || x == last.0 {
        var k :| 0 <= k < |plan| && plan[k].0 == x;
        if k < |init| {
          assert init[k].0 == x;
        }
      }
    }
  }

  /** The push that ends a visit: the operator's inputs are resolved, so the plan stays valid. */
  lemma FinishVisit<V>(bound: set<NodeId>, opNodes: map<NodeId, OperatorNode<V>>, rank: map<NodeId, nat>,
                       startPlan: seq<PlanStep<V>>, plan: seq<PlanStep<V>>, nodeId: NodeId, opNode: OperatorNode<V>, wasResolved: bool)
    requires Ranked(opNodes, rank) && ValidPlan(bound, opNodes, plan)
    requires nodeId in opNodes && opNode == opNodes[nodeId]
    requires forall i :: i in opNode.inputs ==> i in bound || i in PlanIds(plan)
    requires Extends(plan, startPlan) && PushedBelow(plan, |startPlan|, |plan|, rank, rank[nodeId])
    requires !wasResolved ==> nodeId !in PlanIds(startPlan)
    ensures InputsAvailable(bound, opNodes, rank, nodeId)
    ensures ValidPlan(bound, opNodes, plan + [(nodeId, opNode)])
    ensures PlanIds(plan + [(nodeId, opNode)]) == PlanIds(plan) + {nodeId}
    ensures Extends(plan + [(nodeId, opNode)], startPlan)
    ensures PushedBelow(plan + [(nodeId, opNode)], |startPlan|, |plan|, rank, rank[nodeId])
    ensures !wasResolved ==> nodeId !in PlanIds((plan + [(nodeId, opNode)])[..|plan|])
  {
    PlanAvailable(bound, opNodes, rank, plan);
    ExtendsFacts(plan, startPlan);
    if !wasResolved {
      NotPushed(plan, |startPlan|, rank, nodeId);
    }
    PushStep(bound, opNodes, plan, (nodeId, opNode));
    ExtendsTrans(startPlan, plan, plan + [(nodeId, opNode)]);
    PushedBelowExtends(plan, plan + [(nodeId, opNode)], |startPlan|, |plan|, rank, rank[nodeId]);
  }

  // ---------------------------------------------------------------------
  // The planner

  /** The depth-first plan builder of `create_plan`. */
  class PlanBuilder<V> {
    var resolvedValues: set<NodeId>
    var plan: seq<PlanStep<V>>
    const operatorNodes: map<NodeId, OperatorNode<V>>
    ghost const bound: set<NodeId>
    ghost const rank: map<NodeId, nat>

    ghost predicate Valid()
      reads this
    {
      && Ranked(operatorNodes, rank)
      && resolvedValues == bound + PlanIds(plan)
      && ValidPlan(bound, operatorNodes, plan)
    }

    constructor (resolved: set<NodeId>, opNodes: map<NodeId, OperatorNode<V>>, ghost ranking: map<NodeId, nat>)
      requires Ranked(opNodes, ranking)
      ensures Valid() && plan == [] && resolvedValues == resolved
      ensures bound == resolved && operatorNodes == opNodes && rank == ranking
    {
      resolvedValues := resolved;
      plan := [];
      operatorNodes := opNodes;
      bound := resolved;
      rank := ranking;
    }

    /**
     * Plan the inputs of `opNode` that are not resolved yet, depth first and
     * in declared order, then the operator itself.
     */
    method Visit(nodeId: NodeId, opNode: OperatorNode<V>) returns (r: Result<(), NodeId>)
      requires Valid()
      requires nodeId in operatorNodes && opNode == operatorNodes[nodeId]
      modifies this
      decreases rank[nodeId], 2
      ensures r.Ok? <==> InputsAvailable(bound, operatorNodes, rank, nodeId)
      ensures r.Err? ==> r.error !in bound && r.error !in operatorNodes
      ensures r.Ok? ==> Valid()
      ensures r.Ok? ==> Extends(plan, old(plan)) && |plan| > old(|plan|) && plan[|plan| - 1].0 == nodeId
      ensures r.Ok? ==> PushedBelow(plan, old(|plan|), |plan| - 1, rank, rank[nodeId])
      ensures r.Ok? && nodeId !in old(resolvedValues) ==> nodeId !in PlanIds(plan[..|plan| - 1])
      ensures r.Ok? ==> NoneBound(plan, old(|plan|), |plan| - 1, bound)
    {
      ghost var startPlan := plan;
      r := VisitInputs(nodeId, opNode);
      if r.Err? {
        return;
      }
      FinishVisit(bound, operatorNodes, rank, startPlan, plan, nodeId, opNode, nodeId in old(resolvedValues));
      resolvedValues := resolvedValues + {nodeId};
      plan := plan + [(nodeId, opNode)];
    }

    /** The loop of `visit`: resolve every input of `opNode`, in declared order. */
    method VisitInputs(nodeId: NodeId, opNode: OperatorNode<V>) returns (r: Result<(), NodeId>)
      requires Valid()
      requires nodeId in operatorNodes && opNode == operatorNodes[nodeId]
      modifies this
      decreases rank[nodeId], 1
      ensures r.Ok? <==> InputsAvailable(bound, operatorNodes, rank, nodeId)
      ensures r.Err? ==> r.error !in bound && r.error !in operatorNodes
      ensures r.Ok? ==> Valid() && Extends(plan, old(plan))
      ensures r.Ok? ==> PushedBelow(plan, old(|plan|), |plan|, rank, rank[nodeId])
      ensures r.Ok? ==> forall i :: i in opNode.inputs ==> i in resolvedValues
      ensures r.Ok? ==> NoneBound(plan, old(|plan|), |plan|, bound)
    {
      ghost var start := |plan|;
      ghost var startPlan := plan;
      var j := 0;
      while j < |opNode.inputs|
        invariant 0 <= j <= |opNode.inputs|
        invariant Valid()
        invariant Extends(plan, startPlan)
        invariant PushedBelow(plan, start, |plan|, rank, rank[nodeId])
        invariant forall m :: 0 <= m < j ==> opNode.inputs[m] in resolvedValues
        invariant NoneBound(plan, start, |plan|, bound)
      {
        ghost var before := plan;
        var res := VisitInput(nodeId, opNode.inputs[j]);
        if res.Err? {
          return res;
        }
        JoinPushes(startPlan, before, plan, rank, rank[nodeId], bound);
        j := j + 1;
      }
      PlanAvailable(bound, operatorNodes, rank, plan);
      r := Ok(());
    }

    /** One iteration of `visit`'s loop: skip a resolved input, visit its producer, or fail. */
    method VisitInput(ghost parent: NodeId, input: NodeId) returns (r: Result<(), NodeId>)
      requires Valid()
      requires parent in operatorNodes && input in operatorNodes[parent].inputs
      modifies this
      decreases rank[parent], 0
      ensures r.Ok? <==> Available(bound, operatorNodes, rank, input)
      ensures r.Err? ==> r.error !in bound && r.error !in operatorNodes
      ensures r.Ok? ==> Valid() && input in resolvedValues && Extends(plan, old(plan))
      ensures r.Ok? ==> PushedBelow(plan, old(|plan|), |plan|, rank, rank[parent])
      ensures r.Ok? ==> NoneBound(plan, old(|plan|), |plan|, bound)
    {
      if input in resolvedValues {
        PlanAvailable(bound, operatorNodes, rank, plan);
        return Ok(());
      }
      if input !in operatorNodes {
        return Err(input);
      }
      ghost var before := plan;
      r := Visit(input, operatorNodes[input]);
      if r.Ok? {
        PushedBelowExtends(before, plan, |before|, |before|, rank, rank[parent]);
        ChildPushed(before, plan, |before|, rank, rank[parent], input);
        assert plan[|plan| - 1].0 in PlanIds(plan);
      }
    }

    /** Visit every requested operator output; a requested id that is neither planned nor resolved is missing. */
    method Plan(outputs: seq<NodeId>) returns (r: Result<seq<PlanStep<V>>, NodeId>)
      requires Valid() && plan == []
      modifies this
      ensures r.Ok? <==> forall o :: o in outputs ==> Requestable(bound, operatorNodes, rank, o)
      ensures r.Err? ==> r.error !in bound && r.error !in operatorNodes
      ensures r.Ok? ==> PlanSpec(bound, operatorNodes, outputs, r.value)
    {
      var j := 0;
      while j < |outputs|
        invariant 0 <= j <= |outputs|
        invariant Valid() && RepeatsOnlyRequested(plan, outputs)
        invariant forall m :: 0 <= m < j ==> Requestable(bound, operatorNodes, rank, outputs[m]) && Served(plan, outputs[m])
        invariant forall k :: 0 <= k < |plan| && plan[k].0 in bound ==> plan[k].0 in outputs
        invariant (forall m :: 0 <= m < j ==> outputs[m] !in operatorNodes) ==> plan == []
      {
        ghost var before := plan;
        var res := PlanOutput(outputs[j], outputs);
        if res.Err? {
          return Err(res.error);
        }
        ExtendsFacts(plan, before);
        forall k | 0 <= k < |plan| && plan[k].0 in bound
          ensures plan[k].0 in outputs
        {
          if k < |before| {
            assert plan[k] == before[k];
          }
        }
        j := j + 1;
      }
      r := Ok(plan);
    }

    /** `id` is resolved, and planned if an operator produces it. */
    ghost predicate Served(p: seq<PlanStep<V>>, id: NodeId)
    {
      (id in bound || id in PlanIds(p)) && (id in operatorNodes ==> id in PlanIds(p))
    }

    /** One iteration of `plan`'s loop, for the requested id `o`. */
    method PlanOutput(o: NodeId, ghost outputs: seq<NodeId>) returns (r: Result<(), NodeId>)
      requires Valid() && RepeatsOnlyRequested(plan, outputs) && o in outputs
      modifies this
      ensures r.Ok? <==> Requestable(bound, operatorNodes, rank, o)
      ensures r.Err? ==> r.error !in bound && r.error !in operatorNodes
      ensures r.Ok? ==> Valid() && RepeatsOnlyRequested(plan, outputs) && Extends(plan, old(plan)) && Served(plan, o)
      ensures r.Ok? ==> NoneBound(plan, old(|plan|), |plan| - 1, bound)
      ensures r.Ok? && o !in operatorNodes ==> plan == old(plan)
      ensures r.Ok? && o in operatorNodes ==> |plan| > old(|plan|) && plan[|plan| - 1].0 == o
    {
      if o in operatorNodes {
        ghost var before := plan;
        r := Visit(o, operatorNodes[o]);
        if r.Ok? {
          ExtendsFacts(plan, before);
          RequestedPush(before, plan, outputs, o);
          assert plan[|plan| - 1].0 in PlanIds(plan);
        }
      } else if o !in resolvedValues {
        r := Err(o);
      } else {
        PlanIdsAreOperators(bound, operatorNodes, plan);
        r := Ok(());
      }
    }
  }

  /** What a successful plan guarantees for the requested `outputs`. */
  ghost predicate PlanSpec<V>(bound: set<NodeId>, opNodes: map<NodeId, OperatorNode<V>>, outputs: seq<NodeId>, plan: seq<PlanStep<V>>)
  {
    && ValidPlan(bound, opNodes, plan)
    && (forall o :: o in outputs ==> o in bound || o in PlanIds(plan))
    && (forall o :: o in outputs && o in opNodes ==> o in PlanIds(plan))
    && RepeatsOnlyRequested(plan, outputs)
    && (forall k :: 0 <= k < |plan| && plan[k].0 in bound ==> plan[k].0 in outputs)
    && ((forall o :: o in outputs ==> o !in opNodes) ==> plan == [])
  }

  /** Some operator output that is not bound is requested twice. */
  ghost predicate RequestsTwice<V>(values: map<NodeId, V>, outputs: seq<NodeId>)
  {
    exists m, k :: 0 <= m < k < |outputs| && outputs[m] == outputs[k] && outputs[k] !in values
  }

  // ---------------------------------------------------------------------
  // Executing a plan

  /** The inputs of one step, in declared order, from the bound values or earlier results. */
  method GatherInputs<V>(values: map<NodeId, V>, temp: map<NodeId, V>, ids: seq<NodeId>) returns (args: seq<V>)
    requires forall i :: i in ids ==> i in values || i in temp
    ensures |args| == |ids|
    ensures forall m :: 0 <= m < |ids| ==> args[m] == if ids[m] in values then values[ids[m]] else temp[ids[m]]
  {
    args := [];
    var j := 0;
    while j < |ids|
      invariant 0 <= j <= |ids| && |args| == j
      invariant forall m :: 0 <= m < j ==> args[m] == if ids[m] in values then values[ids[m]] else temp[ids[m]]
    {
      var id := ids[j];
      if id in values {
        args := args + [values[id]];
      } else {
        args := args + [temp[id]];
      }
      j := j + 1;
    }
  }

  /** Running an operator on the values of its inputs gives its reference value. */
  lemma EvalStep<V>(values: map<NodeId, V>, temp: map<NodeId, V>, opNodes: map<NodeId, OperatorNode<V>>, rank: map<NodeId, nat>, id: NodeId, args: seq<V>)
    requires Ranked(opNodes, rank) && id in opNodes && id !in values
    requires forall i :: i in opNodes[id].inputs ==> i in values || i in temp
    requires Computed(values, opNodes, rank, temp)
    requires |args| == |opNodes[id].inputs|
    requires forall m :: 0 <= m < |args| ==>
      args[m] == if opNodes[id].inputs[m] in values then values[opNodes[id].inputs[m]] else temp[opNodes[id].inputs[m]]
    ensures Eval(values, opNodes, rank, id) == Some(opNodes[id].operator(args))
  {
    var ids := opNodes[id].inputs;
    forall m | 0 <= m < |ids| ensures Eval(values, opNodes, rank, ids[m]) == Some(args[m]) {
      assert ids[m] in ids;
    }
    var all := EvalAll(values, opNodes, rank, ids, id);
    assert all.value == args;
  }

  /** Every result in `temp` for an unbound id is that id's reference value. */
  ghost predicate Computed<V>(values: map<NodeId, V>, opNodes: map<NodeId, OperatorNode<V>>, rank: map<NodeId, nat>, temp: map<NodeId, V>)
    requires Ranked(opNodes, rank)
  {
    forall x :: x in temp && x !in values ==> Eval(values, opNodes, rank, x) == Some(temp[x])
  }

  lemma ComputedStep<V>(values: map<NodeId, V>, opNodes: map<NodeId, OperatorNode<V>>, rank: map<NodeId, nat>, temp: map<NodeId, V>, id: NodeId, out: V)
    requires Ranked(opNodes, rank) && Computed(values, opNodes, rank, temp)
    requires id !in values ==> Eval(values, opNodes, rank, id) == Some(out)
    ensures Computed(values, opNodes, rank, temp[id := out])
  {
  }

  /** Run one step of the plan, whose inputs are bound or already computed. */
  method RunStep<V>(values: map<NodeId, V>, temp: map<NodeId, V>, opId: NodeId, opNode: OperatorNode<V>,
                    ghost opNodes: map<NodeId, OperatorNode<V>>, ghost rank: map<NodeId, nat>) returns (output: V)
    requires Ranked(opNodes, rank) && opId in opNodes && opNode == opNodes[opId] && opNode.output == opId
    requires forall i :: i in opNode.inputs ==> i in values || i in temp
    requires Computed(values, opNodes, rank, temp)
    ensures Computed(values, opNodes, rank, temp[opNode.output := output])
  {
    var opInputs := GatherInputs(values, temp, opNode.inputs);
    output := opNode.operator(opInputs);
    if opId !in values {
      EvalStep(values, temp, opNodes, rank, opId, opInputs);
    }
    ComputedStep(values, opNodes, rank, temp, opId, output);
  }

  /** Run each planned operator on its inputs, taken from `values` or from an earlier step. */
  method ExecutePlan<V>(values: map<NodeId, V>, plan: seq<PlanStep<V>>, ghost opNodes: map<NodeId, OperatorNode<V>>, ghost rank: map<NodeId, nat>)
    returns (temp: map<NodeId, V>)
    requires Ranked(opNodes, rank) && ValidPlan(values.Keys, opNodes, plan)
    requires forall id :: id in opNodes ==> opNodes[id].output == id
    ensures temp.Keys == PlanIds(plan)
    ensures Computed(values, opNodes, rank, temp)
  {
    temp := map[];
    var s := 0;
    while s < |plan|
      invariant 0 <= s <= |plan|
      invariant temp.Keys == PlanIds(plan[..s])
      invariant Computed(values, opNodes, rank, temp)
    {
      var opNode := plan[s].1;
      // `run` panics with "Invalid plan" when no earlier step produced an
      // input; a valid plan always did.
      assert forall i :: i in opNode.inputs ==> i in values || i in temp;
      var output := RunStep(values, temp, plan[s].0, opNode, opNodes, rank);
      PlanIdsSnoc(plan, s);
      temp := temp[opNode.output := output];
      s := s + 1;
    }
    assert plan[..s] == plan;
  }

  /**
   * Hand back the requested values in order: bound values are copied, and
   * an operator's result is moved out, so asking for it twice fails.
   */
  method CollectOutputs<V>(values: map<NodeId, V>, temp: map<NodeId, V>, outputs: seq<NodeId>)
    returns (r: Result<seq<V>, RunError>)
    requires forall o :: o in outputs ==> o in values || o in temp
    ensures r.Ok? <==> !RequestsTwice(values, outputs)
    ensures r.Err? ==> r.error.OutputRemoved?
    ensures r.Ok? ==> |r.value| == |outputs| && forall k :: 0 <= k < |outputs| ==>
      r.value[k] == if outputs[k] in values then values[outputs[k]] else temp[outputs[k]]
  {
    var remaining := temp;
    var results: seq<V> := [];
    var k := 0;
    while k < |outputs|
      invariant 0 <= k <= |outputs|
      invariant |results| == k
      invariant forall m :: 0 <= m < k ==>
        results[m] == if outputs[m] in values then values[outputs[m]] else temp[outputs[m]]
      invariant remaining.Keys == temp.Keys - (set m | 0 <= m < k && outputs[m] !in values :: outputs[m])
      invariant forall x :: x in remaining ==> remaining[x] == temp[x]
      invariant !exists a, b :: 0 <= a < b < k && outputs[a] == outputs[b] && outputs[b] !in values
    {
      var o := outputs[k];
      if o in values {
        results := results + [values[o]];
      } else if o in remaining {
        results := results + [remaining[o]];
        remaining := remaining - {o};
      } else {
        var a :| 0 <= a < k && outputs[a] == o && outputs[a] !in values;
        return Err(OutputRemoved(o));
      }
      k := k + 1;
    }
    r := Ok(results);
  }

  // ---------------------------------------------------------------------
  // The graph

  class Graph<V> {
    var nodes: seq<Node<V>>

    /** Each operator node directly follows the value node that is its output. */
    ghost predicate Valid()
      reads this
    {
      forall k :: 0 <= k < |nodes| && nodes[k].Operator? ==>
        k > 0 && nodes[k].opNode.output == k - 1 && nodes[k - 1].Value?
    }

    constructor ()
      ensures Valid() && nodes == []
    {
      nodes := [];
    }

    method AddValue() returns (id: NodeId)
      requires Valid()
      modifies this
      ensures Valid()
      ensures nodes == old(nodes) + [Value] && id == |old(nodes)|
    {
      nodes := nodes + [Value];
      id := |nodes| - 1;
    }

    method AddConstant(value: V) returns (id: NodeId)
      requires Valid()
      modifies this
      ensures Valid()
      ensures nodes == old(nodes) + [Constant(value)] && id == |old(nodes)|
    {
      nodes := nodes + [Constant(value)];
      id := |nodes| - 1;
    }

    /** Add a value node and the operator producing it; the result is the value's id. */
    method AddOp(op: seq<V> -> V, inputs: seq<NodeId>) returns (id: NodeId)
      requires Valid()
      modifies this
      ensures Valid()
      ensures nodes == old(nodes) + [Value, Operator(OperatorNode(inputs, id, op))]
      ensures id == |old(nodes)|
    {
      id := AddValue();
      nodes := nodes + [Operator(OperatorNode(inputs, id, op))];
    }

    /** Bind the inputs, then the constants on top of them. */
    method BindValues(inputs: seq<(NodeId, V)>) returns (values: map<NodeId, V>)
      ensures values == BoundValues(inputs, nodes)
    {
      values := map[];
      var i := 0;
      while i < |inputs|
        invariant 0 <= i <= |inputs|
        invariant values == InputMap(inputs[..i])
      {
        assert inputs[..i + 1][..i] == inputs[..i];
        values := values[inputs[i].0 := inputs[i].1];
        i := i + 1;
      }
      assert inputs[..i] == inputs;
      ghost var inputMap := values;
      var n := 0;
      while n < |nodes|
        invariant 0 <= n <= |nodes|
        invariant values.Keys == inputMap.Keys + (set id | 0 <= id < n && nodes[id].Constant?)
        invariant forall id :: id in values ==>
          values[id] == if id < n && nodes[id].Constant? then nodes[id].value else inputMap[id]
      {
        if nodes[n].Constant? {
          values := values[n := nodes[n].value];
        }
        n := n + 1;
      }
    }

    /** Order the operators needed to produce `outputs` from `inputs` and the constants. */
    method CreatePlan(inputs: seq<(NodeId, V)>, outputs: seq<NodeId>, ghost rank: map<NodeId, nat>)
      returns (r: Result<seq<PlanStep<V>>, NodeId>)
      requires Ranked(OperatorNodes(nodes), rank)
      ensures r.Ok? <==> forall o :: o in outputs ==>
        Requestable(BoundValues(inputs, nodes).Keys, OperatorNodes(nodes), rank, o)
      ensures r.Err? ==> r.error !in BoundValues(inputs, nodes) && r.error !in OperatorNodes(nodes)
      ensures r.Ok? ==> PlanSpec(BoundValues(inputs, nodes).Keys, OperatorNodes(nodes), outputs, r.value)
    {
      var opNodes := OperatorNodes(nodes);
      var resolved := (set m | 0 <= m < |inputs| :: inputs[m].0) + ConstantIds(nodes);
      assert resolved == BoundValues(inputs, nodes).Keys by {
        InputMapKeys(inputs);
      }
      var builder := new PlanBuilder(resolved, opNodes, rank);
      r := builder.Plan(outputs);
    }

    /**
     * Compute `outputs` from `inputs`: plan, bind inputs then constants, run
     * the plan, and hand back one value per requested id, in request order.
     */
    method Run(inputs: seq<(NodeId, V)>, outputs: seq<NodeId>, opts: Option<RunOptions>, ghost rank: map<NodeId, nat>)
      returns (r: Result<seq<V>, RunError>)
      requires Ranked(OperatorNodes(nodes), rank)
      ensures (r.Err? && r.error.MissingValue?) <==>
        (exists o :: o in outputs && !Requestable(BoundValues(inputs, nodes).Keys, OperatorNodes(nodes), rank, o))
      ensures r.Err? && r.error.MissingValue? ==>
        r.error.id !in BoundValues(inputs, nodes) && r.error.id !in OperatorNodes(nodes)
      ensures r.Err? && r.error.OutputRemoved? ==> RequestsTwice(BoundValues(inputs, nodes), outputs)
      ensures (forall o :: o in outputs ==> Requestable(BoundValues(inputs, nodes).Keys, OperatorNodes(nodes), rank, o)) ==>
        (r.Ok? <==> !RequestsTwice(BoundValues(inputs, nodes), outputs))
      ensures r.Ok? ==> |r.value| == |outputs| && forall k :: 0 <= k < |outputs| ==>
        Eval(BoundValues(inputs, nodes), OperatorNodes(nodes), rank, outputs[k]) == Some(r.value[k])
    {
      var planned := CreatePlan(inputs, outputs, rank);
      if planned.Err? {
        return Err(MissingValue(planned.error));
      }
      var _ := opts.UnwrapOr(DefaultRunOptions());
      var values := BindValues(inputs);
      var temp := ExecutePlan(values, planned.value, OperatorNodes(nodes), rank);
      r := CollectOutputs(values, temp, outputs);
    }
  }

  lemma InputMapKeys<V>(inputs: seq<(NodeId, V)>)
    ensures InputMap(inputs).Keys == set m | 0 <= m < |inputs| :: inputs[m].0
  {
    if |inputs| > 0 {
      var init := inputs[..|inputs| - 1];
      InputMapKeys(init);
      forall x | x in (set m | 0 <= m < |inputs| :: inputs[m].0)
        ensures x in InputMap(inputs).Keys
      {
        var m :| 0 <= m < |inputs| && inputs[m].0 == x;
        if m < |inputs| - 1 {
          assert init[m].0 == x;
        }
      }
      forall x | x in InputMap(init).Keys
        ensures x in (set m | 0 <= m < |inputs| :: inputs[m].0)
      {
        var m :| 0 <= m < |init| && init[m].0 == x;
        assert inputs[m].0 == x;
      }
    }
  }
}
