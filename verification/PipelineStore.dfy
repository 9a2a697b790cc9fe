/**
 The rows the pipeline store keeps for one run, and the updates it makes to them in
 place. Each method is proved to leave exactly the state the functions of Runs and
 Blocking describe.
*/
module PipelineStores {
  import opened Optional
  import opened Graphs
  import opened Blocking
  import opened Runs

  /** The first i rows have been inserted. */
  ghost predicate FilledTo(g: Graph, i: nat, status: StatusMap, attempts: map<Id, nat>)
    requires i <= |g.order|
  {
    && (forall v :: v in status <==> v in g.order[..i])
    && attempts.Keys == status.Keys
    && forall v :: v in status ==> status[v] == Pending && attempts[v] == 0
  }

  lemma FillsNone(g: Graph)
    ensures FilledTo(g, 0, map[], map[])
  {
  }

  lemma FillsNext(g: Graph, i: nat, status: StatusMap, attempts: map<Id, nat>)
    requires i < |g.order| && FilledTo(g, i, status, attempts)
    ensures FilledTo(g, i + 1, status[g.order[i] := Pending], attempts[g.order[i] := 0])
  {
    assert g.order[..i+1] == g.order[..i] + [g.order[i]];
  }

  lemma FillsAll(g: Graph, status: StatusMap, attempts: map<Id, nat>)
    requires g.Valid() && FilledTo(g, |g.order|, status, attempts)
    ensures status == Fresh(g).status && attempts == Fresh(g).attempts
  {
    assert g.order[..|g.order|] == g.order;
  }

  class PipelineStore {
    const graph: Graph
    var status: StatusMap
    var attempts: map<Id, nat>
    var manual: set<Id>
    var artifacts: seq<Artifact>
    var starts: seq<Start>
    var charges: seq<Charge>
    var run: RunStatus

    ghost predicate Valid()
      reads this
    {
      graph.Valid() && State().Covers(graph)
    }

    function State(): State
      reads this
    {
      Runs.State(status, attempts, manual, artifacts, starts, charges, run)
    }

    /** createRun: every row pending with no attempts. */
    constructor (g: Graph)
      requires g.Valid()
      ensures Valid() && graph == g && State() == Fresh(g)
    {
      hide FilledTo;
      graph := g;
      new;
      status, attempts := map[], map[];
      manual, artifacts, starts, charges, run := {}, [], [], [], RunPending;
      FillsNone(g);
      for i := 0 to |g.order|
        invariant manual == {} && artifacts == [] && starts == [] && charges == [] && run == RunPending
        invariant FilledTo(g, i, status, attempts)
      {
        FillsNext(g, i, status, attempts);
        status := status[g.order[i] := Pending];
        attempts := attempts[g.order[i] := 0];
      }
      FillsAll(g, status, attempts);
    }

    method SetRunStatus(s: RunStatus)
      requires Valid()
      modifies this`run
      ensures State() == old(State()).(run := s)
    {
      run := s;
    }

    /** setNodeStatus: the status and error columns of the row are replaced, the attempts
        column only when a value is given. An unknown row is an error that changes nothing. */
    method SetNodeStatus(v: Id, s: NodeStatus, count: Option<nat>, overridden: bool) returns (found: bool)
      requires Valid()
      modifies this`status, this`attempts, this`manual
      ensures Valid()
      ensures found <==> v in graph.dependsOn
      ensures !found ==> State() == old(State())
      ensures found ==>
                && status == old(status)[v := s]
                && attempts == (if count.Some? then old(attempts)[v := count.value] else old(attempts))
                && manual == if overridden then old(manual) + {v} else old(manual) - {v}
    {
      if v !in status {
        return false;
      }
      found := true;
      status := status[v := s];
      match count {
        case Some(n) => attempts := attempts[v := n];
        case None =>
      }
      manual := if overridden then manual + {v} else manual - {v};
    }

    function ListRunnableNodes(): seq<Id>
      reads this
    {
      Runnable(graph, status)
    }

    /** The pending rows that depend on v, in row order. */
    static function PendingDependents(g: Graph, st: StatusMap, v: Id, order: seq<Id>): (r: seq<Id>)
      ensures forall w :: w in r <==> w in order && g.Edge(v, w) && w in st && st[w].Pending?
    {
      if order == [] then []
      else
        (if g.Edge(v, order[0]) && order[0] in st && st[order[0]].Pending? then [order[0]] else [])
        + PendingDependents(g, st, v, order[1..])
    }

    /** blockDependents. The list of dependents is a snapshot: rows that a nested call has
        blocked meanwhile are written again. Every nested call happens after at least one
        pending row was blocked, so the number of pending rows bounds the recursion on
        every graph, with or without cycles. */
    method BlockDependents(v: Id)
      requires Valid()
      modifies this`status, this`manual, this`attempts
      ensures Valid()
      ensures State() == Block(graph, old(State()), v)
      decreases |WithStatus(status, Pending)|
    {
      hide PartlyBlocked, MarksKept, Downstream, Cleared, Graph.Edge, Propagated;
      ghost var before, manualBefore := status, manual;
      var dependents := PendingDependents(graph, status, v, graph.order);
      BlockingStarts(graph, before, v, manual);
      NoneCleared(before, dependents);
      for i := 0 to |dependents|
        invariant Valid() && attempts == old(attempts)
        invariant PartlyBlocked(graph, before, status, v)
        invariant Cleared(status, dependents, i)
        invariant MarksKept(manualBefore, manual, before, status)
      {
        var node := dependents[i];
        ClearedFurther(graph, before, status, v, dependents, i);
        BlockedFurther(graph, before, status, v, node);
        MarksAfterBlocking(graph, before, status, v, node, manualBefore, manual);
        ghost var inner := status[node := Blocked];
        var _ := SetNodeStatus(node, Blocked, None, false);
        BlockDependents(node);
        assert status == Propagated(graph, inner, node);
      }
      AllCleared(graph, before, status, v, dependents);
      BlockingEnds(graph, before, status, v, manualBefore, manual);
    }

    /** recomputeBlockedNodes: every row is judged on the statuses before the pass. */
    method RecomputeBlockedNodes()
      requires Valid()
      modifies this`status, this`manual, this`attempts
      ensures Valid()
      ensures State() == Recompute(graph, old(State()))
    {
      hide PartlyRepaired, MarksKept;
      var snapshot := status;
      ghost var manualBefore := manual;
      RepairStarts(graph, snapshot, manual);
      for i := 0 to |graph.order|
        invariant Valid() && attempts == old(attempts)
        invariant PartlyRepaired(graph, snapshot, status, i)
        invariant MarksKept(manualBefore, manual, snapshot, status)
      {
        var v := graph.order[i];
        RepairFurther(graph, snapshot, status, i, manualBefore, manual);
        if snapshot[v].Blocked? && !HasFailedDependency(graph, snapshot, v) {
          var _ := SetNodeStatus(v, Pending, None, false);
        }
      }
      RepairEnds(graph, snapshot, status, manualBefore, manual);
    }

    method AppendArtifact(v: Id, value: Json)
      requires Valid()
      modifies this`artifacts
      ensures State() == old(State()).(artifacts := old(artifacts) + [Artifact(v, value)])
    {
      artifacts := artifacts + [Artifact(v, value)];
    }

    method AppendSpendLedger(v: Id, amount: real)
      requires Valid()
      modifies this`charges
      ensures State() == old(State()).(charges := old(charges) + [Charge(v, amount)])
    {
      charges := charges + [Charge(v, amount)];
    }

    /** appendAgentTask for a starting attempt. */
    method AppendStart(v: Id, attempt: nat, upstream: map<Id, Json>)
      requires Valid()
      modifies this`starts
      ensures State() == old(State()).(starts := old(starts) + [Start(v, attempt, upstream, old(State()).NodeRows())])
    {
      starts := starts + [Start(v, attempt, upstream, State().NodeRows())];
    }
  }
}
