/**
 The pipeline engine: loops that drive one run through the store. Agent handlers are
 calls into code outside this model; `outcome(v, attempt)` stands for how the handler
 of v ends on that attempt. Every method is proved to compute the function of Runs
 with the same name.
*/
module PipelineEngines {
  import opened Optional
  import opened Graphs
  import opened Blocking
  import opened Runs
  import opened PipelineStores

  class PipelineEngine {
    const store: PipelineStore
    const maxRetries: int
    const token: bool
    const policy: Policy
    const outcome: (Id, nat) -> Outcome

    constructor (store: PipelineStore, maxRetries: int, token: bool, policy: Policy, outcome: (Id, nat) -> Outcome)
      ensures this.store == store
      ensures Env() == Runs.Env(store.graph, maxRetries, token, policy, outcome)
    {
      this.store := store;
      this.maxRetries := maxRetries;
      this.token := token;
      this.policy := policy;
      this.outcome := outcome;
    }

    ghost function Env(): Env {
      Runs.Env(store.graph, maxRetries, token, policy, outcome)
    }

    method CollectUpstreamArtifacts(deps: seq<Id>) returns (merged: map<Id, Json>)
      ensures merged == Collect(store.artifacts, deps)
    {
      merged := map[];
      if deps == [] {
        CollectNothing(store.artifacts);
        return;
      }
      for i := 0 to |store.artifacts|
        invariant merged == Collect(store.artifacts[..i], deps)
      {
        var a := store.artifacts[i];
        assert store.artifacts[..i+1][..i] == store.artifacts[..i];
        if a.node in deps {
          merged := merged[a.node := a.value];
        }
      }
      assert store.artifacts[..|store.artifacts|] == store.artifacts;
    }

    static lemma {:induction false} CollectNothing(artifacts: seq<Artifact>)
      ensures Collect(artifacts, []) == map[]
    {
      if artifacts != [] {
        CollectNothing(artifacts[..|artifacts|-1]);
      }
    }

    /** executeNode on a row of the round's snapshot, which held `snapshotAttempts`. */
    method ExecuteNode(v: Id, snapshotAttempts: nat) returns (done: bool)
      requires store.Valid() && v in store.graph.dependsOn
      modifies store
      ensures store.Valid()
      ensures Progress(store.State(), done) == Runs.ExecuteNode(Env(), old(store.State()), v, snapshotAttempts)
    {
      hide Started, AfterSettled, Block, SetStatus, Accepted;
      if v in store.graph.paid && !token {
        StopAt(v, AwaitingApproval, None);
        return false;
      }
      var attempt := snapshotAttempts;
      ghost var goal := Runs.Attempts(Env(), store.State(), v, attempt);
      while attempt <= maxRetries
        invariant store.Valid()
        invariant Runs.Attempts(Env(), store.State(), v, attempt) == goal
        decreases maxRetries + 1 - attempt
      {
        attempt := attempt + 1;
        Begin(v, attempt);
        match outcome(v, attempt) {
          case Settled(value, cost, taskSpend, daySpend) =>
            done := Settle(v, attempt, value, cost, taskSpend, daySpend);
            return;
          case Threw =>
            if attempt <= maxRetries {
              continue;
            }
            StopAt(v, Failed, Some(attempt));
            return false;
        }
      }
      return false;
    }

    /** The start of an attempt: the row is set to running, then the upstream artifacts
        are read and the task row is inserted. */
    method Begin(v: Id, attempt: nat)
      requires store.Valid() && v in store.graph.dependsOn
      modifies store
      ensures store.Valid() && store.attempts[v] == attempt
      ensures store.State() == Started(Env(), old(store.State()), v, attempt)
    {
      var _ := store.SetNodeStatus(v, Running, Some(attempt), false);
      var upstream := CollectUpstreamArtifacts(store.graph.dependsOn[v]);
      store.AppendStart(v, attempt, upstream);
    }

    /** The node stops the run: its row is set and its dependents are blocked. */
    method StopAt(v: Id, s: NodeStatus, count: Option<nat>)
      requires store.Valid() && v in store.graph.dependsOn
      requires count.Some? ==> store.attempts[v] == count.value
      modifies store
      ensures store.Valid()
      ensures store.State() == Block(store.graph, SetStatus(old(store.State()), v, s), v)
    {
      ghost var before := store.State();
      var _ := store.SetNodeStatus(v, s, count, false);
      assert store.State() == SetStatus(before, v, s);
      store.BlockDependents(v);
    }

    /** What executeNode does once a handler call has settled. */
    method Settle(v: Id, attempt: nat, value: Json, cost: real, taskSpend: real, daySpend: real)
      returns (done: bool)
      requires store.Valid() && v in store.graph.dependsOn && store.attempts[v] == attempt
      modifies store
      ensures store.Valid()
      ensures Progress(store.State(), done)
           == AfterSettled(Env(), old(store.State()), v, Settled(value, cost, taskSpend, daySpend))
    {
      store.AppendArtifact(v, value);
      if cost > 0.0 {
        if !WithinBudget(policy, taskSpend, daySpend, cost) {
          StopAt(v, Failed, None);
          return false;
        }
        store.AppendSpendLedger(v, cost);
      }
      var _ := store.SetNodeStatus(v, Completed, Some(attempt), false);
      assert store.attempts == old(store.attempts);
      return true;
    }

    /** The inner loop of executeRun: the rows of the snapshot one after another, until one does
        not complete. */
    method RunRound(runnable: seq<Id>, snapshot: map<Id, nat>) returns (done: bool)
      requires store.Valid() && forall v :: v in runnable ==> v in store.graph.dependsOn && v in snapshot
      modifies store
      ensures store.Valid()
      ensures Progress(store.State(), done) == Round(Env(), old(store.State()), runnable, snapshot)
    {
      hide Runs.ExecuteNode, Attempts;
      ghost var round := Round(Env(), store.State(), runnable, snapshot);
      var rest := runnable;
      while rest != []
        invariant store.Valid()
        invariant forall v :: v in rest ==> v in store.graph.dependsOn && v in snapshot
        invariant Round(Env(), store.State(), rest, snapshot) == round
        decreases |rest|
      {
        done := ExecuteNode(rest[0], snapshot[rest[0]]);
        if !done {
          return;
        }
        rest := rest[1..];
      }
      return true;
    }

    /** executeRun. The run status is set to blocked and the loop left as soon as a node
        does not complete. */
    method ExecuteRun()
      requires store.Valid()
      modifies store
      ensures store.Valid()
      ensures store.State() == Runs.ExecuteRun(Env(), old(store.State()))
    {
      hide Finalized, Recompute, Round, Runnable, Recomputed;
      store.SetRunStatus(RunRunning);
      ghost var goal := Rounds(Env(), store.State(), SAFETY_CAP);
      var safety := 0;
      while safety < SAFETY_CAP
        invariant 0 <= safety <= SAFETY_CAP && store.Valid()
        invariant Rounds(Env(), store.State(), SAFETY_CAP - safety) == goal
      {
        safety := safety + 1;
        var runnable := store.ListRunnableNodes();
        if |runnable| == 0 {
          break;
        }
        RunnableExact(store.graph, store.status);
        ghost var round := RoundFrom(Env(), store.State());
        var done := RunRound(runnable, store.attempts);
        assert Progress(store.State(), done) == round;
        if !done {
          store.SetRunStatus(RunBlocked);
          return;
        }
        store.RecomputeBlockedNodes();
      }
      FinalizeRun();
    }

    method FinalizeRun()
      requires store.Valid()
      modifies store`run
      ensures store.State() == old(store.State()).(run := Finalized(store.graph, store.status))
    {
      var hasFailed := exists v :: v in store.status && store.status[v].Failed?;
      var hasBlocked := exists v :: v in store.status && store.status[v] in {Blocked, AwaitingApproval};
      var allCompleted := |store.graph.order| > 0 && forall v :: v in store.status ==> store.status[v].Completed?;
      if allCompleted {
        store.SetRunStatus(RunCompleted);
      } else if hasFailed {
        store.SetRunStatus(RunFailed);
      } else if hasBlocked {
        store.SetRunStatus(RunBlocked);
      } else {
        store.SetRunStatus(RunRunning);
      }
    }

    /** retryNode; an unknown node is reported and changes nothing. */
    method RetryNode(v: Id) returns (found: bool)
      requires store.Valid()
      modifies store
      ensures store.Valid()
      ensures found <==> v in store.graph.dependsOn
      ensures store.State() == Apply(Env(), old(store.State()), Retry(v))
    {
      if v !in store.status {
        return false;
      }
      var _ := store.SetNodeStatus(v, Pending, None, false);
      assert store.State() == Edited(old(store.State()), Retry(v));
      store.RecomputeBlockedNodes();
      ExecuteRun();
      return true;
    }

    /** overrideNode; an unknown node is reported and changes nothing. */
    method OverrideNode(v: Id) returns (found: bool)
      requires store.Valid()
      modifies store
      ensures store.Valid()
      ensures found <==> v in store.graph.dependsOn
      ensures store.State() == Apply(Env(), old(store.State()), Override(v))
    {
      found := store.SetNodeStatus(v, Completed, None, true);
      if !found {
        return;
      }
      assert store.State() == Edited(old(store.State()), Override(v));
      store.RecomputeBlockedNodes();
      ExecuteRun();
      return true;
    }
  }

  /** What startRun reads of a pipeline definition. */
  datatype Definition = Definition(nodes: seq<NodeDefinition>, maxRetries: int)

  /** startRun: createRun on a definition, then executeRun. A missing definition and one whose
      node ids repeat are errors. */
  method StartRun(definition: Option<Definition>, token: bool, policy: Policy, outcome: (Id, nat) -> Outcome)
    returns (engine: PipelineEngine?)
    ensures engine == null <==> definition.None? || GraphOf(definition.value.nodes).None?
    ensures engine != null ==>
              && fresh(engine.store) && engine.store.Valid()
              && engine.Env() == Env(GraphOf(definition.value.nodes).value, definition.value.maxRetries,
                                    token, policy, outcome)
              && engine.store.State() == History(engine.Env(), [])
  {
    match definition {
      case None =>
        engine := null;
      case Some(d) =>
        GraphOfHoldsEveryRow(d.nodes);
        match GraphOf(d.nodes) {
          case None =>
            engine := null;
          case Some(g) =>
            var store := new PipelineStore(g);
            var e := new PipelineEngine(store, d.maxRetries, token, policy, outcome);
            e.ExecuteRun();
            engine := e;
        }
    }
  }
}
