/**
 The state of one pipeline run and what each engine operation computes from it.
 These functions are the specification the classes in PipelineStore.dfy and
 PipelineEngine.dfy are proved against; the other modules prove what they promise.
*/
module Runs {
  import opened Graphs
  import opened Blocking

  datatype RunStatus = RunPending | RunRunning | RunCompleted | RunFailed | RunBlocked

  /** JSON text of an agent's artifacts. */
  type Json = string

  /** How one call of an agent handler ends: it throws, or it settles with artifacts
      and a cost, together with the spend totals the shared ledger reports then. */
  datatype Outcome = Threw | Settled(value: Json, cost: real, taskSpend: real, daySpend: real)

  datatype Policy = Policy(maxTask: real, maxDay: real)

  datatype Artifact = Artifact(node: Id, value: Json)

  datatype Charge = Charge(node: Id, amount: real)

  /** The columns of the node table that matter when an attempt starts. */
  datatype Rows = Rows(status: StatusMap, attempts: map<Id, nat>, manual: set<Id>)

  /** The agent task row inserted when an attempt starts, with the node table as it
      stands at that moment. */
  datatype Start = Start(node: Id, attempt: nat, upstream: map<Id, Json>, rows: Rows)

  /** `manual` holds the rows whose last error says that they were overridden. */
  datatype State = State(
    status: StatusMap,
    attempts: map<Id, nat>,
    manual: set<Id>,
    artifacts: seq<Artifact>,
    starts: seq<Start>,
    charges: seq<Charge>,
    run: RunStatus)
  {
    ghost predicate Covers(g: Graph) {
      status.Keys == g.Ids() && attempts.Keys == g.Ids()
    }

    function NodeRows(): Rows {
      Rows(status, attempts, manual)
    }

    function Done(): set<Id> {
      WithStatus(status, Completed)
    }
  }

  /** What a run is executed against: its graph, the definition's retry limit, whether
      the run carries an approval token, the budget policy, and how the handler of
      each node ends on each attempt. */
  datatype Env = Env(
    graph: Graph,
    maxRetries: int,
    token: bool,
    policy: Policy,
    outcome: (Id, nat) -> Outcome)

  datatype Progress = Progress(s: State, done: bool)

  // ---- Row updates ----

  function SetStatus(s: State, v: Id, st: NodeStatus): State {
    s.(status := s.status[v := st], manual := s.manual - {v})
  }

  ghost function Block(g: Graph, s: State, v: Id): State {
    s.(status := Propagated(g, s.status, v),
       manual := s.manual - set w | w in s.status && Downstream(g, s.status, v, w))
  }

  function Recompute(g: Graph, s: State): (t: State)
    requires s.Covers(g)
    ensures t.Covers(g)
  {
    s.(status := Recomputed(g, s.status),
       manual := s.manual - set w | w in s.status && s.status[w].Blocked? && !HasFailedDependency(g, s.status, w))
  }

  // ---- Upstream artifacts ----

  /** The artifact rows of the given dependencies folded in insertion order: the
      latest one per dependency wins. */
  function Collect(artifacts: seq<Artifact>, deps: seq<Id>): map<Id, Json> {
    if artifacts == [] then map[]
    else
      var earlier := Collect(artifacts[..|artifacts|-1], deps);
      var a := artifacts[|artifacts|-1];
      if a.node in deps then earlier[a.node := a.value] else earlier
  }

  // ---- Budget check ----

  predicate WithinBudget(p: Policy, taskSpend: real, daySpend: real, cost: real) {
    taskSpend + cost <= p.maxTask && daySpend + cost <= p.maxDay
  }

  /** The attempt ends with its node completed: it costs nothing, or its cost on top of what
      was spent stays within both caps. */
  predicate Accepted(e: Env, o: Outcome) {
    && o.Settled?
    && (o.cost > 0.0 ==> o.taskSpend + o.cost <= e.policy.maxTask && o.daySpend + o.cost <= e.policy.maxDay)
  }

  // ---- Executing one node ----

  function Started(e: Env, s: State, v: Id, attempt: nat): State
    requires v in e.graph.dependsOn
  {
    var r := SetStatus(s, v, Running).(attempts := s.attempts[v := attempt]);
    r.(starts := r.starts + [Start(v, attempt, Collect(r.artifacts, e.graph.dependsOn[v]), r.NodeRows())])
  }

  /** What follows a settled handler call: the artifact is kept even when the cost
      then breaks the budget. */
  ghost function AfterSettled(e: Env, s: State, v: Id, o: Outcome): Progress
    requires o.Settled?
  {
    var kept := s.(artifacts := s.artifacts + [Artifact(v, o.value)]);
    if o.cost > 0.0 && !WithinBudget(e.policy, o.taskSpend, o.daySpend, o.cost) then
      Progress(Block(e.graph, SetStatus(kept, v, Failed), v), false)
    else
      var paid := if o.cost > 0.0 then kept.(charges := kept.charges + [Charge(v, o.cost)]) else kept;
      Progress(SetStatus(paid, v, Completed), true)
  }

  /** The retry loop, entered with `attempt` attempts already made. */
  ghost function Attempts(e: Env, s: State, v: Id, attempt: nat): Progress
    requires v in e.graph.dependsOn
    decreases e.maxRetries + 1 - attempt
  {
    if attempt > e.maxRetries then
      Progress(s, false)
    else
      var started := Started(e, s, v, attempt + 1);
      match e.outcome(v, attempt + 1)
      case Settled(_, _, _, _) => AfterSettled(e, started, v, e.outcome(v, attempt + 1))
      case Threw =>
        if attempt + 1 <= e.maxRetries then
          Attempts(e, started, v, attempt + 1)
        else
          Progress(Block(e.graph, SetStatus(started, v, Failed), v), false)
  }

  ghost function ExecuteNode(e: Env, s: State, v: Id, attempt: nat): Progress
    requires v in e.graph.dependsOn
  {
    if v in e.graph.paid && !e.token then
      Progress(Block(e.graph, SetStatus(s, v, AwaitingApproval), v), false)
    else
      Attempts(e, s, v, attempt)
  }

  // ---- Executing a run ----

  /** One scheduling round over a snapshot of runnable rows, stopping at the first
      node that does not complete. */
  ghost function Round(e: Env, s: State, work: seq<Id>, snapshot: map<Id, nat>): Progress
    requires forall v :: v in work ==> v in e.graph.dependsOn && v in snapshot
    decreases |work|
  {
    if work == [] then Progress(s, true)
    else
      var p := ExecuteNode(e, s, work[0], snapshot[work[0]]);
      if !p.done then p else Round(e, p.s, work[1..], snapshot)
  }

  /** The round the scheduler starts in s. */
  ghost function RoundFrom(e: Env, s: State): (p: Progress)
    requires e.graph.Valid() && s.Covers(e.graph)
    ensures p.s.Covers(e.graph)
  {
    RunnableExact(e.graph, s.status);
    RoundCovers(e, s, Runnable(e.graph, s.status), s.attempts);
    Round(e, s, Runnable(e.graph, s.status), s.attempts)
  }

  lemma {:induction false} AttemptsCover(e: Env, s: State, v: Id, attempt: nat)
    requires v in e.graph.dependsOn && s.Covers(e.graph)
    ensures Attempts(e, s, v, attempt).s.Covers(e.graph)
    decreases e.maxRetries + 1 - attempt
  {
    if attempt + 1 <= e.maxRetries && e.outcome(v, attempt + 1).Threw? {
      AttemptsCover(e, Started(e, s, v, attempt + 1), v, attempt + 1);
    }
  }

  lemma {:induction false} RoundCovers(e: Env, s: State, work: seq<Id>, snapshot: map<Id, nat>)
    requires forall v :: v in work ==> v in e.graph.dependsOn && v in snapshot
    requires s.Covers(e.graph)
    ensures Round(e, s, work, snapshot).s.Covers(e.graph)
    decreases |work|
  {
    if work != [] {
      var v := work[0];
      AttemptsCover(e, s, v, snapshot[v]);
      var p := ExecuteNode(e, s, v, snapshot[v]);
      if p.done {
        RoundCovers(e, p.s, work[1..], snapshot);
      }
    }
  }

  /** The scheduling loop with `fuel` rounds left before the safety counter stops it. */
  ghost function Rounds(e: Env, s: State, fuel: nat): (p: Progress)
    requires e.graph.Valid() && s.Covers(e.graph)
    ensures p.s.Covers(e.graph)
    decreases fuel
  {
    if fuel == 0 || Runnable(e.graph, s.status) == [] then Progress(s, true)
    else
      var p := RoundFrom(e, s);
      if !p.done then p else Rounds(e, Recompute(e.graph, p.s), fuel - 1)
  }

  ghost predicate AllCompleted(g: Graph, st: StatusMap) {
    g.order != [] && forall v :: v in st ==> st[v].Completed?
  }

  ghost function Finalized(g: Graph, st: StatusMap): RunStatus {
    if AllCompleted(g, st) then RunCompleted
    else if exists v :: v in st && st[v].Failed? then RunFailed
    else if exists v :: v in st && st[v] in {Blocked, AwaitingApproval} then RunBlocked
    else RunRunning
  }

  const SAFETY_CAP: nat := 200

  ghost function Settle(e: Env, p: Progress): (t: State) {
    p.s.(run := if p.done then Finalized(e.graph, p.s.status) else RunBlocked)
  }

  ghost function ExecuteRun(e: Env, s: State): (t: State)
    requires e.graph.Valid() && s.Covers(e.graph)
    ensures t.Covers(e.graph)
  {
    Settle(e, Rounds(e, s.(run := RunRunning), SAFETY_CAP))
  }

  // ---- The engine's entry points ----

  function Fresh(g: Graph): (s: State)
    ensures s.Covers(g)
  {
    State(map v | v in g.dependsOn :: Pending, map v | v in g.dependsOn :: 0, {}, [], [], [], RunPending)
  }

  datatype Op = Retry(node: Id) | Override(node: Id)

  /** The row edit of a manual operation, before the repair pass; an unknown node is an
      error that changes nothing. */
  function Edited(s: State, op: Op): State {
    match op
    case Retry(v) => SetStatus(s, v, Pending)
    case Override(v) => SetStatus(s, v, Completed).(manual := s.manual + {v})
  }

  ghost function Apply(e: Env, s: State, op: Op): (t: State)
    requires e.graph.Valid() && s.Covers(e.graph)
    ensures t.Covers(e.graph)
  {
    if op.node !in e.graph.dependsOn then s
    else ExecuteRun(e, Recompute(e.graph, Edited(s, op)))
  }

  /** A whole history: startRun followed by any manual operations, one after another. */
  ghost function History(e: Env, ops: seq<Op>): (t: State)
    requires e.graph.Valid()
    ensures t.Covers(e.graph)
  {
    if ops == [] then ExecuteRun(e, Fresh(e.graph))
    else Apply(e, History(e, ops[..|ops|-1]), ops[|ops|-1])
  }
}
