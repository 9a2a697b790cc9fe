/**
 What every history of start, retry and override keeps: attempts are counted and
 bounded, dependencies are completed when a node starts, and each dependency that was
 not overridden supplies the artifact of its most recent attempt.
*/
module RunInvariants {
  import opened Optional
  import opened Graphs
  import opened Blocking
  import opened Runs
  import opened Scheduling
  import opened RunOutcomes

  function CountStarts(starts: seq<Start>, v: Id): nat {
    if starts == [] then 0
    else CountStarts(starts[..|starts|-1], v) + if starts[|starts|-1].node == v then 1 else 0
  }

  /** The artifact of v inserted last. */
  function Latest(artifacts: seq<Artifact>, v: Id): Option<Json> {
    if artifacts == [] then None
    else if artifacts[|artifacts|-1].node == v then Some(artifacts[|artifacts|-1].value)
    else Latest(artifacts[..|artifacts|-1], v)
  }

  /** The collected map holds, for each dependency that has artifacts, its latest one,
      and nothing else. */
  lemma {:induction false} CollectIsLatest(artifacts: seq<Artifact>, deps: seq<Id>)
    ensures forall d :: d in Collect(artifacts, deps) <==> d in deps && Latest(artifacts, d).Some?
    ensures forall d :: d in Collect(artifacts, deps) ==> Latest(artifacts, d) == Some(Collect(artifacts, deps)[d])
  {
    if artifacts != [] {
      CollectIsLatest(artifacts[..|artifacts|-1], deps);
    }
  }

  function AttemptBound(e: Env): nat {
    if e.maxRetries < 0 then 0 else e.maxRetries + 1
  }

  /** The attempts column counts the start rows of a node, and no count passes the limit. */
  ghost predicate Counted(e: Env, s: State)
    requires s.Covers(e.graph)
  {
    forall v :: v in e.graph.dependsOn ==>
      CountStarts(s.starts, v) == s.attempts[v] && s.attempts[v] <= AttemptBound(e)
  }

  /** v has completed by its handler, and its latest artifact is what its latest attempt
      settled with. */
  ghost predicate SuppliedBy(e: Env, rows: Rows, artifacts: seq<Artifact>, v: Id) {
    && v in rows.attempts
    && e.outcome(v, rows.attempts[v]).Settled?
    && Latest(artifacts, v) == Some(e.outcome(v, rows.attempts[v]).value)
  }

  ghost predicate Supplied(e: Env, s: State) {
    forall v :: v in s.status && s.status[v].Completed? && v !in s.manual ==>
      SuppliedBy(e, s.NodeRows(), s.artifacts, v)
  }

  /** At the moment of this start the node is running, every dependency is completed, and
      every dependency that was not overridden hands over the value its most recent
      attempt settled with. */
  ghost predicate SafeStart(e: Env, r: Start) {
    && r.node in e.graph.dependsOn
    && r.node in r.rows.status && r.rows.status[r.node].Running?
    && forall d :: d in e.graph.dependsOn[r.node] ==>
         && d in r.rows.status && r.rows.status[d].Completed?
         && (d !in r.rows.manual ==>
               && d in r.rows.attempts && e.outcome(d, r.rows.attempts[d]).Settled?
               && d in r.upstream && r.upstream[d] == e.outcome(d, r.rows.attempts[d]).value)
  }

  /** The n-th start of a node is its attempt number n. */
  ghost predicate Numbered(starts: seq<Start>) {
    forall i :: 0 <= i < |starts| ==> starts[i].attempt == CountStarts(starts[..i+1], starts[i].node)
  }

  ghost predicate Inv(e: Env, s: State) {
    && s.Covers(e.graph)
    && Counted(e, s)
    && Supplied(e, s)
    && (forall r :: r in s.starts ==> SafeStart(e, r))
    && Numbered(s.starts)
  }

  /** Every dependency of v is completed and v is not. */
  ghost predicate Ready(e: Env, s: State, v: Id) {
    && v in e.graph.dependsOn && v in s.status && !s.status[v].Completed?
    && forall d :: d in e.graph.dependsOn[v] ==> d in s.status && s.status[d].Completed?
  }

  // ---- Every update keeps the invariant ----

  lemma SetKeeps(e: Env, s: State, v: Id, st: NodeStatus)
    requires Inv(e, s) && v in e.graph.dependsOn
    requires st.Completed? ==> SuppliedBy(e, s.NodeRows(), s.artifacts, v)
    ensures Inv(e, SetStatus(s, v, st))
  {
  }

  lemma OverrideKeeps(e: Env, s: State, v: Id)
    requires Inv(e, s) && v in e.graph.dependsOn
    ensures Inv(e, Edited(s, Override(v)))
  {
  }

  lemma BlockKeeps(e: Env, s: State, v: Id)
    requires Inv(e, s)
    ensures Inv(e, Block(e.graph, s, v))
  {
    var t := Block(e.graph, s, v);
    forall w | w in t.status && t.status[w].Completed? && w !in t.manual
      ensures SuppliedBy(e, t.NodeRows(), t.artifacts, w)
    {
      if Downstream(e.graph, s.status, v, w) {
        DownstreamIsPending(e.graph, s.status, v, w);
      }
      assert SuppliedBy(e, s.NodeRows(), s.artifacts, w);
    }
  }

  lemma RecomputeKeepsInv(e: Env, s: State)
    requires Inv(e, s)
    ensures Inv(e, Recompute(e.graph, s))
  {
    var t := Recompute(e.graph, s);
    forall w | w in t.status && t.status[w].Completed? && w !in t.manual
      ensures SuppliedBy(e, t.NodeRows(), t.artifacts, w)
    {
      assert SuppliedBy(e, s.NodeRows(), s.artifacts, w);
    }
  }

  lemma {:induction false} NumberedAppend(starts: seq<Start>, r: Start)
    requires Numbered(starts) && r.attempt == CountStarts(starts, r.node) + 1
    ensures Numbered(starts + [r])
  {
    var more := starts + [r];
    assert more[..|starts|] == starts && more[..|starts|+1] == more;
    forall i | 0 <= i < |more|
      ensures more[i].attempt == CountStarts(more[..i+1], more[i].node)
    {
      if i < |starts| {
        assert more[..i+1] == starts[..i+1];
      } else {
        assert more[..|more|-1] == starts;
      }
    }
  }

  lemma CountAppend(starts: seq<Start>, r: Start, v: Id)
    ensures CountStarts(starts + [r], v) == CountStarts(starts, v) + if r.node == v then 1 else 0
  {
    assert (starts + [r])[..|starts|] == starts;
  }

  lemma StartedCounts(e: Env, s: State, v: Id)
    requires s.Covers(e.graph) && Counted(e, s) && Numbered(s.starts)
    requires v in e.graph.dependsOn && s.attempts[v] <= e.maxRetries
    ensures var t := Started(e, s, v, s.attempts[v] + 1);
            t.Covers(e.graph) && Counted(e, t) && Numbered(t.starts)
  {
    hide Numbered, Collect, CountStarts;
    var t := Started(e, s, v, s.attempts[v] + 1);
    var r := t.starts[|s.starts|];
    NumberedAppend(s.starts, r);
    forall w | w in e.graph.dependsOn
      ensures CountStarts(t.starts, w) == t.attempts[w] <= AttemptBound(e)
    {
      CountAppend(s.starts, r, w);
    }
  }

  lemma StartedIsSafe(e: Env, s: State, v: Id)
    requires s.Covers(e.graph) && Supplied(e, s) && Ready(e, s, v)
    ensures var t := Started(e, s, v, s.attempts[v] + 1);
            Supplied(e, t) && SafeStart(e, t.starts[|s.starts|]) && Ready(e, t, v)
  {
    var t := Started(e, s, v, s.attempts[v] + 1);
    CollectIsLatest(s.artifacts, e.graph.dependsOn[v]);
    forall w | w in t.status && t.status[w].Completed? && w !in t.manual
      ensures SuppliedBy(e, t.NodeRows(), t.artifacts, w)
    {
      assert SuppliedBy(e, s.NodeRows(), s.artifacts, w);
    }
    forall d | d in e.graph.dependsOn[v] && d !in t.manual
      ensures SuppliedBy(e, s.NodeRows(), s.artifacts, d) && d != v
    {
    }
  }

  lemma StartedKeeps(e: Env, s: State, v: Id)
    requires Inv(e, s) && Ready(e, s, v) && s.attempts[v] <= e.maxRetries
    ensures var t := Started(e, s, v, s.attempts[v] + 1);
            Inv(e, t) && Ready(e, t, v) && v in t.attempts && t.attempts[v] == s.attempts[v] + 1
  {
    StartedCounts(e, s, v);
    StartedIsSafe(e, s, v);
    hide Counted, Supplied, SafeStart, Numbered, Collect;
    var t := Started(e, s, v, s.attempts[v] + 1);
    assert forall r :: r in t.starts <==> r in s.starts || r == t.starts[|s.starts|];
  }

  lemma ArtifactKeeps(e: Env, s: State, v: Id, value: Json)
    requires Inv(e, s) && v in s.status && !s.status[v].Completed?
    ensures var t := s.(artifacts := s.artifacts + [Artifact(v, value)]);
            Inv(e, t) && Latest(t.artifacts, v) == Some(value)
  {
    var t := s.(artifacts := s.artifacts + [Artifact(v, value)]);
    assert t.artifacts[..|t.artifacts|-1] == s.artifacts;
    forall w | w in t.status && t.status[w].Completed? && w !in t.manual
      ensures SuppliedBy(e, t.NodeRows(), t.artifacts, w)
    {
      assert SuppliedBy(e, s.NodeRows(), s.artifacts, w);
    }
  }

  lemma SettledKeeps(e: Env, s: State, v: Id)
    requires Inv(e, s) && Ready(e, s, v) && e.outcome(v, s.attempts[v]).Settled?
    ensures Inv(e, AfterSettled(e, s, v, e.outcome(v, s.attempts[v])).s)
  {
    var o := e.outcome(v, s.attempts[v]);
    ArtifactKeeps(e, s, v, o.value);
    var kept := s.(artifacts := s.artifacts + [Artifact(v, o.value)]);
    var paid := kept.(charges := kept.charges + [Charge(v, o.cost)]);
    assert Inv(e, paid);
    SetKeeps(e, kept, v, Failed);
    BlockKeeps(e, SetStatus(kept, v, Failed), v);
    SetKeeps(e, kept, v, Completed);
    SetKeeps(e, paid, v, Completed);
  }

  lemma {:induction false} AttemptsKeep(e: Env, s: State, v: Id)
    requires Inv(e, s) && Ready(e, s, v) && v in s.attempts && v in e.graph.dependsOn
    ensures Inv(e, Attempts(e, s, v, s.attempts[v]).s)
    decreases e.maxRetries + 1 - s.attempts[v]
  {
    hide Inv, Started, Ready, AfterSettled, Block, SetStatus;
    var attempt := s.attempts[v];
    if attempt <= e.maxRetries {
      AttemptsUnfold(e, s, v, attempt);
      StartedKeeps(e, s, v);
      var t := Started(e, s, v, attempt + 1);
      if e.outcome(v, attempt + 1).Settled? {
        SettledKeeps(e, t, v);
      } else if attempt + 1 <= e.maxRetries {
        AttemptsKeep(e, t, v);
      } else {
        SetKeeps(e, t, v, Failed);
        BlockKeeps(e, SetStatus(t, v, Failed), v);
      }
    }
  }

  lemma ExecuteNodeKeeps(e: Env, s: State, v: Id)
    requires Inv(e, s) && Ready(e, s, v)
    ensures Inv(e, ExecuteNode(e, s, v, s.attempts[v]).s)
  {
    hide Attempts, SetStatus, Block;
    SetKeeps(e, s, v, AwaitingApproval);
    BlockKeeps(e, SetStatus(s, v, AwaitingApproval), v);
    AttemptsKeep(e, s, v);
  }

  /** While one node of the round completes, the others stay ready. */
  lemma ReadyKept(e: Env, s: State, v: Id, p: Progress, w: Id)
    requires s.Covers(e.graph) && NodeEffect(s, v, p) && p.done && Ready(e, s, w) && w != v
    ensures Ready(e, p.s, w) && p.s.attempts[w] == s.attempts[w]
  {
  }

  lemma {:induction false} RoundKeepsInv(e: Env, s: State, work: seq<Id>, snapshot: map<Id, nat>)
    requires s.Covers(e.graph) && Inv(e, s) && Distinct(work)
    requires forall v :: v in work ==>
               v in e.graph.dependsOn && Ready(e, s, v) && v in snapshot && snapshot[v] == s.attempts[v]
    ensures Inv(e, Round(e, s, work, snapshot).s)
    decreases |work|
  {
    hide ExecuteNode, Ready, Inv, NodeEffect;
    if work != [] {
      var v := work[0];
      var p := ExecuteNode(e, s, v, snapshot[v]);
      ExecuteNodeEffect(e, s, v, snapshot[v]);
      ExecuteNodeKeeps(e, s, v);
      if p.done {
        RoundCovers(e, s, [v], snapshot);
        forall w | w in work[1..]
          ensures w in e.graph.dependsOn && Ready(e, p.s, w) && w in snapshot && snapshot[w] == p.s.attempts[w]
        {
          var i :| 0 < i < |work| && work[i] == w;
          ReadyKept(e, s, v, p, w);
        }
        RoundKeepsInv(e, p.s, work[1..], snapshot);
      }
    }
  }

  lemma RoundFromKeeps(e: Env, s: State)
    requires e.graph.Valid() && Inv(e, s)
    ensures Inv(e, RoundFrom(e, s).s)
  {
    RunnableExact(e.graph, s.status);
    RoundKeepsInv(e, s, Runnable(e.graph, s.status), s.attempts);
  }

  lemma {:induction false} RoundsKeep(e: Env, s: State, fuel: nat)
    requires e.graph.Valid() && Inv(e, s) && s.Covers(e.graph)
    ensures Inv(e, Rounds(e, s, fuel).s)
    decreases fuel
  {
    hide *;
    RoundsUnfold(e, s, fuel);
    if fuel > 0 && Runnable(e.graph, s.status) != [] {
      RoundFromKeeps(e, s);
      if RoundFrom(e, s).done {
        RecomputeKeepsInv(e, RoundFrom(e, s).s);
        RoundsKeep(e, Recompute(e.graph, RoundFrom(e, s).s), fuel - 1);
      }
    }
  }

  lemma RunStatusIrrelevant(e: Env, s: State, r: RunStatus)
    ensures Inv(e, s.(run := r)) <==> Inv(e, s)
  {
  }

  lemma ExecuteRunKeeps(e: Env, s: State)
    requires e.graph.Valid() && s.Covers(e.graph) && Inv(e, s)
    ensures Inv(e, ExecuteRun(e, s))
  {
    hide Inv, Rounds;
    RunStatusIrrelevant(e, s, RunRunning);
    var p := Rounds(e, s.(run := RunRunning), SAFETY_CAP);
    RoundsKeep(e, s.(run := RunRunning), SAFETY_CAP);
    RunStatusIrrelevant(e, p.s, ExecuteRun(e, s).run);
  }

  lemma FreshHolds(e: Env)
    ensures Inv(e, Fresh(e.graph))
  {
  }

  lemma ApplyKeeps(e: Env, s: State, op: Op)
    requires e.graph.Valid() && s.Covers(e.graph) && Inv(e, s)
    ensures Inv(e, Apply(e, s, op))
  {
    if op.node in e.graph.dependsOn {
      ApplyUnfold(e, s, op);
      match op {
        case Retry(v) => SetKeeps(e, s, v, Pending);
        case Override(v) => OverrideKeeps(e, s, v);
      }
      RecomputeKeepsInv(e, Edited(s, op));
      ExecuteRunKeeps(e, Recompute(e.graph, Edited(s, op)));
    }
  }

  lemma {:induction false} HistoryKeeps(e: Env, ops: seq<Op>)
    requires e.graph.Valid()
    ensures Inv(e, History(e, ops))
  {
    if ops == [] {
      FreshHolds(e);
      ExecuteRunKeeps(e, Fresh(e.graph));
    } else {
      HistoryKeeps(e, ops[..|ops|-1]);
      HistoryUnfold(e, ops);
      ApplyKeeps(e, History(e, ops[..|ops|-1]), ops[|ops|-1]);
    }
  }

  // ---- The results ----

  /** Dependency safety over every history, on any graph. */
  lemma DependencySafety(e: Env, ops: seq<Op>, r: Start)
    requires e.graph.Valid() && r in History(e, ops).starts
    ensures SafeStart(e, r)
  {
    HistoryKeeps(e, ops);
  }

  /** Retry bound over every history: a node is started max_retries + 1 times at most, no
      matter how often it is retried by hand; its starts are the attempts 1, 2, 3, ...,
      so no attempt of a node ever happens twice. */
  lemma AttemptsBounded(e: Env, ops: seq<Op>, v: Id)
    requires e.graph.Valid() && v in e.graph.dependsOn
    ensures var s := History(e, ops);
            && CountStarts(s.starts, v) == s.attempts[v] <= AttemptBound(e)
            && (forall r :: r in s.starts && r.node == v ==> 1 <= r.attempt <= AttemptBound(e))
            && StartsAscend(s.starts, v)
  {
    HistoryKeeps(e, ops);
    hide History, SafeStart, Supplied;
    NumberedAscends(History(e, ops).starts, v);
  }

  ghost predicate StartsAscend(starts: seq<Start>, v: Id) {
    forall i, j :: 0 <= i < j < |starts| && starts[i].node == v && starts[j].node == v ==>
                     starts[i].attempt < starts[j].attempt
  }

  lemma NumberedAscends(starts: seq<Start>, v: Id)
    requires Numbered(starts)
    ensures forall r :: r in starts && r.node == v ==> 1 <= r.attempt <= CountStarts(starts, v)
    ensures StartsAscend(starts, v)
  {
    forall i | 0 <= i < |starts| && starts[i].node == v
      ensures 1 <= starts[i].attempt <= CountStarts(starts, v)
    {
      CountGrows(starts, i + 1, |starts|, v);
      CountStep(starts, i);
      assert starts[..|starts|] == starts;
    }
    forall i, j | 0 <= i < j < |starts| && starts[i].node == v && starts[j].node == v
      ensures starts[i].attempt < starts[j].attempt
    {
      CountGrows(starts, i + 1, j, v);
      CountStep(starts, j);
    }
  }

  lemma CountStep(starts: seq<Start>, i: nat)
    requires i < |starts|
    ensures CountStarts(starts[..i+1], starts[i].node) == CountStarts(starts[..i], starts[i].node) + 1
  {
    assert starts[..i+1][..i] == starts[..i];
  }

  lemma {:induction false} CountGrows(starts: seq<Start>, i: nat, j: nat, v: Id)
    requires i <= j <= |starts|
    ensures CountStarts(starts[..i], v) <= CountStarts(starts[..j], v)
  {
    if i < j {
      CountGrows(starts, i, j-1, v);
      assert starts[..j][..j-1] == starts[..j-1];
    }
  }

  // ---- Charges and artifacts ----

  /** One charge per start whose attempt settled with a cost that, on top of what was spent,
      stays within both caps. */
  function Billed(e: Env, starts: seq<Start>): seq<Charge> {
    if starts == [] then []
    else
      var last := starts[|starts|-1];
      var o := e.outcome(last.node, last.attempt);
      Billed(e, starts[..|starts|-1])
      + if && o.Settled? && o.cost > 0.0
           && o.taskSpend + o.cost <= e.policy.maxTask && o.daySpend + o.cost <= e.policy.maxDay
        then [Charge(last.node, o.cost)] else []
  }

  /** One artifact per start whose attempt settled, whatever it cost. */
  function Produced(e: Env, starts: seq<Start>): seq<Artifact> {
    if starts == [] then []
    else
      var last := starts[|starts|-1];
      var o := e.outcome(last.node, last.attempt);
      Produced(e, starts[..|starts|-1]) + if o.Settled? then [Artifact(last.node, o.value)] else []
  }

  ghost predicate Booked(e: Env, s: State) {
    s.charges == Billed(e, s.starts) && s.artifacts == Produced(e, s.starts)
  }

  /** What an attempt adds to the books once its handler call has ended. */
  lemma AttemptBooks(e: Env, s: State, v: Id, attempt: nat)
    requires v in e.graph.dependsOn && Booked(e, s)
    ensures var t, o := Started(e, s, v, attempt), e.outcome(v, attempt);
      && (o.Threw? ==> Booked(e, t))
      && (o.Settled? ==> Booked(e, AfterSettled(e, t, v, o).s))
  {
    hide Propagated;
    var t := Started(e, s, v, attempt);
    assert t.starts[..|t.starts|-1] == s.starts && t.starts[|t.starts|-1].node == v;
  }

  lemma {:induction false} AttemptsBook(e: Env, s: State, v: Id, attempt: nat)
    requires v in e.graph.dependsOn && Booked(e, s)
    ensures Booked(e, Attempts(e, s, v, attempt).s)
    decreases e.maxRetries + 1 - attempt
  {
    hide Booked, Attempts, Started, AfterSettled;
    AttemptsEnd(e, s, v, attempt);
    if attempt <= e.maxRetries {
      AttemptBooks(e, s, v, attempt + 1);
      AttemptsUnfold(e, s, v, attempt);
      var t := Started(e, s, v, attempt + 1);
      if e.outcome(v, attempt + 1).Threw? {
        if attempt + 1 <= e.maxRetries {
          AttemptsBook(e, t, v, attempt + 1);
        } else {
          SameBooks(e, t, Block(e.graph, SetStatus(t, v, Failed), v));
        }
      }
    }
  }

  lemma AttemptsEnd(e: Env, s: State, v: Id, attempt: nat)
    requires v in e.graph.dependsOn
    ensures attempt > e.maxRetries ==> Attempts(e, s, v, attempt) == Progress(s, false)
  {
  }

  lemma {:induction false} RoundBooks(e: Env, s: State, work: seq<Id>, snapshot: map<Id, nat>)
    requires forall v :: v in work ==> v in e.graph.dependsOn && v in snapshot
    requires Booked(e, s)
    ensures Booked(e, Round(e, s, work, snapshot).s)
    decreases |work|
  {
    hide Booked, Attempts;
    if work != [] {
      var p := ExecuteNode(e, s, work[0], snapshot[work[0]]);
      AttemptsBook(e, s, work[0], snapshot[work[0]]);
      SameBooks(e, s, Block(e.graph, SetStatus(s, work[0], AwaitingApproval), work[0]));
      if p.done {
        RoundBooks(e, p.s, work[1..], snapshot);
      }
    }
  }

  lemma SameBooks(e: Env, s: State, t: State)
    requires t.charges == s.charges && t.artifacts == s.artifacts && t.starts == s.starts
    ensures Booked(e, t) <==> Booked(e, s)
  {
  }

  lemma RoundFromBooks(e: Env, s: State)
    requires e.graph.Valid() && s.Covers(e.graph) && Booked(e, s)
    ensures Booked(e, RoundFrom(e, s).s)
  {
    hide Booked, Round;
    RunnableExact(e.graph, s.status);
    RoundBooks(e, s, Runnable(e.graph, s.status), s.attempts);
  }

  lemma {:induction false} RoundsBook(e: Env, s: State, fuel: nat)
    requires e.graph.Valid() && s.Covers(e.graph) && Booked(e, s)
    ensures Booked(e, Rounds(e, s, fuel).s)
    decreases fuel
  {
    hide Booked, RoundFrom, Rounds, Runnable;
    RoundsUnfold(e, s, fuel);
    if fuel > 0 && Runnable(e.graph, s.status) != [] {
      var t := RoundFrom(e, s).s;
      RoundFromBooks(e, s);
      SameBooks(e, t, Recompute(e.graph, t));
      if RoundFrom(e, s).done {
        RoundsBook(e, Recompute(e.graph, t), fuel - 1);
      }
    }
  }

  lemma ExecuteRunBooks(e: Env, s: State)
    requires e.graph.Valid() && s.Covers(e.graph) && Booked(e, s)
    ensures Booked(e, ExecuteRun(e, s))
  {
    hide Booked, Rounds;
    var start := s.(run := RunRunning);
    SameBooks(e, s, start);
    RoundsBook(e, start, SAFETY_CAP);
    SameBooks(e, Rounds(e, start, SAFETY_CAP).s, ExecuteRun(e, s));
  }

  /** Over every history: the charges are, in order, one per start whose attempt settled with an
      affordable cost, and the artifacts one per start whose attempt settled, also when its cost
      was refused. */
  lemma {:induction false} HistoryBooks(e: Env, ops: seq<Op>)
    requires e.graph.Valid()
    ensures History(e, ops).charges == Billed(e, History(e, ops).starts)
    ensures History(e, ops).artifacts == Produced(e, History(e, ops).starts)
  {
    hide ExecuteRun, Recompute, Billed, Produced;
    if ops == [] {
      EmptyBooks(e);
      ExecuteRunBooks(e, Fresh(e.graph));
    } else {
      var before, op := History(e, ops[..|ops|-1]), ops[|ops|-1];
      HistoryBooks(e, ops[..|ops|-1]);
      if op.node in e.graph.dependsOn {
        RepairBooks(e, before, op);
        ExecuteRunBooks(e, Recompute(e.graph, Edited(before, op)));
      }
    }
  }

  lemma EmptyBooks(e: Env)
    ensures Billed(e, []) == [] && Produced(e, []) == []
  {
  }

  lemma RepairBooks(e: Env, s: State, op: Op)
    requires s.Covers(e.graph) && op.node in e.graph.dependsOn && Booked(e, s)
    ensures Edited(s, op).Covers(e.graph) && Booked(e, Recompute(e.graph, Edited(s, op)))
  {
    hide Booked;
    SameBooks(e, s, Recompute(e.graph, Edited(s, op)));
  }

  // ---- Override marks ----

  /** The last manual operation on v was an override. */
  predicate Overridden(ops: seq<Op>, v: Id) {
    ops != [] &&
    (var last := ops[|ops|-1];
     if last.node == v then last.Override? else Overridden(ops[..|ops|-1], v))
  }

  /** The marked rows are these, and all of them are completed. */
  ghost predicate Marked(s: State, marks: set<Id>) {
    s.manual == marks && forall v :: v in marks ==> v in s.status && s.status[v].Completed?
  }

  lemma {:induction false} AttemptsMark(e: Env, s: State, v: Id, attempt: nat, marks: set<Id>)
    requires v in e.graph.dependsOn && Marked(s, marks) && v !in marks
    ensures Marked(Attempts(e, s, v, attempt).s, marks)
    decreases e.maxRetries + 1 - attempt
  {
    hide Downstream;
    if attempt <= e.maxRetries {
      AttemptsUnfold(e, s, v, attempt);
      var t, o := Started(e, s, v, attempt + 1), e.outcome(v, attempt + 1);
      if o.Settled? {
        StopMarks(e.graph, t.(artifacts := t.artifacts + [Artifact(v, o.value)]), v, Failed, marks);
      } else if attempt + 1 <= e.maxRetries {
        AttemptsMark(e, t, v, attempt + 1, marks);
      } else {
        StopMarks(e.graph, t, v, Failed, marks);
      }
    }
  }

  lemma StopMarks(g: Graph, s: State, v: Id, mark: NodeStatus, marks: set<Id>)
    requires Marked(s, marks) && v !in marks
    ensures Marked(Block(g, SetStatus(s, v, mark), v), marks)
  {
    hide Downstream;
    var t := SetStatus(s, v, mark);
    forall w | Downstream(g, t.status, v, w)
      ensures w !in marks
    {
      DownstreamIsPending(g, t.status, v, w);
    }
  }

  lemma {:induction false} RoundMarks(e: Env, s: State, work: seq<Id>, snapshot: map<Id, nat>, marks: set<Id>)
    requires s.Covers(e.graph) && Distinct(work) && Marked(s, marks)
    requires forall v :: v in work ==> v in e.graph.dependsOn && v in snapshot && s.status[v].Pending?
    ensures Marked(Round(e, s, work, snapshot).s, marks)
    decreases |work|
  {
    hide Attempts, Block;
    if work != [] {
      var v := work[0];
      var p := ExecuteNode(e, s, v, snapshot[v]);
      AttemptsMark(e, s, v, snapshot[v], marks);
      StopMarks(e.graph, s, v, AwaitingApproval, marks);
      if p.done {
        ExecuteNodeEffect(e, s, v, snapshot[v]);
        forall x | x in work[1..]
          ensures p.s.status[x].Pending?
        {
          var i :| 0 < i < |work| && work[i] == x;
        }
        RoundMarks(e, p.s, work[1..], snapshot, marks);
      }
    }
  }

  lemma RoundFromMarks(e: Env, s: State, marks: set<Id>)
    requires e.graph.Valid() && s.Covers(e.graph) && Marked(s, marks)
    ensures Marked(RoundFrom(e, s).s, marks)
  {
    hide Marked, Round;
    RunnableExact(e.graph, s.status);
    RoundMarks(e, s, Runnable(e.graph, s.status), s.attempts, marks);
  }

  lemma RepairMarks(g: Graph, s: State, marks: set<Id>)
    requires s.Covers(g) && Marked(s, marks)
    ensures Marked(Recompute(g, s), marks)
  {
  }

  lemma {:induction false} RoundsMark(e: Env, s: State, fuel: nat, marks: set<Id>)
    requires e.graph.Valid() && s.Covers(e.graph) && Marked(s, marks)
    ensures Marked(Rounds(e, s, fuel).s, marks)
    decreases fuel
  {
    hide *;
    RoundsUnfold(e, s, fuel);
    if fuel > 0 && Runnable(e.graph, s.status) != [] {
      RoundFromMarks(e, s, marks);
      if RoundFrom(e, s).done {
        RepairMarks(e.graph, RoundFrom(e, s).s, marks);
        RoundsMark(e, Recompute(e.graph, RoundFrom(e, s).s), fuel - 1, marks);
      }
    }
  }

  lemma ExecuteRunMarks(e: Env, s: State, marks: set<Id>)
    requires e.graph.Valid() && s.Covers(e.graph) && Marked(s, marks)
    ensures Marked(ExecuteRun(e, s), marks)
  {
    hide Rounds;
    RoundsMark(e, s.(run := RunRunning), SAFETY_CAP, marks);
  }

  function OverriddenIn(g: Graph, ops: seq<Op>): set<Id> {
    set v | v in g.dependsOn && Overridden(ops, v)
  }

  lemma OverriddenStep(g: Graph, ops: seq<Op>)
    ensures ops == [] ==> OverriddenIn(g, ops) == {}
    ensures ops != [] ==>
      var was, op := OverriddenIn(g, ops[..|ops|-1]), ops[|ops|-1];
      OverriddenIn(g, ops) == if op.node !in g.dependsOn then was
                              else if op.Override? then was + {op.node} else was - {op.node}
  {
  }

  /** Over every history, the rows marked as overridden are exactly the nodes whose last manual
      operation was an override, and they stay completed. */
  lemma {:induction false} MarksAreOverrides(e: Env, ops: seq<Op>)
    requires e.graph.Valid()
    ensures Marked(History(e, ops), OverriddenIn(e.graph, ops))
  {
    hide ExecuteRun, Recompute, Marked, OverriddenIn;
    var marks := OverriddenIn(e.graph, ops);
    OverriddenStep(e.graph, ops);
    if ops == [] {
      NoMarks(e);
      ExecuteRunMarks(e, Fresh(e.graph), marks);
    } else {
      var before, op := History(e, ops[..|ops|-1]), ops[|ops|-1];
      MarksAreOverrides(e, ops[..|ops|-1]);
      if op.node in e.graph.dependsOn {
        EditMarks(e.graph, before, op, OverriddenIn(e.graph, ops[..|ops|-1]));
        RepairMarks(e.graph, Edited(before, op), marks);
        ExecuteRunMarks(e, Recompute(e.graph, Edited(before, op)), marks);
      }
    }
  }

  lemma NoMarks(e: Env)
    ensures Marked(Fresh(e.graph), {})
  {
  }

  lemma EditMarks(g: Graph, s: State, op: Op, marks: set<Id>)
    requires s.Covers(g) && op.node in g.dependsOn && Marked(s, marks)
    ensures Edited(s, op).Covers(g)
    ensures Marked(Edited(s, op), if op.Override? then marks + {op.node} else marks - {op.node})
  {
  }
}
