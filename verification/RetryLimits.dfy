/**
 What the retry limit means for manual retries, and how it composes with the reflection
 loop around a handler.
*/
module RetryLimits {
  import opened Graphs
  import opened Blocking
  import opened Runs
  import opened Scheduling
  import opened RunOutcomes
  import opened RunInvariants

  // ---- A node without attempts left is never run again ----

  /** From s to t, no handler of v was called and v did not become completed. */
  ghost predicate Idle(s: State, t: State, v: Id) {
    && v in s.attempts && v in t.attempts && t.attempts[v] == s.attempts[v]
    && v in s.status && v in t.status && (t.status[v].Completed? ==> s.status[v].Completed?)
    && CountStarts(t.starts, v) == CountStarts(s.starts, v)
  }

  /** Executing another node starts no attempt of v. */
  lemma {:induction false} AttemptsIdle(e: Env, s: State, u: Id, attempt: nat, v: Id)
    requires s.Covers(e.graph) && u in e.graph.dependsOn && v in e.graph.dependsOn && u != v
    ensures Idle(s, Attempts(e, s, u, attempt).s, v)
    decreases e.maxRetries + 1 - attempt
  {
    if attempt <= e.maxRetries {
      AttemptsUnfold(e, s, u, attempt);
      var t, o := Started(e, s, u, attempt + 1), e.outcome(u, attempt + 1);
      assert t.starts[..|t.starts|-1] == s.starts;
      if o.Threw? && attempt + 1 <= e.maxRetries {
        AttemptsIdle(e, t, u, attempt + 1, v);
      }
    }
  }

  lemma ExecuteNodeIdle(e: Env, s: State, u: Id, attempt: nat, v: Id)
    requires s.Covers(e.graph) && u in e.graph.dependsOn && v in e.graph.dependsOn
    requires u == v ==> attempt > e.maxRetries
    ensures Idle(s, ExecuteNode(e, s, u, attempt).s, v)
  {
    if u != v {
      AttemptsIdle(e, s, u, attempt, v);
    }
  }

  lemma IdleThen(s: State, t: State, u: State, v: Id)
    requires Idle(s, t, v) && Idle(t, u, v)
    ensures Idle(s, u, v)
  {
  }

  lemma {:induction false} RoundIdle(e: Env, s: State, work: seq<Id>, snapshot: map<Id, nat>, v: Id)
    requires s.Covers(e.graph) && v in e.graph.dependsOn
    requires forall u :: u in work ==> u in e.graph.dependsOn && u in snapshot
    requires v in snapshot && snapshot[v] > e.maxRetries
    ensures Idle(s, Round(e, s, work, snapshot).s, v)
    decreases |work|
  {
    hide ExecuteNode;
    if work != [] {
      var p := ExecuteNode(e, s, work[0], snapshot[work[0]]);
      ExecuteNodeIdle(e, s, work[0], snapshot[work[0]], v);
      ExecuteNodeEffect(e, s, work[0], snapshot[work[0]]);
      if p.done {
        RoundIdle(e, p.s, work[1..], snapshot, v);
        IdleThen(s, p.s, Round(e, p.s, work[1..], snapshot).s, v);
      }
    }
  }

  lemma RoundFromIdle(e: Env, s: State, v: Id)
    requires e.graph.Valid() && s.Covers(e.graph) && v in e.graph.dependsOn && s.attempts[v] > e.maxRetries
    ensures Idle(s, RoundFrom(e, s).s, v)
  {
    hide Round;
    RunnableExact(e.graph, s.status);
    RoundIdle(e, s, Runnable(e.graph, s.status), s.attempts, v);
  }

  lemma RecomputeIdle(g: Graph, s: State, v: Id)
    requires s.Covers(g) && v in g.dependsOn
    ensures Idle(s, Recompute(g, s), v)
  {
  }

  lemma NothingIdle(e: Env, s: State, v: Id)
    requires s.Covers(e.graph) && v in e.graph.dependsOn
    ensures Idle(s, s, v)
  {
  }

  lemma IdleAttempts(s: State, t: State, v: Id)
    requires Idle(s, t, v)
    ensures v in s.attempts && v in t.attempts && t.attempts[v] == s.attempts[v]
  {
  }

  lemma {:induction false} RoundsIdle(e: Env, s: State, fuel: nat, v: Id)
    requires e.graph.Valid() && s.Covers(e.graph) && v in e.graph.dependsOn && s.attempts[v] > e.maxRetries
    ensures Idle(s, Rounds(e, s, fuel).s, v)
    decreases fuel
  {
    hide *;
    RoundsUnfold(e, s, fuel);
    NothingIdle(e, s, v);
    if fuel > 0 && Runnable(e.graph, s.status) != [] {
      var p := RoundFrom(e, s);
      RoundFromIdle(e, s, v);
      if p.done {
        var t := Recompute(e.graph, p.s);
        RecomputeIdle(e.graph, p.s, v);
        IdleThen(s, p.s, t, v);
        IdleAttempts(s, t, v);
        RoundsIdle(e, t, fuel - 1, v);
        IdleThen(s, t, Rounds(e, t, fuel - 1).s, v);
      }
    }
  }

  /** For every graph, every state and every manual operation, on whichever node: a node that
      has used up its attempts is not started. */
  lemma ExhaustedIsNeverRun(e: Env, s: State, op: Op, v: Id)
    requires e.graph.Valid() && s.Covers(e.graph) && v in e.graph.dependsOn && s.attempts[v] > e.maxRetries
    ensures Idle(if op.node in e.graph.dependsOn then Edited(s, op) else s, Apply(e, s, op), v)
    ensures CountStarts(Apply(e, s, op).starts, v) == CountStarts(s.starts, v)
  {
    hide Rounds, Recompute;
    if op.node in e.graph.dependsOn {
      var edited := Edited(s, op);
      var start := Recompute(e.graph, edited).(run := RunRunning);
      RecomputeIdle(e.graph, edited, v);
      RoundsIdle(e, start, SAFETY_CAP, v);
      IdleThen(edited, start, Rounds(e, start, SAFETY_CAP).s, v);
    }
  }

  /** So retrying it by hand never helps, whatever its dependencies and token: its handler is
      not called, it does not complete, and neither does the run. A node that failed because
      its handler kept throwing is always in this position, by ThrowingExhausts. */
  lemma RetryOfExhausted(e: Env, s: State, v: Id)
    requires e.graph.Valid() && s.Covers(e.graph) && v in e.graph.dependsOn && s.attempts[v] > e.maxRetries
    ensures var t := Apply(e, s, Retry(v));
            && CountStarts(t.starts, v) == CountStarts(s.starts, v)
            && v in t.status && !t.status[v].Completed? && !t.run.RunCompleted?
  {
    hide Apply, WillSucceed, Level, Halted, WithStatus;
    ExhaustedIsNeverRun(e, s, Retry(v), v);
    OperationCompletes(e, s, Retry(v));
    NoAttemptLeft(e, v, s.attempts[v]);
    RetriedIsOpen(e, s, v);
  }

  lemma NoAttemptLeft(e: Env, v: Id, made: nat)
    requires made > e.maxRetries
    ensures !WillSucceed(e, v, made)
  {
  }

  lemma RetriedIsOpen(e: Env, s: State, v: Id)
    requires s.Covers(e.graph) && v in e.graph.dependsOn
    ensures v in e.graph.Ids() && v !in Edited(s, Retry(v)).Done() && !Edited(s, Retry(v)).status[v].Completed?
  {
  }

  // ---- How such a retry ends when the dependencies are completed ----

  /** v depends on completed nodes only and u is not one of them. */
  ghost predicate Shielded(g: Graph, s: State, u: Id, v: Id) {
    && v in g.dependsOn && u != v && u !in g.dependsOn[v]
    && forall d :: d in g.dependsOn[v] ==> d in s.status && s.status[d].Completed?
  }

  lemma LastStep(g: Graph, st: StatusMap, src: Id, w: Id) returns (x: Id)
    requires Downstream(g, st, src, w)
    ensures g.Edge(x, w) && (x == src || (x in st && st[x].Pending?))
  {
    var p :| PendingPath(g, st, src, p) && p[|p|-1] == w;
    x := if |p| == 1 then src else p[|p|-2];
    assert |p| > 1 ==> g.Edge(p[|p|-1-1], p[|p|-1]);
  }

  /** Blocking never reaches a node whose dependencies are completed. */
  lemma StopSpares(g: Graph, s: State, u: Id, st: NodeStatus, v: Id)
    requires s.Covers(g) && u in g.dependsOn && Shielded(g, s, u, v)
    ensures Block(g, SetStatus(s, u, st), u).status[v] == s.status[v]
  {
    var t := SetStatus(s, u, st);
    if Downstream(g, t.status, u, v) {
      var x := LastStep(g, t.status, u, v);
    }
  }

  lemma {:induction false} AttemptsSpare(e: Env, s: State, u: Id, attempt: nat, v: Id)
    requires s.Covers(e.graph) && u in e.graph.dependsOn && Shielded(e.graph, s, u, v)
    ensures v in Attempts(e, s, u, attempt).s.status && Attempts(e, s, u, attempt).s.status[v] == s.status[v]
    decreases e.maxRetries + 1 - attempt
  {
    if attempt <= e.maxRetries {
      AttemptsUnfold(e, s, u, attempt);
      var t, o := Started(e, s, u, attempt + 1), e.outcome(u, attempt + 1);
      if o.Settled? {
        StopSpares(e.graph, t.(artifacts := t.artifacts + [Artifact(u, o.value)]), u, Failed, v);
      } else if attempt + 1 <= e.maxRetries {
        AttemptsSpare(e, t, u, attempt + 1, v);
      } else {
        StopSpares(e.graph, t, u, Failed, v);
      }
    }
  }

  /** v is pending with completed dependencies, but has no attempt left. */
  ghost predicate Exhausted(e: Env, s: State, v: Id) {
    && v in e.graph.dependsOn && v in s.status && v in s.attempts
    && s.status[v].Pending? && s.attempts[v] > e.maxRetries
    && forall d :: d in e.graph.dependsOn[v] ==> d in s.status && s.status[d].Completed?
  }

  /** What an exhausted node can be left as: pending, or awaiting the token it lacks. */
  ghost predicate LeftOpen(e: Env, t: State, v: Id) {
    v in t.status && (t.status[v].Pending? || (t.status[v].AwaitingApproval? && v in e.graph.paid && !e.token))
  }

  lemma {:induction false} RoundLeavesOpen(e: Env, s: State, work: seq<Id>, snapshot: map<Id, nat>, v: Id)
    requires s.Covers(e.graph) && Exhausted(e, s, v) && Distinct(work) && v in snapshot && snapshot[v] > e.maxRetries
    requires forall u :: u in work ==> u in e.graph.dependsOn && s.status[u].Pending? && u in snapshot
    ensures LeftOpen(e, Round(e, s, work, snapshot).s, v)
    decreases |work|
  {
    if work != [] {
      var u := work[0];
      var p := ExecuteNode(e, s, u, snapshot[u]);
      ExecuteNodeEffect(e, s, u, snapshot[u]);
      if u == v {
        StopEffect(e.graph, s, v, AwaitingApproval);
        StopKeepsMark(e.graph, s, v);
      } else {
        StopSpares(e.graph, s, u, AwaitingApproval, v);
        AttemptsSpare(e, s, u, snapshot[u], v);
        if p.done {
          forall x | x in work[1..]
            ensures p.s.status[x].Pending?
          {
            var i :| 0 < i < |work| && work[i] == x;
          }
          RoundLeavesOpen(e, p.s, work[1..], snapshot, v);
        }
      }
    }
  }

  /** Blocking the dependents of a node that stopped does not change its own status. */
  lemma StopKeepsMark(g: Graph, s: State, v: Id)
    requires v in s.status
    ensures Block(g, SetStatus(s, v, AwaitingApproval), v).status[v].AwaitingApproval?
  {
    var t := SetStatus(s, v, AwaitingApproval);
    if Downstream(g, t.status, v, v) {
      DownstreamIsPending(g, t.status, v, v);
    }
  }

  lemma RoundFromLeavesOpen(e: Env, s: State, v: Id)
    requires e.graph.Valid() && s.Covers(e.graph) && Exhausted(e, s, v)
    ensures Runnable(e.graph, s.status) != [] && !RoundFrom(e, s).done && LeftOpen(e, RoundFrom(e, s).s, v)
  {
    RunnableExact(e.graph, s.status);
    RoundLeavesOpen(e, s, Runnable(e.graph, s.status), s.attempts, v);
    RoundDone(e, s, Runnable(e.graph, s.status), s.attempts);
    NoAttemptLeft(e, v, s.attempts[v]);
    assert v in Runnable(e.graph, s.status);
  }

  /** Retrying an exhausted node whose dependencies are completed ends with the run marked
      blocked and the node pending, or awaiting approval if it lacks its token. */
  lemma RetryOfExhaustedBlocks(e: Env, s: State, v: Id)
    requires e.graph.Valid() && s.Covers(e.graph) && v in e.graph.dependsOn && s.attempts[v] > e.maxRetries
    requires forall d :: d in e.graph.dependsOn[v] ==> d in s.status && s.status[d].Completed? && d != v
    ensures var t := Apply(e, s, Retry(v));
            t.run.RunBlocked? && LeftOpen(e, t, v)
  {
    hide Apply, ExecuteRun, Rounds, RoundFrom, Recompute, Runnable;
    RetriedIsExhausted(e, s, v);
    ApplyUnfold(e, s, Retry(v));
    var start := Recompute(e.graph, Edited(s, Retry(v)));
    RoundFromLeavesOpen(e, start.(run := RunRunning), v);
    RoundsUnfold(e, start.(run := RunRunning), SAFETY_CAP);
    ExecuteRunStatus(e, start);
    ExecuteRunEnds(e, start);
  }

  lemma RetriedIsExhausted(e: Env, s: State, v: Id)
    requires e.graph.Valid() && s.Covers(e.graph) && v in e.graph.dependsOn && s.attempts[v] > e.maxRetries
    requires forall d :: d in e.graph.dependsOn[v] ==> d in s.status && s.status[d].Completed? && d != v
    ensures var t := Recompute(e.graph, Edited(s, Retry(v)));
            Edited(s, Retry(v)).Covers(e.graph) && Exhausted(e, t, v) && Exhausted(e, t.(run := RunRunning), v)
  {
  }

  // ---- When a retry works ----

  lemma RetriedStatus(s: State, v: Id)
    requires v in s.status && Halted(s.status) <= {v}
    ensures Edited(s, Retry(v)).Done() == s.Done() - {v} && Halted(Edited(s, Retry(v)).status) == {}
  {
    var st := Edited(s, Retry(v)).status;
    forall w | w in st
      ensures st[w] !in {Failed, AwaitingApproval, Running}
    {
      assert w != v ==> w !in Halted(s.status);
    }
  }

  /** Retrying the only failed or awaiting node. If it and every remaining node can complete,
      the completed nodes end up being level 200 above those completed before, without the
      retried one, and the run is marked completed exactly when that is all of them. */
  lemma RetryRecovery(e: Env, s: State, v: Id)
    requires e.graph.Valid() && s.Covers(e.graph) && v in e.graph.dependsOn
    requires Halted(s.status) <= {v} && WillSucceed(e, v, s.attempts[v])
    requires forall w :: w in e.graph.dependsOn && w != v && w !in s.Done() ==> WillSucceed(e, w, s.attempts[w])
    ensures var t := Apply(e, s, Retry(v));
            && t.Done() == Level(e.graph, s.Done() - {v}, {}, SAFETY_CAP)
            && (t.run.RunCompleted? <==> Level(e.graph, s.Done() - {v}, {}, SAFETY_CAP) == e.graph.Ids())
  {
    hide Level, Apply, WillSucceed, Halted, WithStatus;
    RetriedStatus(s, v);
    DoneInside(e.graph, Edited(s, Retry(v)));
    LevelInside(e.graph, s.Done() - {v}, {}, SAFETY_CAP);
    OperationCompletes(e, s, Retry(v));
  }

  /** At depth at most 200, retrying the only failed or awaiting node completes the run, with
      every remaining node able to complete, exactly when the node itself still can. */
  lemma RetryCompletes(e: Env, s: State, v: Id)
    requires e.graph.Valid() && s.Covers(e.graph) && v in e.graph.dependsOn
    requires Halted(s.status) <= {v} && DepthAtMost(e.graph, SAFETY_CAP)
    requires forall w :: w in e.graph.dependsOn && w != v && w !in s.Done() ==> WillSucceed(e, w, s.attempts[w])
    ensures Apply(e, s, Retry(v)).run.RunCompleted? <==> WillSucceed(e, v, s.attempts[v])
  {
    hide Level, Apply, WillSucceed, Halted, WithStatus;
    RetriedStatus(s, v);
    RetriedIsOpen(e, s, v);
    DoneInside(e.graph, Edited(s, Retry(v)));
    LevelWiden(e.graph, {}, {}, s.Done() - {v}, {}, SAFETY_CAP);
    LevelInside(e.graph, s.Done() - {v}, {}, SAFETY_CAP);
    OperationCompletes(e, s, Retry(v));
  }

  /** A node whose every remaining attempt throws ends failed with no attempt left. */
  lemma {:induction false} ThrowingExhausts(e: Env, s: State, v: Id, attempt: nat)
    requires s.Covers(e.graph) && v in e.graph.dependsOn && attempt <= e.maxRetries
    requires forall a :: attempt < a <= e.maxRetries + 1 ==> e.outcome(v, a).Threw?
    ensures var p := Attempts(e, s, v, attempt);
            && !p.done && v in p.s.status && p.s.status[v].Failed?
            && v in p.s.attempts && p.s.attempts[v] == e.maxRetries + 1
    decreases e.maxRetries + 1 - attempt
  {
    AttemptsUnfold(e, s, v, attempt);
    var t := Started(e, s, v, attempt + 1);
    if attempt + 1 <= e.maxRetries {
      ThrowingExhausts(e, t, v, attempt + 1);
    } else {
      FailureEffect(e.graph, t, v);
    }
  }

  /** The converse for one execution: a handler is called exactly when an attempt is left
      and the node needs no missing token. */
  lemma StartsExactlyWhenAttemptsLeft(e: Env, s: State, v: Id)
    requires s.Covers(e.graph) && v in e.graph.dependsOn
    ensures CountStarts(ExecuteNode(e, s, v, s.attempts[v]).s.starts, v) > CountStarts(s.starts, v)
       <==> s.attempts[v] <= e.maxRetries && (v in e.graph.paid ==> e.token)
  {
    if s.attempts[v] <= e.maxRetries {
      AttemptsCountUp(e, s, v, s.attempts[v]);
    }
  }

  lemma {:induction false} AttemptsCountUp(e: Env, s: State, v: Id, attempt: nat)
    requires s.Covers(e.graph) && v in e.graph.dependsOn && attempt <= e.maxRetries
    ensures CountStarts(Attempts(e, s, v, attempt).s.starts, v) > CountStarts(s.starts, v)
    decreases e.maxRetries + 1 - attempt
  {
    AttemptsUnfold(e, s, v, attempt);
    var t := Started(e, s, v, attempt + 1);
    assert t.starts[..|t.starts|-1] == s.starts;
    if e.outcome(v, attempt + 1).Threw? && attempt + 1 <= e.maxRetries {
      AttemptsCountUp(e, t, v, attempt + 1);
    }
  }

  // ---- Retries around reflection ----

  /** Handler calls made for v when attempt a of v makes calls(v, a) of them. */
  function HandlerCalls(starts: seq<Start>, v: Id, calls: (Id, nat) -> nat): nat {
    if starts == [] then 0
    else
      var last := starts[|starts|-1];
      HandlerCalls(starts[..|starts|-1], v, calls) + if last.node == v then calls(v, last.attempt) else 0
  }

  lemma {:induction false} HandlerCallsBounded(starts: seq<Start>, v: Id, calls: (Id, nat) -> nat, perAttempt: nat)
    requires forall a :: calls(v, a) <= perAttempt
    ensures HandlerCalls(starts, v, calls) <= CountStarts(starts, v) * perAttempt
  {
    if starts != [] {
      HandlerCallsBounded(starts[..|starts|-1], v, calls, perAttempt);
    }
  }

  /** Retry bounds compose: when every attempt makes at most `perAttempt` handler calls, as
      a reflected handler does with perAttempt = maxRetries + 1 of the reflection loop, no
      history of start, retry and override makes more than (max_retries + 1) * perAttempt. */
  lemma RetriesCompose(e: Env, ops: seq<Op>, v: Id, calls: (Id, nat) -> nat, perAttempt: nat)
    requires e.graph.Valid() && v in e.graph.dependsOn
    requires forall a :: calls(v, a) <= perAttempt
    ensures HandlerCalls(History(e, ops).starts, v, calls) <= AttemptBound(e) * perAttempt
  {
    AttemptsBounded(e, ops, v);
    hide History;
    HandlerCallsBounded(History(e, ops).starts, v, calls, perAttempt);
    TimesMonotone(CountStarts(History(e, ops).starts, v), AttemptBound(e), perAttempt);
  }

  lemma TimesMonotone(m: nat, n: nat, k: nat)
    requires m <= n
    ensures m * k <= n * k
  {
  }
}
