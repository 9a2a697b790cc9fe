/**
 How runs end: which nodes complete, and what the run status then says.
*/
module RunOutcomes {
  import opened Graphs
  import opened Blocking
  import opened Runs
  import opened Scheduling

  // ---- When a node completes ----

  /** With `made` attempts behind it, v still completes: it needs no token or the run has
      one, and some attempt within the retry limit is accepted after only throwing ones. */
  ghost predicate WillSucceed(e: Env, v: Id, made: nat) {
    && (v in e.graph.paid ==> e.token)
    && exists a: nat :: Reaches(e, v, made, a)
  }

  ghost predicate Reaches(e: Env, v: Id, made: nat, a: nat) {
    && made < a <= e.maxRetries + 1
    && Accepted(e, e.outcome(v, a))
    && forall b: nat :: made < b < a ==> e.outcome(v, b).Threw?
  }

  lemma {:induction false} AttemptsDone(e: Env, s: State, v: Id, attempt: nat)
    requires v in e.graph.dependsOn
    ensures Attempts(e, s, v, attempt).done <==> exists a: nat :: Reaches(e, v, attempt, a)
    decreases e.maxRetries + 1 - attempt
  {
    if attempt <= e.maxRetries {
      var o := e.outcome(v, attempt + 1);
      if o.Settled? {
        assert Accepted(e, o) <==> Reaches(e, v, attempt, attempt + 1);
        assert forall a: nat :: Reaches(e, v, attempt, a) ==> a == attempt + 1;
      } else {
        ThrewOnce(e, v, attempt, attempt + 1);
        if attempt + 1 <= e.maxRetries {
          AttemptsDone(e, Started(e, s, v, attempt + 1), v, attempt + 1);
        }
      }
    }
  }

  lemma ThrewOnce(e: Env, v: Id, made: nat, next: nat)
    requires next == made + 1 && e.outcome(v, next).Threw?
    ensures (exists a: nat :: Reaches(e, v, made, a)) <==> exists a: nat :: Reaches(e, v, next, a)
  {
    if a: nat :| Reaches(e, v, made, a) {
      assert Reaches(e, v, next, a);
    }
    if a: nat :| Reaches(e, v, next, a) {
      assert Reaches(e, v, made, a);
    }
  }

  /** executeNode returns true exactly when the node can still complete. */
  lemma ExecuteNodeDone(e: Env, s: State, v: Id, made: nat)
    requires v in e.graph.dependsOn
    ensures ExecuteNode(e, s, v, made).done <==> WillSucceed(e, v, made)
  {
    AttemptsDone(e, s, v, made);
  }

  /** A round runs to its end exactly when every node of its work list can still complete. */
  lemma {:induction false} RoundDone(e: Env, s: State, work: seq<Id>, snapshot: map<Id, nat>)
    requires forall v :: v in work ==> v in e.graph.dependsOn && v in snapshot
    ensures Round(e, s, work, snapshot).done <==> forall v :: v in work ==> WillSucceed(e, v, snapshot[v])
    decreases |work|
  {
    if work != [] {
      ExecuteNodeDone(e, s, work[0], snapshot[work[0]]);
      RoundDone(e, ExecuteNode(e, s, work[0], snapshot[work[0]]).s, work[1..], snapshot);
      assert forall v :: v in work <==> v == work[0] || v in work[1..];
    }
  }

  // ---- When the scheduling loop is not cut short ----

  /** Every uncompleted one of these nodes can still complete with the attempts it has left. */
  ghost predicate Succeed(e: Env, s: State, nodes: set<Id>) {
    forall v :: v in nodes && v !in s.Done() ==> v in s.attempts && WillSucceed(e, v, s.attempts[v])
  }

  /** A round runs to its end exactly when the next level can complete. */
  lemma RoundFromDone(e: Env, s: State)
    requires e.graph.Valid() && s.Covers(e.graph)
    ensures RoundFrom(e, s).done <==>
      forall v :: v in Runnable(e.graph, s.status) ==> v in s.attempts && WillSucceed(e, v, s.attempts[v])
    ensures Front(e.graph, s.status) ==>
      (RoundFrom(e, s).done <==> Succeed(e, s, Level(e.graph, s.Done(), Halted(s.status), 1)))
  {
    RunnableExact(e.graph, s.status);
    RoundDone(e, s, Runnable(e.graph, s.status), s.attempts);
    if Front(e.graph, s.status) {
      RunnableIsNextLevel(e.graph, s);
    }
  }

  /** A finished round completed its work list and left the attempts of the rest alone. */
  lemma RoundLeaves(e: Env, s: State)
    requires e.graph.Valid() && s.Covers(e.graph) && RoundFrom(e, s).done
    ensures var t := Recompute(e.graph, RoundFrom(e, s).s);
            && (forall v :: v in t.Done() <==> v in s.Done() || v in Runnable(e.graph, s.status))
            && (forall v :: v in t.attempts <==> v in s.attempts)
            && (forall v :: v in s.attempts && v !in Runnable(e.graph, s.status) ==> t.attempts[v] == s.attempts[v])
  {
    hide RoundFrom, Runnable, Recomputed, Halted, WithStatus, Front, Level;
    RoundFromEffect(e, s);
    RoundAdvances(e, s);
  }

  lemma SucceedAfterRound(e: Env, s: State, nodes: set<Id>)
    requires e.graph.Valid() && s.Covers(e.graph) && RoundFrom(e, s).done
    ensures Succeed(e, Recompute(e.graph, RoundFrom(e, s).s), nodes) <==> Succeed(e, s, nodes)
  {
    hide RoundFrom, Runnable, WillSucceed, Recompute, WithStatus;
    RoundFromDone(e, s);
    RoundLeaves(e, s);
  }

  lemma SucceedLess(e: Env, s: State, some: set<Id>, all: set<Id>)
    requires some <= all && Succeed(e, s, all)
    ensures Succeed(e, s, some)
  {
  }

  lemma NothingLeft(e: Env, s: State)
    ensures Succeed(e, s, s.Done())
  {
  }

  /** The loop runs to its end exactly when every node of the level it can reach can complete,
      on every graph and however handlers end. */
  lemma {:induction false} RoundsDone(e: Env, s: State, fuel: nat)
    requires e.graph.Valid() && s.Covers(e.graph) && Front(e.graph, s.status)
    ensures Rounds(e, s, fuel).done <==> Succeed(e, s, Level(e.graph, s.Done(), Halted(s.status), fuel))
    decreases fuel
  {
    hide *;
    var g, done, halted := e.graph, s.Done(), Halted(s.status);
    LevelBase(g, done, halted);
    NothingLeft(e, s);
    RoundsUnfold(e, s, fuel);
    if fuel > 0 {
      if Runnable(g, s.status) == [] {
        NothingRunnable(g, s, fuel);
      } else {
        RoundFromDone(e, s);
        LevelMonotone(g, done, halted, 1, fuel);
        if Succeed(e, s, Level(g, done, halted, fuel)) {
          SucceedLess(e, s, Level(g, done, halted, 1), Level(g, done, halted, fuel));
        }
        if RoundFrom(e, s).done {
          RoundAdvances(e, s);
          RoundsDone(e, Recompute(g, RoundFrom(e, s).s), fuel - 1);
          LevelShift(g, done, halted, fuel - 1);
          SucceedAfterRound(e, s, Level(g, done, halted, fuel));
        }
      }
    }
  }

  // ---- The run status is truthful ----

  lemma AllCompletedMeansDone(g: Graph, s: State)
    requires g.Valid() && s.Covers(g)
    ensures AllCompleted(g, s.status) <==> g.order != [] && s.Done() == g.Ids()
  {
  }

  lemma {:induction false} RoundsStopped(e: Env, s: State, fuel: nat)
    requires e.graph.Valid() && s.Covers(e.graph) && !Rounds(e, s, fuel).done
    ensures !AllCompleted(e.graph, Rounds(e, s, fuel).s.status)
    decreases fuel
  {
    hide *;
    RoundsUnfold(e, s, fuel);
    if RoundFrom(e, s).done {
      RoundsStopped(e, Recompute(e.graph, RoundFrom(e, s).s), fuel - 1);
    } else {
      RoundFromStopped(e, s);
    }
  }

  lemma RoundFromStopped(e: Env, s: State)
    requires e.graph.Valid() && s.Covers(e.graph) && !RoundFrom(e, s).done
    ensures !AllCompleted(e.graph, RoundFrom(e, s).s.status)
  {
    RunnableExact(e.graph, s.status);
    RoundStops(e, s, Runnable(e.graph, s.status), s.attempts);
  }

  /** After executeRun the run is marked completed exactly when it has nodes and all of
      them completed, whatever graph, statuses and handlers it started from. */
  lemma CompletedIsTruthful(e: Env, s: State)
    requires e.graph.Valid() && s.Covers(e.graph)
    ensures ExecuteRun(e, s).run.RunCompleted? <==> AllCompleted(e.graph, ExecuteRun(e, s).status)
  {
    var start := s.(run := RunRunning);
    if !Rounds(e, start, SAFETY_CAP).done {
      RoundsStopped(e, start, SAFETY_CAP);
    }
  }

  lemma {:induction false} RoundsLeaveNoneRunning(e: Env, s: State, fuel: nat)
    requires e.graph.Valid() && s.Covers(e.graph)
    requires forall v :: v in s.status ==> !s.status[v].Running?
    ensures forall v :: v in Rounds(e, s, fuel).s.status ==> !Rounds(e, s, fuel).s.status[v].Running?
    decreases fuel
  {
    hide *;
    RoundsUnfold(e, s, fuel);
    if fuel > 0 && Runnable(e.graph, s.status) != [] {
      RoundLeavesNoneRunning(e, s);
      if RoundFrom(e, s).done {
        RoundsLeaveNoneRunning(e, Recompute(e.graph, RoundFrom(e, s).s), fuel - 1);
      }
    }
  }

  lemma RoundLeavesNoneRunning(e: Env, s: State)
    requires e.graph.Valid() && s.Covers(e.graph)
    requires forall v :: v in s.status ==> !s.status[v].Running?
    ensures var t := RoundFrom(e, s).s;
            && (forall v :: v in t.status ==> !t.status[v].Running?)
            && forall v :: v in Recompute(e.graph, t).status ==> !Recompute(e.graph, t).status[v].Running?
  {
    RunnableExact(e.graph, s.status);
    RoundEffect(e, s, Runnable(e.graph, s.status), s.attempts);
  }

  /** On a closed graph without cycles and of depth at most 200, with no node left running
      by a crash, executeRun never leaves the run marked running. */
  lemma NeverLeftRunning(e: Env, s: State)
    requires e.graph.Valid() && s.Covers(e.graph) && Front(e.graph, s.status)
    requires e.graph.order != [] && DepthAtMost(e.graph, SAFETY_CAP)
    requires forall v :: v in s.status ==> !s.status[v].Running?
    ensures ExecuteRun(e, s).run in {RunCompleted, RunFailed, RunBlocked}
    ensures forall v :: v in ExecuteRun(e, s).status ==> !ExecuteRun(e, s).status[v].Running?
  {
    hide Rounds, Level, Front, ExecuteRun, Halted, WithStatus, Finalized, AllCompleted;
    var g, start := e.graph, s.(run := RunRunning);
    var p := Rounds(e, start, SAFETY_CAP);
    SameRows(e, s, {});
    RoundsLeaveNoneRunning(e, start, SAFETY_CAP);
    ExecuteRunStatus(e, s);
    ExecuteRunEnds(e, s);
    FinalizedRunning(g, p.s.status);
    if p.done && Finalized(g, p.s.status).RunRunning? {
      RoundsReachLevel(e, start, SAFETY_CAP);
      DoneInside(g, start);
      LevelWiden(g, {}, {}, start.Done(), {}, SAFETY_CAP);
      LevelInside(g, start.Done(), {}, SAFETY_CAP);
      AllCompletedMeansDone(g, p.s);
    }
  }

  lemma FinalizedRunning(g: Graph, st: StatusMap)
    requires forall v :: v in st ==> !st[v].Running?
    ensures Finalized(g, st) in {RunCompleted, RunFailed, RunBlocked, RunRunning}
    ensures Finalized(g, st).RunRunning? ==> Halted(st) == {} && !AllCompleted(g, st)
  {
  }

  /** An empty run is the exception: it is left marked running for good. */
  lemma EmptyRunLeftRunning(e: Env, s: State)
    requires e.graph.order == [] && e.graph.Valid() && s.Covers(e.graph)
    ensures ExecuteRun(e, s).run.RunRunning?
  {
    assert s.(run := RunRunning).status == map[];
  }

  // ---- Exactly when a run completes ----

  /** From any rows in which nothing is blocked for no reason: executeRun marks the run
      completed exactly when it has nodes, level 200 is all of them, and every uncompleted one
      can complete with the attempts it has left. */
  lemma RunCompletes(e: Env, s: State)
    requires e.graph.Valid() && s.Covers(e.graph) && Front(e.graph, s.status)
    ensures var reach := Level(e.graph, s.Done(), Halted(s.status), SAFETY_CAP);
            && (Succeed(e, s, reach) ==> ExecuteRun(e, s).Done() == reach)
            && (ExecuteRun(e, s).run.RunCompleted? <==>
                  e.graph.order != [] && reach == e.graph.Ids() && Succeed(e, s, e.graph.Ids()))
  {
    hide *;
    var start := s.(run := RunRunning);
    SameRows(e, s, e.graph.Ids());
    SameRows(e, s, Level(e.graph, s.Done(), Halted(s.status), SAFETY_CAP));
    ExecuteRunStatus(e, s);
    CompletedIsTruthful(e, s);
    AllCompletedMeansDone(e.graph, ExecuteRun(e, s));
    RoundsDone(e, start, SAFETY_CAP);
    if Rounds(e, start, SAFETY_CAP).done {
      RoundsReachLevel(e, start, SAFETY_CAP);
    } else {
      RoundsStopped(e, start, SAFETY_CAP);
    }
  }

  /** Marking the run as running changes no row. */
  lemma SameRows(e: Env, s: State, nodes: set<Id>)
    ensures var start := s.(run := RunRunning);
            && start.status == s.status && start.Done() == s.Done()
            && (start.Covers(e.graph) <==> s.Covers(e.graph))
            && (Succeed(e, start, nodes) <==> Succeed(e, s, nodes))
  {
  }

  // ---- Fresh runs ----

  lemma FreshStart(e: Env)
    requires e.graph.Valid()
    ensures var s := Fresh(e.graph);
            && s.Covers(e.graph) && Front(e.graph, s.status) && s.Done() == {} && Halted(s.status) == {}
            && (forall v :: v in s.status ==> !s.status[v].Blocked? && !s.status[v].Running?)
            && (forall v :: v in e.graph.Ids() ==> v in s.attempts && s.attempts[v] == 0)
  {
  }

  /** How startRun ends, for every definition and every behaviour of the handlers: blocked if
      a node within the first 200 levels cannot complete, otherwise completed if those levels
      are all nodes and there are any, and otherwise left marked running. */
  lemma FreshRunEnds(e: Env)
    requires e.graph.Valid()
    ensures History(e, []).run ==
            if exists v :: v in Level(e.graph, {}, {}, SAFETY_CAP) && !WillSucceed(e, v, 0) then RunBlocked
            else if e.graph.order != [] && DepthAtMost(e.graph, SAFETY_CAP) then RunCompleted
            else RunRunning
  {
    hide Rounds, Level, WillSucceed, Fresh, Front, ExecuteRun, Succeed, Halted, WithStatus, History, Finalized;
    var s, reach := Fresh(e.graph), Level(e.graph, {}, {}, SAFETY_CAP);
    var start := s.(run := RunRunning);
    FreshStart(e);
    FreshHistory(e);
    LevelInside(e.graph, {}, {}, SAFETY_CAP);
    FreshSucceeds(e, reach);
    FreshSucceeds(e, e.graph.Ids());
    SameRows(e, s, reach);
    RunCompletes(e, s);
    RoundsDone(e, start, SAFETY_CAP);
    ExecuteRunEnds(e, s);
    if Rounds(e, start, SAFETY_CAP).done {
      RoundsReachLevel(e, start, SAFETY_CAP);
      RoundsNoBlocked(e, start, SAFETY_CAP);
      NothingHalted(e.graph, Rounds(e, start, SAFETY_CAP).s.status);
    }
  }

  lemma FreshHistory(e: Env)
    requires e.graph.Valid()
    ensures History(e, []) == ExecuteRun(e, Fresh(e.graph))
  {
  }

  lemma FreshSucceeds(e: Env, nodes: set<Id>)
    requires e.graph.Valid() && nodes <= e.graph.Ids()
    ensures Succeed(e, Fresh(e.graph), nodes) <==> forall v :: v in nodes ==> WillSucceed(e, v, 0)
  {
    hide WillSucceed;
    FreshStart(e);
  }

  lemma ExecuteRunEnds(e: Env, s: State)
    requires e.graph.Valid() && s.Covers(e.graph)
    ensures s.(run := RunRunning).Covers(e.graph)
    ensures var p := Rounds(e, s.(run := RunRunning), SAFETY_CAP);
            ExecuteRun(e, s).run == if p.done then Finalized(e.graph, p.s.status) else RunBlocked
  {
  }

  lemma NothingHalted(g: Graph, st: StatusMap)
    requires Halted(st) == {} && forall v :: v in st ==> !st[v].Blocked?
    ensures Finalized(g, st) in {RunCompleted, RunRunning}
  {
    assert forall v :: v in st ==> v !in Halted(st);
  }

  lemma {:induction false} RoundsNoBlocked(e: Env, s: State, fuel: nat)
    requires e.graph.Valid() && s.Covers(e.graph) && Rounds(e, s, fuel).done
    requires forall v :: v in s.status ==> !s.status[v].Blocked?
    ensures forall v :: v in Rounds(e, s, fuel).s.status ==> !Rounds(e, s, fuel).s.status[v].Blocked?
    decreases fuel
  {
    hide *;
    RoundsUnfold(e, s, fuel);
    if fuel > 0 && Runnable(e.graph, s.status) != [] {
      RoundBlocksNone(e, s);
      RoundsNoBlocked(e, Recompute(e.graph, RoundFrom(e, s).s), fuel - 1);
    }
  }

  lemma RoundBlocksNone(e: Env, s: State)
    requires e.graph.Valid() && s.Covers(e.graph) && RoundFrom(e, s).done
    requires forall v :: v in s.status ==> !s.status[v].Blocked?
    ensures var t := Recompute(e.graph, RoundFrom(e, s).s);
            forall v :: v in t.status ==> !t.status[v].Blocked?
  {
    RoundFromEffect(e, s);
  }

  /** startRun never ends in `failed`: a failing node stops the run as blocked. */
  lemma FreshRunNeverFailed(e: Env)
    requires e.graph.Valid()
    ensures !History(e, []).run.RunFailed?
  {
    hide *;
    FreshRunEnds(e);
  }

  /** Level-synchronous scheduling: if every node of a fresh run can complete, then after k
      rounds exactly the nodes of dependency depth at most k have completed, and startRun
      marks the run completed exactly when it has nodes and its depth is at most 200. */
  lemma FreshRunLevels(e: Env, k: nat)
    requires e.graph.Valid() && forall v :: v in e.graph.dependsOn ==> WillSucceed(e, v, 0)
    ensures var s := Fresh(e.graph).(run := RunRunning);
            && Rounds(e, s, k).done
            && Rounds(e, s, k).s.Done() == Level(e.graph, {}, {}, k)
    ensures History(e, []).run.RunCompleted? <==> e.graph.order != [] && DepthAtMost(e.graph, SAFETY_CAP)
  {
    hide Level, Rounds, Fresh, WillSucceed, History, DepthAtMost, Front;
    var s := Fresh(e.graph).(run := RunRunning);
    FreshStart(e);
    LevelInside(e.graph, {}, {}, k);
    LevelInside(e.graph, {}, {}, SAFETY_CAP);
    RoundsDone(e, s, k);
    RoundsReachLevel(e, s, k);
    FreshRunEnds(e);
  }

  // ---- Exactly when a manual operation completes the run ----

  /** For every graph, every state and both manual operations: with the rows as edited, the
      run ends completed exactly when level 200 above the completed nodes, without the halted
      ones, is everything, and every uncompleted node can complete with the attempts it has
      left. If the nodes of that level can complete, they are what ends up completed. */
  lemma OperationCompletes(e: Env, s: State, op: Op)
    requires e.graph.Valid() && s.Covers(e.graph) && op.node in e.graph.dependsOn
    ensures var edited := Edited(s, op);
            var reach := Level(e.graph, edited.Done(), Halted(edited.status), SAFETY_CAP);
            && (Succeed(e, edited, reach) ==> Apply(e, s, op).Done() == reach)
            && (Apply(e, s, op).run.RunCompleted? <==> reach == e.graph.Ids() && Succeed(e, edited, e.graph.Ids()))
  {
    hide *;
    ApplyUnfold(e, s, op);
    var edited := Edited(s, op);
    var start := Recompute(e.graph, edited);
    RecomputeKeeps(e.graph, edited);
    RecomputeSucceeds(e, edited, e.graph.Ids());
    RecomputeSucceeds(e, edited, Level(e.graph, edited.Done(), Halted(edited.status), SAFETY_CAP));
    RunCompletes(e, start);
    HasRows(e.graph, op.node);
  }

  lemma RecomputeSucceeds(e: Env, s: State, nodes: set<Id>)
    requires s.Covers(e.graph)
    ensures Succeed(e, Recompute(e.graph, s), nodes) <==> Succeed(e, s, nodes)
  {
    RecomputeKeeps(e.graph, s);
    hide WillSucceed, WithStatus, Recomputed;
  }

  lemma HasRows(g: Graph, v: Id)
    requires g.Valid() && v in g.dependsOn
    ensures g.order != []
  {
    assert v in g.order;
  }

  // ---- Recovery ----

  /** Overriding the only failed or awaiting node. If every remaining node can complete, the
      completed nodes end up being level 200 above those completed already and the
      overridden one, and the run is marked completed exactly when that is all of them,
      although each repair pass unblocks a single level. */
  lemma Recovery(e: Env, s: State, v: Id)
    requires e.graph.Valid() && s.Covers(e.graph) && v in e.graph.dependsOn
    requires Halted(s.status) <= {v}
    requires forall w :: w in e.graph.dependsOn && w != v && w !in s.Done() ==> WillSucceed(e, w, s.attempts[w])
    ensures var t := Apply(e, s, Override(v));
            && t.Done() == Level(e.graph, s.Done() + {v}, {}, SAFETY_CAP)
            && (t.run.RunCompleted? <==> Level(e.graph, s.Done() + {v}, {}, SAFETY_CAP) == e.graph.Ids())
  {
    hide Level, Apply, WillSucceed, Halted, WithStatus;
    OverriddenStatus(s, v);
    DoneInside(e.graph, Edited(s, Override(v)));
    LevelInside(e.graph, s.Done() + {v}, {}, SAFETY_CAP);
    OperationCompletes(e, s, Override(v));
  }

  lemma DoneInside(g: Graph, s: State)
    requires s.status.Keys == g.Ids()
    ensures s.Done() <= g.Ids()
  {
  }

  lemma OverriddenStatus(s: State, v: Id)
    requires v in s.status && Halted(s.status) <= {v}
    ensures Edited(s, Override(v)).Done() == s.Done() + {v} && Halted(Edited(s, Override(v)).status) == {}
  {
    var st := Edited(s, Override(v)).status;
    forall w | w in st
      ensures st[w] !in {Failed, AwaitingApproval, Running}
    {
      assert w != v ==> w !in Halted(s.status);
    }
  }

  /** A manual operation on a known node ends as the scheduler does from the edited rows. */
  lemma ApplyEnds(e: Env, s: State, op: Op)
    requires e.graph.Valid() && s.Covers(e.graph) && op.node in e.graph.dependsOn
    ensures Edited(s, op).Covers(e.graph)
    ensures var p := Rounds(e, Recompute(e.graph, Edited(s, op)).(run := RunRunning), SAFETY_CAP);
            Apply(e, s, op).status == p.s.status && Apply(e, s, op).Done() == p.s.Done()
    ensures Apply(e, s, op).run.RunCompleted? <==> AllCompleted(e.graph, Apply(e, s, op).status)
  {
    hide *;
    ApplyUnfold(e, s, op);
    ExecuteRunStatus(e, Recompute(e.graph, Edited(s, op)));
    CompletedIsTruthful(e, Recompute(e.graph, Edited(s, op)));
  }

  lemma ApplyUnfold(e: Env, s: State, op: Op)
    requires e.graph.Valid() && s.Covers(e.graph) && op.node in e.graph.dependsOn
    ensures Edited(s, op).Covers(e.graph)
    ensures Apply(e, s, op) == ExecuteRun(e, Recompute(e.graph, Edited(s, op)))
  {
  }

  lemma ExecuteRunStatus(e: Env, s: State)
    requires e.graph.Valid() && s.Covers(e.graph)
    ensures s.(run := RunRunning).Covers(e.graph)
    ensures var p := Rounds(e, s.(run := RunRunning), SAFETY_CAP);
            ExecuteRun(e, s).status == p.s.status && ExecuteRun(e, s).Done() == p.s.Done()
  {
  }

  /** In particular, on a closed graph without cycles of depth at most 200 the override
      brings the whole run to completion. */
  lemma RecoveryCompletes(e: Env, s: State, v: Id)
    requires e.graph.Valid() && s.Covers(e.graph) && v in e.graph.dependsOn
    requires Halted(s.status) <= {v}
    requires forall w :: w in e.graph.dependsOn && w != v && w !in s.Done() ==> WillSucceed(e, w, s.attempts[w])
    requires DepthAtMost(e.graph, SAFETY_CAP)
    ensures var t := Apply(e, s, Override(v));
            t.run.RunCompleted? && forall w :: w in t.status ==> t.status[w].Completed?
  {
    Recovery(e, s, v);
    LevelWiden(e.graph, {}, {}, s.Done() + {v}, {}, SAFETY_CAP);
    LevelInside(e.graph, s.Done() + {v}, {}, SAFETY_CAP);
    AllCompletedMeansDone(e.graph, Apply(e, s, Override(v)));
  }

  // ---- All histories ----

  /** Over every history of start, retry and override, one after another: the status is
      completed exactly when the run has nodes and all completed; and on a nonempty closed
      graph without cycles of depth at most 200 the run is never left running. */
  lemma {:induction false} HistoryStatusTruthful(e: Env, ops: seq<Op>)
    requires e.graph.Valid()
    ensures History(e, ops).run.RunCompleted? <==> AllCompleted(e.graph, History(e, ops).status)
    ensures e.graph.order != [] && DepthAtMost(e.graph, SAFETY_CAP) ==>
              && History(e, ops).run in {RunCompleted, RunFailed, RunBlocked}
              && forall v :: v in History(e, ops).status ==> !History(e, ops).status[v].Running?
  {
    hide *;
    if ops == [] {
      FreshTruthful(e);
    } else {
      var before, op := History(e, ops[..|ops|-1]), ops[|ops|-1];
      HistoryStatusTruthful(e, ops[..|ops|-1]);
      HistoryUnfold(e, ops);
      ApplyTruthful(e, before, op);
    }
  }

  lemma HistoryUnfold(e: Env, ops: seq<Op>)
    requires e.graph.Valid() && ops != []
    ensures History(e, ops) == Apply(e, History(e, ops[..|ops|-1]), ops[|ops|-1])
  {
  }

  lemma FreshTruthful(e: Env)
    requires e.graph.Valid()
    ensures History(e, []).run.RunCompleted? <==> AllCompleted(e.graph, History(e, []).status)
    ensures e.graph.order != [] && DepthAtMost(e.graph, SAFETY_CAP) ==>
              && History(e, []).run in {RunCompleted, RunFailed, RunBlocked}
              && forall v :: v in History(e, []).status ==> !History(e, []).status[v].Running?
  {
    CompletedIsTruthful(e, Fresh(e.graph));
    if e.graph.order != [] && DepthAtMost(e.graph, SAFETY_CAP) {
      NeverLeftRunning(e, Fresh(e.graph));
    }
  }

  lemma ApplyTruthful(e: Env, s: State, op: Op)
    requires e.graph.Valid() && s.Covers(e.graph)
    requires s.run.RunCompleted? <==> AllCompleted(e.graph, s.status)
    ensures Apply(e, s, op).run.RunCompleted? <==> AllCompleted(e.graph, Apply(e, s, op).status)
    ensures && e.graph.order != [] && DepthAtMost(e.graph, SAFETY_CAP)
            && s.run in {RunCompleted, RunFailed, RunBlocked}
            && (forall v :: v in s.status ==> !s.status[v].Running?)
            ==>
            && Apply(e, s, op).run in {RunCompleted, RunFailed, RunBlocked}
            && forall v :: v in Apply(e, s, op).status ==> !Apply(e, s, op).status[v].Running?
  {
    hide Rounds, Front, ExecuteRun, AllCompleted;
    if op.node in e.graph.dependsOn {
      ApplyEnds(e, s, op);
      if && e.graph.order != [] && DepthAtMost(e.graph, SAFETY_CAP)
         && (forall v :: v in s.status ==> !s.status[v].Running?)
      {
        EditedStart(e, s, op);
        NeverLeftRunning(e, Recompute(e.graph, Edited(s, op)));
      }
    }
  }

  lemma EditedStart(e: Env, s: State, op: Op)
    requires s.Covers(e.graph) && op.node in e.graph.dependsOn
    requires forall v :: v in s.status ==> !s.status[v].Running?
    ensures Edited(s, op).Covers(e.graph)
    ensures var start := Recompute(e.graph, Edited(s, op));
            Front(e.graph, start.status) && forall v :: v in start.status ==> !start.status[v].Running?
  {
    RecomputeKeeps(e.graph, Edited(s, op));
  }

  // ---- Deep chains: the cap does matter beyond depth 200 ----

  function ChainName(i: nat): (v: Id)
    ensures |v| == i
  {
    seq(i, _ => 'n')
  }

  function ChainOrder(n: nat): seq<Id> {
    seq(n, i requires 0 <= i < n => ChainName(i))
  }

  function Chain(n: nat): Graph {
    Graph(ChainOrder(n),
          map v | v in ChainOrder(n) :: if |v| == 0 then [] else [ChainName(|v|-1)],
          {})
  }

  lemma ChainValid(n: nat)
    ensures Chain(n).Valid() && Chain(n).Closed()
    ensures forall v :: v in Chain(n).dependsOn ==> |v| < n && v == ChainName(|v|)
  {
    forall v | v in Chain(n).dependsOn
      ensures |v| < n && v == ChainName(|v|)
    {
      var i :| 0 <= i < n && ChainOrder(n)[i] == v;
    }
    forall d, v | Chain(n).Edge(d, v)
      ensures d in Chain(n).dependsOn
    {
      assert ChainOrder(n)[|v|-1] == d;
    }
  }

  lemma ChainEdge(n: nat, v: Id)
    requires v in Chain(n).dependsOn
    ensures |v| == 0 ==> Chain(n).dependsOn[v] == []
    ensures |v| > 0 ==> var d := ChainName(|v|-1); d in Chain(n).dependsOn && Chain(n).dependsOn[v] == [d]
  {
    ChainValid(n);
    if |v| > 0 {
      assert Chain(n).Edge(ChainName(|v|-1), v);
    }
  }

  lemma {:induction false} ChainLevel(n: nat, k: nat, v: Id)
    requires v in Chain(n).dependsOn
    ensures v in Level(Chain(n), {}, {}, k) <==> |v| < k
  {
    hide Chain;
    ChainEdge(n, v);
    if k > 0 && |v| > 0 {
      ChainLevel(n, k-1, ChainName(|v|-1));
    }
  }

  lemma ChainDepth(n: nat, k: nat)
    ensures DepthAtMost(Chain(n), k) <==> n <= k
  {
    LevelInside(Chain(n), {}, {}, k);
    forall v | v in Chain(n).dependsOn
      ensures v in Level(Chain(n), {}, {}, k) <==> |v| < k
    {
      ChainLevel(n, k, v);
    }
    ChainValid(n);
    if n > k {
      assert ChainOrder(n)[k] == ChainName(k) && ChainName(k) in Chain(n).Ids();
    }
  }

  /** A chain of n nodes that can all complete is marked completed by startRun exactly when
      0 < n <= 200; a longer chain is left marked running with its tail still pending. */
  lemma DeepChainLeftRunning(e: Env, n: nat)
    requires e.graph == Chain(n) && forall v :: v in e.graph.dependsOn ==> WillSucceed(e, v, 0)
    ensures e.graph.Valid() && e.graph.Closed()
    ensures History(e, []).run == if 0 < n <= 200 then RunCompleted else RunRunning
  {
    hide History, Level, Chain, WillSucceed;
    ChainValid(n);
    ChainDepth(n, SAFETY_CAP);
    LevelInside(e.graph, {}, {}, SAFETY_CAP);
    FreshRunEnds(e);
    ChainSize(n);
  }

  lemma ChainSize(n: nat)
    ensures |Chain(n).order| == n
  {
  }
}
