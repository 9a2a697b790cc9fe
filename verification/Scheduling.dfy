/**
 What the scheduling loop achieves, whatever the graph and however handlers end: after
 k rounds that were not cut short, the completed nodes are exactly level k above the
 nodes completed at the start. Termination, the safety cap, fresh runs, recovery and
 run status all follow from this.
*/
module Scheduling {
  import opened Graphs
  import opened Blocking
  import opened Runs

  // ---- One node, one round ----

  /** Executing a node completes it and nothing else, or stops the run with the node not
      completed and some pending nodes blocked. */
  ghost predicate NodeEffect(s: State, v: Id, p: Progress) {
    && p.s.status.Keys == s.status.Keys && p.s.attempts.Keys == s.attempts.Keys
    && (p.done ==> p.s.status == s.status[v := Completed])
    && (!p.done ==> v in s.status && p.s.status[v] in {s.status[v], Failed, AwaitingApproval})
    && (forall w :: w in s.status && w != v ==>
          p.s.status[w] == s.status[w] || (s.status[w].Pending? && p.s.status[w].Blocked?))
    && (forall w :: w in s.attempts && w != v ==> p.s.attempts[w] == s.attempts[w])
  }

  lemma StopEffect(g: Graph, s: State, v: Id, st: NodeStatus)
    requires v in s.status && st in {Failed, AwaitingApproval}
    ensures NodeEffect(s, v, Progress(Block(g, SetStatus(s, v, st), v), false))
  {
    var t := SetStatus(s, v, st);
    forall w | Downstream(g, t.status, v, w)
      ensures w != v
    {
      DownstreamIsPending(g, t.status, v, w);
    }
  }

  lemma StartedThen(e: Env, s: State, v: Id, attempt: nat, p: Progress)
    requires s.Covers(e.graph) && v in e.graph.dependsOn
    requires NodeEffect(Started(e, s, v, attempt), v, p)
    requires v in p.s.status && p.s.status[v] in {Completed, Failed}
    ensures NodeEffect(s, v, p)
  {
    hide Started;
    StartedRows(e, s, v, attempt);
  }

  lemma StartedRows(e: Env, s: State, v: Id, attempt: nat)
    requires v in e.graph.dependsOn
    ensures Started(e, s, v, attempt).status == s.status[v := Running]
    ensures Started(e, s, v, attempt).attempts == s.attempts[v := attempt]
  {
  }

  lemma AfterSettledEffect(e: Env, s: State, v: Id, o: Outcome)
    requires s.Covers(e.graph) && v in e.graph.dependsOn && o.Settled?
    ensures NodeEffect(s, v, AfterSettled(e, s, v, o))
    ensures v in AfterSettled(e, s, v, o).s.status && AfterSettled(e, s, v, o).s.status[v] in {Completed, Failed}
  {
    FailureEffect(e.graph, s.(artifacts := s.artifacts + [Artifact(v, o.value)]), v);
  }

  lemma FailureEffect(g: Graph, s: State, v: Id)
    requires v in s.status
    ensures var p := Progress(Block(g, SetStatus(s, v, Failed), v), false);
            NodeEffect(s, v, p) && v in p.s.status && p.s.status[v].Failed?
  {
    StopEffect(g, s, v, Failed);
    var t := SetStatus(s, v, Failed);
    if Downstream(g, t.status, v, v) {
      DownstreamIsPending(g, t.status, v, v);
    }
  }

  lemma AttemptsUnfold(e: Env, s: State, v: Id, attempt: nat)
    requires v in e.graph.dependsOn && attempt <= e.maxRetries
    ensures var t, o := Started(e, s, v, attempt + 1), e.outcome(v, attempt + 1);
            Attempts(e, s, v, attempt) ==
            if o.Settled? then AfterSettled(e, t, v, o)
            else if attempt + 1 <= e.maxRetries then Attempts(e, t, v, attempt + 1)
            else Progress(Block(e.graph, SetStatus(t, v, Failed), v), false)
  {
  }

  lemma NoEffect(s: State, v: Id)
    requires v in s.status
    ensures NodeEffect(s, v, Progress(s, false))
  {
  }

  lemma {:induction false} AttemptsEffect(e: Env, s: State, v: Id, attempt: nat)
    requires s.Covers(e.graph) && v in e.graph.dependsOn
    ensures NodeEffect(s, v, Attempts(e, s, v, attempt)) && v in Attempts(e, s, v, attempt).s.status
    ensures attempt <= e.maxRetries ==> Attempts(e, s, v, attempt).s.status[v] in {Completed, Failed}
    decreases e.maxRetries + 1 - attempt
  {
    if attempt > e.maxRetries {
      NoEffect(s, v);
    } else {
      AttemptsUnfold(e, s, v, attempt);
      var t := Started(e, s, v, attempt + 1);
      hide NodeEffect, AfterSettled, Block, SetStatus, Attempts;
      if e.outcome(v, attempt + 1).Settled? {
        AfterSettledEffect(e, t, v, e.outcome(v, attempt + 1));
      } else if attempt + 1 <= e.maxRetries {
        AttemptsEffect(e, t, v, attempt + 1);
      } else {
        FailureEffect(e.graph, t, v);
      }
      StartedThen(e, s, v, attempt + 1, Attempts(e, s, v, attempt));
    }
  }

  lemma ExecuteNodeEffect(e: Env, s: State, v: Id, attempt: nat)
    requires s.Covers(e.graph) && v in e.graph.dependsOn
    ensures NodeEffect(s, v, ExecuteNode(e, s, v, attempt))
  {
    StopEffect(e.graph, s, v, AwaitingApproval);
    AttemptsEffect(e, s, v, attempt);
  }

  /** A round that was not cut short completes its whole work list and changes no other row.
      No round leaves a node running. */
  lemma {:induction false} RoundEffect(e: Env, s: State, work: seq<Id>, snapshot: map<Id, nat>)
    requires s.Covers(e.graph)
    requires forall v :: v in work ==> v in e.graph.dependsOn && v in snapshot
    ensures var p := Round(e, s, work, snapshot);
            && p.s.Covers(e.graph)
            && (forall w :: w in s.status && p.s.status[w].Running? ==> s.status[w].Running?)
            && (p.done ==> forall w :: w in s.status ==>
                  && p.s.status[w] == (if w in work then Completed else s.status[w])
                  && (w !in work ==> p.s.attempts[w] == s.attempts[w]))
    decreases |work|
  {
    if work != [] {
      var v := work[0];
      ExecuteNodeEffect(e, s, v, snapshot[v]);
      var p := ExecuteNode(e, s, v, snapshot[v]);
      if p.done {
        RoundEffect(e, p.s, work[1..], snapshot);
        assert forall w :: w in work <==> w == v || w in work[1..];
      }
    }
  }

  /** A round cut short leaves some node that was pending uncompleted. */
  lemma {:induction false} RoundStops(e: Env, s: State, work: seq<Id>, snapshot: map<Id, nat>)
    requires s.Covers(e.graph)
    requires forall v :: v in work ==> v in e.graph.dependsOn && v in snapshot && s.status[v].Pending?
    requires Distinct(work)
    requires !Round(e, s, work, snapshot).done
    ensures var st := Round(e, s, work, snapshot).s.status;
            exists v :: v in work && v in st && !st[v].Completed?
    decreases |work|
  {
    var v := work[0];
    ExecuteNodeEffect(e, s, v, snapshot[v]);
    var p := ExecuteNode(e, s, v, snapshot[v]);
    if p.done {
      assert forall i :: 0 <= i < |work[1..]| ==> work[1..][i] == work[i+1];
      RoundStops(e, p.s, work[1..], snapshot);
      var st := Round(e, p.s, work[1..], snapshot).s.status;
      var w :| w in work[1..] && w in st && !st[w].Completed?;
      assert w in work;
    } else {
      assert v in work;
    }
  }

  lemma RecomputeKeeps(g: Graph, s: State)
    requires s.Covers(g)
    ensures Recompute(g, s).Done() == s.Done()
    ensures Halted(Recompute(g, s).status) == Halted(s.status)
    ensures Front(g, Recompute(g, s).status)
  {
    RecomputedHasFront(g, s.status);
    var st := Recomputed(g, s.status);
    assert forall v :: v in s.status ==> (st[v].Completed? <==> s.status[v].Completed?);
    assert forall v :: v in s.status ==> (st[v] in {Failed, AwaitingApproval, Running} <==>
                                          s.status[v] in {Failed, AwaitingApproval, Running});
  }

  /** When nothing is blocked for no reason, the runnable nodes are what the next level adds. */
  lemma RunnableIsNextLevel(g: Graph, s: State)
    requires g.Valid() && s.Covers(g) && Front(g, s.status)
    ensures forall v :: v in Level(g, s.Done(), Halted(s.status), 1) <==>
                          v in s.Done() || v in Runnable(g, s.status)
  {
    RunnableExact(g, s.status);
    forall v | v in g.dependsOn && v !in Halted(s.status) && g.DepsIn(v, s.Done()) && v !in s.Done()
      ensures IsRunnable(g, s.status, v)
    {
      assert forall d :: d in g.dependsOn[v] ==> d in s.status && s.status[d].Completed?;
    }
  }

  lemma RoundFromEffect(e: Env, s: State)
    requires e.graph.Valid() && s.Covers(e.graph)
    requires RoundFrom(e, s).done
    ensures forall w :: w in s.status ==>
              && RoundFrom(e, s).s.status[w] == (if w in Runnable(e.graph, s.status) then Completed else s.status[w])
              && (w !in Runnable(e.graph, s.status) ==> RoundFrom(e, s).s.attempts[w] == s.attempts[w])
  {
    RunnableExact(e.graph, s.status);
    RoundEffect(e, s, Runnable(e.graph, s.status), s.attempts);
  }

  /** Completing pending nodes adds them to the completed set and halts nothing. */
  lemma CompletingPending(st: StatusMap, now: StatusMap, work: seq<Id>)
    requires now.Keys == st.Keys
    requires forall w :: w in work ==> w in st && st[w].Pending?
    requires forall w :: w in st ==> now[w] == if w in work then Completed else st[w]
    ensures forall v :: v in WithStatus(now, Completed) <==> v in WithStatus(st, Completed) || v in work
    ensures Halted(now) == Halted(st)
  {
  }

  lemma RoundKeeps(e: Env, s: State)
    requires e.graph.Valid() && s.Covers(e.graph)
    requires RoundFrom(e, s).done
    ensures forall v :: v in RoundFrom(e, s).s.Done() <==> v in s.Done() || v in Runnable(e.graph, s.status)
    ensures Halted(RoundFrom(e, s).s.status) == Halted(s.status)
  {
    hide RoundFrom, Runnable, Halted, WithStatus;
    RoundFromEffect(e, s);
    RunnableExact(e.graph, s.status);
    CompletingPending(s.status, RoundFrom(e, s).s.status, Runnable(e.graph, s.status));
  }

  /** One round that was not cut short, with its repair pass, advances the completed set by
      one level, and again nothing is blocked for no reason. */
  lemma RoundAdvances(e: Env, s: State)
    requires e.graph.Valid() && s.Covers(e.graph)
    requires RoundFrom(e, s).done
    ensures var t := Recompute(e.graph, RoundFrom(e, s).s);
            && Halted(t.status) == Halted(s.status) && Front(e.graph, t.status)
            && (forall v :: v in t.Done() <==> v in s.Done() || v in Runnable(e.graph, s.status))
            && (Front(e.graph, s.status) ==> t.Done() == Level(e.graph, s.Done(), Halted(s.status), 1))
  {
    hide *;
    RoundKeeps(e, s);
    RecomputeKeeps(e.graph, RoundFrom(e, s).s);
    if Front(e.graph, s.status) {
      RunnableIsNextLevel(e.graph, s);
    }
  }

  lemma RoundsUnfold(e: Env, s: State, fuel: nat)
    requires e.graph.Valid() && s.Covers(e.graph)
    ensures Rounds(e, s, fuel) ==
            if fuel == 0 || Runnable(e.graph, s.status) == [] then Progress(s, true)
            else if !RoundFrom(e, s).done then RoundFrom(e, s)
            else Rounds(e, Recompute(e.graph, RoundFrom(e, s).s), fuel - 1)
  {
  }

  lemma LevelBase(g: Graph, done: set<Id>, halted: set<Id>)
    ensures Level(g, done, halted, 0) == done
  {
  }

  /** When nothing is runnable and nothing is blocked for no reason, levels do not grow. */
  lemma NothingRunnable(g: Graph, s: State, k: nat)
    requires g.Valid() && s.Covers(g) && Front(g, s.status) && Runnable(g, s.status) == []
    ensures Level(g, s.Done(), Halted(s.status), k) == s.Done()
  {
    RunnableIsNextLevel(g, s);
    assert Level(g, s.Done(), Halted(s.status), 1) == Level(g, s.Done(), Halted(s.status), 0);
    LevelStable(g, s.Done(), Halted(s.status), 0, k);
  }

  /** The main result: if the loop is not cut short, then after the rounds it has fuel for
      the completed nodes are exactly that level, for every graph, cyclic or not. */
  lemma {:induction false} RoundsReachLevel(e: Env, s: State, fuel: nat)
    requires e.graph.Valid() && s.Covers(e.graph) && Front(e.graph, s.status)
    requires Rounds(e, s, fuel).done
    ensures var t := Rounds(e, s, fuel).s;
            && t.Done() == Level(e.graph, s.Done(), Halted(s.status), fuel)
            && Halted(t.status) == Halted(s.status) && Front(e.graph, t.status)
    decreases fuel
  {
    hide *;
    var g, done, halted := e.graph, s.Done(), Halted(s.status);
    LevelBase(g, done, halted);
    RoundsUnfold(e, s, fuel);
    if fuel > 0 {
      if Runnable(g, s.status) == [] {
        NothingRunnable(g, s, fuel);
      } else {
        RoundAdvances(e, s);
        RoundsReachLevel(e, Recompute(g, RoundFrom(e, s).s), fuel - 1);
        LevelShift(g, done, halted, fuel - 1);
      }
    }
  }

  // ---- Termination without the safety counter ----

  /** Every round that is not cut short lowers the number of uncompleted nodes, although
      its repair pass may turn nodes back to pending. */
  lemma RoundMakesProgress(e: Env, s: State)
    requires e.graph.Valid() && s.Covers(e.graph)
    requires Runnable(e.graph, s.status) != [] && RoundFrom(e, s).done
    ensures var t := Recompute(e.graph, RoundFrom(e, s).s);
            |e.graph.Ids() - t.Done()| < |e.graph.Ids() - s.Done()|
  {
    RoundAdvances(e, s);
    RunnableExact(e.graph, s.status);
    var t := Recompute(e.graph, RoundFrom(e, s).s);
    var v := Runnable(e.graph, s.status)[0];
    assert v in Runnable(e.graph, s.status) && v in t.Done() && v !in s.Done();
    assert v in e.graph.Ids() - s.Done() && v !in e.graph.Ids() - t.Done();
    SubsetSize(e.graph.Ids() - t.Done(), e.graph.Ids() - s.Done());
  }

  /** The scheduling loop without a safety counter. That Dafny accepts this definition is
      the proof that the loop stops by itself. */
  ghost function Unbounded(e: Env, s: State): Progress
    requires e.graph.Valid() && s.Covers(e.graph)
    decreases |e.graph.Ids() - s.Done()|
  {
    if Runnable(e.graph, s.status) == [] then Progress(s, true)
    else
      var p := RoundFrom(e, s);
      if !p.done then p
      else
        RoundMakesProgress(e, s);
        Unbounded(e, Recompute(e.graph, p.s))
  }

  lemma UnboundedUnfold(e: Env, s: State)
    requires e.graph.Valid() && s.Covers(e.graph)
    ensures Unbounded(e, s) ==
            if Runnable(e.graph, s.status) == [] then Progress(s, true)
            else if !RoundFrom(e, s).done then RoundFrom(e, s)
            else Unbounded(e, Recompute(e.graph, RoundFrom(e, s).s))
  {
    if Runnable(e.graph, s.status) != [] && RoundFrom(e, s).done {
      RoundMakesProgress(e, s);
    }
  }

  /** The counter is unobservable, for every way handlers can end, once the levels have
      stopped growing after as many rounds as it allows. */
  lemma {:induction false} CapUnobservable(e: Env, s: State, fuel: nat)
    requires e.graph.Valid() && s.Covers(e.graph) && Front(e.graph, s.status)
    requires Level(e.graph, s.Done(), Halted(s.status), fuel + 1) == Level(e.graph, s.Done(), Halted(s.status), fuel)
    ensures Rounds(e, s, fuel) == Unbounded(e, s)
    decreases fuel
  {
    hide *;
    var g, done, halted := e.graph, s.Done(), Halted(s.status);
    LevelBase(g, done, halted);
    RoundsUnfold(e, s, fuel);
    UnboundedUnfold(e, s);
    if Runnable(g, s.status) != [] {
      if fuel == 0 {
        SomethingRunnable(g, s);
      } else if RoundFrom(e, s).done {
        RoundAdvances(e, s);
        LevelShift(g, done, halted, fuel);
        LevelShift(g, done, halted, fuel - 1);
        CapUnobservable(e, Recompute(g, RoundFrom(e, s).s), fuel - 1);
      }
    }
  }

  lemma SomethingRunnable(g: Graph, s: State)
    requires g.Valid() && s.Covers(g) && Front(g, s.status) && Runnable(g, s.status) != []
    ensures Level(g, s.Done(), Halted(s.status), 1) != s.Done()
  {
    RunnableIsNextLevel(g, s);
    RunnableExact(g, s.status);
    var v := Runnable(g, s.status)[0];
    assert v in Runnable(g, s.status) && v in Level(g, s.Done(), Halted(s.status), 1) && v !in s.Done();
  }

  /** In a graph of depth at most k, levels stop growing at k whatever was completed or
      halted at the start. */
  lemma {:induction false} DepthBoundsLevels(g: Graph, done: set<Id>, halted: set<Id>, k: nat, j: nat, v: Id)
    requires v in Level(g, {}, {}, k) && v in Level(g, done, halted, j)
    ensures v in Level(g, done, halted, k)
    decreases k
  {
    hide *;
    LevelMonotone(g, done, halted, 0, k);
    LevelBase(g, done, halted);
    if v !in done {
      InLevel(g, done, halted, j, v);
      InLevel(g, {}, {}, k, v);
      forall d | d in g.dependsOn[v]
        ensures d in Level(g, done, halted, k-1)
      {
        DepthBoundsLevels(g, done, halted, k-1, j-1, d);
      }
      IntoLevel(g, done, halted, k, v);
    }
  }

  lemma InLevel(g: Graph, done: set<Id>, halted: set<Id>, k: nat, v: Id)
    requires v in Level(g, done, halted, k) && v !in done
    ensures k > 0 && v in g.dependsOn && v !in halted
    ensures forall d :: d in g.dependsOn[v] ==> d in Level(g, done, halted, k-1)
  {
  }

  lemma IntoLevel(g: Graph, done: set<Id>, halted: set<Id>, k: nat, v: Id)
    requires k > 0 && v in g.dependsOn && v !in halted
    requires forall d :: d in g.dependsOn[v] ==> d in Level(g, done, halted, k-1)
    ensures v in Level(g, done, halted, k)
  {
  }

  lemma DepthSettlesLevels(g: Graph, done: set<Id>, halted: set<Id>, k: nat)
    requires DepthAtMost(g, k) && done <= g.Ids()
    ensures Level(g, done, halted, k + 1) == Level(g, done, halted, k)
  {
    LevelGrows(g, done, halted, k);
    LevelInside(g, done, halted, k + 1);
    forall v | v in Level(g, done, halted, k + 1)
      ensures v in Level(g, done, halted, k)
    {
      DepthBoundsLevels(g, done, halted, k, k + 1, v);
    }
  }

  /** At depth at most 200, and also with at most 200 uncompleted nodes, the cap never matters. */
  lemma CapUnobservableAtDepth(e: Env, s: State)
    requires e.graph.Valid() && s.Covers(e.graph) && Front(e.graph, s.status)
    requires DepthAtMost(e.graph, SAFETY_CAP) || |e.graph.Ids() - s.Done()| <= SAFETY_CAP
    ensures Rounds(e, s, SAFETY_CAP) == Unbounded(e, s)
  {
    hide Level, Rounds, Unbounded, DepthAtMost, Front, Halted, Runnable;
    if DepthAtMost(e.graph, SAFETY_CAP) {
      DepthSettlesLevels(e.graph, s.Done(), Halted(s.status), SAFETY_CAP);
    } else {
      LevelSettles(e.graph, s.Done(), Halted(s.status), SAFETY_CAP);
    }
    CapUnobservable(e, s, SAFETY_CAP);
  }

  /** An uncapped loop that was not cut short leaves nothing runnable. */
  lemma {:induction false} UnboundedExhausts(e: Env, s: State)
    requires e.graph.Valid() && s.Covers(e.graph) && Unbounded(e, s).done
    ensures Unbounded(e, s).s.Covers(e.graph) && Runnable(e.graph, Unbounded(e, s).s.status) == []
    decreases |e.graph.Ids() - s.Done()|
  {
    if Runnable(e.graph, s.status) != [] {
      RoundMakesProgress(e, s);
      UnboundedExhausts(e, Recompute(e.graph, RoundFrom(e, s).s));
    }
  }
}
