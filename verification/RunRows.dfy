/**
 The rows a run leaves behind, node by node: which node stops a run that is cut short, what
 its row then says, which rows are completed, blocked and pending, and the run status that
 follows. Everything is stated from the rows at the start, levels and handler outcomes.
*/
module RunRows {
  import opened Graphs
  import opened Blocking
  import opened Runs
  import opened Scheduling
  import opened RunOutcomes

  // ---- The node that stops a run ----

  /** v gets the mark, and the pending nodes that can be reached from it through pending nodes
      are blocked. */
  ghost function StoppedRows(g: Graph, st: StatusMap, v: Id, mark: NodeStatus): StatusMap {
    map w | w in st :: if w == v then mark else if Downstream(g, st, v, w) then Blocked else st[w]
  }

  /** What is left when v could not complete: it awaits approval if it lacks its token; without
      an attempt left nothing has changed; otherwise it failed. */
  ghost function RowsAtStop(e: Env, st: StatusMap, v: Id, made: nat): StatusMap {
    if v in e.graph.paid && !e.token then StoppedRows(e.graph, st, v, AwaitingApproval)
    else if made <= e.maxRetries then StoppedRows(e.graph, st, v, Failed)
    else st
  }

  /** Nothing pending leads to v. */
  ghost predicate Ready(g: Graph, st: StatusMap, v: Id) {
    v in st && forall d :: g.Edge(d, v) ==> !(d in st && st[d].Pending?)
  }

  ghost predicate SameBut(st: StatusMap, now: StatusMap, v: Id) {
    now.Keys == st.Keys && forall w :: w in st && w != v ==> now[w] == st[w]
  }

  lemma PathAvoids(g: Graph, st: StatusMap, v: Id, p: seq<Id>, i: nat)
    requires Ready(g, st, v) && PendingPath(g, st, v, p) && i < |p|
    ensures p[i] != v
  {
    assert i == 0 ==> g.Edge(v, p[i]);
    assert i > 0 ==> g.Edge(p[i-1], p[i]);
  }

  /** While nothing pending leads to v, its own row is on no path from it. */
  lemma DownstreamSkips(g: Graph, st: StatusMap, now: StatusMap, v: Id, w: Id)
    requires Ready(g, st, v) && SameBut(st, now, v) && !now[v].Pending?
    ensures Downstream(g, now, v, w) <==> Downstream(g, st, v, w)
  {
    if p :| PendingPath(g, now, v, p) && p[|p|-1] == w {
      assert PendingPath(g, st, v, p);
    }
    if p :| PendingPath(g, st, v, p) && p[|p|-1] == w {
      forall i | 0 <= i < |p|
        ensures p[i] != v
      {
        PathAvoids(g, st, v, p, i);
      }
      assert PendingPath(g, now, v, p);
    }
  }

  lemma BlockRows(g: Graph, st: StatusMap, s: State, v: Id, mark: NodeStatus)
    requires Ready(g, st, v) && SameBut(st, s.status, v) && !mark.Pending?
    ensures Block(g, SetStatus(s, v, mark), v).status == StoppedRows(g, st, v, mark)
  {
    hide Downstream, Graph.Edge;
    var now := SetStatus(s, v, mark).status;
    forall w
      ensures Downstream(g, now, v, w) <==> Downstream(g, st, v, w)
    {
      DownstreamSkips(g, st, now, v, w);
    }
    if Downstream(g, now, v, v) {
      DownstreamIsPending(g, now, v, v);
    }
  }

  lemma {:induction false} AttemptsStop(e: Env, st: StatusMap, s: State, v: Id, attempt: nat)
    requires v in e.graph.dependsOn && v in st && attempt <= e.maxRetries
    requires Ready(e.graph, st, v) && SameBut(st, s.status, v) && !Attempts(e, s, v, attempt).done
    ensures Attempts(e, s, v, attempt).s.status == StoppedRows(e.graph, st, v, Failed)
    decreases e.maxRetries + 1 - attempt
  {
    hide Ready, StoppedRows, Block, Attempts;
    AttemptsUnfold(e, s, v, attempt);
    var t, o := Started(e, s, v, attempt + 1), e.outcome(v, attempt + 1);
    if o.Settled? {
      BlockRows(e.graph, st, t.(artifacts := t.artifacts + [Artifact(v, o.value)]), v, Failed);
    } else if attempt + 1 <= e.maxRetries {
      AttemptsStop(e, st, t, v, attempt + 1);
    } else {
      BlockRows(e.graph, st, t, v, Failed);
    }
  }

  /** A runnable node that does not complete leaves exactly these rows. */
  lemma ExecuteNodeStops(e: Env, s: State, v: Id)
    requires s.Covers(e.graph) && IsRunnable(e.graph, s.status, v)
    requires !ExecuteNode(e, s, v, s.attempts[v]).done
    ensures ExecuteNode(e, s, v, s.attempts[v]).s.status == RowsAtStop(e, s.status, v, s.attempts[v])
  {
    hide StoppedRows, Block, Attempts;
    assert Ready(e.graph, s.status, v);
    BlockRows(e.graph, s.status, s, v, AwaitingApproval);
    if s.attempts[v] <= e.maxRetries && !(v in e.graph.paid && !e.token) {
      AttemptsStop(e, s.status, s, v, s.attempts[v]);
    } else {
      AttemptsNone(e, s, v, s.attempts[v]);
    }
  }

  lemma AttemptsNone(e: Env, s: State, v: Id, attempt: nat)
    requires v in e.graph.dependsOn
    ensures attempt > e.maxRetries ==> Attempts(e, s, v, attempt) == Progress(s, false)
  {
  }

  // ---- The round that is cut short ----

  function Completing(st: StatusMap, nodes: seq<Id>): StatusMap {
    map w | w in st :: if w in nodes then Completed else st[w]
  }

  /** The first node of the work list that cannot complete stops the round; the ones before it
      are completed. */
  lemma {:induction false} RoundStopsAt(e: Env, s: State, work: seq<Id>, snapshot: map<Id, nat>) returns (i: nat)
    requires s.Covers(e.graph) && Distinct(work)
    requires forall v :: v in work ==>
               v in e.graph.dependsOn && IsRunnable(e.graph, s.status, v) && v in snapshot && snapshot[v] == s.attempts[v]
    requires !Round(e, s, work, snapshot).done
    ensures i < |work| && !WillSucceed(e, work[i], s.attempts[work[i]])
    ensures forall j :: 0 <= j < i ==> WillSucceed(e, work[j], s.attempts[work[j]])
    ensures Round(e, s, work, snapshot).s.status
         == RowsAtStop(e, Completing(s.status, work[..i]), work[i], s.attempts[work[i]])
    decreases |work|
  {
    hide WillSucceed, ExecuteNode, RowsAtStop, IsRunnable;
    RunnableFacts(e, s, work);
    var v := work[0];
    var p := ExecuteNode(e, s, v, snapshot[v]);
    ExecuteNodeDone(e, s, v, snapshot[v]);
    if !p.done {
      i := 0;
      ExecuteNodeStops(e, s, v);
      assert Completing(s.status, work[..0]) == s.status;
    } else {
      ExecuteNodeEffect(e, s, v, snapshot[v]);
      forall w | w in work[1..]
        ensures IsRunnable(e.graph, p.s.status, w) && p.s.attempts[w] == s.attempts[w]
      {
        RestStaysRunnable(e, s, work, p, w);
      }
      var k := RoundStopsAt(e, p.s, work[1..], snapshot);
      i := k + 1;
      assert work[..i] == [v] + work[1..][..k];
      assert Completing(p.s.status, work[1..][..k]) == Completing(s.status, work[..i]);
      assert work[1..][k] == work[i];
    }
  }

  lemma RunnableFacts(e: Env, s: State, work: seq<Id>)
    requires forall v :: v in work ==> IsRunnable(e.graph, s.status, v)
    ensures forall v :: v in work ==> v in e.graph.dependsOn && v in s.status && s.status[v].Pending?
  {
  }

  lemma RestStaysRunnable(e: Env, s: State, work: seq<Id>, p: Progress, w: Id)
    requires s.Covers(e.graph) && Distinct(work) && work != [] && w in work[1..]
    requires IsRunnable(e.graph, s.status, w) && NodeEffect(s, work[0], p) && p.done
    ensures IsRunnable(e.graph, p.s.status, w) && p.s.attempts[w] == s.attempts[w]
  {
    var i :| 0 < i < |work| && work[i] == w;
  }

  // ---- The rows after some full rounds ----

  ghost function LevelOf(g: Graph, st: StatusMap, k: nat): set<Id> {
    Level(g, WithStatus(st, Completed), Halted(st), k)
  }

  /** The ids that nothing blocks any more after the given number of repair passes. */
  ghost function ClearOf(g: Graph, st: StatusMap, passes: nat): set<Id> {
    Level(g, Clear(g, st), WithStatus(st, Failed), passes)
  }

  /** After that many full rounds and repair passes: the level is completed, the blocked nodes
      that came clear are pending again, and all other rows are as before. */
  ghost function RowsAfter(g: Graph, st: StatusMap, rounds: nat, passes: nat): StatusMap {
    map w | w in st ::
      if w in LevelOf(g, st, rounds) then Completed
      else if st[w].Blocked? && w in ClearOf(g, st, passes) then Pending
      else st[w]
  }

  lemma RowsAfterNone(g: Graph, st: StatusMap)
    ensures RowsAfter(g, st, 0, 0) == st
  {
  }

  /** A full round turns exactly the pending rows of the next level to completed. */
  lemma RoundCompletes(e: Env, s: State)
    requires e.graph.Valid() && s.Covers(e.graph) && Front(e.graph, s.status) && RoundFrom(e, s).done
    ensures var now := RoundFrom(e, s).s.status;
      && Covers(e.graph, now)
      && OnlyCompletes(s.status, now)
      && (forall w :: w in s.status ==> now[w] == if w in LevelOf(e.graph, s.status, 1) then Completed else s.status[w])
  {
    hide RoundFrom, Level, Halted, Runnable, WithStatus;
    RunnableExact(e.graph, s.status);
    RoundFromEffect(e, s);
    LevelOneFacts(e.graph, s);
  }

  ghost predicate OnlyCompletes(st: StatusMap, now: StatusMap) {
    now.Keys == st.Keys && forall w :: w in st ==> now[w] == st[w] || (st[w].Pending? && now[w].Completed?)
  }

  /** So it fails, blocks and clears nothing. */
  lemma CompletingClearsNothing(g: Graph, st: StatusMap, now: StatusMap)
    requires OnlyCompletes(st, now)
    ensures WithStatus(now, Failed) == WithStatus(st, Failed)
    ensures WithStatus(now, Blocked) == WithStatus(st, Blocked)
    ensures Clear(g, now) == Clear(g, st)
  {
    hide Named;
  }

  /** What one pass does to each row. */
  lemma PassRows(g: Graph, st: StatusMap)
    requires Covers(g, st)
    ensures Covers(g, Recomputed(g, st))
    ensures forall w :: w in st ==>
      Recomputed(g, st)[w] == if st[w].Blocked? && w in ClearOf(g, st, 1) then Pending else st[w]
  {
    hide HasFailedDependency, Level, Clear;
    PassUnblocksLevel(g, st);
    forall w | w in st && st[w].Blocked?
      ensures Recomputed(g, st)[w].Blocked? <==> w !in ClearOf(g, st, 1)
    {
      assert w in WithStatus(Recomputed(g, st), Blocked) <==> w in WithStatus(st, Blocked) && w !in ClearOf(g, st, 1);
    }
  }

  lemma FullRoundRows(e: Env, s: State)
    requires e.graph.Valid() && s.Covers(e.graph) && Front(e.graph, s.status) && RoundFrom(e, s).done
    ensures var st, now := s.status, Recompute(e.graph, RoundFrom(e, s).s).status;
      && now == RowsAfter(e.graph, st, 1, 1)
      && WithStatus(now, Completed) == LevelOf(e.graph, st, 1) && Halted(now) == Halted(st)
      && WithStatus(now, Failed) == WithStatus(st, Failed) && Clear(e.graph, now) == ClearOf(e.graph, st, 1)
  {
    hide RoundFrom, Clear, Level, Halted, Front, Runnable, Recomputed, WithStatus;
    var now := RoundFrom(e, s).s.status;
    RoundCompletes(e, s);
    CompletingClearsNothing(e.graph, s.status, now);
    RoundAdvances(e, s);
    PassUnblocksLevel(e.graph, now);
    PassRows(e.graph, now);
    assert ClearOf(e.graph, now, 1) == ClearOf(e.graph, s.status, 1);
  }

  /** One round and pass, and then k of each, are k + 1 of each. */
  lemma RowsShift(g: Graph, st: StatusMap, now: StatusMap, k: nat, passes: nat)
    requires now == RowsAfter(g, st, 1, 1)
    requires WithStatus(now, Completed) == LevelOf(g, st, 1) && Halted(now) == Halted(st)
    requires WithStatus(now, Failed) == WithStatus(st, Failed) && Clear(g, now) == ClearOf(g, st, 1)
    ensures LevelOf(g, now, k) == LevelOf(g, st, k + 1)
    ensures ClearOf(g, now, passes) == ClearOf(g, st, passes + 1)
    ensures RowsAfter(g, now, k, passes) == RowsAfter(g, st, k + 1, passes + 1)
  {
    hide Level, Halted, WithStatus, Clear;
    LevelShift(g, WithStatus(st, Completed), Halted(st), k);
    LevelShift(g, Clear(g, st), WithStatus(st, Failed), passes);
    LevelMonotone(g, WithStatus(st, Completed), Halted(st), 1, k + 1);
    LevelMonotone(g, Clear(g, st), WithStatus(st, Failed), 1, passes + 1);
  }

  // ---- Where and how a run is cut short ----

  /** After k full rounds the run stops at v: everything up to level k can complete, v is in the
      next level and cannot, and the nodes of that level before v in the table can. */
  ghost predicate StopsAt(e: Env, s: State, k: nat, v: Id) {
    && v in LevelOf(e.graph, s.status, k + 1) && v !in LevelOf(e.graph, s.status, k)
    && v in s.attempts && !WillSucceed(e, v, s.attempts[v])
    && Succeed(e, s, LevelOf(e.graph, s.status, k))
    && (forall w :: NextBefore(e.graph, s.status, k, w, v) ==> w in s.attempts && WillSucceed(e, w, s.attempts[w]))
  }

  /** w joins level k + 1 and comes before v in the table. */
  ghost predicate NextBefore(g: Graph, st: StatusMap, k: nat, w: Id, v: Id) {
    w in LevelOf(g, st, k + 1) && w !in LevelOf(g, st, k) && Precedes(g.order, w, v)
  }

  /** The rows when it is v's turn. */
  ghost function RowsBefore(g: Graph, st: StatusMap, k: nat, passes: nat, v: Id): StatusMap {
    map w | w in st ::
      if w in LevelOf(g, st, k + 1) && Precedes(g.order, w, v) then Completed else RowsAfter(g, st, k, passes)[w]
  }

  /** The rows, and the attempts of the nodes that have not completed, decide where a run stops. */
  lemma FirstRoundStops(e: Env, s: State) returns (v: Id)
    requires e.graph.Valid() && s.Covers(e.graph) && Front(e.graph, s.status) && !RoundFrom(e, s).done
    ensures StopsAt(e, s, 0, v)
    ensures RoundFrom(e, s).s.status == RowsAtStop(e, RowsBefore(e.graph, s.status, 0, 0, v), v, s.attempts[v])
  {
    hide WillSucceed, RowsAtStop, Round, RoundFrom, Precedes, Runnable, Halted, WithStatus, Front, RowsAfter;
    var g, work := e.graph, Runnable(e.graph, s.status);
    RunnableExact(g, s.status);
    RunnableInOrder(g, s.status);
    RunnableIsNextLevel(g, s);
    RoundFromWork(e, s);
    RowsAfterNone(g, s.status);
    LevelBase(g, WithStatus(s.status, Completed), Halted(s.status));
    NothingLeft(e, s);
    var i := RoundStopsAt(e, s, work, s.attempts);
    v := work[i];
    forall w | w in work
      ensures Precedes(g.order, w, v) <==> w in work[..i]
    {
      OrderDecides(g, work, i, w);
    }
    LevelOneFacts(g, s);
    assert Completing(s.status, work[..i]) == RowsBefore(g, s.status, 0, 0, v);
  }

  lemma RoundFromWork(e: Env, s: State)
    requires e.graph.Valid() && s.Covers(e.graph)
    ensures forall v :: v in Runnable(e.graph, s.status) ==> v in e.graph.dependsOn && v in s.attempts
    ensures RoundFrom(e, s) == Round(e, s, Runnable(e.graph, s.status), s.attempts)
  {
    RunnableExact(e.graph, s.status);
  }

  /** Completed rows are completed whether or not they precede v. */
  lemma LevelOneFacts(g: Graph, s: State)
    requires g.Valid() && s.Covers(g) && Front(g, s.status)
    ensures forall w :: w in s.status ==>
      (w in LevelOf(g, s.status, 1) <==> s.status[w].Completed? || w in Runnable(g, s.status))
    ensures forall w :: w in LevelOf(g, s.status, 0) <==> w in s.status && s.status[w].Completed?
  {
    hide Runnable, Halted, Front;
    RunnableIsNextLevel(g, s);
  }

  lemma OrderDecides(g: Graph, work: seq<Id>, i: nat, w: Id)
    requires g.Valid() && InOrder(g.order, work) && i < |work| && w in work
    ensures Precedes(g.order, w, work[i]) <==> w in work[..i]
  {
    hide Precedes;
    var j :| 0 <= j < |work| && work[j] == w;
    if j > i {
      assert Precedes(g.order, work[i], work[j]);
    }
    NeverBothWays(g, w, work[i]);
    if w in work[..i] {
      var m :| 0 <= m < i && work[m] == w;
      assert Precedes(g.order, work[m], work[i]);
    }
  }

  lemma NeverBothWays(g: Graph, w: Id, v: Id)
    requires g.Valid()
    ensures !(Precedes(g.order, w, v) && Precedes(g.order, v, w))
    ensures !Precedes(g.order, v, v)
  {
  }

  /** What a full round leaves is the same place in the same run. */
  lemma StopsShift(e: Env, s: State, k: nat, v: Id)
    requires e.graph.Valid() && s.Covers(e.graph) && Front(e.graph, s.status) && RoundFrom(e, s).done
    ensures var t := Recompute(e.graph, RoundFrom(e, s).s);
      StopsAt(e, t, k, v) ==>
        && StopsAt(e, s, k + 1, v) && t.attempts[v] == s.attempts[v]
        && RowsBefore(e.graph, t.status, k, k, v) == RowsBefore(e.graph, s.status, k + 1, k + 1, v)
  {
    hide WillSucceed, Precedes, RoundFrom, Recompute, Runnable, RowsAfter, LevelOf, ClearOf, Succeed, WithStatus, Halted,
         Clear, RowsBefore, Front, Named;
    var g, st, t := e.graph, s.status, Recompute(e.graph, RoundFrom(e, s).s);
    FullRoundRows(e, s);
    RowsShift(g, st, t.status, k, k);
    RowsShift(g, st, t.status, k + 1, k);
    SucceedAfterRound(e, s, LevelOf(g, st, k + 1));
    forall w | w !in LevelOf(g, st, k + 1) && w in t.attempts
      ensures w in s.attempts && t.attempts[w] == s.attempts[w]
    {
      AttemptsKept(e, s, k, w);
    }
    RowsBeforeShift(g, st, t.status, k, k, v);
  }

  lemma RowsBeforeShift(g: Graph, st: StatusMap, now: StatusMap, k: nat, passes: nat, v: Id)
    requires now == RowsAfter(g, st, 1, 1)
    requires WithStatus(now, Completed) == LevelOf(g, st, 1) && Halted(now) == Halted(st)
    requires WithStatus(now, Failed) == WithStatus(st, Failed) && Clear(g, now) == ClearOf(g, st, 1)
    ensures RowsBefore(g, now, k, passes, v) == RowsBefore(g, st, k + 1, passes + 1, v)
  {
    hide LevelOf, ClearOf, Halted, WithStatus, Clear, Precedes;
    RowsShift(g, st, now, k, passes);
    RowsShift(g, st, now, k + 1, passes);
  }

  lemma AttemptsKept(e: Env, s: State, k: nat, w: Id)
    requires e.graph.Valid() && s.Covers(e.graph) && Front(e.graph, s.status) && RoundFrom(e, s).done
    requires w !in LevelOf(e.graph, s.status, k + 1)
    ensures var t := Recompute(e.graph, RoundFrom(e, s).s);
      w in t.attempts ==> w in s.attempts && t.attempts[w] == s.attempts[w]
  {
    hide RoundFrom, Recompute, Runnable, Level, WithStatus, Halted;
    RoundLeaves(e, s);
    RunnableIsNextLevel(e.graph, s);
    LevelMonotone(e.graph, WithStatus(s.status, Completed), Halted(s.status), 1, k + 1);
  }

  /** A run that is cut short: where it stopped, and every row it leaves. */
  lemma {:induction false} RoundsStopAt(e: Env, s: State, fuel: nat) returns (k: nat, v: Id)
    requires e.graph.Valid() && s.Covers(e.graph) && Front(e.graph, s.status) && !Rounds(e, s, fuel).done
    ensures k < fuel && StopsAt(e, s, k, v) && v in s.attempts
    ensures Rounds(e, s, fuel).s.status == RowsAtStop(e, RowsBefore(e.graph, s.status, k, k, v), v, s.attempts[v])
    decreases fuel
  {
    hide *;
    RoundsUnfold(e, s, fuel);
    if RoundFrom(e, s).done {
      RoundAdvances(e, s);
      var j;
      j, v := RoundsStopAt(e, Recompute(e.graph, RoundFrom(e, s).s), fuel - 1);
      k := j + 1;
      StopsShift(e, s, j, v);
    } else {
      k := 0;
      v := FirstRoundStops(e, s);
    }
    StopHasAttempts(e, s, k, v);
  }

  lemma StopHasAttempts(e: Env, s: State, k: nat, v: Id)
    requires StopsAt(e, s, k, v)
    ensures v in s.attempts
  {
  }

  /** There is only one place where a run can stop. */
  lemma StopIsUnique(e: Env, s: State, k: nat, v: Id, j: nat, w: Id)
    requires e.graph.Valid() && s.Covers(e.graph) && StopsAt(e, s, k, v) && StopsAt(e, s, j, w) && k <= j
    ensures k == j && v == w
  {
    hide Level, Halted, WillSucceed, Precedes;
    var done, halted := WithStatus(s.status, Completed), Halted(s.status);
    LevelMonotone(e.graph, done, halted, 0, k);
    LevelBase(e.graph, done, halted);
    if k < j {
      LevelMonotone(e.graph, done, halted, k + 1, j);
    }
    LevelInside(e.graph, done, halted, k + 1);
    LevelInside(e.graph, done, halted, j + 1);
    if v != w {
      OnePrecedes(e.graph, v, w);
    }
  }

  lemma OnePrecedes(g: Graph, v: Id, w: Id)
    requires g.Valid() && v in g.dependsOn && w in g.dependsOn && v != w
    ensures Precedes(g.order, v, w) || Precedes(g.order, w, v)
  {
    var i :| 0 <= i < |g.order| && g.order[i] == v;
    var j :| 0 <= j < |g.order| && g.order[j] == w;
  }

  /** A run that is not cut short: how many rounds it makes, and every row it leaves. It makes
      rounds as long as they complete something. */
  lemma {:induction false} RoundsLeave(e: Env, s: State, fuel: nat) returns (j: nat)
    requires e.graph.Valid() && s.Covers(e.graph) && Front(e.graph, s.status) && Rounds(e, s, fuel).done
    ensures j <= fuel && Rounds(e, s, fuel).s.status == RowsAfter(e.graph, s.status, j, j)
    ensures LevelOf(e.graph, s.status, j) == LevelOf(e.graph, s.status, fuel)
    ensures j == fuel || LevelOf(e.graph, s.status, j + 1) == LevelOf(e.graph, s.status, j)
    decreases fuel
  {
    hide *;
    RoundsUnfold(e, s, fuel);
    RowsAfterNone(e.graph, s.status);
    if fuel == 0 || Runnable(e.graph, s.status) == [] {
      j := 0;
      if fuel > 0 {
        StillLevels(e, s, fuel);
        StillLevels(e, s, 1);
        StillLevels(e, s, 0);
      }
    } else {
      var t := Recompute(e.graph, RoundFrom(e, s).s);
      RoundAdvances(e, s);
      FullRoundRows(e, s);
      var i := RoundsLeave(e, t, fuel - 1);
      j := i + 1;
      RowsShift(e.graph, s.status, t.status, i, i);
      RowsShift(e.graph, s.status, t.status, i + 1, i);
      RowsShift(e.graph, s.status, t.status, fuel - 1, i);
    }
  }

  lemma StillLevels(e: Env, s: State, k: nat)
    requires e.graph.Valid() && s.Covers(e.graph) && Front(e.graph, s.status) && Runnable(e.graph, s.status) == []
    ensures LevelOf(e.graph, s.status, k) == WithStatus(s.status, Completed)
  {
    hide Runnable, Level, Halted, Front;
    NothingRunnable(e.graph, s, k);
  }

  // ---- Starts ----

  lemma FreshRows(e: Env, k: nat)
    requires e.graph.Valid()
    ensures var s := Fresh(e.graph);
      && LevelOf(e.graph, s.status, k) == Level(e.graph, {}, {}, k)
      && (forall w :: w in s.status <==> w in e.graph.dependsOn)
      && (forall w :: w in s.status ==> s.status[w].Pending?)
      && (forall w :: w in s.attempts ==> s.attempts[w] == 0)
  {
    FreshStart(e);
  }

  /** A start that is cut short, row by row: it stops at the first node in table order of the
      first level that cannot all complete. The levels below and the nodes before it are
      completed, it says why it stopped, the pending nodes downstream of it are blocked unless
      it had no attempt, and all others are pending. */
  lemma FreshRunStops(e: Env) returns (k: nat, v: Id)
    requires e.graph.Valid()
    requires exists w :: w in Level(e.graph, {}, {}, SAFETY_CAP) && !WillSucceed(e, w, 0)
    ensures k < SAFETY_CAP && StopsAt(e, Fresh(e.graph), k, v) && History(e, []).run.RunBlocked?
    ensures History(e, []).status == RowsAtStop(e, FreshBefore(e.graph, k, v), v, 0)
  {
    hide Rounds, WillSucceed, History, ExecuteRun, RowsBefore, StopsAt, RowsAtStop, Level, Fresh, Front, DepthAtMost;
    var s := Fresh(e.graph);
    FreshRunEnds(e);
    FreshStart(e);
    FreshRows(e, SAFETY_CAP);
    FreshHistory(e);
    ExecuteRunStatus(e, s);
    LevelInside(e.graph, {}, {}, SAFETY_CAP);
    FreshSucceeds(e, Level(e.graph, {}, {}, SAFETY_CAP));
    SameRows(e, s, Level(e.graph, {}, {}, SAFETY_CAP));
    RoundsDone(e, s.(run := RunRunning), SAFETY_CAP);
    k, v := RoundsStopAt(e, s.(run := RunRunning), SAFETY_CAP);
    StopsWhileRunning(e, s, k, v);
    FreshBeforeRows(e, k, v);
  }

  /** Completed below level k and before v in the next level, pending elsewhere. */
  ghost function FreshBefore(g: Graph, k: nat, v: Id): StatusMap {
    map w | w in g.dependsOn ::
      if w in Level(g, {}, {}, k) || (w in Level(g, {}, {}, k + 1) && Precedes(g.order, w, v)) then Completed else Pending
  }

  lemma FreshBeforeRows(e: Env, k: nat, v: Id)
    requires e.graph.Valid()
    ensures RowsBefore(e.graph, Fresh(e.graph).status, k, k, v) == FreshBefore(e.graph, k, v)
    ensures v in Fresh(e.graph).attempts ==> Fresh(e.graph).attempts[v] == 0
  {
    hide Level, Fresh, Precedes, LevelOf, ClearOf;
    FreshRows(e, k);
    FreshRows(e, k + 1);
  }

  lemma StopsWhileRunning(e: Env, s: State, k: nat, v: Id)
    ensures StopsAt(e, s.(run := RunRunning), k, v) <==> StopsAt(e, s, k, v)
  {
    hide WillSucceed, LevelOf, Precedes;
    SameRows(e, s, LevelOf(e.graph, s.status, k));
  }

  /** A start that is not cut short completes the first 200 levels and leaves the rest pending. */
  lemma FreshRunLeaves(e: Env)
    requires e.graph.Valid()
    requires forall w :: w in Level(e.graph, {}, {}, SAFETY_CAP) ==> WillSucceed(e, w, 0)
    ensures History(e, []).status
         == map w | w in e.graph.dependsOn :: if w in Level(e.graph, {}, {}, SAFETY_CAP) then Completed else Pending
  {
    hide Rounds, WillSucceed, History, ExecuteRun, Level, Fresh, Front, DepthAtMost, ClearOf;
    var s := Fresh(e.graph);
    FreshStart(e);
    FreshRows(e, SAFETY_CAP);
    FreshHistory(e);
    ExecuteRunStatus(e, s);
    LevelInside(e.graph, {}, {}, SAFETY_CAP);
    FreshSucceeds(e, Level(e.graph, {}, {}, SAFETY_CAP));
    SameRows(e, s, Level(e.graph, {}, {}, SAFETY_CAP));
    RoundsDone(e, s.(run := RunRunning), SAFETY_CAP);
    var j := RoundsLeave(e, s.(run := RunRunning), SAFETY_CAP);
  }

  // ---- Retries and overrides ----

  /** The repair pass before a run counts as one more pass over the edited rows. */
  lemma PassShift(g: Graph, st: StatusMap, k: nat, passes: nat)
    requires Covers(g, st)
    ensures var now := Recomputed(g, st);
      && now.Keys == st.Keys
      && LevelOf(g, now, k) == LevelOf(g, st, k)
      && ClearOf(g, now, passes) == ClearOf(g, st, passes + 1)
      && RowsAfter(g, now, k, passes) == RowsAfter(g, st, k, passes + 1)
  {
    hide Level, Clear, HasFailedDependency, Recomputed, Named;
    PassRows(g, st);
    PassUnblocksLevel(g, st);
    PassKeepsLevels(g, st);
    LevelShift(g, Clear(g, st), WithStatus(st, Failed), passes);
    LevelMonotone(g, Clear(g, st), WithStatus(st, Failed), 1, passes + 1);
  }

  lemma PassKeepsLevels(g: Graph, st: StatusMap)
    requires Covers(g, st)
    ensures WithStatus(Recomputed(g, st), Completed) == WithStatus(st, Completed)
    ensures Halted(Recomputed(g, st)) == Halted(st)
  {
    hide Clear, HasFailedDependency, Recomputed, ClearOf;
    PassRows(g, st);
  }

  lemma PassBefore(g: Graph, st: StatusMap, k: nat, v: Id)
    requires Covers(g, st)
    ensures RowsBefore(g, Recomputed(g, st), k, k, v) == RowsBefore(g, st, k, k + 1, v)
  {
    hide LevelOf, ClearOf, Recomputed, Precedes;
    PassShift(g, st, k, k);
    PassShift(g, st, k + 1, k);
  }

  lemma StopsAfterPass(e: Env, s: State, k: nat, v: Id)
    requires s.Covers(e.graph)
    ensures StopsAt(e, Recompute(e.graph, s), k, v) <==> StopsAt(e, s, k, v)
  {
    hide LevelOf, WillSucceed, Precedes, Recomputed, Succeed, RowsAfter, ClearOf;
    PassShift(e.graph, s.status, k, k);
    PassShift(e.graph, s.status, k + 1, k);
    RecomputeSucceeds(e, s, LevelOf(e.graph, s.status, k));
  }

  /** A retry or override that is cut short, on every graph and from every state: where it
      stopped and every row it leaves, from the rows as edited. */
  lemma OperationStops(e: Env, s: State, op: Op) returns (k: nat, v: Id)
    requires e.graph.Valid() && s.Covers(e.graph) && op.node in e.graph.dependsOn
    requires !Succeed(e, Edited(s, op), LevelOf(e.graph, Edited(s, op).status, SAFETY_CAP))
    ensures k < SAFETY_CAP && StopsAt(e, Edited(s, op), k, v) && v in s.attempts
    ensures Apply(e, s, op).run.RunBlocked?
    ensures Apply(e, s, op).status
         == RowsAtStop(e, RowsBefore(e.graph, Edited(s, op).status, k, k + 1, v), v, s.attempts[v])
  {
    hide Rounds, WillSucceed, Apply, ExecuteRun, RowsBefore, StopsAt, RowsAtStop, LevelOf, Front, Recomputed, Succeed;
    ApplyUnfold(e, s, op);
    var edited := Edited(s, op);
    var start := Recompute(e.graph, edited);
    RecomputeKeeps(e.graph, edited);
    PassShift(e.graph, edited.status, SAFETY_CAP, 0);
    RecomputeSucceeds(e, edited, LevelOf(e.graph, edited.status, SAFETY_CAP));
    SameRows(e, start, LevelOf(e.graph, edited.status, SAFETY_CAP));
    CutShort(e, start);
    ExecuteRunStatus(e, start);
    ExecuteRunEnds(e, start);
    k, v := RoundsStopAt(e, start.(run := RunRunning), SAFETY_CAP);
    StopsWhileRunning(e, start, k, v);
    StopsAfterPass(e, edited, k, v);
    PassBefore(e.graph, edited.status, k, v);
  }

  lemma CutShort(e: Env, s: State)
    requires e.graph.Valid() && s.Covers(e.graph) && Front(e.graph, s.status)
    ensures s.(run := RunRunning).Covers(e.graph)
    ensures Rounds(e, s.(run := RunRunning), SAFETY_CAP).done <==> Succeed(e, s, LevelOf(e.graph, s.status, SAFETY_CAP))
  {
    hide Rounds, Level, WillSucceed, Front;
    SameRows(e, s, LevelOf(e.graph, s.status, SAFETY_CAP));
    RoundsDone(e, s.(run := RunRunning), SAFETY_CAP);
  }

  lemma RunLeaves(e: Env, s: State) returns (j: nat)
    requires e.graph.Valid() && s.Covers(e.graph) && Front(e.graph, s.status)
    requires Succeed(e, s, LevelOf(e.graph, s.status, SAFETY_CAP))
    ensures j <= SAFETY_CAP && LevelOf(e.graph, s.status, j) == LevelOf(e.graph, s.status, SAFETY_CAP)
    ensures j == SAFETY_CAP || LevelOf(e.graph, s.status, j + 1) == LevelOf(e.graph, s.status, j)
    ensures ExecuteRun(e, s).status == RowsAfter(e.graph, s.status, j, j)
    ensures ExecuteRun(e, s).run == Finalized(e.graph, ExecuteRun(e, s).status)
  {
    hide Rounds, ExecuteRun, LevelOf, Front, Succeed, RowsAfter, Finalized;
    CutShort(e, s);
    ExecuteRunStatus(e, s);
    ExecuteRunEnds(e, s);
    j := RoundsLeave(e, s.(run := RunRunning), SAFETY_CAP);
  }

  /** A retry or override that is not cut short: how many rounds it makes and every row it
      leaves, from the rows as edited. */
  lemma OperationLeaves(e: Env, s: State, op: Op) returns (j: nat)
    requires e.graph.Valid() && s.Covers(e.graph) && op.node in e.graph.dependsOn
    requires Succeed(e, Edited(s, op), LevelOf(e.graph, Edited(s, op).status, SAFETY_CAP))
    ensures var st := Edited(s, op).status;
      && j <= SAFETY_CAP && LevelOf(e.graph, st, j) == LevelOf(e.graph, st, SAFETY_CAP)
      && (j == SAFETY_CAP || LevelOf(e.graph, st, j + 1) == LevelOf(e.graph, st, j))
      && Apply(e, s, op).status == RowsAfter(e.graph, st, j, j + 1)
      && Apply(e, s, op).run == Finalized(e.graph, Apply(e, s, op).status)
  {
    hide Rounds, WillSucceed, Apply, ExecuteRun, LevelOf, Front, Recomputed, Succeed, RowsAfter, Finalized, Edited,
         Halted, WithStatus, ClearOf;
    ApplyUnfold(e, s, op);
    var edited := Edited(s, op);
    var start := Recompute(e.graph, edited);
    RecomputeKeeps(e.graph, edited);
    PassShift(e.graph, edited.status, SAFETY_CAP, 0);
    RecomputeSucceeds(e, edited, LevelOf(e.graph, edited.status, SAFETY_CAP));
    j := RunLeaves(e, start);
    PassShift(e.graph, edited.status, j, j);
    PassShift(e.graph, edited.status, j + 1, j);
  }

  /** The run status after every retry and override, on every graph and from every state: blocked
      if a node that the run can reach cannot complete; else completed if it reaches everything;
      else failed exactly when a row was failed as edited; else blocked exactly when a row awaits
      approval or is still blocked; else running. */
  lemma OperationEnds(e: Env, s: State, op: Op)
    requires e.graph.Valid() && s.Covers(e.graph) && op.node in e.graph.dependsOn
    ensures var st, t := Edited(s, op).status, Apply(e, s, op);
      var reach := LevelOf(e.graph, st, SAFETY_CAP);
      t.run == if !Succeed(e, Edited(s, op), reach) then RunBlocked
               else if reach == e.graph.Ids() then RunCompleted
               else if exists w :: w in st && st[w].Failed? then RunFailed
               else if exists w :: (w in st && st[w].AwaitingApproval?)
                                   || (w in t.status && t.status[w].Blocked?) then RunBlocked
               else RunRunning
  {
    hide Apply, WillSucceed, Succeed, Level, Edited, ClearOf;
    if !Succeed(e, Edited(s, op), LevelOf(e.graph, Edited(s, op).status, SAFETY_CAP)) {
      var k, v := OperationStops(e, s, op);
    } else {
      var j := OperationLeaves(e, s, op);
      EditedCovers(e, s, op);
      HasRows(e.graph, op.node);
      FinalRows(e, Edited(s, op).status, j);
    }
  }

  lemma EditedCovers(e: Env, s: State, op: Op)
    requires s.Covers(e.graph) && op.node in e.graph.dependsOn
    ensures Covers(e.graph, Edited(s, op).status)
  {
  }

  lemma FinalRows(e: Env, st: StatusMap, j: nat)
    requires e.graph.Valid() && e.graph.order != [] && Covers(e.graph, st)
    ensures var t := RowsAfter(e.graph, st, j, j + 1);
      Finalized(e.graph, t) ==
        if LevelOf(e.graph, st, j) == e.graph.Ids() then RunCompleted
        else if exists w :: w in st && st[w].Failed? then RunFailed
        else if exists w :: (w in st && st[w].AwaitingApproval?) || (w in t && t[w].Blocked?) then RunBlocked
        else RunRunning
  {
    hide Level, ClearOf;
    var g, t := e.graph, RowsAfter(e.graph, st, j, j + 1);
    HaltedStay(g, st, j);
    LevelInside(g, WithStatus(st, Completed), Halted(st), j);
    assert forall w :: w in st ==> (t[w].Failed? <==> st[w].Failed?);
    assert forall w :: w in st ==> (t[w].AwaitingApproval? <==> st[w].AwaitingApproval?);
    assert forall w :: w in st ==> (t[w].Completed? <==> w in LevelOf(g, st, j));
    assert AllCompleted(g, t) <==> LevelOf(g, st, j) == g.Ids();
  }

  /** Failed and awaiting rows join no level. */
  lemma HaltedStay(g: Graph, st: StatusMap, k: nat)
    ensures forall w :: w in st && st[w] in {Failed, AwaitingApproval, Running} ==> w !in LevelOf(g, st, k)
    ensures forall w :: w in st && st[w].Completed? ==> w in LevelOf(g, st, k)
  {
    LevelMonotone(g, WithStatus(st, Completed), Halted(st), 0, k);
  }
}
