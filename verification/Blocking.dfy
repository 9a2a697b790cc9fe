/**
 Node statuses and the three queries and updates the store runs over them: which
 nodes are runnable, how blocking spreads downstream of a node, and how one repair
 pass undoes it.
*/
module Blocking {
  import opened Graphs

  datatype NodeStatus = Pending | Running | Completed | Failed | Blocked | AwaitingApproval

  type StatusMap = map<Id, NodeStatus>

  ghost predicate Covers(g: Graph, st: StatusMap) {
    st.Keys == g.Ids()
  }

  function WithStatus(st: StatusMap, s: NodeStatus): set<Id> {
    set v | v in st && st[v] == s
  }

  /** The nodes a run can still not complete by itself: failed, awaiting approval,
      or left running by a crash. */
  function Halted(st: StatusMap): set<Id> {
    set v | v in st && st[v] in {Failed, AwaitingApproval, Running}
  }

  // ---- Runnable nodes ----

  predicate IsRunnable(g: Graph, st: StatusMap, v: Id) {
    && v in g.dependsOn && v in st && st[v].Pending?
    && forall d :: d in g.dependsOn[v] ==> d in st && st[d].Completed?
  }

  /** The runnable rows, in row order. */
  function RunnableOf(g: Graph, st: StatusMap, order: seq<Id>): seq<Id> {
    if order == [] then []
    else (if IsRunnable(g, st, order[0]) then [order[0]] else []) + RunnableOf(g, st, order[1..])
  }

  function Runnable(g: Graph, st: StatusMap): seq<Id> {
    RunnableOf(g, st, g.order)
  }

  ghost predicate Distinct(s: seq<Id>) {
    forall i, j :: 0 <= i < j < |s| ==> s[i] != s[j]
  }

  lemma {:induction false} RunnableOfExact(g: Graph, st: StatusMap, order: seq<Id>)
    ensures forall v :: v in RunnableOf(g, st, order) <==> v in order && IsRunnable(g, st, v)
    ensures Distinct(order) ==> Distinct(RunnableOf(g, st, order))
  {
    if order != [] {
      RunnableOfExact(g, st, order[1..]);
      var rest := RunnableOf(g, st, order[1..]);
      assert forall v :: v in order <==> v == order[0] || v in order[1..];
      if Distinct(order) {
        assert order[0] !in order[1..];
        assert Distinct(order[1..]);
      }
    }
  }

  /** w comes before v in the list. */
  ghost predicate Precedes(order: seq<Id>, w: Id, v: Id) {
    exists i, j :: 0 <= i < j < |order| && order[i] == w && order[j] == v
  }

  ghost predicate InOrder(order: seq<Id>, some: seq<Id>) {
    forall i, j :: 0 <= i < j < |some| ==> Precedes(order, some[i], some[j])
  }

  lemma PrecedesLater(order: seq<Id>, w: Id, v: Id)
    requires order != [] && Precedes(order[1..], w, v)
    ensures Precedes(order, w, v)
  {
    var i, j :| 0 <= i < j < |order[1..]| && order[1..][i] == w && order[1..][j] == v;
    assert order[i+1] == w && order[j+1] == v;
  }

  lemma {:induction false} RunnableOfInOrder(g: Graph, st: StatusMap, order: seq<Id>)
    ensures InOrder(order, RunnableOf(g, st, order))
  {
    hide Precedes, IsRunnable;
    if order != [] {
      var rest, all := RunnableOf(g, st, order[1..]), RunnableOf(g, st, order);
      RunnableOfInOrder(g, st, order[1..]);
      RunnableOfExact(g, st, order[1..]);
      forall i, j | 0 <= i < j < |all|
        ensures Precedes(order, all[i], all[j])
      {
        var shift := |all| - |rest|;
        if i < shift {
          assert all[j] == rest[j - shift];
          FirstPrecedes(order, all[j]);
        } else {
          assert all[i] == rest[i - shift] && all[j] == rest[j - shift];
          PrecedesLater(order, all[i], all[j]);
        }
      }
    }
  }

  lemma FirstPrecedes(order: seq<Id>, v: Id)
    requires order != [] && v in order[1..]
    ensures Precedes(order, order[0], v)
  {
    var j :| 0 <= j < |order[1..]| && order[1..][j] == v;
    assert order[j+1] == v;
  }

  /** A scheduling round works on exactly the pending nodes whose dependencies have
      all completed, each once. */
  lemma RunnableExact(g: Graph, st: StatusMap)
    requires g.Valid()
    ensures forall v :: v in Runnable(g, st) <==> IsRunnable(g, st, v)
    ensures Distinct(Runnable(g, st))
  {
    RunnableOfExact(g, st, g.order);
  }

  /** It works on them in the order of the table. */
  lemma RunnableInOrder(g: Graph, st: StatusMap)
    ensures InOrder(g.order, Runnable(g, st))
  {
    RunnableOfInOrder(g, st, g.order);
  }

  // ---- Spreading a block downstream ----

  /** p leads from src, along dependency edges, through pending nodes only. */
  ghost predicate PendingPath(g: Graph, st: StatusMap, src: Id, p: seq<Id>) {
    && |p| > 0
    && (forall i :: 0 <= i < |p| ==> p[i] in st && st[p[i]].Pending?)
    && g.Edge(src, p[0])
    && forall i :: 0 < i < |p| ==> g.Edge(p[i-1], p[i])
  }

  ghost predicate Downstream(g: Graph, st: StatusMap, src: Id, v: Id) {
    exists p :: PendingPath(g, st, src, p) && p[|p|-1] == v
  }

  /** What `blockDependents` promises: the pending nodes downstream of src become
      blocked and nothing else changes. */
  ghost function Propagated(g: Graph, st: StatusMap, src: Id): StatusMap {
    map v | v in st :: if Downstream(g, st, src, v) then Blocked else st[v]
  }

  lemma DownstreamIsPending(g: Graph, st: StatusMap, src: Id, v: Id)
    requires Downstream(g, st, src, v)
    ensures v in st && st[v].Pending?
  {
  }

  lemma ExtendDownstream(g: Graph, st: StatusMap, src: Id, u: Id, w: Id)
    requires u == src || Downstream(g, st, src, u)
    requires g.Edge(u, w) && w in st && st[w].Pending?
    ensures Downstream(g, st, src, w)
  {
    if u == src {
      assert PendingPath(g, st, src, [w]);
    } else {
      var p :| PendingPath(g, st, src, p) && p[|p|-1] == u;
      assert PendingPath(g, st, src, p + [w]);
    }
  }

  /** A path from a pending dependent x of src, in a state with fewer pending nodes,
      is the rest of a path from src. */
  lemma PrependDownstream(g: Graph, st: StatusMap, later: StatusMap, src: Id, x: Id, v: Id)
    requires x in st && st[x].Pending? && g.Edge(src, x)
    requires forall w :: w in later && later[w].Pending? ==> w in st && st[w].Pending?
    requires Downstream(g, later, x, v)
    ensures Downstream(g, st, src, v)
  {
    var p :| PendingPath(g, later, x, p) && p[|p|-1] == v;
    assert PendingPath(g, st, src, [x] + p);
  }

  /** now is reached from st by blocking nodes downstream of src, and no pending node
      depends on one of them. */
  ghost predicate PartlyBlocked(g: Graph, st: StatusMap, now: StatusMap, src: Id) {
    && now.Keys == st.Keys
    && (forall v :: v in st ==> now[v] == st[v] || (now[v].Blocked? && Downstream(g, st, src, v)))
    && forall u, w :: g.Edge(u, w) && w in st && now[w].Pending? ==> !(u in st && now[u] != st[u])
  }

  /** Once no pending node depends on src either, the blocking is complete. */
  lemma ClosedIsPropagated(g: Graph, st: StatusMap, now: StatusMap, src: Id)
    requires PartlyBlocked(g, st, now, src)
    requires forall w :: g.Edge(src, w) && w in st ==> !now[w].Pending?
    ensures now == Propagated(g, st, src)
  {
    forall v | v in st && Downstream(g, st, src, v)
      ensures now[v].Blocked?
    {
      var p :| PendingPath(g, st, src, p) && p[|p|-1] == v;
      PathIsBlocked(g, st, now, src, p);
    }
  }

  lemma {:induction false} PathIsBlocked(g: Graph, st: StatusMap, now: StatusMap, src: Id, p: seq<Id>)
    requires PartlyBlocked(g, st, now, src)
    requires forall w :: g.Edge(src, w) && w in st ==> !now[w].Pending?
    requires PendingPath(g, st, src, p)
    ensures now[p[|p|-1]].Blocked?
  {
    if |p| > 1 {
      PathIsBlocked(g, st, now, src, p[..|p|-1]);
      assert g.Edge(p[|p|-2], p[|p|-1]);
    }
  }

  /** After blocking from src no pending node depends on src or on a newly blocked node. */
  lemma PropagatedIsClosed(g: Graph, st: StatusMap, src: Id, u: Id, w: Id)
    requires g.Edge(u, w) && w in st && Propagated(g, st, src)[w].Pending?
    ensures u != src && !(u in st && Propagated(g, st, src)[u] != st[u])
  {
    if u == src || Downstream(g, st, src, u) {
      ExtendDownstream(g, st, src, u, w);
    }
  }

  /** Blocking a dependent of src that was pending at the start, and then everything
      downstream of it, keeps the partial result sound and closed, even when the
      dependent had been blocked before; and fewer nodes are pending than at the start. */
  lemma BlockedFurther(g: Graph, st: StatusMap, now: StatusMap, src: Id, node: Id)
    requires PartlyBlocked(g, st, now, src)
    requires node in st && st[node].Pending? && g.Edge(src, node)
    ensures PartlyBlocked(g, st, Propagated(g, now[node := Blocked], node), src)
    ensures |WithStatus(now[node := Blocked], Pending)| < |WithStatus(st, Pending)|
    ensures forall w :: w in st && Propagated(g, now[node := Blocked], node)[w].Pending? ==>
                          w != node && now[w].Pending?
  {
    var inner := now[node := Blocked];
    var after := Propagated(g, inner, node);
    ExtendDownstream(g, st, src, src, node);
    forall w | w in st
      ensures after[w] == st[w] || (after[w].Blocked? && Downstream(g, st, src, w))
    {
      if Downstream(g, inner, node, w) {
        PrependDownstream(g, st, inner, src, node, w);
      }
    }
    forall u, w | g.Edge(u, w) && w in st && after[w].Pending?
      ensures !(u in st && after[u] != st[u])
    {
      PropagatedIsClosed(g, inner, node, u, w);
    }
    assert node in WithStatus(st, Pending) && node !in WithStatus(inner, Pending);
    SubsetSize(WithStatus(inner, Pending), WithStatus(st, Pending));
  }

  /** The first i listed nodes are no longer pending. */
  ghost predicate Cleared(now: StatusMap, nodes: seq<Id>, i: nat) {
    i <= |nodes| && forall j :: 0 <= j < i ==> nodes[j] in now && !now[nodes[j]].Pending?
  }

  lemma NoneCleared(now: StatusMap, nodes: seq<Id>)
    ensures Cleared(now, nodes, 0)
  {
  }

  lemma ClearedFurther(g: Graph, st: StatusMap, now: StatusMap, src: Id, nodes: seq<Id>, i: nat)
    requires PartlyBlocked(g, st, now, src) && i < |nodes| && Cleared(now, nodes, i)
    requires nodes[i] in st && st[nodes[i]].Pending? && g.Edge(src, nodes[i])
    ensures Cleared(Propagated(g, now[nodes[i] := Blocked], nodes[i]), nodes, i + 1)
  {
    hide Downstream, PartlyBlocked, Graph.Edge;
    BlockedFurther(g, st, now, src, nodes[i]);
    KeysKept(g, st, now, src);
  }

  lemma KeysKept(g: Graph, st: StatusMap, now: StatusMap, src: Id)
    requires PartlyBlocked(g, st, now, src)
    ensures now.Keys == st.Keys
  {
  }

  lemma AllCleared(g: Graph, st: StatusMap, now: StatusMap, src: Id, nodes: seq<Id>)
    requires Cleared(now, nodes, |nodes|)
    requires forall w :: w in st && st[w].Pending? && g.Edge(src, w) ==> w in nodes
    ensures forall w :: w in st && st[w].Pending? && g.Edge(src, w) ==> w in now && !now[w].Pending?
  {
  }

  /** Exactly the rows whose status changed lost their override mark. */
  ghost predicate MarksKept(was: set<Id>, now: set<Id>, before: StatusMap, after: StatusMap) {
    forall x :: x in now <==> x in was && !(x in before && x in after && after[x] != before[x])
  }

  lemma MarksAfterBlocking(g: Graph, st: StatusMap, now: StatusMap, src: Id, node: Id, was: set<Id>, marks: set<Id>)
    requires PartlyBlocked(g, st, now, src) && MarksKept(was, marks, st, now)
    requires node in st && st[node].Pending?
    ensures var inner := now[node := Blocked];
            MarksKept(was, marks - {node} - (set w | w in inner && Downstream(g, inner, node, w)),
                      st, Propagated(g, inner, node))
  {
    var inner := now[node := Blocked];
    forall w | Downstream(g, inner, node, w)
      ensures st[w].Pending?
    {
      DownstreamIsPending(g, inner, node, w);
    }
  }

  lemma BlockingStarts(g: Graph, st: StatusMap, src: Id, was: set<Id>)
    ensures PartlyBlocked(g, st, st, src) && MarksKept(was, was, st, st)
  {
  }

  lemma BlockingEnds(g: Graph, st: StatusMap, now: StatusMap, src: Id, was: set<Id>, marks: set<Id>)
    requires PartlyBlocked(g, st, now, src) && MarksKept(was, marks, st, now)
    requires forall w :: w in st && st[w].Pending? && g.Edge(src, w) ==> !now[w].Pending?
    ensures now == Propagated(g, st, src)
    ensures marks == was - set w | w in st && Downstream(g, st, src, w)
  {
    ClosedIsPropagated(g, st, now, src);
    forall w | Downstream(g, st, src, w)
      ensures st[w].Pending?
    {
      DownstreamIsPending(g, st, src, w);
    }
  }

  // ---- One repair pass ----

  /** Some dependency has failed or is itself blocked. A dependency that awaits
      approval does not count. */
  predicate HasFailedDependency(g: Graph, st: StatusMap, v: Id)
    requires v in g.dependsOn
  {
    exists d :: d in g.dependsOn[v] && d in st && st[d] in {Failed, Blocked}
  }

  /** What one `recomputeBlockedNodes` pass promises, judged on the statuses before it. */
  function Recomputed(g: Graph, st: StatusMap): StatusMap
    requires Covers(g, st)
  {
    map v | v in st :: if st[v].Blocked? && !HasFailedDependency(g, st, v) then Pending else st[v]
  }

  /** The pass has dealt with the first i rows and not touched the others. */
  ghost predicate PartlyRepaired(g: Graph, st: StatusMap, now: StatusMap, i: nat)
    requires g.Valid() && Covers(g, st)
  {
    && now.Keys == st.Keys
    && i <= |g.order|
    && (forall j :: 0 <= j < i ==> now[g.order[j]] == Recomputed(g, st)[g.order[j]])
    && forall j :: i <= j < |g.order| ==> now[g.order[j]] == st[g.order[j]]
  }

  lemma RepairStarts(g: Graph, st: StatusMap, was: set<Id>)
    requires g.Valid() && Covers(g, st)
    ensures PartlyRepaired(g, st, st, 0) && MarksKept(was, was, st, st)
  {
  }

  lemma RepairFurther(g: Graph, st: StatusMap, now: StatusMap, i: nat, was: set<Id>, marks: set<Id>)
    requires g.Valid() && Covers(g, st) && i < |g.order|
    requires PartlyRepaired(g, st, now, i) && MarksKept(was, marks, st, now)
    ensures var v := g.order[i];
            if st[v].Blocked? && !HasFailedDependency(g, st, v) then
              PartlyRepaired(g, st, now[v := Pending], i + 1) && MarksKept(was, marks - {v}, st, now[v := Pending])
            else
              PartlyRepaired(g, st, now, i + 1)
  {
    hide HasFailedDependency;
  }

  lemma RepairEnds(g: Graph, st: StatusMap, now: StatusMap, was: set<Id>, marks: set<Id>)
    requires g.Valid() && Covers(g, st)
    requires PartlyRepaired(g, st, now, |g.order|) && MarksKept(was, marks, st, now)
    ensures now == Recomputed(g, st)
    ensures marks == was - set v | v in st && st[v].Blocked? && !HasFailedDependency(g, st, v)
  {
  }

  /** No blocked node has only completed dependencies: nothing is blocked for no reason. */
  ghost predicate Front(g: Graph, st: StatusMap) {
    forall v :: v in g.dependsOn && v in st && st[v].Blocked? ==>
                  exists d :: d in g.dependsOn[v] && d in st && !st[d].Completed?
  }

  /** One pass always clears the nodes blocked for no reason, though deeper ones stay blocked. */
  lemma RecomputedHasFront(g: Graph, st: StatusMap)
    requires Covers(g, st)
    ensures Front(g, Recomputed(g, st))
  {
    var now := Recomputed(g, st);
    forall v | v in g.dependsOn && now[v].Blocked?
      ensures exists d :: d in g.dependsOn[v] && d in now && !now[d].Completed?
    {
      var d :| d in g.dependsOn[v] && d in st && st[d] in {Failed, Blocked};
      assert !now[d].Completed?;
    }
  }

  /** The statuses after k repair passes with nothing run in between. */
  function Passes(g: Graph, st: StatusMap, k: nat): (now: StatusMap)
    requires Covers(g, st)
    ensures Covers(g, now)
  {
    if k == 0 then st else Recomputed(g, Passes(g, st, k - 1))
  }

  /** Every node of the table, and every id that is named as a dependency without being one. */
  function Named(g: Graph): set<Id> {
    g.Ids() + set v, d | v in g.dependsOn && d in g.dependsOn[v] :: d
  }

  /** The ids that stand in nobody's way: neither failed nor blocked. */
  function Clear(g: Graph, st: StatusMap): set<Id> {
    Named(g) - WithStatus(st, Failed) - WithStatus(st, Blocked)
  }

  /** One pass unblocks exactly the first level above the clear ids. */
  lemma PassUnblocksLevel(g: Graph, st: StatusMap)
    requires Covers(g, st)
    ensures Covers(g, Recomputed(g, st)) && WithStatus(Recomputed(g, st), Failed) == WithStatus(st, Failed)
    ensures WithStatus(Recomputed(g, st), Blocked)
         == WithStatus(st, Blocked) - Level(g, Clear(g, st), WithStatus(st, Failed), 1)
    ensures Clear(g, Recomputed(g, st)) == Level(g, Clear(g, st), WithStatus(st, Failed), 1)
  {
    var clear, now := Clear(g, st), Recomputed(g, st);
    assert Level(g, clear, WithStatus(st, Failed), 0) == clear;
    forall v | v in st && st[v].Blocked?
      ensures now[v].Blocked? <==> !g.DepsIn(v, clear)
    {
      forall d | d in g.dependsOn[v]
        ensures d in clear <==> !(d in st && st[d] in {Failed, Blocked})
      {
        assert d in Named(g);
      }
    }
  }

  lemma PassesStep(g: Graph, st: StatusMap, k: nat)
    requires Covers(g, st)
    ensures Passes(g, Recomputed(g, st), k) == Passes(g, st, k + 1)
  {
    if k > 0 {
      PassesStep(g, st, k - 1);
    }
  }

  /** Each pass unblocks one level: the rows still blocked after k passes are those blocked
      before, without level k above what is neither failed nor blocked, where failed rows
      never join a level. */
  lemma {:induction false} PassesUnblockLevels(g: Graph, st: StatusMap, k: nat)
    requires Covers(g, st)
    ensures WithStatus(Passes(g, st, k), Blocked)
         == WithStatus(st, Blocked) - Level(g, Clear(g, st), WithStatus(st, Failed), k)
    decreases k
  {
    hide Recomputed, WithStatus, Clear;
    if k == 0 {
      NoneUnblocked(g, st);
    } else {
      var failed, first := WithStatus(st, Failed), Level(g, Clear(g, st), WithStatus(st, Failed), 1);
      PassUnblocksLevel(g, st);
      PassesStep(g, st, k - 1);
      PassesUnblockLevels(g, Recomputed(g, st), k - 1);
      LevelShift(g, Clear(g, st), failed, k - 1);
      LevelMonotone(g, Clear(g, st), failed, 1, k);
    }
  }

  lemma NoneUnblocked(g: Graph, st: StatusMap)
    ensures WithStatus(st, Blocked) == WithStatus(st, Blocked) - Level(g, Clear(g, st), WithStatus(st, Failed), 0)
  {
  }
}
