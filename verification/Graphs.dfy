/**
 Dependency graphs of pipeline runs: rows in insertion order, the ids each row
 depends on, and the rows that are paid actions. Contains the graph theory the
 scheduler relies on: dependency levels, when they stop growing, and why a
 closed graph without cycles is exactly one whose levels cover every node.
*/
module Graphs {
  import opened Optional

  type Id = string

  /** The immutable columns of the node table of one run. `order` is rowid order;
      the primary key makes ids distinct, which is what `Valid` says. */
  datatype Graph = Graph(order: seq<Id>, dependsOn: map<Id, seq<Id>>, paid: set<Id>) {

    ghost predicate Valid() {
      && (forall v :: v in dependsOn <==> v in order)
      && (forall i, j :: 0 <= i < j < |order| ==> order[i] != order[j])
    }

    function Ids(): set<Id> {
      dependsOn.Keys
    }

    /** v lists d among its dependencies. */
    predicate Edge(d: Id, v: Id) {
      v in dependsOn && d in dependsOn[v]
    }

    /** Every dependency of v lies in `below`. */
    predicate DepsIn(v: Id, below: set<Id>)
      requires v in dependsOn
    {
      forall d :: d in dependsOn[v] ==> d in below
    }

    /** Every dependency names a row of the run. */
    ghost predicate Closed() {
      forall d, v :: Edge(d, v) ==> d in dependsOn
    }

    /** A walk follows dependency edges forwards, from dependency to dependent. */
    ghost predicate Walk(p: seq<Id>) {
      && |p| > 0
      && forall i :: 0 < i < |p| ==> Edge(p[i-1], p[i])
    }

    /** No walk with at least one edge comes back to where it started. */
    ghost predicate Acyclic() {
      forall p :: Walk(p) && |p| > 1 ==> p[0] != p[|p|-1]
    }
  }

  /** One row of a pipeline definition. */
  datatype NodeDefinition = NodeDefinition(id: Id, dependsOn: seq<Id>, paidAction: bool)

  function AppendRow(g: Graph, n: NodeDefinition): Graph {
    Graph(g.order + [n.id], g.dependsOn[n.id := n.dependsOn], if n.paidAction then g.paid + {n.id} else g.paid)
  }

  /** The node table `createRun` fills from a definition, or None when two nodes
      share an id, which the table's primary key rejects. */
  function GraphOf(nodes: seq<NodeDefinition>): Option<Graph> {
    if nodes == [] then
      Some(Graph([], map[], {}))
    else
      match GraphOf(nodes[..|nodes|-1])
      case None => None
      case Some(g) =>
        if nodes[|nodes|-1].id in g.dependsOn then None else Some(AppendRow(g, nodes[|nodes|-1]))
  }

  ghost predicate RowHolds(g: Graph, i: nat, n: NodeDefinition)
    requires i < |g.order|
  {
    && g.order[i] == n.id
    && n.id in g.dependsOn
    && g.dependsOn[n.id] == n.dependsOn
    && (n.id in g.paid <==> n.paidAction)
  }

  ghost predicate TableHolds(g: Graph, nodes: seq<NodeDefinition>) {
    && g.Valid()
    && g.paid <= g.Ids()
    && |g.order| == |nodes|
    && forall i :: 0 <= i < |nodes| ==> RowHolds(g, i, nodes[i])
  }

  lemma AppendRowHolds(g: Graph, nodes: seq<NodeDefinition>, n: NodeDefinition)
    requires TableHolds(g, nodes) && n.id !in g.dependsOn
    ensures TableHolds(AppendRow(g, n), nodes + [n])
  {
    var t := AppendRow(g, n);
    assert forall v :: v in t.order <==> v in g.order || v == n.id;
    forall i | 0 <= i < |nodes| + 1
      ensures RowHolds(t, i, (nodes + [n])[i])
    {
      if i < |nodes| {
        assert RowHolds(g, i, nodes[i]);
      }
    }
  }

  /** The table exists exactly when ids are distinct, and then holds every row in order. */
  lemma {:induction false} GraphOfHoldsEveryRow(nodes: seq<NodeDefinition>)
    ensures GraphOf(nodes).Some? <==> forall i, j :: 0 <= i < j < |nodes| ==> nodes[i].id != nodes[j].id
    ensures GraphOf(nodes).Some? ==> TableHolds(GraphOf(nodes).value, nodes)
  {
    if nodes != [] {
      var last := |nodes|-1;
      var front := nodes[..last];
      GraphOfHoldsEveryRow(front);
      assert nodes == front + [nodes[last]];
      if GraphOf(front).Some? {
        var g := GraphOf(front).value;
        assert forall i :: 0 <= i < last ==> RowHolds(g, i, front[i]);
        if nodes[last].id in g.dependsOn {
          var i :| 0 <= i < |g.order| && g.order[i] == nodes[last].id;
          assert RowHolds(g, i, front[i]);
          assert nodes[i].id == nodes[last].id;
        } else {
          AppendRowHolds(g, front, nodes[last]);
          var t := GraphOf(nodes).value;
          forall i, j | 0 <= i < j < |nodes|
            ensures nodes[i].id != nodes[j].id
          {
            assert RowHolds(t, i, nodes[i]) && RowHolds(t, j, nodes[j]);
          }
        }
      } else {
        var i, j :| 0 <= i < j < |front| && front[i].id == front[j].id;
        assert nodes[i].id == nodes[j].id;
      }
    }
  }

  /** The nodes a scheduler that starts from the completed set `done`, and never
      completes a node of `halted`, can have completed after k full rounds. With
      `done` and `halted` empty: the nodes of dependency depth at most k. */
  ghost function Level(g: Graph, done: set<Id>, halted: set<Id>, k: nat): set<Id> {
    if k == 0 then done else
    done + set v | v in g.dependsOn && v !in halted && g.DepsIn(v, Level(g, done, halted, k-1))
  }

  ghost predicate DepthAtMost(g: Graph, k: nat) {
    Level(g, {}, {}, k) == g.Ids()
  }

  lemma {:induction false} LevelGrows(g: Graph, done: set<Id>, halted: set<Id>, k: nat)
    ensures Level(g, done, halted, k) <= Level(g, done, halted, k+1)
  {
    if k > 0 {
      LevelGrows(g, done, halted, k-1);
    }
  }

  lemma {:induction false} LevelMonotone(g: Graph, done: set<Id>, halted: set<Id>, j: nat, k: nat)
    requires j <= k
    ensures Level(g, done, halted, j) <= Level(g, done, halted, k)
    decreases k - j
  {
    if j < k {
      LevelGrows(g, done, halted, j);
      LevelMonotone(g, done, halted, j+1, k);
    }
  }

  /** More completed nodes and fewer halted ones only widen a level. */
  lemma {:induction false} LevelWiden(g: Graph, done: set<Id>, halted: set<Id>,
                                      done': set<Id>, halted': set<Id>, k: nat)
    requires done <= done' && halted' <= halted
    ensures Level(g, done, halted, k) <= Level(g, done', halted', k)
  {
    if k > 0 {
      LevelWiden(g, done, halted, done', halted', k-1);
    }
  }

  /** Running one round first and then k more is running k + 1 rounds. */
  lemma {:induction false} LevelShift(g: Graph, done: set<Id>, halted: set<Id>, k: nat)
    ensures Level(g, Level(g, done, halted, 1), halted, k) == Level(g, done, halted, k+1)
  {
    if k > 0 {
      LevelShift(g, done, halted, k-1);
      LevelMonotone(g, done, halted, 1, k+1);
      LevelMonotone(g, done, halted, 1, k);
      var first := Level(g, done, halted, 1);
      assert Level(g, first, halted, k-1) == Level(g, done, halted, k);
      assert Level(g, first, halted, k)
          == first + set v | v in g.dependsOn && v !in halted && g.DepsIn(v, Level(g, done, halted, k));
    }
  }

  /** A level that did not grow once never grows again. */
  lemma {:induction false} LevelStable(g: Graph, done: set<Id>, halted: set<Id>, k: nat, j: nat)
    requires Level(g, done, halted, k+1) == Level(g, done, halted, k)
    requires k <= j
    ensures Level(g, done, halted, j) == Level(g, done, halted, k)
    decreases j
  {
    if k < j {
      LevelStable(g, done, halted, k, j-1);
      assert Level(g, done, halted, j)
          == done + set v | v in g.dependsOn && v !in halted && g.DepsIn(v, Level(g, done, halted, j-1));
    }
  }

  lemma {:induction false} LevelInside(g: Graph, done: set<Id>, halted: set<Id>, k: nat)
    requires done <= g.Ids()
    ensures Level(g, done, halted, k) <= g.Ids()
  {
  }

  lemma SubsetSize<T>(a: set<T>, b: set<T>)
    requires a <= b
    ensures |a| <= |b|
    ensures a != b ==> |a| < |b|
  {
    assert b == a + (b - a);
  }

  /** Levels settle after at most as many rounds as there are nodes left to complete. */
  lemma {:induction false} LevelSettles(g: Graph, done: set<Id>, halted: set<Id>, k: nat)
    requires done <= g.Ids()
    requires k >= |g.Ids() - done|
    ensures Level(g, done, halted, k+1) == Level(g, done, halted, k)
    decreases |g.Ids() - done|
  {
    var first := Level(g, done, halted, 1);
    LevelGrows(g, done, halted, 0);
    if first == done {
      LevelStable(g, done, halted, 0, k);
      LevelStable(g, done, halted, 0, k+1);
    } else {
      LevelInside(g, done, halted, 1);
      SubsetSize(g.Ids() - first, g.Ids() - done);
      LevelSettles(g, first, halted, k-1);
      LevelShift(g, done, halted, k-1);
      LevelShift(g, done, halted, k);
    }
  }

  // ---- What a level means, and which graphs have finite depth ----

  /** v has depth at most k exactly when every walk that ends in v has at most k
      nodes and never leaves the table. */
  lemma {:induction false} LevelMeansShortWalks(g: Graph, v: Id, k: nat)
    ensures v in Level(g, {}, {}, k)
       <==> forall p :: g.Walk(p) && p[|p|-1] == v ==> |p| <= k && forall x :: x in p ==> x in g.dependsOn
  {
    if v in Level(g, {}, {}, k) {
      forall p | g.Walk(p) && p[|p|-1] == v
        ensures |p| <= k && forall x :: x in p ==> x in g.dependsOn
      {
        WalkIntoLevel(g, p, k);
      }
    } else {
      var p := WitnessWalk(g, v, k);
    }
  }

  lemma {:induction false} WalkIntoLevel(g: Graph, p: seq<Id>, k: nat)
    requires g.Walk(p) && p[|p|-1] in Level(g, {}, {}, k)
    ensures |p| <= k && forall x :: x in p ==> x in g.dependsOn
  {
    if |p| > 1 {
      var q := p[..|p|-1];
      assert g.Edge(p[|p|-2], p[|p|-1]);
      WalkIntoLevel(g, q, k-1);
      assert p == q + [p[|p|-1]];
    }
  }

  lemma {:induction false} WitnessWalk(g: Graph, v: Id, k: nat) returns (p: seq<Id>)
    requires v !in Level(g, {}, {}, k)
    ensures g.Walk(p) && p[|p|-1] == v
    ensures |p| > k || exists x :: x in p && x !in g.dependsOn
    decreases k
  {
    if k == 0 || v !in g.dependsOn {
      p := [v];
      assert v in p;
    } else {
      var d :| d in g.dependsOn[v] && d !in Level(g, {}, {}, k-1);
      var q := WitnessWalk(g, d, k-1);
      p := q + [v];
      assert forall x :: x in q ==> x in p;
    }
  }

  /** A closed graph has no cycles exactly when its levels cover every node. */
  lemma AcyclicMeansFiniteDepth(g: Graph)
    requires g.Closed()
    ensures g.Acyclic() <==> DepthAtMost(g, |g.Ids()|)
  {
    var n := |g.Ids()|;
    LevelInside(g, {}, {}, n);
    if !DepthAtMost(g, n) {
      var v :| v in g.Ids() && v !in Level(g, {}, {}, n);
      var cycle := FindCycle(g, v);
    } else if !g.Acyclic() {
      var p :| g.Walk(p) && |p| > 1 && p[0] == p[|p|-1];
      var q := Wind(g, p, n);
      assert g.Edge(q[|q|-2], q[|q|-1]);
      WalkIntoLevel(g, q, n);
    }
  }

  lemma FindCycle(g: Graph, v: Id) returns (cycle: seq<Id>)
    requires g.Closed() && v in g.Ids() && v !in Level(g, {}, {}, |g.Ids()|)
    ensures g.Walk(cycle) && |cycle| > 1 && cycle[0] == cycle[|cycle|-1]
  {
    var p := WitnessWalk(g, v, |g.Ids()|);
    WalkStaysInside(g, p);
    var i, j := Pigeonhole(p, g.Ids());
    cycle := p[i..j+1];
    Slice(g, p, i, j+1);
  }

  lemma WalkStaysInside(g: Graph, p: seq<Id>)
    requires g.Closed() && g.Walk(p) && p[|p|-1] in g.dependsOn
    ensures forall x :: x in p ==> x in g.Ids()
  {
    forall i | 0 <= i < |p|
      ensures p[i] in g.dependsOn
    {
      if i < |p|-1 {
        assert g.Edge(p[i+1-1], p[i+1]);
      }
    }
  }

  lemma Slice(g: Graph, p: seq<Id>, i: nat, j: nat)
    requires g.Walk(p) && i < j <= |p|
    ensures g.Walk(p[i..j])
  {
    forall k | 0 < k < |p[i..j]|
      ensures g.Edge(p[i..j][k-1], p[i..j][k])
    {
      assert g.Edge(p[i+k-1], p[i+k]);
    }
  }

  /** Going round a cycle often enough gives walks of any length. */
  lemma {:induction false} Wind(g: Graph, cycle: seq<Id>, n: nat) returns (q: seq<Id>)
    requires g.Walk(cycle) && |cycle| > 1 && cycle[0] == cycle[|cycle|-1]
    ensures g.Walk(q) && |q| > n && |q| > 1 && q[|q|-1] == cycle[0]
  {
    if n == 0 {
      q := cycle;
    } else {
      var r := Wind(g, cycle, n-1);
      q := r + cycle[1..];
      forall k | 0 < k < |q|
        ensures g.Edge(q[k-1], q[k])
      {
        if k < |r| {
          assert g.Edge(r[k-1], r[k]);
        } else {
          assert g.Edge(cycle[k-|r|], cycle[k-|r|+1]);
          if k > |r| {
            assert q[k-1] == cycle[k-|r|];
          }
        }
      }
    }
  }

  lemma {:induction false} Pigeonhole(p: seq<Id>, s: set<Id>) returns (i: nat, j: nat)
    requires |p| > |s| && forall x :: x in p ==> x in s
    ensures i < j < |p| && p[i] == p[j]
  {
    var last := |p|-1;
    if k :| 0 <= k < last && p[k] == p[last] {
      i, j := k, last;
    } else {
      assert p[last] in s;
      i, j := Pigeonhole(p[..last], s - {p[last]});
    }
  }
}
