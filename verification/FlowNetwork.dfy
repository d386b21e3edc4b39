/** Flows in a network whose edges come in pairs: edge 2k and its reverse 2k + 1. */
module FlowNetwork {

  datatype Arc = Arc(tail: nat, head: nat)

  /** The forward edges of a network with their capacities, and a flow along each. */
  datatype Flow = Flow(arcs: seq<Arc>, cap: seq<int>, flow: seq<int>)

  ghost predicate Feasible(f: Flow) {
    && |f.cap| == |f.arcs| == |f.flow|
    && forall k :: 0 <= k < |f.arcs| ==> 0 <= f.flow[k] <= f.cap[k]
  }

  /** Flow out of the vertices of s minus flow into them, over the first k pairs. */
  ghost function Net(f: Flow, s: set<nat>, k: nat): int
    requires Feasible(f) && k <= |f.arcs|
  {
    if k == 0 then 0
    else Net(f, s, k - 1)
         + (if f.arcs[k - 1].tail in s then f.flow[k - 1] else 0)
         - (if f.arcs[k - 1].head in s then f.flow[k - 1] else 0)
  }

  ghost function Excess(f: Flow, v: nat): int
    requires Feasible(f)
  {
    Net(f, {v}, |f.arcs|)
  }

  ghost predicate Conserves(f: Flow, source: nat, sink: nat)
    requires Feasible(f)
  {
    forall v :: v != source && v != sink ==> Excess(f, v) == 0
  }

  /** Net outflow is additive over disjoint sets of vertices. */
  lemma {:induction false} NetInsert(f: Flow, s: set<nat>, v: nat, k: nat)
    requires Feasible(f) && k <= |f.arcs| && v !in s
    ensures Net(f, s + {v}, k) == Net(f, s, k) + Net(f, {v}, k)
    decreases k
  {
    if k > 0 { NetInsert(f, s, v, k - 1); }
  }

  lemma {:induction false} NetEmpty(f: Flow, k: nat)
    requires Feasible(f) && k <= |f.arcs|
    ensures Net(f, {}, k) == 0
    decreases k
  {
    if k > 0 { NetEmpty(f, k - 1); }
  }

  lemma {:induction false} NetInner(f: Flow, s: set<nat>, source: nat, sink: nat)
    requires Feasible(f) && Conserves(f, source, sink) && source !in s && sink !in s
    ensures Net(f, s, |f.arcs|) == 0
    decreases |s|
  {
    if s == {} {
      NetEmpty(f, |f.arcs|);
    } else {
      var v :| v in s;
      NetInner(f, s - {v}, source, sink);
      NetInsert(f, s - {v}, v, |f.arcs|);
      assert s - {v} + {v} == s;
      assert Excess(f, v) == 0;
    }
  }

  /** The value of the flow crosses every cut. */
  lemma CutCarriesValue(f: Flow, s: set<nat>, source: nat, sink: nat)
    requires Feasible(f) && Conserves(f, source, sink) && source in s && sink !in s
    ensures Net(f, s, |f.arcs|) == Excess(f, source)
  {
    NetInner(f, s - {source}, source, sink);
    NetInsert(f, s - {source}, source, |f.arcs|);
    assert s - {source} + {source} == s;
  }

  ghost predicate Leaves(f: Flow, s: set<nat>, k: nat)
    requires k < |f.arcs|
  {
    f.arcs[k].tail in s && f.arcs[k].head !in s
  }

  ghost predicate Enters(f: Flow, s: set<nat>, k: nat)
    requires k < |f.arcs|
  {
    f.arcs[k].tail !in s && f.arcs[k].head in s
  }

  /** Capacity of the arcs among the first k that leave s. */
  ghost function CutCapacity(f: Flow, s: set<nat>, k: nat): int
    requires Feasible(f) && k <= |f.arcs|
  {
    if k == 0 then 0
    else CutCapacity(f, s, k - 1) + (if Leaves(f, s, k - 1) then f.cap[k - 1] else 0)
  }

  /** Weak duality: no cut has less capacity than the flow that crosses it. */
  lemma {:induction false} NetAtMostCapacity(f: Flow, s: set<nat>, k: nat)
    requires Feasible(f) && k <= |f.arcs|
    ensures Net(f, s, k) <= CutCapacity(f, s, k)
    decreases k
  {
    if k > 0 { NetAtMostCapacity(f, s, k - 1); }
  }

  // ------------------------------------------------------- the residual graph

  /** No arc with free capacity leaves s, and no arc with flow enters it. */
  ghost predicate ResidualClosed(f: Flow, s: set<nat>)
    requires Feasible(f)
  {
    && (forall k :: 0 <= k < |f.arcs| && Leaves(f, s, k) ==> f.flow[k] == f.cap[k])
    && (forall k :: 0 <= k < |f.arcs| && Enters(f, s, k) ==> f.flow[k] == 0)
  }

  /** Strong duality for a residual-closed set: the flow fills it exactly. */
  lemma {:induction false} NetIsCapacity(f: Flow, s: set<nat>, k: nat)
    requires Feasible(f) && ResidualClosed(f, s) && k <= |f.arcs|
    ensures Net(f, s, k) == CutCapacity(f, s, k)
    decreases k
  {
    if k > 0 {
      NetIsCapacity(f, s, k - 1);
      assert Leaves(f, s, k - 1) || Enters(f, s, k - 1) || (f.arcs[k - 1].tail in s <==> f.arcs[k - 1].head in s);
    }
  }

  /** The vertices reachable in the residual graph: the least residual-closed set with the source. */
  ghost predicate ResidualReach(f: Flow, s: set<nat>, source: nat)
    requires Feasible(f)
  {
    && source in s && ResidualClosed(f, s)
    && forall t :: source in t && ResidualClosed(f, t) ==> s <= t
  }

  /** The flow is maximum: the sink cannot be reached in the residual graph. */
  ghost predicate Maximum(f: Flow, source: nat, sink: nat) {
    && Feasible(f) && Conserves(f, source, sink)
    && exists t :: source in t && sink !in t && ResidualClosed(f, t)
  }

  // ------------------------------------------------------- one vertex

  ghost function OutSum(f: Flow, v: nat, k: nat): int
    requires Feasible(f) && k <= |f.arcs|
  {
    if k == 0 then 0 else OutSum(f, v, k - 1) + (if f.arcs[k - 1].tail == v then f.flow[k - 1] else 0)
  }

  ghost function InSum(f: Flow, v: nat, k: nat): int
    requires Feasible(f) && k <= |f.arcs|
  {
    if k == 0 then 0 else InSum(f, v, k - 1) + (if f.arcs[k - 1].head == v then f.flow[k - 1] else 0)
  }

  lemma {:induction false} NetIsDifference(f: Flow, v: nat, k: nat)
    requires Feasible(f) && k <= |f.arcs|
    ensures Net(f, {v}, k) == OutSum(f, v, k) - InSum(f, v, k)
    decreases k
  {
    if k > 0 { NetIsDifference(f, v, k - 1); }
  }

  /** Any two different arcs out of v together carry no more than all of them. */
  lemma {:induction false} OutSumBounds(f: Flow, v: nat, i: nat, j: nat, k: nat)
    requires Feasible(f) && k <= |f.arcs| && i < |f.arcs| && j < |f.arcs| && i != j
    ensures OutSum(f, v, k) >= (if i < k && f.arcs[i].tail == v then f.flow[i] else 0)
                               + (if j < k && f.arcs[j].tail == v then f.flow[j] else 0)
    decreases k
  {
    if k > 0 { OutSumBounds(f, v, i, j, k - 1); }
  }

  lemma {:induction false} InSumBound(f: Flow, v: nat, i: nat, k: nat)
    requires Feasible(f) && k <= |f.arcs| && i < |f.arcs| && f.arcs[i].head == v
    ensures InSum(f, v, k) >= if i < k then f.flow[i] else 0
    decreases k
  {
    if k > 0 { InSumBound(f, v, i, k - 1); }
  }

  lemma {:induction false} OnlyIn(f: Flow, v: nat, i: nat, k: nat)
    requires Feasible(f) && k <= |f.arcs| && i < |f.arcs|
    requires forall j :: 0 <= j < |f.arcs| ==> (f.arcs[j].head == v <==> j == i)
    ensures InSum(f, v, k) == if i < k then f.flow[i] else 0
    decreases k
  {
    if k > 0 { OnlyIn(f, v, i, k - 1); }
  }

  lemma {:induction false} OnlyOut(f: Flow, v: nat, i: nat, k: nat)
    requires Feasible(f) && k <= |f.arcs| && i < |f.arcs|
    requires forall j :: 0 <= j < |f.arcs| ==> (f.arcs[j].tail == v <==> j == i)
    ensures OutSum(f, v, k) == if i < k then f.flow[i] else 0
    decreases k
  {
    if k > 0 { OnlyOut(f, v, i, k - 1); }
  }

  /** Where all flow into a vertex comes through arc i, arc k out of it carries no more than arc i,
      and if it carries as much, the other arcs out of the vertex carry nothing. */
  lemma ThroughOneArcIn(f: Flow, v: nat, i: nat, k: nat)
    requires Feasible(f) && Excess(f, v) == 0 && i < |f.arcs| && k < |f.arcs| && f.arcs[k].tail == v
    requires forall j :: 0 <= j < |f.arcs| ==> (f.arcs[j].head == v <==> j == i)
    ensures f.flow[k] <= f.flow[i]
    ensures f.flow[k] == f.flow[i] ==> forall j :: 0 <= j < |f.arcs| && f.arcs[j].tail == v && j != k ==> f.flow[j] == 0
  {
    var n := |f.arcs|;
    NetIsDifference(f, v, n);
    OnlyIn(f, v, i, n);
    if n > 1 { OutSumBounds(f, v, k, if k == 0 then 1 else 0, n); }
    forall j | 0 <= j < n && f.arcs[j].tail == v && j != k ensures f.flow[j] + f.flow[k] <= f.flow[i] {
      OutSumBounds(f, v, k, j, n);
    }
  }

  /** Where all flow out of a vertex leaves through arc i, no arc into it carries more. */
  lemma ThroughOneArcOut(f: Flow, v: nat, i: nat, k: nat)
    requires Feasible(f) && Excess(f, v) == 0 && i < |f.arcs| && k < |f.arcs| && f.arcs[k].head == v
    requires forall j :: 0 <= j < |f.arcs| ==> (f.arcs[j].tail == v <==> j == i)
    ensures f.flow[k] <= f.flow[i]
  {
    NetIsDifference(f, v, |f.arcs|);
    OnlyOut(f, v, i, |f.arcs|);
    InSumBound(f, v, k, |f.arcs|);
  }

  /** A vertex whose only incoming arc is full, and which passes everything on along arc k out of
      the set, can be left out of a residual-closed set. */
  lemma LeaveOut(f: Flow, s: set<nat>, v: nat, i: nat, k: nat)
    requires Feasible(f) && ResidualClosed(f, s)
    requires i < |f.arcs| && k < |f.arcs| && Leaves(f, s, k) && f.arcs[k].tail == v
    requires forall j :: 0 <= j < |f.arcs| ==> (f.arcs[j].head == v <==> j == i)
    requires f.flow[i] == f.cap[i]
    requires forall j :: 0 <= j < |f.arcs| && f.arcs[j].tail == v && j != k ==> f.flow[j] == 0
    ensures ResidualClosed(f, s - {v})
  {
    var t := s - {v};
    forall j | 0 <= j < |f.arcs| && Leaves(f, t, j) ensures f.flow[j] == f.cap[j] {
      if f.arcs[j].head != v { assert Leaves(f, s, j); }
    }
    forall j | 0 <= j < |f.arcs| && Enters(f, t, j) ensures f.flow[j] == 0 {
      if f.arcs[j].tail != v { assert Enters(f, s, j); }
    }
  }
}
