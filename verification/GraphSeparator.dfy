/** The separator computation itself: building the network, applying penalties, reading off the cut. */
module GraphSeparator {
  import opened Basics
  import opened FlowNetwork
  import opened SeparatorTheory
  import opened SeparatorCost

  // ------------------------------------------------------- the stored graph

  /** Edge e belongs to pair e / 2; odd edges are the reverses. */
  function DoubleArc(p: Problem, e: nat): Arc
    requires WellFormed(p) && e < 2 * Pairs(p)
  {
    var a := NetArc(p, e / 2);
    if e % 2 == 0 then a else Arc(a.head, a.tail)
  }

  ghost predicate HoldsArcs(p: Problem, edges: seq<Arc>) {
    && WellFormed(p) && |edges| == 2 * Pairs(p)
    && forall e :: 0 <= e < |edges| ==> edges[e] == DoubleArc(p, e)
  }

  /** The vertex whose penalty governs pair k, if any: source edges have none. */
  function Owner(p: Problem, k: nat): seq<int>
    requires k < Pairs(p)
  {
    var n, m, c := |p.names|, |p.edges|, |p.a|;
    if k < n then [p.names[k]]
    else if k < n + m then [p.edges[k - n].0]
    else if k < n + m + c then []
    else [p.b[k - n - m - c]]
  }

  function BaseCap(p: Problem, k: nat): nat
    requires k < Pairs(p)
  {
    var n, m, c := |p.names|, |p.edges|, |p.a|;
    if k < n + m then INTERNAL_CAPACITY else if k < n + m + c then Penalty(p) else EXTERNAL_CAPACITY
  }

  /** Positive capacity forwards, none backwards. */
  ghost predicate ForwardOnly(p: Problem, capacity: seq<int>) {
    && |capacity| == 2 * Pairs(p)
    && (forall k :: 0 <= k < Pairs(p) ==> capacity[2 * k] > 0 && capacity[2 * k + 1] == 0)
  }

  ghost predicate HoldsCaps(p: Problem, capacity: seq<int>) {
    && |capacity| == 2 * Pairs(p)
    && (forall k :: 0 <= k < Pairs(p) ==> capacity[2 * k] == NetCap(p, k) && capacity[2 * k + 1] == 0)
  }

  /** The effect of penalising the vertices of vs. */
  ghost predicate Penalised(p: Problem, before: seq<int>, after: seq<int>, vs: seq<int>, penalty: int) {
    && |before| == |after| == 2 * Pairs(p)
    && forall k :: 0 <= k < Pairs(p) ==>
         && after[2 * k + 1] == before[2 * k + 1]
         && after[2 * k] == (if Owner(p, k) != [] && Owner(p, k)[0] in vs then penalty else before[2 * k])
  }

  /** The first k pairs of the network, before any penalty. */
  ghost predicate Built(p: Problem, edges: seq<Arc>, capacity: seq<int>, k: nat) {
    && WellFormed(p) && k <= Pairs(p) && |edges| == |capacity| == 2 * k
    && (forall e :: 0 <= e < 2 * k ==> edges[e] == DoubleArc(p, e))
    && (forall i :: 0 <= i < k ==> capacity[2 * i] == BaseCap(p, i) && capacity[2 * i + 1] == 0)
  }

  lemma BuiltNext(p: Problem, edges: seq<Arc>, capacity: seq<int>, k: nat)
    requires Built(p, edges, capacity, k) && k < Pairs(p)
    ensures Built(p, edges + [NetArc(p, k), Arc(NetArc(p, k).head, NetArc(p, k).tail)],
                  capacity + [BaseCap(p, k), 0], k + 1)
  {
    hide WellFormed, NetArc, BaseCap;
    var a := NetArc(p, k);
    var x, c := edges + [a, Arc(a.head, a.tail)], capacity + [BaseCap(p, k), 0];
    assert x[2 * k] == DoubleArc(p, 2 * k) && x[2 * k + 1] == DoubleArc(p, 2 * k + 1);
    forall i | 0 <= i < k ensures c[2 * i] == BaseCap(p, i) && c[2 * i + 1] == 0 {
      assert c[2 * i] == capacity[2 * i] && c[2 * i + 1] == capacity[2 * i + 1];
    }
    assert c[2 * k] == BaseCap(p, k) && c[2 * k + 1] == 0;
  }

  lemma NothingBuilt(p: Problem)
    requires WellFormed(p)
    ensures Built(p, [], [], 0)
  {}

  lemma PenalisedNext(p: Problem, c0: seq<int>, c1: seq<int>, c2: seq<int>, vs: seq<int>, v: int, penalty: int)
    requires Penalised(p, c0, c1, vs, penalty) && Penalised(p, c1, c2, [v], penalty)
    ensures Penalised(p, c0, c2, vs + [v], penalty)
  {}

  lemma PenalisedForward(p: Problem, before: seq<int>, after: seq<int>, vs: seq<int>, penalty: int)
    requires Penalised(p, before, after, vs, penalty) && ForwardOnly(p, before) && penalty > 0
    ensures ForwardOnly(p, after)
  {}

  /** Forbidden first, unpreferred second: the capacities of the network. */
  lemma FinalCaps(p: Problem, edges: seq<Arc>, c0: seq<int>, c1: seq<int>, c2: seq<int>)
    requires Built(p, edges, c0, Pairs(p))
    requires Penalised(p, c0, c1, p.forbidden, Penalty(p)) && Penalised(p, c1, c2, p.unpreferred, UNPREFERRED_CAPACITY)
    ensures HoldsArcs(p, edges) && HoldsCaps(p, c2)
  {
    forall k | 0 <= k < Pairs(p) ensures c2[2 * k] == NetCap(p, k) && c2[2 * k + 1] == 0 {
      assert c0[2 * k] == BaseCap(p, k);
    }
  }

  /** Penalising v touches the pairs that v owns: its internal edge and its outgoing edges. */
  lemma OwnedPairs(p: Problem, v: int, k: nat)
    requires WellFormed(p) && v in p.names && k < Pairs(p)
    ensures Owner(p, k) == [v] <==> k == Position(p.names, v) || NetArc(p, k).tail == OutNode(p, v)
    ensures k != Position(p.names, v) && NetArc(p, k).tail == OutNode(p, v) ==> k >= |p.names|
  {
    if k < |p.names| { PositionUnique(p, k); }
    else {
      var o := Owner(p, k);
      if o != [] { NodesDiffer(p, o[0], v); }
    }
  }

  // ------------------------------------------------------- the flow behind a residual graph

  /** The flow that residual capacities stand for. */
  ghost function FlowFrom(p: Problem, residual: seq<int>): Flow
    requires WellFormed(p) && |residual| == 2 * Pairs(p)
  {
    Flow(seq(Pairs(p), k requires 0 <= k < Pairs(p) => NetArc(p, k)),
         seq(Pairs(p), k requires 0 <= k < Pairs(p) => NetCap(p, k)),
         seq(Pairs(p), k requires 0 <= k < Pairs(p) => NetCap(p, k) - residual[2 * k]))
  }

  /** What a maximum-flow routine promises about the residual capacities it leaves. */
  ghost predicate GoodResidual(p: Problem, residual: seq<int>) {
    && WellFormed(p) && |residual| == 2 * Pairs(p)
    && (forall k :: 0 <= k < Pairs(p) ==> residual[2 * k] >= 0 && residual[2 * k + 1] >= 0
                                          && residual[2 * k] + residual[2 * k + 1] == NetCap(p, k))
    && MaxFlowOf(p, FlowFrom(p, residual))
  }

  /** No edge with residual capacity leaves t. */
  ghost predicate EdgeClosed(edges: seq<Arc>, residual: seq<int>, t: set<nat>)
    requires |edges| == |residual|
  {
    forall e :: 0 <= e < |edges| && edges[e].tail in t && residual[e] > 0 ==> edges[e].head in t
  }

  lemma ResidualFromEdges(p: Problem, edges: seq<Arc>, residual: seq<int>, t: set<nat>)
    requires HoldsArcs(p, edges) && GoodResidual(p, residual) && EdgeClosed(edges, residual, t)
    ensures ResidualClosed(FlowFrom(p, residual), t)
  {
    hide MaxFlowOf, NetArc, NetCap, WellFormed;
    var f := FlowFrom(p, residual);
    forall k | 0 <= k < Pairs(p)
      ensures (Leaves(f, t, k) ==> f.flow[k] == f.cap[k]) && (Enters(f, t, k) ==> f.flow[k] == 0)
    {
      assert edges[2 * k] == DoubleArc(p, 2 * k) && edges[2 * k + 1] == DoubleArc(p, 2 * k + 1);
    }
  }

  lemma ClosedAt(f: Flow, t: set<nat>, k: nat)
    requires Feasible(f) && ResidualClosed(f, t) && k < |f.arcs|
    ensures Leaves(f, t, k) ==> f.flow[k] == f.cap[k]
    ensures Enters(f, t, k) ==> f.flow[k] == 0
  {}

  lemma EdgesFromResidual(p: Problem, edges: seq<Arc>, residual: seq<int>, t: set<nat>)
    requires HoldsArcs(p, edges) && GoodResidual(p, residual) && ResidualClosed(FlowFrom(p, residual), t)
    ensures EdgeClosed(edges, residual, t)
  {
    hide MaxFlowOf, NetArc, NetCap, WellFormed, ResidualClosed;
    forall e | 0 <= e < |edges| && edges[e].tail in t && residual[e] > 0 ensures edges[e].head in t {
      assert edges[e] == DoubleArc(p, e);
      ClosedAt(FlowFrom(p, residual), t, e / 2);
      assert e == 2 * (e / 2) || e == 2 * (e / 2) + 1;
    }
  }

  ghost function Marked(reach: seq<bool>): set<nat> {
    set v: nat | v < |reach| && reach[v]
  }

  lemma MarkedIsReach(p: Problem, edges: seq<Arc>, residual: seq<int>, reach: seq<bool>)
    requires HoldsArcs(p, edges) && GoodResidual(p, residual)
    requires Reachable(edges, residual, SOURCE, reach)
    ensures ResidualReach(FlowFrom(p, residual), Marked(reach), SOURCE)
  {
    ResidualFromEdges(p, edges, residual, Marked(reach));
    forall t | SOURCE in t && ResidualClosed(FlowFrom(p, residual), t) ensures Marked(reach) <= t {
      EdgesFromResidual(p, edges, residual, t);
    }
  }

  // ------------------------------------------------------- the separating edges

  /** Forward edge e leads out of the reachable vertices. */
  ghost predicate Crosses(edges: seq<Arc>, reach: seq<bool>, e: nat)
    requires e < |edges|
  {
    e % 2 == 0 && edges[e].tail in Marked(reach) && edges[e].head !in Marked(reach)
  }

  /** Each forward edge that leads out, once. */
  ghost predicate CrossingEdges(edges: seq<Arc>, reach: seq<bool>, cut: seq<nat>) {
    && Distinct(cut)
    && (forall i :: 0 <= i < |cut| ==> cut[i] < |edges| && Crosses(edges, reach, cut[i]))
    && (forall e :: 0 <= e < |edges| && Crosses(edges, reach, e) ==> e in cut)
  }

  /** The assertion on the two ends of a separating edge holds: the edge is internal. */
  lemma CrossingIsInternal(p: Problem, edges: seq<Arc>, residual: seq<int>, reach: seq<bool>, e: nat)
    requires HoldsArcs(p, edges) && GoodResidual(p, residual) && e < |edges| && Crosses(edges, reach, e)
    requires ResidualReach(FlowFrom(p, residual), Marked(reach), SOURCE)
    ensures e / 2 < |p.names| && edges[e] == Arc(e + 1, e + 2)
    ensures p.names[e / 2] in CutSet(p, Marked(reach))
  {
    hide ResidualReach, Crosses, Marked, MaxFlowOf;
    var f, k := FlowFrom(p, residual), e / 2;
    CrossingArc(p, edges, residual, reach, e);
    hide FlowFrom, GoodResidual, HoldsArcs;
    CutIsInternal(p, f, Marked(reach), k);
    PositionUnique(p, k);
  }

  /** A crossing edge is the forward half of an arc that leaves the marked nodes. */
  lemma CrossingArc(p: Problem, edges: seq<Arc>, residual: seq<int>, reach: seq<bool>, e: nat)
    requires HoldsArcs(p, edges) && GoodResidual(p, residual) && e < |edges| && Crosses(edges, reach, e)
    ensures MaxFlowOf(p, FlowFrom(p, residual)) && e % 2 == 0 && e / 2 < |FlowFrom(p, residual).arcs|
    ensures edges[e] == NetArc(p, e / 2) && Leaves(FlowFrom(p, residual), Marked(reach), e / 2)
  {
    var f, k := FlowFrom(p, residual), e / 2;
    assert edges[e] == DoubleArc(p, e) == NetArc(p, k) == f.arcs[k];
  }

  lemma CutVertexCrosses(p: Problem, edges: seq<Arc>, reach: seq<bool>, v: int)
    requires HoldsArcs(p, edges) && v in CutSet(p, Marked(reach))
    ensures 2 * Position(p.names, v) < |edges| && Crosses(edges, reach, 2 * Position(p.names, v))
  {
    var e := 2 * Position(p.names, v);
    assert edges[e] == DoubleArc(p, e);
  }

  ghost predicate NamesOf(p: Problem, cut: seq<nat>, sep: seq<int>) {
    && |sep| == |cut|
    && forall i :: 0 <= i < |cut| ==> cut[i] % 2 == 0 && cut[i] / 2 < |p.names| && sep[i] == p.names[cut[i] / 2]
  }

  lemma NamesAreCut(p: Problem, edges: seq<Arc>, residual: seq<int>, reach: seq<bool>, cut: seq<nat>, sep: seq<int>)
    requires HoldsArcs(p, edges) && GoodResidual(p, residual) && CrossingEdges(edges, reach, cut)
    requires ResidualReach(FlowFrom(p, residual), Marked(reach), SOURCE) && NamesOf(p, cut, sep)
    ensures Distinct(sep) && forall v :: v in sep <==> v in CutSet(p, Marked(reach))
  {
    hide GoodResidual, ResidualReach, CutSet, HoldsArcs;
    forall i | 0 <= i < |sep| ensures sep[i] in CutSet(p, Marked(reach)) {
      CrossingIsInternal(p, edges, residual, reach, cut[i]);
    }
    forall v | v in CutSet(p, Marked(reach)) ensures v in sep {
      CutIsNamed(p, reach, v);
      CutVertexCrosses(p, edges, reach, v);
      assert 2 * Position(p.names, v) in cut;
      var i :| 0 <= i < |cut| && cut[i] == 2 * Position(p.names, v);
      assert sep[i] == v;
    }
    NamesDistinct(p, edges, cut, sep);
  }

  lemma NamesDistinct(p: Problem, edges: seq<Arc>, cut: seq<nat>, sep: seq<int>)
    requires HoldsArcs(p, edges) && Distinct(cut) && NamesOf(p, cut, sep)
    ensures Distinct(sep)
  {
    forall i, j | 0 <= i < j < |sep| ensures sep[i] != sep[j] {
      PositionUnique(p, cut[i] / 2);
      PositionUnique(p, cut[j] / 2);
    }
  }

  lemma CutIsNamed(p: Problem, reach: seq<bool>, v: int)
    requires v in CutSet(p, Marked(reach))
    ensures v in p.names
  {}

  /** What the separator of p must be. */
  ghost predicate BestSeparator(p: Problem, sep: seq<int>) {
    var x := set v | v in sep;
    && Distinct(sep)
    && (forall v :: v in sep ==> v in p.names && v !in p.forbidden)
    && Separates(p, x)
    && forall y :: Separates(p, y) && (forall v :: v in y ==> v !in p.forbidden) ==>
         2 * |x| + |Unpreferred(p, x)| <= 2 * |y| + |Unpreferred(p, y)|
  }

  /** Among separators of the same size none has fewer unpreferred vertices; without such vertices none is smaller. */
  lemma BestSpares(p: Problem, sep: seq<int>, y: set<int>)
    requires BestSeparator(p, sep) && Separates(p, y) && forall v :: v in y ==> v !in p.forbidden
    ensures var x := set v | v in sep;
            && (|y| == |x| ==> |Unpreferred(p, x)| <= |Unpreferred(p, y)|)
            && (Unpreferred(p, y) == {} ==> |x| <= |y|)
  {}

  lemma SeparatorIsBest(p: Problem, f: Flow, r: set<nat>, sep: seq<int>)
    requires MaxFlowOf(p, f) && ResidualReach(f, r, SOURCE)
    requires Distinct(sep) && forall v :: v in sep <==> v in CutSet(p, r)
    ensures BestSeparator(p, sep)
  {
    CheapestSeparator(p, f, r);
    hide CutSet, Separates;
    var x := CutSet(p, r);
    forall v ensures v in (set u | u in sep) <==> v in x {}
    assert (set v | v in sep) == x;
    WeightOfSeparator(p, x);
    forall y | Separates(p, y) && (forall v :: v in y ==> v !in p.forbidden)
      ensures 2 * |x| + |Unpreferred(p, x)| <= 2 * |y| + |Unpreferred(p, y)|
    {
      WeightOfSeparator(p, y);
      assert TotalWeight(p, x) <= TotalWeight(p, y);
    }
  }

  // ------------------------------------------------------- penalties, one edge at a time

  lemma FirstIsInternal(p: Problem, edges: seq<Arc>, v: int, e: nat)
    requires HoldsArcs(p, edges) && v in p.names && e <= |edges|
    requires e < |edges| ==> edges[e] == Arc(InNode(p, v), OutNode(p, v))
    requires forall i :: 0 <= i < e ==> edges[i] != Arc(InNode(p, v), OutNode(p, v))
    ensures e == 2 * Position(p.names, v)
  {
    var k := 2 * Position(p.names, v);
    assert edges[k] == DoubleArc(p, k) == Arc(InNode(p, v), OutNode(p, v));
    if e < k { EarlierDiffers(p, edges, v, e); }
  }

  lemma EarlierDiffers(p: Problem, edges: seq<Arc>, v: int, e: nat)
    requires HoldsArcs(p, edges) && v in p.names && e < 2 * Position(p.names, v)
    ensures edges[e] != Arc(InNode(p, v), OutNode(p, v))
  {
    assert edges[e] == DoubleArc(p, e);
  }

  /** Capacities after the internal edge of v and its first e outgoing edges have been penalised. */
  ghost predicate PenalisedSoFar(p: Problem, before: seq<int>, after: seq<int>, v: int, e: nat, penalty: int) {
    && |before| == |after| == 2 * Pairs(p) && e <= |after| && WellFormed(p) && v in p.names
    && forall k :: 0 <= k < Pairs(p) ==>
         && after[2 * k + 1] == before[2 * k + 1]
         && after[2 * k] == if k == Position(p.names, v) || (2 * k < e && NetArc(p, k).tail == OutNode(p, v))
                            then penalty else before[2 * k]
  }

  lemma InternalFirst(p: Problem, before: seq<int>, v: int, penalty: int)
    requires WellFormed(p) && v in p.names && |before| == 2 * Pairs(p)
    ensures PenalisedSoFar(p, before, before[2 * Position(p.names, v) := penalty], v, 0, penalty)
  {}

  function Penalise(edges: seq<Arc>, capacity: seq<int>, node: nat, e: nat, penalty: int): seq<int>
    requires e < |edges| == |capacity|
  {
    if edges[e].tail == node && capacity[e] > 0 then capacity[e := penalty] else capacity
  }

  lemma PenaliseStep(p: Problem, edges: seq<Arc>, before: seq<int>, c: seq<int>, v: int, e: nat, penalty: int)
    requires HoldsArcs(p, edges) && ForwardOnly(p, before) && penalty > 0
    requires PenalisedSoFar(p, before, c, v, e, penalty) && e < |edges|
    ensures |c| == |edges|
    ensures PenalisedSoFar(p, before, Penalise(edges, c, OutNode(p, v), e, penalty), v, e + 1, penalty)
  {
    hide WellFormed, NetArc;
    assert edges[e] == DoubleArc(p, e);
    var j := e / 2;
    var c2 := Penalise(edges, c, OutNode(p, v), e, penalty);
    assert c2[2 * j + 1] == c[2 * j + 1] == before[2 * j + 1] == 0;
    forall k | 0 <= k < Pairs(p) && k != j ensures c2[2 * k] == c[2 * k] && c2[2 * k + 1] == c[2 * k + 1] {
      assert e == 2 * j || e == 2 * j + 1;
    }
    assert c2[2 * j] == if e == 2 * j && NetArc(p, j).tail == OutNode(p, v) then penalty else c[2 * j];
  }

  lemma SoFarDone(p: Problem, before: seq<int>, after: seq<int>, v: int, penalty: int)
    requires PenalisedSoFar(p, before, after, v, 2 * Pairs(p), penalty)
    ensures Penalised(p, before, after, [v], penalty)
  {
    forall k | 0 <= k < Pairs(p)
      ensures after[2 * k] == if Owner(p, k) != [] && Owner(p, k)[0] in [v] then penalty else before[2 * k]
    {
      OwnedPairs(p, v, k);
    }
  }

  lemma ForwardLength(p: Problem, capacity: seq<int>)
    requires ForwardOnly(p, capacity)
    ensures |capacity| == 2 * Pairs(p)
  {}

  lemma NothingPenalised(p: Problem, before: seq<int>, penalty: int)
    requires |before| == 2 * Pairs(p)
    ensures Penalised(p, before, before, [], penalty)
  {}

  // ------------------------------------------------------- breadth-first search

  /** Everything marked is reachable, and the edges of the marked vertices have been followed, except
      those of queued vertices and those of vert from e on. */
  ghost predicate Searching(edges: seq<Arc>, residual: seq<int>, source: nat,
                            reach: seq<bool>, queue: seq<nat>, vert: nat, e: nat)
  {
    && |edges| == |residual| && source in Marked(reach) && vert in Marked(reach)
    && (forall v :: v in queue ==> v in Marked(reach))
    && (forall i :: 0 <= i < |edges| && edges[i].tail in Marked(reach) && residual[i] > 0
                    && edges[i].tail !in queue && (edges[i].tail != vert || i < e)
                    ==> edges[i].head in Marked(reach))
    && (forall t :: source in t && EdgeClosed(edges, residual, t) ==> Marked(reach) <= t)
  }

  ghost function Work(reach: seq<bool>, queue: seq<nat>): nat {
    2 * |Unmarked(reach)| + |queue|
  }

  ghost function Unmarked(reach: seq<bool>): set<nat> {
    set v: nat | v < |reach| && !reach[v]
  }

  lemma SearchStart(edges: seq<Arc>, residual: seq<int>, source: nat, reach: seq<bool>)
    requires |edges| == |residual| && source < |reach| && forall v: nat :: v < |reach| ==> (reach[v] <==> v == source)
    ensures Searching(edges, residual, source, reach, [source], source, |edges|)
  {}

  lemma SearchPop(edges: seq<Arc>, residual: seq<int>, source: nat, reach: seq<bool>, queue: seq<nat>)
    requires Searching(edges, residual, source, reach, queue, source, |edges|) && queue != []
    ensures Searching(edges, residual, source, reach, queue[1..], queue[0], 0)
    ensures Work(reach, queue[1..]) < Work(reach, queue)
  {
    forall v | v in queue ensures v == queue[0] || v in queue[1..] {}
  }

  lemma SearchFacts(edges: seq<Arc>, residual: seq<int>, source: nat, reach: seq<bool>, queue: seq<nat>, vert: nat, e: nat)
    requires Searching(edges, residual, source, reach, queue, vert, e)
    ensures |edges| == |residual| && vert < |reach|
  {}

  /** Following edge e. */
  lemma SearchStep(edges: seq<Arc>, residual: seq<int>, source: nat, reach: seq<bool>, queue: seq<nat>, vert: nat, e: nat)
    requires Searching(edges, residual, source, reach, queue, vert, e) && e < |edges| && edges[e].head < |reach|
    ensures var marks := edges[e].tail == vert && residual[e] > 0 && !reach[edges[e].head];
            var reach2 := if marks then reach[edges[e].head := true] else reach;
            var queue2 := if marks then queue + [edges[e].head] else queue;
            Searching(edges, residual, source, reach2, queue2, vert, e + 1) && Work(reach2, queue2) <= Work(reach, queue)
  {
    var h := edges[e].head;
    if edges[e].tail == vert && residual[e] > 0 && !reach[h] {
      MarkNew(edges, residual, source, reach, queue, vert, e);
      MarkShrinks(reach, h);
    }
  }

  lemma MarkShrinks(reach: seq<bool>, h: nat)
    requires h < |reach| && !reach[h]
    ensures |Unmarked(reach)| > |Unmarked(reach[h := true])|
  {
    assert Unmarked(reach) == Unmarked(reach[h := true]) + {h};
  }

  lemma MarkNew(edges: seq<Arc>, residual: seq<int>, source: nat, reach: seq<bool>, queue: seq<nat>, vert: nat, e: nat)
    requires Searching(edges, residual, source, reach, queue, vert, e) && e < |edges| && edges[e].head < |reach|
    requires edges[e].tail == vert && residual[e] > 0
    ensures Searching(edges, residual, source, reach[edges[e].head := true], queue + [edges[e].head], vert, e + 1)
  {
    var reach2 := reach[edges[e].head := true];
    assert Marked(reach2) == Marked(reach) + {edges[e].head};
    forall t | source in t && EdgeClosed(edges, residual, t) ensures Marked(reach2) <= t {
      assert vert in t;
    }
  }

  lemma SearchNext(edges: seq<Arc>, residual: seq<int>, source: nat, reach: seq<bool>, queue: seq<nat>, vert: nat)
    requires Searching(edges, residual, source, reach, queue, vert, |edges|)
    ensures Searching(edges, residual, source, reach, queue, source, |edges|)
  {}

  ghost predicate Reachable(edges: seq<Arc>, residual: seq<int>, source: nat, reach: seq<bool>) {
    && |edges| == |residual| && source in Marked(reach) && EdgeClosed(edges, residual, Marked(reach))
    && forall t :: source in t && EdgeClosed(edges, residual, t) ==> Marked(reach) <= t
  }

  lemma SearchDone(edges: seq<Arc>, residual: seq<int>, source: nat, reach: seq<bool>)
    requires Searching(edges, residual, source, reach, [], source, |edges|)
    ensures Reachable(edges, residual, source, reach)
  {}

  // ------------------------------------------------------- collecting the crossing edges

  /** The pairs in the order in which the reverse edges are met: by tail, then by position. */
  ghost predicate Met(edges: seq<Arc>, x: nat, idx: nat, j: nat)
    requires x < |edges|
  {
    edges[x].head < idx || (edges[x].head == idx && x + 1 < j)
  }

  ghost predicate Collected(edges: seq<Arc>, reach: seq<bool>, cut: seq<nat>, idx: nat, j: nat) {
    && Distinct(cut)
    && (forall i :: 0 <= i < |cut| ==> cut[i] < |edges| && Crosses(edges, reach, cut[i]) && Met(edges, cut[i], idx, j))
    && (forall x :: 0 <= x < |edges| && Crosses(edges, reach, x) && Met(edges, x, idx, j) ==> x in cut)
  }

  lemma ReverseEdges(p: Problem, edges: seq<Arc>, e: nat)
    requires HoldsArcs(p, edges) && e < |edges|
    ensures e % 2 == 1 ==> e > 0 && edges[e] == Arc(edges[e - 1].head, edges[e - 1].tail)
  {
    assert edges[e] == DoubleArc(p, e);
    if e % 2 == 1 { assert edges[e - 1] == DoubleArc(p, e - 1); }
  }

  lemma CollectStep(p: Problem, edges: seq<Arc>, reach: seq<bool>, cut: seq<nat>, idx: nat, e: nat)
    requires HoldsArcs(p, edges) && Collected(edges, reach, cut, idx, e) && e < |edges|
    requires idx < |reach| && !reach[idx]
    ensures e % 2 == 1 && edges[e].tail == idx && edges[e].head in Marked(reach)
            ==> Collected(edges, reach, cut + [e - 1], idx, e + 1)
    ensures !(e % 2 == 1 && edges[e].tail == idx && edges[e].head in Marked(reach))
            ==> Collected(edges, reach, cut, idx, e + 1)
  {
    hide HoldsArcs;
    ReverseEdges(p, edges, e);
    forall x | 0 <= x < |edges| && Crosses(edges, reach, x) && Met(edges, x, idx, e + 1)
      ensures Met(edges, x, idx, e) || (x == e - 1 && e % 2 == 1 && edges[e].tail == idx && edges[e].head in Marked(reach))
    {}
    if e % 2 == 1 && edges[e].tail == idx && edges[e].head in Marked(reach) {
      assert Crosses(edges, reach, e - 1) && !Met(edges, e - 1, idx, e);
      var c := cut + [e - 1];
      forall x | x in cut ensures x in c {}
      assert c[|c| - 1] == e - 1;
    }
  }

  lemma CollectNext(p: Problem, edges: seq<Arc>, reach: seq<bool>, cut: seq<nat>, idx: nat)
    requires HoldsArcs(p, edges) && Collected(edges, reach, cut, idx, |edges|)
    ensures Collected(edges, reach, cut, idx + 1, 0)
  {
    forall x | 0 <= x < |edges| && Crosses(edges, reach, x) && Met(edges, x, idx + 1, 0) ensures Met(edges, x, idx, |edges|) {
      assert |edges| % 2 == 0;
    }
  }

  lemma CollectSkip(edges: seq<Arc>, reach: seq<bool>, cut: seq<nat>, idx: nat)
    requires Collected(edges, reach, cut, idx, 0) && idx < |reach| && reach[idx]
    ensures Collected(edges, reach, cut, idx + 1, 0)
  {}

  lemma NothingCollected(edges: seq<Arc>, reach: seq<bool>)
    ensures Collected(edges, reach, [], 0, 0)
  {}

  lemma CollectDone(edges: seq<Arc>, reach: seq<bool>, cut: seq<nat>)
    requires Collected(edges, reach, cut, |reach|, 0) && forall e :: 0 <= e < |edges| ==> edges[e].head < |reach|
    ensures CrossingEdges(edges, reach, cut)
  {}

  lemma CapacityParity(p: Problem, capacity: seq<int>, e: nat)
    requires HoldsCaps(p, capacity) && WellFormed(p) && e < |capacity|
    ensures capacity[e] == 0 <==> e % 2 == 1
  {
    assert capacity[2 * (e / 2)] == NetCap(p, e / 2) && capacity[2 * (e / 2) + 1] == 0;
  }

  lemma NodesInRange(p: Problem, edges: seq<Arc>)
    requires HoldsArcs(p, edges)
    ensures forall e :: 0 <= e < |edges| ==> edges[e].head < 2 * |p.names| + 2
  {
    forall e | 0 <= e < |edges| ensures edges[e].head < 2 * |p.names| + 2 {
      assert edges[e] == DoubleArc(p, e);
    }
  }

  lemma BuiltForward(p: Problem, edges: seq<Arc>, capacity: seq<int>)
    requires Built(p, edges, capacity, Pairs(p))
    ensures HoldsArcs(p, edges) && ForwardOnly(p, capacity)
  {
    forall k | 0 <= k < Pairs(p) ensures capacity[2 * k] > 0 && capacity[2 * k + 1] == 0 {
      assert capacity[2 * k] == BaseCap(p, k);
    }
  }

  lemma GoodLength(p: Problem, edges: seq<Arc>, residual: seq<int>)
    requires HoldsArcs(p, edges) && GoodResidual(p, residual)
    ensures |edges| == |residual|
  {}

  lemma ReachIsBest(p: Problem, residual: seq<int>, reach: seq<bool>, sep: seq<int>)
    requires GoodResidual(p, residual) && ResidualReach(FlowFrom(p, residual), Marked(reach), SOURCE)
    requires Distinct(sep) && forall v :: v in sep <==> v in CutSet(p, Marked(reach))
    ensures BestSeparator(p, sep)
  {
    hide MaxFlowOf, ResidualReach, CutSet, BestSeparator;
    SeparatorIsBest(p, FlowFrom(p, residual), Marked(reach), sep);
  }

  lemma CrossingNames(p: Problem, edges: seq<Arc>, residual: seq<int>, reach: seq<bool>, cut: seq<nat>)
    requires HoldsArcs(p, edges) && GoodResidual(p, residual) && CrossingEdges(edges, reach, cut)
    requires ResidualReach(FlowFrom(p, residual), Marked(reach), SOURCE)
    ensures InternalEdges(p, edges, cut)
  {
    hide HoldsArcs, GoodResidual, ResidualReach;
    forall i | 0 <= i < |cut| ensures cut[i] < |edges| && cut[i] % 2 == 0 && cut[i] / 2 < |p.names| && edges[cut[i]] == Arc(cut[i] + 1, cut[i] + 2) {
      CrossingIsInternal(p, edges, residual, reach, cut[i]);
    }
  }

  ghost predicate InternalEdges(p: Problem, edges: seq<Arc>, cut: seq<nat>) {
    forall i :: 0 <= i < |cut| ==>
      cut[i] < |edges| && cut[i] % 2 == 0 && cut[i] / 2 < |p.names| && edges[cut[i]] == Arc(cut[i] + 1, cut[i] + 2)
  }

  // ------------------------------------------------------- the class

  class Separator {
    var edges: seq<Arc>
    var capacity: seq<int>
    var vertexNames: seq<int>
    var vertexIndices: map<int, nat>

    ghost predicate Names(p: Problem)
      reads this
    {
      && WellFormed(p) && vertexNames == p.names
      && forall v :: v in p.names ==> v in vertexIndices && vertexIndices[v] == InNode(p, v)
    }

    method AddEdge(source: nat, target: nat, weight: int)
      modifies `edges, `capacity
      ensures edges == old(edges) + [Arc(source, target), Arc(target, source)]
      ensures capacity == old(capacity) + [weight, 0]
    {
      edges := edges + [Arc(source, target), Arc(target, source)];
      capacity := capacity + [weight, 0];
    }

    /** The network of the graph alone. */
    constructor (ghost p: Problem, vertices: seq<int>, graphEdges: seq<(int, int)>)
      requires WellFormed(p) && vertices == p.names && graphEdges == p.edges
      ensures Names(p) && Built(p, edges, capacity, |vertices| + |graphEdges|)
    {
      edges, capacity, vertexNames, vertexIndices := [], [], vertices, map[];
      new;
      SplitVertices(p);
      AddGraphEdges(p, graphEdges);
    }

    /** Every vertex is split in two, joined by an internal edge. */
    method SplitVertices(ghost p: Problem)
      requires WellFormed(p) && vertexNames == p.names && edges == [] && capacity == []
      modifies `edges, `capacity, `vertexIndices
      ensures Names(p) && Built(p, edges, capacity, |p.names|)
    {
      hide Built;
      NothingBuilt(p);
      for i := 0 to |vertexNames|
        invariant Built(p, edges, capacity, i)
        invariant forall j :: 0 <= j < i ==> vertexNames[j] in vertexIndices && vertexIndices[vertexNames[j]] == 2 * j + 1
      {
        vertexIndices := vertexIndices[vertexNames[i] := 2 * i + 1];
        BuiltNext(p, edges, capacity, i);
        AddEdge(2 * i + 1, 2 * i + 2, INTERNAL_CAPACITY);
      }
      forall v | v in p.names ensures v in vertexIndices && vertexIndices[v] == InNode(p, v) {
        assert vertexNames[Position(p.names, v)] == v;
      }
    }

    /** Graph edges run from out-node to in-node. */
    method AddGraphEdges(ghost p: Problem, graphEdges: seq<(int, int)>)
      requires Names(p) && graphEdges == p.edges && Built(p, edges, capacity, |p.names|)
      modifies `edges, `capacity
      ensures Names(p) && Built(p, edges, capacity, |p.names| + |graphEdges|)
    {
      hide Built;
      for j := 0 to |graphEdges|
        invariant Names(p) && Built(p, edges, capacity, |p.names| + j)
      {
        var (source, target) := graphEdges[j];
        BuiltNext(p, edges, capacity, |p.names| + j);
        AddEdge(vertexIndices[source] + 1, vertexIndices[target], INTERNAL_CAPACITY);
      }
    }

    method ConnectToSource(ghost p: Problem, toConnect: seq<int>, penalty: int)
      requires Names(p) && toConnect == p.a && penalty == Penalty(p)
      requires Built(p, edges, capacity, |p.names| + |p.edges|)
      modifies `edges, `capacity
      ensures Names(p) && Built(p, edges, capacity, |p.names| + |p.edges| + |p.a|)
    {
      hide Built;
      for i := 0 to |toConnect|
        invariant Names(p) && Built(p, edges, capacity, |p.names| + |p.edges| + i)
      {
        BuiltNext(p, edges, capacity, |p.names| + |p.edges| + i);
        AddEdge(SOURCE, vertexIndices[toConnect[i]], penalty);
      }
    }

    method ConnectToSink(ghost p: Problem, toConnect: seq<int>)
      requires Names(p) && toConnect == p.b
      requires Built(p, edges, capacity, |p.names| + |p.edges| + |p.a|)
      modifies `edges, `capacity
      ensures Names(p) && Built(p, edges, capacity, Pairs(p))
    {
      hide Built;
      for i := 0 to |toConnect|
        invariant Names(p) && Built(p, edges, capacity, |p.names| + |p.edges| + |p.a| + i)
      {
        BuiltNext(p, edges, capacity, |p.names| + |p.edges| + |p.a| + i);
        AddEdge(vertexIndices[toConnect[i]] + 1, 2 * |vertexNames| + 1, EXTERNAL_CAPACITY);
      }
    }

    /** The first edge from source to target, in order of insertion. */
    method FindEdge(source: nat, target: nat) returns (e: nat)
      ensures e <= |edges|
      ensures e < |edges| ==> edges[e] == Arc(source, target)
      ensures forall i :: 0 <= i < e ==> edges[i] != Arc(source, target)
    {
      e := 0;
      while e < |edges| && edges[e] != Arc(source, target)
        invariant e <= |edges|
        invariant forall i :: 0 <= i < e ==> edges[i] != Arc(source, target)
      {
        e := e + 1;
      }
    }

    method ApplyPenalty(ghost p: Problem, v: int, penalty: int)
      requires Names(p) && HoldsArcs(p, edges) && ForwardOnly(p, capacity) && v in p.names && penalty > 0
      modifies `capacity
      ensures Penalised(p, old(capacity), capacity, [v], penalty)
    {
      hide ForwardOnly, Penalised, PenalisedSoFar, DoubleArc;
      ghost var before := capacity;
      ForwardLength(p, capacity);
      var idx := vertexIndices[v];
      var internal := FindEdge(idx, idx + 1);
      FirstIsInternal(p, edges, v, internal);
      InternalFirst(p, before, v, penalty);
      capacity := capacity[internal := penalty];
      for e := 0 to |edges|
        invariant PenalisedSoFar(p, before, capacity, v, e, penalty) && |capacity| == |edges|
      {
        PenaliseStep(p, edges, before, capacity, v, e, penalty);
        if edges[e].tail == idx + 1 && capacity[e] > 0 {
          capacity := capacity[e := penalty];
        }
      }
      SoFarDone(p, before, capacity, v, penalty);
    }

    method ApplyPenalties(ghost p: Problem, vs: seq<int>, penalty: int)
      requires Names(p) && HoldsArcs(p, edges) && ForwardOnly(p, capacity) && penalty > 0
      requires forall v :: v in vs ==> v in p.names
      modifies `capacity
      ensures ForwardOnly(p, capacity) && Penalised(p, old(capacity), capacity, vs, penalty)
    {
      hide HoldsArcs, Penalised, ForwardOnly;
      ghost var before := capacity;
      ForwardLength(p, capacity);
      NothingPenalised(p, before, penalty);
      for i := 0 to |vs|
        invariant ForwardOnly(p, capacity) && Penalised(p, before, capacity, vs[..i], penalty)
      {
        ghost var middle := capacity;
        ApplyPenalty(p, vs[i], penalty);
        PenalisedNext(p, before, middle, capacity, vs[..i], vs[i], penalty);
        PenalisedForward(p, middle, capacity, [vs[i]], penalty);
        assert vs[..i] + [vs[i]] == vs[..i + 1];
      }
      assert vs[..|vs|] == vs;
    }

    /** Breadth-first search along edges with residual capacity: exactly the reachable vertices. */
    method ReachableInResidualGraph(residual: seq<int>, n: nat, source: nat) returns (reach: seq<bool>)
      requires |residual| == |edges| && source < n && forall e :: 0 <= e < |edges| ==> edges[e].head < n
      ensures |reach| == n && Reachable(edges, residual, source, reach)
    {
      hide Searching, Work, Reachable;
      reach := seq(n, _ => false)[source := true];
      var queue := [source];
      SearchStart(edges, residual, source, reach);
      while queue != []
        invariant |reach| == n && Searching(edges, residual, source, reach, queue, source, |edges|)
        decreases Work(reach, queue)
      {
        var vert := queue[0];
        ghost var work := Work(reach, queue);
        SearchPop(edges, residual, source, reach, queue);
        queue := queue[1..];
        for e := 0 to |edges|
          invariant |reach| == n && Searching(edges, residual, source, reach, queue, vert, e)
          invariant Work(reach, queue) < work
        {
          SearchStep(edges, residual, source, reach, queue, vert, e);
          if edges[e].tail == vert && residual[e] > 0 {
            var v := edges[e].head;
            if !reach[v] {
              reach := reach[v := true];
              queue := queue + [v];
            }
          }
        }
        SearchNext(edges, residual, source, reach, queue, vert);
      }
      SearchDone(edges, residual, source, reach);
    }

    /** The edges from reachable to unreachable vertices, found through their reverses. */
    method GetSeparatingEdges(ghost p: Problem, reach: seq<bool>) returns (cut: seq<nat>)
      requires HoldsArcs(p, edges) && HoldsCaps(p, capacity) && |reach| == 2 * |p.names| + 2
      ensures CrossingEdges(edges, reach, cut)
    {
      hide CrossingEdges, Collected, DoubleArc, NetCap;
      cut := [];
      NodesInRange(p, edges);
      NothingCollected(edges, reach);
      for idx := 0 to |reach|
        invariant Collected(edges, reach, cut, idx, 0)
      {
        if !reach[idx] {
          for e := 0 to |edges|
            invariant Collected(edges, reach, cut, idx, e)
          {
            CollectStep(p, edges, reach, cut, idx, e);
            CapacityParity(p, capacity, e);
            if edges[e].tail == idx && capacity[e] == 0 && reach[edges[e].head] {
              cut := cut + [e - 1];
            }
          }
          CollectNext(p, edges, reach, cut, idx);
        } else {
          CollectSkip(edges, reach, cut, idx);
        }
      }
      CollectDone(edges, reach, cut);
    }

    method VertexSeparatorFromEdgeSeparator(ghost p: Problem, cut: seq<nat>) returns (sep: seq<int>)
      requires vertexNames == p.names && InternalEdges(p, edges, cut)
      ensures NamesOf(p, cut, sep)
    {
      sep := [];
      for i := 0 to |cut|
        invariant NamesOf(p, cut[..i], sep)
      {
        var s, t := edges[cut[i]].tail, edges[cut[i]].head;
        assert t == s + 1;
        sep := sep + [vertexNames[t / 2 - 1]];
      }
      assert cut[..|cut|] == cut;
    }

    /** `maxFlow` returns the residual capacities of a maximum flow. */
    method GetVertexSeparator(ghost p: Problem, vertA: seq<int>, vertB: seq<int>,
                              forbidden: seq<int>, unpreferred: seq<int>,
                              maxFlow: (seq<Arc>, seq<int>) -> seq<int>) returns (sep: seq<int>)
      requires Names(p) && Built(p, edges, capacity, |p.names| + |p.edges|)
      requires vertA == p.a && vertB == p.b && forbidden == p.forbidden && unpreferred == p.unpreferred
      requires forall e, c :: HoldsArcs(p, e) && HoldsCaps(p, c) ==> GoodResidual(p, maxFlow(e, c))
      modifies `edges, `capacity
      ensures BestSeparator(p, sep)
    {
      hide Built, Penalised, HoldsArcs, HoldsCaps, GoodResidual, Reachable, CrossingEdges, InternalEdges, NamesOf, BestSeparator;
      var penalty := INTERNAL_CAPACITY * |vertA| + 1;
      penalty := penalty + |unpreferred|;
      ConnectToSource(p, vertA, penalty);
      ConnectToSink(p, vertB);
      ghost var c0 := capacity;
      BuiltForward(p, edges, capacity);
      ApplyPenalties(p, forbidden, penalty);
      ghost var c1 := capacity;
      ApplyPenalties(p, unpreferred, UNPREFERRED_CAPACITY);
      FinalCaps(p, edges, c0, c1, capacity);
      var residual := maxFlow(edges, capacity);
      GoodLength(p, edges, residual);
      NodesInRange(p, edges);
      var reach := ReachableInResidualGraph(residual, 2 * |vertexNames| + 2, SOURCE);
      MarkedIsReach(p, edges, residual, reach);
      var cut := GetSeparatingEdges(p, reach);
      CrossingNames(p, edges, residual, reach, cut);
      sep := VertexSeparatorFromEdgeSeparator(p, cut);
      NamesAreCut(p, edges, residual, reach, cut, sep);
      ReachIsBest(p, residual, reach, sep);
    }
  }

  /** A least-weight separator of p, given a maximum-flow routine. */
  method SeparatorOf(p: Problem, maxFlow: (seq<Arc>, seq<int>) -> seq<int>) returns (sep: seq<int>)
    requires WellFormed(p)
    requires forall e, c :: HoldsArcs(p, e) && HoldsCaps(p, c) ==> GoodResidual(p, maxFlow(e, c))
    ensures BestSeparator(p, sep)
  {
    var g := new Separator(p, p.names, p.edges);
    sep := g.GetVertexSeparator(p, p.a, p.b, p.forbidden, p.unpreferred, maxFlow);
  }
}
