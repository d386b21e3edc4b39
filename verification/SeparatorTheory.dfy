/** Minimum vertex separators by vertex splitting: what the cut of a maximum flow stands for. */
module SeparatorTheory {
  import opened FlowNetwork

  const INTERNAL_CAPACITY := 2
  const UNPREFERRED_CAPACITY := 3
  const EXTERNAL_CAPACITY := 4

  /** A graph over named vertices, the two sides to separate, and vertices to spare or to avoid. */
  datatype Problem = Problem(names: seq<int>, edges: seq<(int, int)>, a: seq<int>, b: seq<int>,
                             forbidden: seq<int>, unpreferred: seq<int>)

  ghost predicate WellFormed(p: Problem) {
    && (forall i, j :: 0 <= i < j < |p.names| ==> p.names[i] != p.names[j])
    && (forall k :: 0 <= k < |p.edges| ==> p.edges[k].0 in p.names && p.edges[k].1 in p.names)
    && (forall k :: 0 <= k < |p.a| ==> p.a[k] in p.names)
    && (forall k :: 0 <= k < |p.b| ==> p.b[k] in p.names)
    && (forall v :: v in p.forbidden ==> v in p.names)
    && (forall v :: v in p.unpreferred ==> v in p.names)
    && (forall v :: v in p.a ==> v !in p.forbidden)
    && (forall v :: v in p.forbidden ==> v !in p.unpreferred)
  }

  function Position(names: seq<int>, v: int): (r: nat)
    requires v in names
    ensures r < |names| && names[r] == v
  {
    if names[0] == v then 0 else 1 + Position(names[1..], v)
  }

  function InNode(p: Problem, v: int): nat
    requires v in p.names
  {
    2 * Position(p.names, v) + 1
  }

  function OutNode(p: Problem, v: int): nat
    requires v in p.names
  {
    2 * Position(p.names, v) + 2
  }

  const SOURCE: nat := 0

  function Sink(p: Problem): nat { 2 * |p.names| + 1 }

  function Penalty(p: Problem): nat { INTERNAL_CAPACITY * |p.a| + 1 + |p.unpreferred| }

  /** What it costs to cut a vertex. */
  function Weight(p: Problem, v: int): nat {
    if v in p.unpreferred then UNPREFERRED_CAPACITY
    else if v in p.forbidden then Penalty(p)
    else INTERNAL_CAPACITY
  }

  function Pairs(p: Problem): nat { |p.names| + |p.edges| + |p.a| + |p.b| }

  /** The k-th forward edge: vertices first, then graph edges, then source and sink edges. */
  function NetArc(p: Problem, k: nat): Arc
    requires WellFormed(p) && k < Pairs(p)
  {
    var n, m, c := |p.names|, |p.edges|, |p.a|;
    if k < n then Arc(2 * k + 1, 2 * k + 2)
    else if k < n + m then Arc(OutNode(p, p.edges[k - n].0), InNode(p, p.edges[k - n].1))
    else if k < n + m + c then Arc(SOURCE, InNode(p, p.a[k - n - m]))
    else Arc(OutNode(p, p.b[k - n - m - c]), Sink(p))
  }

  function NetCap(p: Problem, k: nat): nat
    requires k < Pairs(p)
  {
    var n, m, c := |p.names|, |p.edges|, |p.a|;
    if k < n then Weight(p, p.names[k])
    else if k < n + m then Weight(p, p.edges[k - n].0)
    else if k < n + m + c then Penalty(p)
    else
      var v := p.b[k - n - m - c];
      if v in p.unpreferred then UNPREFERRED_CAPACITY
      else if v in p.forbidden then Penalty(p)
      else EXTERNAL_CAPACITY
  }

  /** f is a flow in the network of p. */
  ghost predicate FlowOf(p: Problem, f: Flow) {
    && WellFormed(p) && Feasible(f) && |f.arcs| == Pairs(p)
    && forall k :: 0 <= k < Pairs(p) ==> f.arcs[k] == NetArc(p, k) && f.cap[k] == NetCap(p, k)
  }

  // ------------------------------------------------------- shape of the network

  lemma PositionUnique(p: Problem, k: nat)
    requires WellFormed(p) && k < |p.names|
    ensures Position(p.names, p.names[k]) == k
  {}

  /** Only the internal arc of v enters its out-node. */
  lemma OnlyInternalIn(p: Problem, f: Flow, v: int)
    requires FlowOf(p, f) && v in p.names
    ensures forall j :: 0 <= j < |f.arcs| ==> (f.arcs[j].head == OutNode(p, v) <==> j == Position(p.names, v))
  {
    forall j | 0 <= j < |f.arcs| ensures f.arcs[j].head == OutNode(p, v) <==> j == Position(p.names, v) {
      assert f.arcs[j] == NetArc(p, j);
    }
  }

  /** Only the internal arc of v leaves its in-node. */
  lemma OnlyInternalOut(p: Problem, f: Flow, v: int)
    requires FlowOf(p, f) && v in p.names
    ensures forall j :: 0 <= j < |f.arcs| ==> (f.arcs[j].tail == InNode(p, v) <==> j == Position(p.names, v))
  {
    forall j | 0 <= j < |f.arcs| ensures f.arcs[j].tail == InNode(p, v) <==> j == Position(p.names, v) {
      assert f.arcs[j] == NetArc(p, j);
    }
  }

  ghost predicate MaxFlowOf(p: Problem, f: Flow) {
    FlowOf(p, f) && Maximum(f, SOURCE, Sink(p))
  }

  /** A source edge is never full. */
  lemma SourceEdgeNotFull(p: Problem, f: Flow, k: nat)
    requires MaxFlowOf(p, f) && |p.names| + |p.edges| <= k < |p.names| + |p.edges| + |p.a|
    ensures f.flow[k] < f.cap[k]
  {
    var v := p.a[k - |p.names| - |p.edges|];
    assert v in p.a && v in p.names;
    var i := Position(p.names, v);
    assert f.arcs[k] == NetArc(p, k) && f.cap[k] == NetCap(p, k);
    assert f.arcs[i] == NetArc(p, i) && f.cap[i] == NetCap(p, i);
    OnlyInternalOut(p, f, v);
    ThroughOneArcOut(f, InNode(p, v), i, k);
    assert v in p.unpreferred ==> |p.unpreferred| > 0;
  }

  /** An arc that leaves the residual reach is the internal arc of a vertex: the capacities rule out
      every other edge. */
  lemma CutIsInternal(p: Problem, f: Flow, r: set<nat>, k: nat)
    requires MaxFlowOf(p, f) && ResidualReach(f, r, SOURCE) && k < |f.arcs| && Leaves(f, r, k)
    ensures k < |p.names|
  {
    var n, m, c := |p.names|, |p.edges|, |p.a|;
    if n <= k {
      assert f.arcs[k] == NetArc(p, k) && f.cap[k] == NetCap(p, k);
      if n + m <= k < n + m + c {
        SourceEdgeNotFull(p, f, k);
      } else {
        var u := if k < n + m then p.edges[k - n].0 else p.b[k - n - m - c];
        OutgoingNotCut(p, f, r, k, u);
      }
    }
  }

  lemma OutgoingNotCut(p: Problem, f: Flow, r: set<nat>, k: nat, u: int)
    requires MaxFlowOf(p, f) && ResidualReach(f, r, SOURCE) && |p.names| <= k < |f.arcs|
    requires u in p.names && f.arcs[k].tail == OutNode(p, u) && f.cap[k] >= Weight(p, u)
    ensures !Leaves(f, r, k)
  {
    var i, x := Position(p.names, u), OutNode(p, u);
    assert f.arcs[i] == NetArc(p, i) && f.cap[i] == NetCap(p, i);
    OnlyInternalIn(p, f, u);
    ThroughOneArcIn(f, x, i, k);
    if Leaves(f, r, k) {
      LeaveOut(f, r, x, i, k);
    }
  }

  // ------------------------------------------------------- separators

  ghost predicate IsPath(p: Problem, w: seq<int>) {
    && |w| > 0
    && (forall i :: 0 <= i < |w| ==> w[i] in p.names)
    && (forall i :: 0 < i < |w| ==> (w[i - 1], w[i]) in p.edges)
  }

  /** A path from one side to the other. */
  ghost predicate Connects(p: Problem, w: seq<int>) {
    IsPath(p, w) && w[0] in p.a && w[|w| - 1] in p.b
  }

  ghost predicate Hits(x: set<int>, w: seq<int>) {
    exists i :: 0 <= i < |w| && w[i] in x
  }

  ghost predicate Separates(p: Problem, x: set<int>) {
    forall w :: Connects(p, w) ==> Hits(x, w)
  }

  /** The vertices cut by r: entered, but not left. */
  ghost function CutSet(p: Problem, r: set<nat>): set<int> {
    set v | v in p.names && InNode(p, v) in r && OutNode(p, v) !in r
  }

  lemma SinkNotReached(p: Problem, f: Flow, r: set<nat>)
    requires MaxFlowOf(p, f) && ResidualReach(f, r, SOURCE)
    ensures Sink(p) !in r
  {
    var t :| SOURCE in t && Sink(p) !in t && ResidualClosed(f, t);
    assert r <= t;
  }

  lemma EdgeStays(p: Problem, f: Flow, r: set<nat>, k: nat)
    requires MaxFlowOf(p, f) && ResidualReach(f, r, SOURCE) && |p.names| <= k < Pairs(p)
    ensures NetArc(p, k).tail in r ==> NetArc(p, k).head in r
  {
    assert f.arcs[k] == NetArc(p, k);
    if Leaves(f, r, k) { CutIsInternal(p, f, r, k); }
  }

  /** A path that avoids the cut vertices stays within the residual reach. */
  lemma {:induction false} PathStays(p: Problem, f: Flow, r: set<nat>, w: seq<int>, i: nat)
    requires MaxFlowOf(p, f) && ResidualReach(f, r, SOURCE) && IsPath(p, w) && w[0] in p.a && i < |w|
    requires !Hits(CutSet(p, r), w)
    ensures OutNode(p, w[i]) in r
    decreases i
  {
    hide MaxFlowOf, ResidualReach, CutSet, Hits;
    MaxFlowWellFormed(p, f);
    if i == 0 {
      var j :| 0 <= j < |p.a| && p.a[j] == w[0];
      EdgeStays(p, f, r, |p.names| + |p.edges| + j);
      SourceReached(f, r);
    } else {
      PathStays(p, f, r, w, i - 1);
      var j := StepIndex(p, w, i);
      EdgeStays(p, f, r, |p.names| + j);
    }
    NotCut(p, r, w, i);
  }

  lemma StepIndex(p: Problem, w: seq<int>, i: nat) returns (j: nat)
    requires IsPath(p, w) && 0 < i < |w|
    ensures j < |p.edges| && p.edges[j] == (w[i - 1], w[i])
  {
    assert (w[i - 1], w[i]) in p.edges;
    j :| 0 <= j < |p.edges| && p.edges[j] == (w[i - 1], w[i]);
  }

  lemma MaxFlowWellFormed(p: Problem, f: Flow)
    requires MaxFlowOf(p, f)
    ensures WellFormed(p) && Feasible(f)
  {}

  lemma SourceReached(f: Flow, r: set<nat>)
    requires Feasible(f) && ResidualReach(f, r, SOURCE)
    ensures SOURCE in r
  {}

  lemma NotCut(p: Problem, r: set<nat>, w: seq<int>, i: nat)
    requires i < |w| && w[i] in p.names && !Hits(CutSet(p, r), w) && InNode(p, w[i]) in r
    ensures OutNode(p, w[i]) in r
  {
    assert w[i] !in CutSet(p, r);
  }

  /** The cut vertices meet every path. */
  lemma CutSeparates(p: Problem, f: Flow, r: set<nat>)
    requires MaxFlowOf(p, f) && ResidualReach(f, r, SOURCE)
    ensures Separates(p, CutSet(p, r))
  {
    SinkNotReached(p, f, r);
    forall w | Connects(p, w) ensures Hits(CutSet(p, r), w) {
      if !Hits(CutSet(p, r), w) {
        PathStays(p, f, r, w, |w| - 1);
        var j :| 0 <= j < |p.b| && p.b[j] == w[|w| - 1];
        var k := |p.names| + |p.edges| + |p.a| + j;
        assert f.arcs[k] == NetArc(p, k);
        CutIsInternal(p, f, r, k);
      }
    }
  }

  // ------------------------------------------------------- weights

  /** Weight of the vertices of x among the first n. */
  ghost function SetWeight(p: Problem, x: set<int>, n: nat): nat
    requires n <= |p.names|
  {
    if n == 0 then 0 else SetWeight(p, x, n - 1) + (if p.names[n - 1] in x then Weight(p, p.names[n - 1]) else 0)
  }

  ghost function TotalWeight(p: Problem, x: set<int>): nat { SetWeight(p, x, |p.names|) }

  /** The capacity of the cut is the weight of the cut vertices. */
  lemma {:induction false} CutWeight(p: Problem, f: Flow, r: set<nat>, k: nat)
    requires MaxFlowOf(p, f) && ResidualReach(f, r, SOURCE) && k <= Pairs(p)
    ensures CutCapacity(f, r, k) == SetWeight(p, CutSet(p, r), if k < |p.names| then k else |p.names|)
    decreases k
  {
    if k > 0 {
      CutWeight(p, f, r, k - 1);
      if k <= |p.names| {
        InternalCut(p, f, r, k - 1);
      } else if Leaves(f, r, k - 1) {
        CutIsInternal(p, f, r, k - 1);
      }
      hide CutSet, NetArc, NetCap, ResidualReach, Leaves, Weight;
    }
  }

  lemma InternalCut(p: Problem, f: Flow, r: set<nat>, k: nat)
    requires MaxFlowOf(p, f) && k < |p.names|
    ensures Leaves(f, r, k) <==> p.names[k] in CutSet(p, r)
    ensures f.cap[k] == Weight(p, p.names[k])
  {
    assert f.arcs[k] == NetArc(p, k) && f.cap[k] == NetCap(p, k);
    PositionUnique(p, k);
  }

  // ------------------------------------------------------- weak duality for vertex sets

  /** v can be passed on a path from the first side that avoids x. */
  ghost predicate Through(p: Problem, x: set<int>, v: int) {
    exists w :: IsPath(p, w) && w[0] in p.a && w[|w| - 1] == v && !Hits(x, w)
  }

  ghost predicate Entered(p: Problem, x: set<int>, v: int) {
    v in p.a || exists u :: Through(p, x, u) && (u, v) in p.edges
  }

  /** The network side of the source when the vertices of x are cut. */
  ghost function SourceSide(p: Problem, x: set<int>): set<nat> {
    {SOURCE}
    + (set v | v in p.names && Entered(p, x, v) :: InNode(p, v))
    + (set v | v in p.names && Through(p, x, v) :: OutNode(p, v))
  }

  lemma NodesDiffer(p: Problem, u: int, v: int)
    requires u in p.names && v in p.names
    ensures InNode(p, u) != OutNode(p, v) && InNode(p, u) != SOURCE && OutNode(p, u) != SOURCE
    ensures InNode(p, u) == InNode(p, v) || OutNode(p, u) == OutNode(p, v) ==> u == v
  {
    assert p.names[Position(p.names, u)] == u && p.names[Position(p.names, v)] == v;
  }

  lemma SourceSideIn(p: Problem, x: set<int>, v: int)
    requires v in p.names
    ensures InNode(p, v) in SourceSide(p, x) <==> Entered(p, x, v)
    ensures OutNode(p, v) in SourceSide(p, x) <==> Through(p, x, v)
  {
    hide Entered, Through, InNode, OutNode;
    forall u | u in p.names ensures InNode(p, u) != OutNode(p, v) && InNode(p, v) != OutNode(p, u) {
      NodesDiffer(p, u, v);
      NodesDiffer(p, v, u);
    }
    NodesDiffer(p, v, v);
    forall u | u in p.names && (InNode(p, u) == InNode(p, v) || OutNode(p, u) == OutNode(p, v)) ensures u == v {
      NodesDiffer(p, u, v);
    }
  }

  lemma ExtendPath(p: Problem, x: set<int>, u: int, v: int)
    requires Through(p, x, u) && (u, v) in p.edges && v in p.names && v !in x
    ensures Through(p, x, v)
  {
    var w :| IsPath(p, w) && w[0] in p.a && w[|w| - 1] == u && !Hits(x, w);
    var w2 := w + [v];
    forall i | 0 <= i < |w2| ensures w2[i] in p.names && w2[i] !in x {
      if i < |w| { assert w2[i] == w[i]; }
    }
    assert IsPath(p, w2) by {
      forall i | 0 < i < |w2| ensures (w2[i - 1], w2[i]) in p.edges {
        if i < |w| { assert w2[i] == w[i] && w2[i - 1] == w[i - 1]; }
      }
    }
  }

  lemma EnteredOrCut(p: Problem, x: set<int>, v: int)
    requires v in p.names && Entered(p, x, v) && v !in x
    ensures Through(p, x, v)
  {
    if v in p.a {
      var w := [v];
      assert IsPath(p, w) && !Hits(x, w) && w[0] in p.a && w[|w| - 1] == v;
    } else {
      var u :| Through(p, x, u) && (u, v) in p.edges;
      ExtendPath(p, x, u, v);
    }
  }

  lemma InternalArcLeaves(p: Problem, x: set<int>, k: nat)
    requires WellFormed(p) && k < |p.names|
    requires NetArc(p, k).tail in SourceSide(p, x) && NetArc(p, k).head !in SourceSide(p, x)
    ensures p.names[k] in x
  {
    hide SourceSide, Entered, Through;
    PositionUnique(p, k);
    SourceSideIn(p, x, p.names[k]);
    if p.names[k] !in x { EnteredOrCut(p, x, p.names[k]); }
  }

  lemma GraphEdgeStays(p: Problem, x: set<int>, k: nat)
    requires WellFormed(p) && |p.names| <= k < |p.names| + |p.edges| && NetArc(p, k).tail in SourceSide(p, x)
    ensures NetArc(p, k).head in SourceSide(p, x)
  {
    hide SourceSide, Through;
    var e := p.edges[k - |p.names|];
    assert (e.0, e.1) in p.edges;
    SourceSideIn(p, x, e.0);
    SourceSideIn(p, x, e.1);
  }

  /** Only internal arcs of x leave the source side of a separator x. */
  lemma SeparatorCutsItself(p: Problem, f: Flow, x: set<int>, k: nat)
    requires FlowOf(p, f) && Separates(p, x) && k < Pairs(p) && Leaves(f, SourceSide(p, x), k)
    ensures k < |p.names| && p.names[k] in x
  {
    hide SourceSide, Separates, InNode, OutNode;
    var n, m, c := |p.names|, |p.edges|, |p.a|;
    assert f.arcs[k] == NetArc(p, k);
    if k < n {
      InternalArcLeaves(p, x, k);
    } else if k < n + m {
      GraphEdgeStays(p, x, k);
    } else if k < n + m + c {
      SourceEdgeStays(p, x, k - n - m);
    } else {
      SinkEdgeUnused(p, x, k - n - m - c);
    }
  }

  lemma SourceEdgeStays(p: Problem, x: set<int>, j: nat)
    requires WellFormed(p) && j < |p.a|
    ensures InNode(p, p.a[j]) in SourceSide(p, x)
  {
    SourceSideIn(p, x, p.a[j]);
  }

  lemma SinkEdgeUnused(p: Problem, x: set<int>, j: nat)
    requires WellFormed(p) && Separates(p, x) && j < |p.b|
    ensures OutNode(p, p.b[j]) !in SourceSide(p, x)
  {
    SourceSideIn(p, x, p.b[j]);
    SinkSideNotThrough(p, x, p.b[j]);
  }

  lemma SinkSideNotThrough(p: Problem, x: set<int>, v: int)
    requires Separates(p, x) && v in p.b
    ensures !Through(p, x, v)
  {
    forall w | IsPath(p, w) && w[0] in p.a && w[|w| - 1] == v ensures Hits(x, w) {
      assert Connects(p, w);
    }
  }

  lemma {:induction false} SeparatorCapacity(p: Problem, f: Flow, x: set<int>, k: nat)
    requires FlowOf(p, f) && Separates(p, x) && k <= Pairs(p)
    ensures CutCapacity(f, SourceSide(p, x), k) <= SetWeight(p, x, if k < |p.names| then k else |p.names|)
    decreases k
  {
    if k > 0 {
      SeparatorCapacity(p, f, x, k - 1);
      assert f.arcs[k - 1] == NetArc(p, k - 1) && f.cap[k - 1] == NetCap(p, k - 1);
      if Leaves(f, SourceSide(p, x), k - 1) { SeparatorCutsItself(p, f, x, k - 1); }
    }
  }

  lemma SinkNotOnSourceSide(p: Problem, x: set<int>)
    requires WellFormed(p)
    ensures Sink(p) !in SourceSide(p, x)
  {}

  /** No separator weighs less than the value of the flow. */
  lemma FlowBelowSeparator(p: Problem, f: Flow, x: set<int>)
    requires MaxFlowOf(p, f) && Separates(p, x)
    ensures Excess(f, SOURCE) <= TotalWeight(p, x)
  {
    var s := SourceSide(p, x);
    SinkNotOnSourceSide(p, x);
    CutCarriesValue(f, s, SOURCE, Sink(p));
    NetAtMostCapacity(f, s, |f.arcs|);
    SeparatorCapacity(p, f, x, Pairs(p));
  }

  /** The cut vertices weigh exactly the value of the flow. */
  lemma CutWeighsFlow(p: Problem, f: Flow, r: set<nat>)
    requires MaxFlowOf(p, f) && ResidualReach(f, r, SOURCE)
    ensures TotalWeight(p, CutSet(p, r)) == Excess(f, SOURCE)
  {
    SinkNotReached(p, f, r);
    CutCarriesValue(f, r, SOURCE, Sink(p));
    NetIsCapacity(f, r, |f.arcs|);
    CutWeight(p, f, r, Pairs(p));
  }

  // ------------------------------------------------------- forbidden vertices

  lemma {:induction false} SideWeight(p: Problem, n: nat, a: set<int>, u: set<int>)
    requires n <= |p.names| && (forall i, j :: 0 <= i < j < n ==> p.names[i] != p.names[j])
    requires forall i :: 0 <= i < n && p.names[i] in a ==> p.names[i] !in p.forbidden
    requires forall i :: 0 <= i < n && p.names[i] in p.unpreferred ==> p.names[i] in u
    ensures SetWeight(p, a, n) <= INTERNAL_CAPACITY * |a| + |u|
    decreases n
  {
    if n > 0 {
      var v := p.names[n - 1];
      SameWeight(p, a, a - {v}, n - 1);
      SideWeight(p, n - 1, a - {v}, u - {v});
    }
  }

  lemma {:induction false} SameWeight(p: Problem, a: set<int>, b: set<int>, n: nat)
    requires n <= |p.names| && forall i :: 0 <= i < n ==> (p.names[i] in a <==> p.names[i] in b)
    ensures SetWeight(p, a, n) == SetWeight(p, b, n)
    decreases n
  {
    if n > 0 { SameWeight(p, a, b, n - 1); }
  }

  lemma {:induction false} SetOfSeq(s: seq<int>)
    ensures |set v | v in s| <= |s|
  {
    if s != [] {
      var t := s[..|s| - 1];
      SetOfSeq(t);
      assert s == t + [s[|s| - 1]];
      assert (set v | v in s) == (set v | v in t) + {s[|s| - 1]};
    }
  }

  lemma {:induction false} WeightOfMember(p: Problem, x: set<int>, i: nat, n: nat)
    requires i < n <= |p.names| && p.names[i] in x
    ensures SetWeight(p, x, n) >= Weight(p, p.names[i])
    decreases n
  {
    if i < n - 1 { WeightOfMember(p, x, i, n - 1); }
  }

  /** The first side separates, so the flow stays below the penalty and no forbidden vertex is cut. */
  lemma PenaltyNeverPaid(p: Problem, f: Flow, r: set<nat>)
    requires MaxFlowOf(p, f) && ResidualReach(f, r, SOURCE)
    ensures Excess(f, SOURCE) < Penalty(p)
    ensures forall v :: v in CutSet(p, r) ==> v !in p.forbidden
  {
    var a, u := set v | v in p.a, set v | v in p.unpreferred;
    assert Separates(p, a) by {
      forall w | Connects(p, w) ensures Hits(a, w) { assert w[0] in a; }
    }
    FlowBelowSeparator(p, f, a);
    SideWeight(p, |p.names|, a, u);
    SetOfSeq(p.a);
    SetOfSeq(p.unpreferred);
    CutWeighsFlow(p, f, r);
    forall v | v in CutSet(p, r) ensures v !in p.forbidden {
      WeightOfMember(p, CutSet(p, r), Position(p.names, v), |p.names|);
    }
  }

  /** The cut of a maximum flow is a separator without forbidden vertices, and the cheapest one. */
  lemma CheapestSeparator(p: Problem, f: Flow, r: set<nat>)
    requires MaxFlowOf(p, f) && ResidualReach(f, r, SOURCE)
    ensures Separates(p, CutSet(p, r))
    ensures forall v :: v in CutSet(p, r) ==> v in p.names && v !in p.forbidden
    ensures forall x :: Separates(p, x) ==> TotalWeight(p, CutSet(p, r)) <= TotalWeight(p, x)
  {
    CutSeparates(p, f, r);
    PenaltyNeverPaid(p, f, r);
    CutWeighsFlow(p, f, r);
    forall x | Separates(p, x) ensures TotalWeight(p, CutSet(p, r)) <= TotalWeight(p, x) {
      FlowBelowSeparator(p, f, x);
    }
  }
}
