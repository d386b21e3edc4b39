/** Renumbering a graph: the code table, and what the depth-first search that fills it maintains. */
module AigReencode {
  import opened Aig
  import opened AigCycles

  // ------------------------------------------------------- the code table

  /** Variable v has been given a code. */
  ghost predicate Coded(code: seq<nat>, v: nat) {
    2 * v < |code| && code[2 * v] > 0
  }

  ghost predicate HasCode(code: seq<nat>, k: nat) {
    exists v: nat :: Coded(code, v) && code[2 * v] == k
  }

  /** Literals below `next` are taken, each by one variable. */
  ghost predicate Table(a: Graph, code: seq<nat>, next: nat) {
    && |code| == 2 * (a.maxvar + 1) && next % 2 == 0 && next >= 2 && code[0] == 0 && code[1] == 1
    && (forall v: nat :: 0 < v <= a.maxvar && !Coded(code, v) ==> code[2 * v + 1] == 0)
    && (forall v: nat :: Coded(code, v) ==>
          v <= a.maxvar && code[2 * v] % 2 == 0 && code[2 * v] < next && code[2 * v + 1] == code[2 * v] + 1)
    && (forall u: nat, v: nat :: Coded(code, u) && Coded(code, v) && code[2 * u] == code[2 * v] ==> u == v)
    && (forall k: nat :: 0 < k < next && k % 2 == 0 ==> HasCode(code, k))
  }

  /** Inputs and latches come first, in order. */
  ghost predicate LeavesCoded(a: Graph, code: seq<nat>)
    requires Typed(a) && |code| == 2 * (a.maxvar + 1)
  {
    && (forall i :: 0 <= i < |a.inputs| ==> code[a.inputs[i]] == 2 * (i + 1))
    && (forall i :: 0 <= i < |a.latches| ==> code[a.latches[i].lit] == 2 * (|a.inputs| + i + 1))
  }

  ghost function Leaves(a: Graph): nat { 2 * (|a.inputs| + |a.latches|) }

  /** Coded gates come after the leaves and after their operands. */
  ghost predicate GatesCoded(a: Graph, code: seq<nat>)
    requires Typed(a)
  {
    && (forall v: nat :: Coded(code, v) ==> v < |a.kinds| && a.kinds[v] != Undefined)
    && (forall v: nat :: Coded(code, v) && IsGate(a, v) ==> code[2 * v] > Leaves(a))
    && (forall v: nat, c: nat :: Coded(code, v) && c in Kids(a, v) && c != 0 ==>
          Coded(code, c) && code[2 * c] < code[2 * v])
  }

  /** v is in every set that holds the gates of the roots and is closed under operands. */
  ghost predicate OperandClosed(a: Graph, d: set<nat>)
    requires Typed(a)
  {
    forall v: nat, c: nat :: v in d && c in Kids(a, v) && IsGate(a, c) ==> c in d
  }

  ghost predicate HoldsRoots(a: Graph, roots: seq<nat>, d: set<nat>) {
    forall i :: 0 <= i < |roots| && IsGate(a, Var(roots[i])) ==> Var(roots[i]) in d
  }

  ghost predicate InCone(a: Graph, roots: seq<nat>, v: nat)
    requires Typed(a)
  {
    forall d :: OperandClosed(a, d) && HoldsRoots(a, roots, d) ==> v in d
  }

  ghost predicate ConeOnly(a: Graph, roots: seq<nat>, code: seq<nat>)
    requires Typed(a)
  {
    forall v: nat :: Coded(code, v) && IsGate(a, v) ==> InCone(a, roots, v)
  }

  /** The table between two visits. */
  ghost predicate Coding(a: Graph, roots: seq<nat>, code: seq<nat>, next: nat) {
    Legal(a) && Table(a, code, next) && LeavesCoded(a, code) && GatesCoded(a, code) && ConeOnly(a, roots, code)
  }

  lemma MoreRoots(a: Graph, roots: seq<nat>, lit: nat, code: seq<nat>, next: nat)
    requires Coding(a, roots, code, next)
    ensures Coding(a, roots + [lit], code, next)
  {
    hide Table, LeavesCoded, GatesCoded, Typed, OperandClosed;
    forall v: nat, d: set<nat> | Coded(code, v) && IsGate(a, v) && OperandClosed(a, d) && HoldsRoots(a, roots + [lit], d)
      ensures v in d
    {
      assert HoldsRoots(a, roots, d) by {
        forall i | 0 <= i < |roots| && IsGate(a, Var(roots[i])) ensures Var(roots[i]) in d {
          assert (roots + [lit])[i] == roots[i];
        }
      }
      assert InCone(a, roots, v);
    }
  }

  // ------------------------------------------------------- giving a code

  ghost function NewCode(code: seq<nat>, v: nat, next: nat): seq<nat>
    requires 2 * v + 1 < |code|
  {
    code[2 * v := next][2 * v + 1 := next + 1]
  }

  lemma CodedAfter(code: seq<nat>, v: nat, next: nat, u: nat)
    requires 2 * v + 1 < |code| && next > 0
    ensures Coded(NewCode(code, v, next), u) <==> Coded(code, u) || u == v
    ensures Coded(NewCode(code, v, next), u) ==> NewCode(code, v, next)[2 * u] == if u == v then next else code[2 * u]
  {}

  lemma TableNewCode(a: Graph, code: seq<nat>, next: nat, v: nat)
    requires Table(a, code, next) && 0 < v <= a.maxvar && !Coded(code, v)
    ensures Table(a, NewCode(code, v, next), next + 2)
  {
    var c := NewCode(code, v, next);
    hide NewCode, Coded;
    assert |c| == |code| && c[0] == 0 && c[1] == 1 by { NewCodeAt(code, v, next, 0); }
    forall u: nat ensures Coded(c, u) <==> Coded(code, u) || u == v { CodedAfter(code, v, next, u); }
    forall u: nat | 0 < u <= a.maxvar && !Coded(c, u) ensures c[2 * u + 1] == 0 {
      NewCodeAt(code, v, next, u);
    }
    forall u: nat | Coded(c, u)
      ensures u <= a.maxvar && c[2 * u] % 2 == 0 && c[2 * u] < next + 2 && c[2 * u + 1] == c[2 * u] + 1
    {
      NewCodeAt(code, v, next, u);
    }
    forall u: nat, w: nat | Coded(c, u) && Coded(c, w) && c[2 * u] == c[2 * w] ensures u == w {
      NewCodeAt(code, v, next, u);
      NewCodeAt(code, v, next, w);
    }
    forall k: nat | 0 < k < next + 2 && k % 2 == 0 ensures HasCode(c, k) {
      if k == next {
        NewCodeAt(code, v, next, v);
        assert Coded(c, v) && c[2 * v] == k;
      } else {
        assert HasCode(code, k);
        var u: nat :| Coded(code, u) && code[2 * u] == k;
        NewCodeAt(code, v, next, u);
        assert Coded(c, u) && c[2 * u] == k;
      }
    }
  }

  lemma NewCodeAt(code: seq<nat>, v: nat, next: nat, u: nat)
    requires 2 * v + 1 < |code| && 2 * u + 1 < |code|
    ensures |NewCode(code, v, next)| == |code|
    ensures NewCode(code, v, next)[2 * u] == if u == v then next else code[2 * u]
    ensures NewCode(code, v, next)[2 * u + 1] == if u == v then next + 1 else code[2 * u + 1]
  {}

  // ------------------------------------------------------- the depth-first search

  datatype Descent = Descent(onstack: seq<bool>, code: seq<nat>, next: nat, base: seq<nat>, frames: seq<Frame>)

  ghost predicate AllGates(a: Graph, s: seq<nat>) {
    forall k :: 0 <= k < |s| ==> IsGate(a, s[k])
  }

  ghost predicate Framed(a: Graph, d: Descent) {
    && |d.onstack| == |a.kinds| && |d.base| <= 1 && (d.frames != [] ==> d.base == []) && AllGates(a, d.base)
    && (forall i :: 0 <= i < |d.frames| ==> IsGate(a, d.frames[i].gate) && AllGates(a, d.frames[i].pending))
    && (forall v :: 0 <= v < |a.kinds| ==> (d.onstack[v] <==> OnFrame(d.frames, v)))
    && (forall i :: 0 <= i < |d.frames| ==> !Coded(d.code, d.frames[i].gate))
  }

  /** Ranks fall towards the top of the stack. */
  ghost predicate Falling(rank: nat -> nat, d: Descent) {
    && (forall i, j :: 0 <= i < j < |d.frames| ==> rank(d.frames[j].gate) < rank(d.frames[i].gate))
    && (forall i, k :: 0 <= i < |d.frames| && 0 <= k < |d.frames[i].pending| ==>
          rank(d.frames[i].pending[k]) < rank(d.frames[i].gate))
  }

  /** Operand c of the gate of frame i has a code or is above the frame. */
  ghost predicate Expected(d: Descent, i: nat, c: nat)
    requires i < |d.frames|
  {
    Coded(d.code, c) || c in d.frames[i].pending || (i + 1 < |d.frames| && c == d.frames[i + 1].gate)
  }

  ghost predicate Waiting(a: Graph, d: Descent)
    requires Typed(a)
  {
    forall i: nat, c: nat :: i < |d.frames| && c in Kids(a, d.frames[i].gate) && c != 0 ==> Expected(d, i, c)
  }

  /** Everything on the stack belongs to the cone of the roots. */
  ghost predicate StackInCone(a: Graph, roots: seq<nat>, d: Descent)
    requires Typed(a)
  {
    && (forall k :: 0 <= k < |d.base| ==> InCone(a, roots, d.base[k]))
    && (forall i :: 0 <= i < |d.frames| ==> InCone(a, roots, d.frames[i].gate))
    && (forall i, k :: 0 <= i < |d.frames| && 0 <= k < |d.frames[i].pending| ==> InCone(a, roots, d.frames[i].pending[k]))
  }

  ghost predicate Descending(a: Graph, rank: nat -> nat, roots: seq<nat>, d: Descent) {
    && Coding(a, roots, d.code, d.next) && Ranked(a, rank)
    && Framed(a, d) && Falling(rank, d) && Waiting(a, d) && StackInCone(a, roots, d)
  }

  ghost function TopGate(d: Descent): nat
    requires Top(d.base, d.frames) != []
  {
    Top(d.base, d.frames)[|Top(d.base, d.frames)| - 1]
  }

  ghost function Shortened(d: Descent): Descent
    requires Top(d.base, d.frames) != []
  {
    d.(base := PopBase(d.base, d.frames), frames := PopFrames(d.base, d.frames))
  }

  /** Popping leaves the gates of the frames as they are and shortens the pending entries on top. */
  lemma PopFacts(d: Descent)
    requires Top(d.base, d.frames) != []
    ensures var p, n := Shortened(d), |d.frames|;
            && |p.frames| == n && p.base <= d.base
            && (forall i :: 0 <= i < n ==> p.frames[i].gate == d.frames[i].gate && p.frames[i].pending <= d.frames[i].pending)
            && (forall i, c: nat :: 0 <= i < n && c in d.frames[i].pending && c != TopGate(d) ==> c in p.frames[i].pending)
            && (forall v: nat :: OnFrame(p.frames, v) <==> OnFrame(d.frames, v))
  {
    var p, n := Shortened(d), |d.frames|;
    forall i, c: nat | 0 <= i < n && c in d.frames[i].pending && c != TopGate(d) ensures c in p.frames[i].pending {
      if i == n - 1 { InFront(d.frames[i].pending, c); }
    }
  }

  lemma ShortenKeeps(a: Graph, rank: nat -> nat, roots: seq<nat>, d: Descent)
    requires Descending(a, rank, roots, d) && Top(d.base, d.frames) != [] && Coded(d.code, TopGate(d))
    ensures Descending(a, rank, roots, Shortened(d))
  {
    hide Typed, Kids, Coding, Ranked, IsGate, InCone, Shortened, OnFrame;
    CodingLegal(a, roots, d.code, d.next);
    PopFacts(d);
    var p := Shortened(d);
    assert p.code == d.code && p.next == d.next && p.onstack == d.onstack by { PopSame(d); }
    forall i: nat, c: nat | i < |p.frames| && c in Kids(a, p.frames[i].gate) && c != 0 ensures Expected(p, i, c) {
      assert c in Kids(a, d.frames[i].gate) && Expected(d, i, c);
    }
  }

  lemma PopSame(d: Descent)
    requires Top(d.base, d.frames) != []
    ensures var p := Shortened(d); p.code == d.code && p.next == d.next && p.onstack == d.onstack
  {}

  /** In a graph without cycles no entry on top is being visited. */
  lemma TopNotOpen(a: Graph, rank: nat -> nat, roots: seq<nat>, d: Descent)
    requires Descending(a, rank, roots, d) && Top(d.base, d.frames) != []
    ensures IsGate(a, TopGate(d)) && TopGate(d) < |d.onstack| && !d.onstack[TopGate(d)]
    ensures forall i :: 0 <= i < |d.frames| ==> rank(TopGate(d)) < rank(d.frames[i].gate)
    ensures InCone(a, roots, TopGate(d))
  {
    TopIsGate(a, d);
    TopIsBelow(a, rank, d);
    TopInCone(a, roots, d);
    hide *;
  }

  lemma TopIsGate(a: Graph, d: Descent)
    requires Typed(a) && Framed(a, d) && Top(d.base, d.frames) != []
    ensures IsGate(a, TopGate(d)) && TopGate(d) < |d.onstack|
  {
    hide Typed;
  }

  lemma TopIsBelow(a: Graph, rank: nat -> nat, d: Descent)
    requires Framed(a, d) && Falling(rank, d) && Top(d.base, d.frames) != [] && TopGate(d) < |d.onstack|
    ensures forall i :: 0 <= i < |d.frames| ==> rank(TopGate(d)) < rank(d.frames[i].gate)
    ensures !d.onstack[TopGate(d)]
  {
    hide Typed, IsGate;
    var n := |d.frames|;
    if n > 0 {
      var k := |d.frames[n - 1].pending| - 1;
      assert rank(d.frames[n - 1].pending[k]) < rank(d.frames[n - 1].gate);
    }
  }

  lemma TopInCone(a: Graph, roots: seq<nat>, d: Descent)
    requires Typed(a) && StackInCone(a, roots, d) && Top(d.base, d.frames) != []
    ensures InCone(a, roots, TopGate(d))
  {
    hide Typed, InCone;
  }

  /** The operands that are gates, larger variable first. */
  ghost function GateOperands(a: Graph, v: nat): seq<nat>
    requires Typed(a) && IsGate(a, v)
  {
    var g := a.ands[a.kinds[v].idx];
    var hi := if Var(g.rhs0) < Var(g.rhs1) then Var(g.rhs1) else Var(g.rhs0);
    var lo := if Var(g.rhs0) < Var(g.rhs1) then Var(g.rhs0) else Var(g.rhs1);
    (if IsGate(a, hi) then [hi] else []) + (if IsGate(a, lo) then [lo] else [])
  }

  lemma GateOperandsIn(a: Graph, v: nat)
    requires Typed(a) && IsGate(a, v)
    ensures forall c: nat :: c in GateOperands(a, v) <==> c in Kids(a, v) && IsGate(a, c)
  {
    hide Typed;
  }

  lemma GateOperandsAre(a: Graph, rank: nat -> nat, v: nat)
    requires Ranked(a, rank) && IsGate(a, v)
    ensures AllGates(a, GateOperands(a, v))
    ensures forall c: nat :: c in GateOperands(a, v) <==> c in Kids(a, v) && IsGate(a, c)
    ensures forall k :: 0 <= k < |GateOperands(a, v)| ==> rank(GateOperands(a, v)[k]) < rank(v)
  {
    hide Typed, GateOperands, Kids;
    GateOperandsIn(a, v);
    forall k | 0 <= k < |GateOperands(a, v)|
      ensures IsGate(a, GateOperands(a, v)[k]) && rank(GateOperands(a, v)[k]) < rank(v)
    {
      assert GateOperands(a, v)[k] in GateOperands(a, v);
    }
  }

  ghost function Expanded(a: Graph, d: Descent): Descent
    requires Typed(a) && Top(d.base, d.frames) != [] && IsGate(a, TopGate(d)) && TopGate(d) < |d.onstack|
  {
    var p, v := Shortened(d), TopGate(d);
    p.(onstack := p.onstack[v := true], frames := p.frames + [Frame(v, GateOperands(a, v))])
  }

  lemma ExpandFacts(a: Graph, d: Descent)
    requires Typed(a) && Top(d.base, d.frames) != [] && IsGate(a, TopGate(d)) && TopGate(d) < |d.onstack|
    ensures var t, n := Expanded(a, d), |d.frames|;
            && t.code == d.code && t.next == d.next && t.onstack == d.onstack[TopGate(d) := true]
            && |t.frames| == n + 1 && t.frames[n] == Frame(TopGate(d), GateOperands(a, TopGate(d)))
            && t.base <= d.base && (d.frames == [] && |d.base| <= 1 ==> t.base == [])
            && (forall i :: 0 <= i < n ==> t.frames[i].gate == d.frames[i].gate && t.frames[i].pending <= d.frames[i].pending)
            && (forall i, c: nat :: 0 <= i < n && c in d.frames[i].pending && c != TopGate(d) ==> c in t.frames[i].pending)
            && (forall v: nat :: OnFrame(t.frames, v) <==> OnFrame(d.frames, v) || v == TopGate(d))
  {
    PopFacts(d);
    PopSame(d);
    var t, p, n := Expanded(a, d), Shortened(d), |d.frames|;
    assert forall i :: 0 <= i < n ==> t.frames[i] == p.frames[i];
    forall v: nat | OnFrame(d.frames, v) || v == TopGate(d) ensures OnFrame(t.frames, v) {
      if v == TopGate(d) { assert t.frames[n].gate == v; }
      else {
        var i :| 0 <= i < n && d.frames[i].gate == v;
        assert t.frames[i].gate == v;
      }
    }
  }

  lemma ExpandKeeps(a: Graph, rank: nat -> nat, roots: seq<nat>, d: Descent)
    requires Descending(a, rank, roots, d) && Top(d.base, d.frames) != [] && !Coded(d.code, TopGate(d))
    ensures IsGate(a, TopGate(d)) && TopGate(d) < |d.onstack| && Descending(a, rank, roots, Expanded(a, d))
  {
    hide Typed, Kids, Coding, Ranked, IsGate, InCone, Expanded, OnFrame, GateOperands, Coded, Framed, Falling, Waiting,
         StackInCone, AllGates;
    TopNotOpen(a, rank, roots, d);
    CodingLegal(a, roots, d.code, d.next);
    ExpandFacts(a, d);
    GateOperandsAre(a, rank, TopGate(d));
    ExpandFramed(a, d);
    ExpandFalling(a, rank, d);
    ExpandWaiting(a, rank, roots, d);
    ExpandCone(a, rank, roots, d);
  }

  lemma ExpandFramed(a: Graph, d: Descent)
    requires Typed(a) && Framed(a, d) && Top(d.base, d.frames) != [] && !Coded(d.code, TopGate(d))
    requires IsGate(a, TopGate(d)) && TopGate(d) < |d.onstack| && AllGates(a, GateOperands(a, TopGate(d)))
    ensures Framed(a, Expanded(a, d))
  {
    hide Typed, IsGate, Expanded, OnFrame, GateOperands, Coded, TopGate;
    ExpandFacts(a, d);
  }

  lemma ExpandFalling(a: Graph, rank: nat -> nat, d: Descent)
    requires Typed(a) && Falling(rank, d) && Top(d.base, d.frames) != []
    requires IsGate(a, TopGate(d)) && TopGate(d) < |d.onstack|
    requires forall i :: 0 <= i < |d.frames| ==> rank(TopGate(d)) < rank(d.frames[i].gate)
    requires forall k :: 0 <= k < |GateOperands(a, TopGate(d))| ==> rank(GateOperands(a, TopGate(d))[k]) < rank(TopGate(d))
    ensures Falling(rank, Expanded(a, d))
  {
    hide Typed, IsGate, Expanded, OnFrame, GateOperands, TopGate;
    ExpandFacts(a, d);
  }

  lemma CodingLegal(a: Graph, roots: seq<nat>, code: seq<nat>, next: nat)
    requires Coding(a, roots, code, next)
    ensures Legal(a) && Typed(a) && |code| == 2 * (a.maxvar + 1) && |a.kinds| > a.maxvar
    ensures !Coded(code, 0) && code[0] == 0 && code[1] == 1
    ensures forall v: nat :: 0 < v <= a.maxvar && a.kinds[v] != Undefined && !IsGate(a, v) ==> Coded(code, v)
  {
    forall v: nat | 0 < v <= a.maxvar && a.kinds[v] != Undefined && !IsGate(a, v) ensures Coded(code, v) {
      if a.kinds[v].Input? { assert a.inputs[a.kinds[v].idx] == 2 * v; }
      else { assert a.latches[a.kinds[v].idx].lit == 2 * v; }
    }
  }

  lemma ExpectedKept(a: Graph, d: Descent, i: nat, c: nat)
    requires Typed(a) && Top(d.base, d.frames) != [] && IsGate(a, TopGate(d)) && TopGate(d) < |d.onstack|
    requires i < |d.frames| && Expected(d, i, c)
    ensures i < |Expanded(a, d).frames| && Expected(Expanded(a, d), i, c)
  {
    hide Typed, IsGate, Expanded, OnFrame, GateOperands, Coded, Top;
    ExpandFacts(a, d);
    if i == |d.frames| - 1 && c in d.frames[i].pending && c != TopGate(d) {
      assert c in Expanded(a, d).frames[i].pending;
    } else if i < |d.frames| - 1 && c in d.frames[i].pending {
      LowerFrameKept(a, d, i);
    }
  }

  lemma LowerFrameKept(a: Graph, d: Descent, i: nat)
    requires Typed(a) && Top(d.base, d.frames) != [] && IsGate(a, TopGate(d)) && TopGate(d) < |d.onstack|
    requires i < |d.frames| - 1
    ensures i < |Expanded(a, d).frames| && Expanded(a, d).frames[i] == d.frames[i]
  {}

  lemma ExpandWaiting(a: Graph, rank: nat -> nat, roots: seq<nat>, d: Descent)
    requires Descending(a, rank, roots, d) && Top(d.base, d.frames) != []
    requires IsGate(a, TopGate(d)) && TopGate(d) < |d.onstack|
    ensures Waiting(a, Expanded(a, d))
  {
    hide Typed, Coding, Ranked, InCone, Expanded, OnFrame, GateOperands, Coded, Kids, Framed, Falling, StackInCone, TopGate, Top;
    CodingLegal(a, roots, d.code, d.next);
    var t, n := Expanded(a, d), |d.frames|;
    FramesAfter(a, d);
    forall i: nat, c: nat | i < |t.frames| && c in Kids(a, t.frames[i].gate) && c != 0 ensures Expected(t, i, c) {
      if i < n {
        assert Expected(d, i, c);
        ExpectedKept(a, d, i, c);
      } else {
        NewKidExpected(a, rank, roots, d, c);
      }
    }
  }

  lemma FramesAfter(a: Graph, d: Descent)
    requires Typed(a) && Top(d.base, d.frames) != [] && IsGate(a, TopGate(d)) && TopGate(d) < |d.onstack|
    ensures |Expanded(a, d).frames| == |d.frames| + 1 && Expanded(a, d).frames[|d.frames|].gate == TopGate(d)
    ensures forall i :: 0 <= i < |d.frames| ==> Expanded(a, d).frames[i].gate == d.frames[i].gate
  {
    ExpandFacts(a, d);
  }

  lemma NewKidExpected(a: Graph, rank: nat -> nat, roots: seq<nat>, d: Descent, c: nat)
    requires Coding(a, roots, d.code, d.next) && Ranked(a, rank) && Top(d.base, d.frames) != []
    requires IsGate(a, TopGate(d)) && TopGate(d) < |d.onstack| && c in Kids(a, TopGate(d)) && c != 0
    ensures |d.frames| < |Expanded(a, d).frames| && Expected(Expanded(a, d), |d.frames|, c)
  {
    hide Typed, Coding, Ranked, Expanded, OnFrame, GateOperands, Coded, Kids, TopGate, Top;
    CodingLegal(a, roots, d.code, d.next);
    ExpandFacts(a, d);
    GateOperandsAre(a, rank, TopGate(d));
    KidDefined(a, TopGate(d), c);
    assert IsGate(a, c) || Coded(d.code, c);
  }

  lemma KidDefined(a: Graph, v: nat, c: nat)
    requires Legal(a) && c in Kids(a, v)
    ensures c == 0 || (c <= a.maxvar < |a.kinds| && a.kinds[c] != Undefined)
  {
    assert IsGate(a, v);
    var g := a.ands[a.kinds[v].idx];
    assert Defined(a, g.rhs0) && Defined(a, g.rhs1);
  }

  lemma ExpandCone(a: Graph, rank: nat -> nat, roots: seq<nat>, d: Descent)
    requires Descending(a, rank, roots, d) && Top(d.base, d.frames) != []
    requires IsGate(a, TopGate(d)) && TopGate(d) < |d.onstack|
    ensures StackInCone(a, roots, Expanded(a, d))
  {
    hide Typed, Coding, Ranked, Expanded, OnFrame, GateOperands, Coded, Kids, Waiting, Framed, InCone, IsGate;
    CodingLegal(a, roots, d.code, d.next);
    TopNotOpen(a, rank, roots, d);
    ExpandFacts(a, d);
    GateOperandsAre(a, rank, TopGate(d));
    forall c: nat | c in GateOperands(a, TopGate(d)) ensures InCone(a, roots, c) {
      KidInCone(a, roots, TopGate(d), c);
    }
  }

  lemma KidInCone(a: Graph, roots: seq<nat>, v: nat, c: nat)
    requires Typed(a) && InCone(a, roots, v) && c in Kids(a, v) && IsGate(a, c)
    ensures InCone(a, roots, c)
  {
    hide Typed, Kids, HoldsRoots;
    forall d | OperandClosed(a, d) && HoldsRoots(a, roots, d) ensures c in d {
      assert v in d;
    }
  }

  // ------------------------------------------------------- closing a frame

  ghost function CloseTop(d: Descent): Descent
    requires d.frames != [] && d.frames[|d.frames| - 1].gate < |d.onstack| && 2 * d.frames[|d.frames| - 1].gate + 1 < |d.code|
  {
    var n := |d.frames| - 1;
    var v := d.frames[n].gate;
    Descent(d.onstack[v := false], NewCode(d.code, v, d.next), d.next + 2, d.base, d.frames[..n])
  }

  lemma CloseCoding(a: Graph, rank: nat -> nat, roots: seq<nat>, d: Descent)
    requires Descending(a, rank, roots, d) && d.frames != [] && d.frames[|d.frames| - 1].pending == []
    ensures var v := d.frames[|d.frames| - 1].gate;
            && 0 < v <= a.maxvar && v < |d.onstack| && 2 * v + 1 < |d.code| && d.next > 0
            && Coding(a, roots, NewCode(d.code, v, d.next), d.next + 2)
  {
    hide Kids, InCone, NewCode, Coded, Falling;
    var n := |d.frames| - 1;
    var v := d.frames[n].gate;
    var c := NewCode(d.code, v, d.next);
    CodingLegal(a, roots, d.code, d.next);
    assert IsGate(a, v) && !Coded(d.code, v);
    TableNewCode(a, d.code, d.next, v);
    forall k: nat | k in Kids(a, v) && k != 0 ensures Coded(d.code, k) {
      assert Expected(d, n, k);
    }
    CodingNewCode(a, roots, d.code, d.next, v);
  }

  /** Coding a gate whose operands are coded. */
  lemma CodingNewCode(a: Graph, roots: seq<nat>, code: seq<nat>, next: nat, v: nat)
    requires Coding(a, roots, code, next) && 0 < v <= a.maxvar && IsGate(a, v) && !Coded(code, v)
    requires InCone(a, roots, v) && forall k: nat :: k in Kids(a, v) && k != 0 ==> Coded(code, k)
    ensures 2 * v + 1 < |code| && Coding(a, roots, NewCode(code, v, next), next + 2)
  {
    CodingLegal(a, roots, code, next);
    hide Kids, InCone, NewCode, Coded, Table, LeavesCoded, GatesCoded, Typed;
    TableNewCode(a, code, next, v);
    TableSize(a, code, next);
    LeavesKept(a, code, next, v);
    GatesNewCode(a, code, next, v);
    forall u: nat | Coded(NewCode(code, v, next), u) && IsGate(a, u) ensures InCone(a, roots, u) {
      TableSize(a, code, next);
      CodedAfter(code, v, next, u);
    }
  }

  lemma TableSize(a: Graph, code: seq<nat>, next: nat)
    requires Table(a, code, next)
    ensures |code| == 2 * (a.maxvar + 1) && next > 0 && forall v: nat :: Coded(code, v) ==> code[2 * v] < next
  {}

  lemma GatesNewCode(a: Graph, code: seq<nat>, next: nat, v: nat)
    requires Legal(a) && Table(a, code, next) && LeavesCoded(a, code) && GatesCoded(a, code)
    requires 0 < v <= a.maxvar && IsGate(a, v) && !Coded(code, v)
    requires forall k: nat :: k in Kids(a, v) && k != 0 ==> Coded(code, k)
    ensures GatesCoded(a, NewCode(code, v, next))
  {
    LeavesBelow(a, code, next);
    TableSize(a, code, next);
    hide Kids, NewCode, Coded, Table, LeavesCoded, Typed, Legal;
    var c := NewCode(code, v, next);
    forall u: nat
      ensures Coded(c, u) <==> Coded(code, u) || u == v
      ensures Coded(c, u) ==> c[2 * u] == if u == v then next else code[2 * u]
    {
      CodedAfter(code, v, next, u);
    }
    forall u: nat, k: nat | Coded(c, u) && k in Kids(a, u) && k != 0 ensures Coded(c, k) && c[2 * k] < c[2 * u] {
      KidsCoded(a, code, next, v, u, k);
    }
  }

  lemma KidsCoded(a: Graph, code: seq<nat>, next: nat, v: nat, u: nat, k: nat)
    requires Typed(a) && Table(a, code, next) && GatesCoded(a, code) && 2 * v + 1 < |code| && !Coded(code, v)
    requires forall k: nat :: k in Kids(a, v) && k != 0 ==> Coded(code, k)
    requires Coded(NewCode(code, v, next), u) && k in Kids(a, u) && k != 0
    ensures Coded(NewCode(code, v, next), k) && NewCode(code, v, next)[2 * k] < NewCode(code, v, next)[2 * u]
  {
    TableSize(a, code, next);
    hide Kids, NewCode, Coded, Table, Typed;
    CodedAfter(code, v, next, u);
    CodedAfter(code, v, next, k);
    assert Coded(code, k);
  }

  lemma LeavesKept(a: Graph, code: seq<nat>, next: nat, v: nat)
    requires Typed(a) && |code| == 2 * (a.maxvar + 1) && LeavesCoded(a, code) && IsGate(a, v)
    ensures LeavesCoded(a, NewCode(code, v, next))
  {
    hide NewCode;
    NewCodeAt(code, v, next, v);
    forall i | 0 <= i < |a.inputs| ensures NewCode(code, v, next)[a.inputs[i]] == 2 * (i + 1) {
      assert Fresh(a, a.inputs[i], Input(i));
      NewCodeAt(code, v, next, Var(a.inputs[i]));
    }
    forall i | 0 <= i < |a.latches| ensures NewCode(code, v, next)[a.latches[i].lit] == 2 * (|a.inputs| + i + 1) {
      assert Fresh(a, a.latches[i].lit, Latched(i));
      NewCodeAt(code, v, next, Var(a.latches[i].lit));
    }
  }

  /** The next code is behind the codes of the leaves. */
  lemma LeavesBelow(a: Graph, code: seq<nat>, next: nat)
    requires Typed(a) && Table(a, code, next) && LeavesCoded(a, code)
    ensures Leaves(a) < next
  {
    var m, l := |a.inputs|, |a.latches|;
    if l > 0 {
      var w := a.latches[l - 1].lit;
      assert Coded(code, w / 2) && code[2 * (w / 2)] == 2 * (m + l - 1 + 1);
    } else if m > 0 {
      var w := a.inputs[m - 1];
      assert Coded(code, w / 2) && code[2 * (w / 2)] == 2 * (m - 1 + 1);
    }
  }

  lemma CloseTopKeeps(a: Graph, rank: nat -> nat, roots: seq<nat>, d: Descent)
    requires Descending(a, rank, roots, d) && d.frames != [] && d.frames[|d.frames| - 1].pending == []
    ensures var v := d.frames[|d.frames| - 1].gate; v < |d.onstack| && 2 * v + 1 < |d.code|
    ensures Descending(a, rank, roots, CloseTop(d))
  {
    hide Kids, InCone, NewCode, Coded, Coding, Typed, Ranked, IsGate;
    CodingLegal(a, roots, d.code, d.next);
    CloseCoding(a, rank, roots, d);
    var n := |d.frames| - 1;
    var v := d.frames[n].gate;
    var t := CloseTop(d);
    forall u: nat ensures Coded(t.code, u) <==> Coded(d.code, u) || u == v { CodedAfter(d.code, v, d.next, u); }
    CloseOpen(rank, d);
    forall i: nat, c: nat | i < |t.frames| && c in Kids(a, t.frames[i].gate) && c != 0 ensures Expected(t, i, c) {
      assert c in Kids(a, d.frames[i].gate) && Expected(d, i, c);
    }
  }

  lemma CloseOpen(rank: nat -> nat, d: Descent)
    requires Falling(rank, d) && d.frames != []
    ensures var n := |d.frames| - 1;
            forall u: nat :: OnFrame(d.frames[..n], u) <==> OnFrame(d.frames, u) && u != d.frames[n].gate
  {
    var n := |d.frames| - 1;
    forall u: nat | OnFrame(d.frames, u) && u != d.frames[n].gate ensures OnFrame(d.frames[..n], u) {
      var i :| 0 <= i < |d.frames| && d.frames[i].gate == u;
      assert d.frames[..n][i].gate == u;
    }
  }

  // ------------------------------------------------------- the loop

  /** Codes once given stay. */
  ghost predicate Extends(before: seq<nat>, code: seq<nat>) {
    |code| == |before| && forall l :: 0 <= l < |before| && before[l] > 0 ==> code[l] == before[l]
  }

  /** The variable the search started from has its code or is still on the stack. */
  ghost predicate Sought(d: Descent, v: nat) {
    Coded(d.code, v) || d.base == [v] || (d.frames != [] && d.frames[0].gate == v)
  }

  ghost predicate Looping(a: Graph, rank: nat -> nat, roots: seq<nat>, d: Descent, v: nat, before: seq<nat>,
                          onstack: seq<bool>, code: seq<nat>, next: nat, stack: seq<nat>)
  {
    && Descending(a, rank, roots, d) && Sought(d, v) && Extends(before, code)
    && d.onstack == onstack && d.code == code && d.next == next && Layout(stack, d.base, d.frames)
  }

  ghost predicate Cleared(a: Graph, onstack: seq<bool>) {
    |onstack| == |a.kinds| && forall v :: 0 <= v < |onstack| ==> !onstack[v]
  }

  lemma RootInCone(a: Graph, roots: seq<nat>, v: nat)
    requires Typed(a) && IsGate(a, v) && roots != [] && Var(roots[|roots| - 1]) == v
    ensures InCone(a, roots, v)
  {}

  lemma LoopStart(a: Graph, rank: nat -> nat, roots: seq<nat>, onstack: seq<bool>, code: seq<nat>, next: nat, v: nat)
    requires Coding(a, roots, code, next) && Ranked(a, rank) && Cleared(a, onstack) && IsGate(a, v)
    requires roots != [] && Var(roots[|roots| - 1]) == v
    ensures Looping(a, rank, roots, Descent(onstack, code, next, [v], []), v, code, onstack, code, next, [v])
  {
    hide Coding, Ranked, InCone, Kids;
    CodingLegal(a, roots, code, next);
    RootInCone(a, roots, v);
    GatePositive(a, v);
  }

  lemma GatePositive(a: Graph, v: nat)
    requires Typed(a) && IsGate(a, v)
    ensures v > 0
  {}

  lemma CodedMeans(code: seq<nat>, v: nat)
    requires 2 * v + 1 < |code|
    ensures Coded(code, v) <==> code[2 * v] > 0
  {}

  /** What the top of the stack tells. */
  lemma LoopTop(a: Graph, rank: nat -> nat, roots: seq<nat>, d: Descent, v: nat, before: seq<nat>,
                onstack: seq<bool>, code: seq<nat>, next: nat, stack: seq<nat>)
    requires Looping(a, rank, roots, d, v, before, onstack, code, next, stack) && stack != []
    ensures |onstack| == |a.kinds| > a.maxvar && |code| == 2 * (a.maxvar + 1) && Typed(a)
    ensures stack[|stack| - 1] > 0 ==>
              && Top(d.base, d.frames) != [] && TopGate(d) == stack[|stack| - 1] <= a.maxvar
              && IsGate(a, TopGate(d)) && !onstack[TopGate(d)]
              && (Coded(code, TopGate(d)) <==> code[2 * TopGate(d)] > 0)
    ensures stack[|stack| - 1] == 0 ==>
              && d.frames != [] && d.frames[|d.frames| - 1].pending == [] && |stack| >= 2
              && stack[|stack| - 2] == d.frames[|d.frames| - 1].gate <= a.maxvar && onstack[stack[|stack| - 2]]
              && !Coded(code, stack[|stack| - 2])
  {
    hide Coding, Ranked, Falling, Waiting, StackInCone, Kids, Flat, Coded;
    CodingLegal(a, roots, code, next);
    TopEntry(stack, d.base, d.frames);
    if stack[|stack| - 1] > 0 { TopNotOpen(a, rank, roots, d); CodedMeans(code, TopGate(d)); }
    else {
      assert IsGate(a, d.frames[|d.frames| - 1].gate);
      assert OnFrame(d.frames, d.frames[|d.frames| - 1].gate);
    }
  }

  lemma LoopPop(a: Graph, rank: nat -> nat, roots: seq<nat>, d: Descent, v: nat, before: seq<nat>,
                onstack: seq<bool>, code: seq<nat>, next: nat, stack: seq<nat>)
    requires Looping(a, rank, roots, d, v, before, onstack, code, next, stack)
    requires stack != [] && stack[|stack| - 1] > 0 && Coded(code, stack[|stack| - 1])
    ensures Top(d.base, d.frames) != []
    ensures Looping(a, rank, roots, Shortened(d), v, before, onstack, code, next, stack[..|stack| - 1])
  {
    hide Coding, Ranked, Falling, Waiting, StackInCone, Kids, Flat, Coded, Framed, Extends;
    LoopTop(a, rank, roots, d, v, before, onstack, code, next, stack);
    ShortenKeeps(a, rank, roots, d);
    PopLayout(stack, d.base, d.frames);
    PopSame(d);
  }

  /** The stack with its top entry made into a frame. */
  function WithFrame(stack: seq<nat>, pending: seq<nat>): seq<nat>
    requires stack != []
  {
    stack + [0] + pending
  }

  lemma LoopExpand(a: Graph, rank: nat -> nat, roots: seq<nat>, d: Descent, v: nat, before: seq<nat>,
                   onstack: seq<bool>, code: seq<nat>, next: nat, stack: seq<nat>)
    requires Looping(a, rank, roots, d, v, before, onstack, code, next, stack)
    requires stack != [] && stack[|stack| - 1] > 0 && !Coded(code, stack[|stack| - 1])
    ensures var j := stack[|stack| - 1];
            && Top(d.base, d.frames) != [] && TopGate(d) == j && Typed(a) && IsGate(a, j) && j < |onstack|
            && Looping(a, rank, roots, Expanded(a, d), v, before, onstack[j := true], code, next,
                       WithFrame(stack, GateOperands(a, j)))
  {
    hide Descending, Kids, Coded, Extends, GateOperands, IsGate, Expanded, Layout, Sought, Typed, Top;
    LoopTop(a, rank, roots, d, v, before, onstack, code, next, stack);
    ExpandKeeps(a, rank, roots, d);
    ExpandKeepsFields(a, d);
    ExpandedFirst(a, rank, roots, d, v);
    ExpandLayout(a, rank, roots, d, stack);
  }

  lemma ExpandLayout(a: Graph, rank: nat -> nat, roots: seq<nat>, d: Descent, stack: seq<nat>)
    requires Descending(a, rank, roots, d) && Layout(stack, d.base, d.frames) && Top(d.base, d.frames) != []
    requires IsGate(a, TopGate(d)) && TopGate(d) < |d.onstack|
    ensures var t := Expanded(a, d);
            && stack != [] && Layout(WithFrame(stack, GateOperands(a, TopGate(d))), t.base, t.frames)
  {
    hide Coding, Ranked, Falling, Waiting, StackInCone, Kids, Framed, GateOperands, Flat, IsGate, Typed;
    CodingLegal(a, roots, d.code, d.next);
    PopLayout(stack, d.base, d.frames);
    GateOperandsAre(a, rank, TopGate(d));
    forall k | 0 <= k < |GateOperands(a, TopGate(d))| ensures GateOperands(a, TopGate(d))[k] > 0 {
      GatePositive(a, GateOperands(a, TopGate(d))[k]);
    }
    GatePositive(a, TopGate(d));
    var p := Shortened(d);
    PushLayout(stack[..|stack| - 1], p.base, p.frames, Frame(TopGate(d), GateOperands(a, TopGate(d))));
    TopEntry(stack, d.base, d.frames);
    assert stack[..|stack| - 1] + [TopGate(d), 0] + GateOperands(a, TopGate(d)) == WithFrame(stack, GateOperands(a, TopGate(d)));
  }

  lemma ExpandKeepsFields(a: Graph, d: Descent)
    requires Typed(a) && Top(d.base, d.frames) != [] && IsGate(a, TopGate(d)) && TopGate(d) < |d.onstack|
    ensures var t := Expanded(a, d); t.code == d.code && t.next == d.next && t.onstack == d.onstack[TopGate(d) := true]
  {}

  lemma ExpandedFirst(a: Graph, rank: nat -> nat, roots: seq<nat>, d: Descent, v: nat)
    requires Descending(a, rank, roots, d) && Top(d.base, d.frames) != [] && Sought(d, v)
    requires IsGate(a, TopGate(d)) && TopGate(d) < |d.onstack|
    ensures Sought(Expanded(a, d), v)
  {
    hide Coding, Ranked, Falling, Waiting, StackInCone, Kids, GateOperands, IsGate, Typed, Coded;
    CodingLegal(a, roots, d.code, d.next);
    ExpandFacts(a, d);
  }

  lemma LoopClose(a: Graph, rank: nat -> nat, roots: seq<nat>, d: Descent, v: nat, before: seq<nat>,
                  onstack: seq<bool>, code: seq<nat>, next: nat, stack: seq<nat>)
    requires Looping(a, rank, roots, d, v, before, onstack, code, next, stack)
    requires stack != [] && stack[|stack| - 1] == 0
    ensures |stack| >= 2 && d.frames != [] && stack[|stack| - 2] == d.frames[|d.frames| - 1].gate
    ensures var j := stack[|stack| - 2];
            && j < |onstack| && 2 * j + 1 < |code| && j < |d.onstack| && 2 * j + 1 < |d.code|
            && Looping(a, rank, roots, CloseTop(d), v, before, onstack[j := false], NewCode(code, j, next), next + 2,
                       stack[..|stack| - 2])
  {
    hide Coding, Ranked, Falling, Waiting, StackInCone, Kids, Flat, Coded, Framed, Extends, NewCode;
    LoopTop(a, rank, roots, d, v, before, onstack, code, next, stack);
    var j := stack[|stack| - 2];
    CodingTableOf(a, roots, code, next);
    CloseTopKeeps(a, rank, roots, d);
    CloseLayout(stack, d.base, d.frames);
    ExtendsNewCode(a, before, code, next, j);
    CodedAfter(code, j, next, v);
  }

  lemma CodingTableOf(a: Graph, roots: seq<nat>, code: seq<nat>, next: nat)
    requires Coding(a, roots, code, next)
    ensures Table(a, code, next) && next > 0
  {}

  lemma ExtendsNewCode(a: Graph, before: seq<nat>, code: seq<nat>, next: nat, v: nat)
    requires Table(a, code, next) && Extends(before, code) && v <= a.maxvar && !Coded(code, v) && 2 * v + 1 < |code|
    requires v > 0
    ensures Extends(before, NewCode(code, v, next))
  {}

  lemma LoopEnd(a: Graph, rank: nat -> nat, roots: seq<nat>, d: Descent, v: nat, before: seq<nat>,
                onstack: seq<bool>, code: seq<nat>, next: nat)
    requires Looping(a, rank, roots, d, v, before, onstack, code, next, [])
    ensures Coding(a, roots, code, next) && Cleared(a, onstack) && Coded(code, v) && Extends(before, code)
  {
    hide Coding, Ranked, Falling, Waiting, StackInCone, Kids, Flat, Extends, Coded;
    TopEntry([], d.base, d.frames);
  }

  ghost function Unvisited(onstack: seq<bool>, code: seq<nat>): set<nat> {
    set v: nat | v < |onstack| && 2 * v + 1 < |code| && !onstack[v] && !Coded(code, v)
  }

  lemma ExpandShrinks(onstack: seq<bool>, code: seq<nat>, v: nat)
    requires v < |onstack| && 2 * v + 1 < |code| && !onstack[v] && !Coded(code, v)
    ensures |Unvisited(onstack[v := true], code)| < |Unvisited(onstack, code)|
  {
    assert Unvisited(onstack, code) == Unvisited(onstack[v := true], code) + {v};
  }

  lemma CloseSame(onstack: seq<bool>, code: seq<nat>, v: nat, next: nat)
    requires v < |onstack| && 2 * v + 1 < |code| && onstack[v] && next > 0
    ensures |Unvisited(onstack[v := false], NewCode(code, v, next))| <= |Unvisited(onstack, code)|
  {
    forall u: nat | u in Unvisited(onstack[v := false], NewCode(code, v, next)) ensures u in Unvisited(onstack, code) {
      CodedAfter(code, v, next, u);
    }
    assert Unvisited(onstack[v := false], NewCode(code, v, next)) == Unvisited(onstack, code);
  }

  /** Operands just pushed are not being visited: the graph has no cycle. */
  lemma PendingNotOpen(a: Graph, rank: nat -> nat, roots: seq<nat>, d: Descent)
    requires Descending(a, rank, roots, d) && d.frames != []
    ensures forall c: nat :: c in d.frames[|d.frames| - 1].pending && c < |d.onstack| ==> !d.onstack[c]
  {
    hide Coding, Ranked, Waiting, StackInCone, Kids;
    var f := d.frames[|d.frames| - 1];
    forall c: nat | c in f.pending && c < |d.onstack| ensures !d.onstack[c] {
      var k :| 0 <= k < |f.pending| && f.pending[k] == c;
      assert rank(d.frames[|d.frames| - 1].pending[k]) < rank(f.gate);
    }
  }

  lemma ExtendsSelf(code: seq<nat>)
    ensures Extends(code, code)
  {}

  /** A defined literal that has no code yet belongs to a gate. */
  lemma LitCode(a: Graph, roots: seq<nat>, code: seq<nat>, next: nat, lit: nat)
    requires Coding(a, roots, code, next) && Defined(a, lit) && lit >= 2
    ensures lit < |code| && (code[lit] > 0 <==> Coded(code, Var(lit))) && (code[lit] == 0 ==> IsGate(a, Var(lit)))
  {
    CodingLegal(a, roots, code, next);
    assert lit == 2 * Var(lit) || lit == 2 * Var(lit) + 1;
  }

  /** One expansion: what the loop needs to know. */
  lemma StepExpand(a: Graph, rank: nat -> nat, roots: seq<nat>, d: Descent, v: nat, before: seq<nat>,
                   onstack: seq<bool>, code: seq<nat>, next: nat, stack: seq<nat>) returns (t: Descent)
    requires Looping(a, rank, roots, d, v, before, onstack, code, next, stack)
    requires stack != [] && stack[|stack| - 1] > 0 && !Coded(code, stack[|stack| - 1])
    ensures var j := stack[|stack| - 1];
            && Legal(a) && IsGate(a, j) && j < |onstack| && 2 * j + 1 < |code| && |GateOperands(a, j)| <= 2
            && Looping(a, rank, roots, t, v, before, onstack[j := true], code, next, WithFrame(stack, GateOperands(a, j)))
            && (forall c: nat :: c in GateOperands(a, j) && c < |onstack| ==> !onstack[j := true][c])
            && |Unvisited(onstack[j := true], code)| < |Unvisited(onstack, code)|
  {
    hide Coding, Descending, Kids, Coded, Extends, IsGate, Expanded, Layout, Sought, Typed, Top, GateOperands;
    var j := stack[|stack| - 1];
    LoopTop(a, rank, roots, d, v, before, onstack, code, next, stack);
    LoopExpand(a, rank, roots, d, v, before, onstack, code, next, stack);
    ExpandShrinks(onstack, code, j);
    t := Expanded(a, d);
    LoopLegal(a, rank, roots, d);
    ExpandedTop(a, d);
    PendingNotOpen(a, rank, roots, t);
  }

  lemma LoopLegal(a: Graph, rank: nat -> nat, roots: seq<nat>, d: Descent)
    requires Descending(a, rank, roots, d)
    ensures Legal(a)
  {}

  lemma ExpandedTop(a: Graph, d: Descent)
    requires Typed(a) && Top(d.base, d.frames) != [] && IsGate(a, TopGate(d)) && TopGate(d) < |d.onstack|
    ensures var t := Expanded(a, d); t.frames != [] && t.frames[|t.frames| - 1].pending == GateOperands(a, TopGate(d))
    ensures |GateOperands(a, TopGate(d))| <= 2 && Expanded(a, d).onstack == d.onstack[TopGate(d) := true]
  {}

  lemma StepPop(a: Graph, rank: nat -> nat, roots: seq<nat>, d: Descent, v: nat, before: seq<nat>,
                onstack: seq<bool>, code: seq<nat>, next: nat, stack: seq<nat>) returns (t: Descent)
    requires Looping(a, rank, roots, d, v, before, onstack, code, next, stack)
    requires stack != [] && stack[|stack| - 1] > 0 && Coded(code, stack[|stack| - 1])
    ensures Looping(a, rank, roots, t, v, before, onstack, code, next, stack[..|stack| - 1])
  {
    hide Looping;
    LoopPop(a, rank, roots, d, v, before, onstack, code, next, stack);
    t := Shortened(d);
  }

  lemma StepClose(a: Graph, rank: nat -> nat, roots: seq<nat>, d: Descent, v: nat, before: seq<nat>,
                  onstack: seq<bool>, code: seq<nat>, next: nat, stack: seq<nat>) returns (t: Descent)
    requires Looping(a, rank, roots, d, v, before, onstack, code, next, stack)
    requires stack != [] && stack[|stack| - 1] == 0
    ensures |stack| >= 2
    ensures var j := stack[|stack| - 2];
            && j < |onstack| && 2 * j + 1 < |code|
            && Looping(a, rank, roots, t, v, before, onstack[j := false], NewCode(code, j, next), next + 2,
                       stack[..|stack| - 2])
            && |Unvisited(onstack[j := false], NewCode(code, j, next))| <= |Unvisited(onstack, code)|
  {
    hide NewCode, Unvisited, CloseTop, Descending, Extends, Layout, Coded;
    LoopTop(a, rank, roots, d, v, before, onstack, code, next, stack);
    LoopClose(a, rank, roots, d, v, before, onstack, code, next, stack);
    LoopNext(a, rank, roots, d);
    CloseSame(onstack, code, stack[|stack| - 2], next);
    t := CloseTop(d);
  }

  lemma LoopNext(a: Graph, rank: nat -> nat, roots: seq<nat>, d: Descent)
    requires Descending(a, rank, roots, d)
    ensures d.next > 0
  {
    CodingTableOf(a, roots, d.code, d.next);
  }
}
