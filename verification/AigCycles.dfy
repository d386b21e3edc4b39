/** What the cycle check maintains while it walks over the gates. */
module AigCycles {
  import opened Aig

  /** The marks, the open frames, and the order in which gates were finished. */
  datatype Visit = Visit(mark: seq<bool>, onstack: seq<bool>, base: seq<nat>, frames: seq<Frame>,
                         fin: seq<nat>, clock: nat)

  ghost predicate Done(s: Visit, v: nat) {
    v < |s.mark| == |s.onstack| && s.mark[v] && !s.onstack[v]
  }

  ghost predicate Sized(a: Graph, s: Visit) {
    && Typed(a) && |s.mark| == |s.onstack| == |s.fin| == |a.kinds|
    && (forall i :: 0 <= i < |s.base| ==> s.base[i] <= a.maxvar)
    && (forall i, k :: 0 <= i < |s.frames| && 0 <= k < |s.frames[i].pending| ==> s.frames[i].pending[k] <= a.maxvar)
    && (forall i :: 0 <= i < |s.frames| ==> s.frames[i].gate <= a.maxvar && IsGate(a, s.frames[i].gate))
    && (s.frames != [] ==> s.base == [])
  }

  /** The gates on the stack are those with an open frame. */
  ghost predicate Flags(a: Graph, s: Visit)
    requires Sized(a, s)
  {
    && (forall v :: 0 <= v < |a.kinds| ==> (s.onstack[v] <==> OnFrame(s.frames, v)))
    && (forall v :: 0 <= v < |a.kinds| && s.onstack[v] ==> s.mark[v])
    && (forall i, j :: 0 <= i < j < |s.frames| ==> s.frames[i].gate != s.frames[j].gate)
  }

  /** Open frames form a path, and pending entries extend it. */
  ghost predicate Chain(a: Graph, s: Visit)
    requires Typed(a)
  {
    && (forall i :: 0 <= i < |s.frames| - 1 ==> s.frames[i + 1].gate in Kids(a, s.frames[i].gate))
    && (forall i, k :: 0 <= i < |s.frames| && 0 <= k < |s.frames[i].pending| ==>
          s.frames[i].pending[k] in Kids(a, s.frames[i].gate))
  }

  /** Operand c of the gate of frame i is finished or above the frame. */
  ghost predicate Awaited(s: Visit, i: nat, c: nat)
    requires i < |s.frames|
  {
    Done(s, c) || c in s.frames[i].pending || (i + 1 < |s.frames| && c == s.frames[i + 1].gate)
  }

  ghost predicate Complete(a: Graph, s: Visit)
    requires Typed(a)
  {
    forall i, c :: 0 <= i < |s.frames| && c in Kids(a, s.frames[i].gate) && IsGate(a, c) ==> Awaited(s, i, c)
  }

  /** Finished gates come after their operands. */
  ghost predicate Ordered(a: Graph, s: Visit)
    requires Sized(a, s)
  {
    && (forall v: nat :: Done(s, v) ==> s.fin[v] < s.clock)
    && (forall v: nat, c: nat :: Done(s, v) && c in Kids(a, v) && IsGate(a, c) ==> Done(s, c) && s.fin[c] < s.fin[v])
  }

  ghost predicate Visiting(a: Graph, s: Visit) {
    Sized(a, s) && Flags(a, s) && Chain(a, s) && Complete(a, s) && Ordered(a, s)
  }

  // ------------------------------------------------------- steps

  ghost function Popped(s: Visit): Visit
    requires Top(s.base, s.frames) != []
  {
    s.(base := PopBase(s.base, s.frames), frames := PopFrames(s.base, s.frames))
  }

  /** The variables of both operands that are not the constant. */
  ghost function Operands(a: Graph, v: nat): seq<nat>
    requires Typed(a) && IsGate(a, v)
  {
    var g := a.ands[a.kinds[v].idx];
    (if Var(g.rhs0) != 0 then [Var(g.rhs0)] else []) + (if Var(g.rhs1) != 0 then [Var(g.rhs1)] else [])
  }

  lemma OperandsAreKids(a: Graph, v: nat)
    requires Legal(a) && IsGate(a, v)
    ensures forall c :: c in Operands(a, v) <==> c in Kids(a, v) && c != 0
    ensures |Operands(a, v)| <= 2 && forall k :: 0 <= k < |Operands(a, v)| ==> 0 < Operands(a, v)[k] <= a.maxvar
  {
    var g := a.ands[a.kinds[v].idx];
    assert Defined(a, g.rhs0) && Defined(a, g.rhs1);
  }

  ghost function Opened(a: Graph, s: Visit, v: nat): Visit
    requires Typed(a) && IsGate(a, v) && Top(s.base, s.frames) != [] && v < |s.mark| && v < |s.onstack|
  {
    var p := Popped(s);
    p.(mark := p.mark[v := true], onstack := p.onstack[v := true], frames := p.frames + [Frame(v, Operands(a, v))])
  }

  ghost function Closed(s: Visit): Visit
    requires s.frames != [] && s.frames[|s.frames| - 1].gate < |s.onstack| && s.frames[|s.frames| - 1].gate < |s.fin|
  {
    var n := |s.frames| - 1;
    var v := s.frames[n].gate;
    s.(onstack := s.onstack[v := false], frames := s.frames[..n], fin := s.fin[v := s.clock], clock := s.clock + 1)
  }

  ghost function TopOf(s: Visit): nat
    requires Top(s.base, s.frames) != []
  {
    Top(s.base, s.frames)[|Top(s.base, s.frames)| - 1]
  }

  lemma PopKeeps(a: Graph, s: Visit)
    requires Visiting(a, s) && Top(s.base, s.frames) != []
    requires !IsGate(a, TopOf(s)) || Done(s, TopOf(s))
    ensures Visiting(a, Popped(s))
  {
    hide Kids, Typed;
    var p := Popped(s);
    forall v | 0 <= v < |a.kinds| ensures OnFrame(s.frames, v) <==> OnFrame(p.frames, v) { SameOpen(s, v); }
    PopComplete(a, s);
  }

  lemma SameOpen(s: Visit, v: nat)
    requires Top(s.base, s.frames) != []
    ensures OnFrame(s.frames, v) <==> OnFrame(Popped(s).frames, v)
  {
    var p := Popped(s);
    assert |p.frames| == |s.frames| && forall i :: 0 <= i < |s.frames| ==> p.frames[i].gate == s.frames[i].gate;
  }

  lemma PopComplete(a: Graph, s: Visit)
    requires Visiting(a, s) && Top(s.base, s.frames) != []
    requires !IsGate(a, TopOf(s)) || Done(s, TopOf(s))
    ensures Complete(a, Popped(s))
  {
    hide Kids, Typed, Ordered, Flags, Chain;
    var p := Popped(s);
    forall i, c | 0 <= i < |p.frames| && c in Kids(a, p.frames[i].gate) && IsGate(a, c) ensures Awaited(p, i, c) {
      assert c in Kids(a, s.frames[i].gate) && Awaited(s, i, c);
      if i == |p.frames| - 1 && c in s.frames[i].pending && c != TopOf(s) {
        InFront(s.frames[i].pending, c);
      }
    }
  }

  lemma InFront(s: seq<nat>, c: nat)
    requires s != [] && c in s && c != s[|s| - 1]
    ensures c in s[..|s| - 1]
  {}

  lemma OpenKeeps(a: Graph, s: Visit)
    requires Legal(a) && Visiting(a, s) && Top(s.base, s.frames) != [] && (s.frames == [] ==> |s.base| == 1)
    requires IsGate(a, TopOf(s)) && TopOf(s) <= a.maxvar && !s.mark[TopOf(s)]
    ensures Visiting(a, Opened(a, s, TopOf(s)))
  {
    hide Kids, Legal, Operands;
    var v := TopOf(s);
    var t := Opened(a, s, v);
    OpenFlags(a, s);
    OpenChain(a, s);
    OpenComplete(a, s);
    forall u: nat ensures Done(t, u) == Done(s, u) {}
  }

  lemma OpenSized(a: Graph, s: Visit)
    requires Legal(a) && Visiting(a, s) && Top(s.base, s.frames) != [] && (s.frames == [] ==> |s.base| == 1)
    requires IsGate(a, TopOf(s)) && TopOf(s) <= a.maxvar && !s.mark[TopOf(s)]
    ensures Sized(a, Opened(a, s, TopOf(s)))
  {
    hide Kids, Legal, Operands, Ordered, Complete, Flags, Chain, Typed;
    OperandsAreKids(a, TopOf(s));
  }

  /** Opening a frame leaves the gates below as they are. */
  lemma OpenFrames(a: Graph, s: Visit)
    requires Legal(a) && Visiting(a, s) && Top(s.base, s.frames) != [] && (s.frames == [] ==> |s.base| == 1)
    requires IsGate(a, TopOf(s)) && TopOf(s) <= a.maxvar && !s.mark[TopOf(s)]
    ensures var n, t := |s.frames|, Opened(a, s, TopOf(s));
            && |t.frames| == n + 1 && t.frames[n] == Frame(TopOf(s), Operands(a, TopOf(s)))
            && forall i :: 0 <= i < n ==> t.frames[i].gate == s.frames[i].gate && t.frames[i].pending <= s.frames[i].pending
  {
    hide Kids, Legal, Operands, Ordered, Complete, Chain, Flags, Typed, PopFrames;
    PopShape(s.base, s.frames);
  }

  lemma PopShape(base: seq<nat>, frames: seq<Frame>)
    requires Top(base, frames) != []
    ensures |PopFrames(base, frames)| == |frames|
    ensures forall i :: 0 <= i < |frames| ==>
      PopFrames(base, frames)[i].gate == frames[i].gate && PopFrames(base, frames)[i].pending <= frames[i].pending
  {}

  lemma OpenFlags(a: Graph, s: Visit)
    requires Legal(a) && Visiting(a, s) && Top(s.base, s.frames) != [] && (s.frames == [] ==> |s.base| == 1)
    requires IsGate(a, TopOf(s)) && TopOf(s) <= a.maxvar && !s.mark[TopOf(s)]
    ensures Sized(a, Opened(a, s, TopOf(s))) && Flags(a, Opened(a, s, TopOf(s)))
  {
    hide Kids, Legal, Operands, Ordered, Complete, Chain, Typed;
    var v := TopOf(s);
    var t := Opened(a, s, v);
    OpenSized(a, s);
    OpenFrames(a, s);
    var n := |s.frames|;
    forall u | 0 <= u < |a.kinds| ensures t.onstack[u] <==> OnFrame(t.frames, u) {
      if u == v { assert t.frames[n].gate == u; }
      else if OnFrame(s.frames, u) {
        var i :| 0 <= i < n && s.frames[i].gate == u;
        assert t.frames[i].gate == u;
      }
    }
  }

  lemma OpenChain(a: Graph, s: Visit)
    requires Legal(a) && Visiting(a, s) && Top(s.base, s.frames) != [] && (s.frames == [] ==> |s.base| == 1)
    requires IsGate(a, TopOf(s)) && TopOf(s) <= a.maxvar && !s.mark[TopOf(s)]
    ensures Chain(a, Opened(a, s, TopOf(s)))
  {
    hide Kids, Legal, Operands, Ordered, Complete, Flags, Typed, Opened;
    OperandsAreKids(a, TopOf(s));
    OpenFrames(a, s);
    var n := |s.frames|;
    if n > 0 { assert TopOf(s) in Kids(a, s.frames[n - 1].gate); }
  }

  lemma OpenComplete(a: Graph, s: Visit)
    requires Legal(a) && Visiting(a, s) && Top(s.base, s.frames) != []
    requires IsGate(a, TopOf(s)) && TopOf(s) <= a.maxvar && !s.mark[TopOf(s)]
    ensures Complete(a, Opened(a, s, TopOf(s)))
  {
    hide Kids, Legal, Operands, Ordered, Flags, Chain;
    var v := TopOf(s);
    var t := Opened(a, s, v);
    OperandsAreKids(a, v);
    var n := |s.frames|;
    forall i, c | 0 <= i < |t.frames| && c in Kids(a, t.frames[i].gate) && IsGate(a, c) ensures Awaited(t, i, c) {
      if i < n {
        assert c in Kids(a, s.frames[i].gate) && Awaited(s, i, c);
        if i == n - 1 && c in s.frames[i].pending && c != v { InFront(s.frames[i].pending, c); }
      } else {
        assert c != 0 by { ConstantIsNoGate(a); }
      }
    }
  }

  lemma ConstantIsNoGate(a: Graph)
    requires Typed(a)
    ensures !IsGate(a, 0)
  {}

  lemma CloseKeeps(a: Graph, s: Visit)
    requires Visiting(a, s) && s.frames != [] && s.frames[|s.frames| - 1].pending == []
    ensures Visiting(a, Closed(s))
  {
    hide Kids, Typed;
    var n := |s.frames| - 1;
    var v := s.frames[n].gate;
    var t := Closed(s);
    CloseFlags(a, s);
    CloseOrdered(a, s);
    forall i, c | 0 <= i < |t.frames| && c in Kids(a, t.frames[i].gate) && IsGate(a, c) ensures Awaited(t, i, c) {
      assert c in Kids(a, s.frames[i].gate) && Awaited(s, i, c);
    }
  }

  lemma CloseFlags(a: Graph, s: Visit)
    requires Visiting(a, s) && s.frames != [] && s.frames[|s.frames| - 1].pending == []
    ensures Sized(a, Closed(s)) && Flags(a, Closed(s)) && Chain(a, Closed(s)) && s.mark[s.frames[|s.frames| - 1].gate]
  {
    hide Kids, Typed, Ordered, Complete;
    var n := |s.frames| - 1;
    var v := s.frames[n].gate;
    var t := Closed(s);
    assert OnFrame(s.frames, v);
    forall u | 0 <= u < |a.kinds| ensures t.onstack[u] <==> OnFrame(t.frames, u) {
      if u != v && OnFrame(s.frames, u) {
        var i :| 0 <= i < |s.frames| && s.frames[i].gate == u;
        assert t.frames[i].gate == u;
      }
    }
  }

  lemma CloseOrdered(a: Graph, s: Visit)
    requires Visiting(a, s) && s.frames != [] && s.frames[|s.frames| - 1].pending == []
    ensures Sized(a, Closed(s)) && Ordered(a, Closed(s))
    ensures forall u: nat :: Done(Closed(s), u) <==> Done(s, u) || u == s.frames[|s.frames| - 1].gate
  {
    hide Kids, Typed, Chain;
    var n := |s.frames| - 1;
    var v := s.frames[n].gate;
    var t := Closed(s);
    CloseFlags(a, s);
    assert OnFrame(s.frames, v);
    forall u: nat, c: nat | Done(t, u) && c in Kids(a, u) && IsGate(a, c) ensures Done(t, c) && t.fin[c] < t.fin[u] {
      if u == v {
        assert Awaited(s, n, c);
      } else {
        assert Done(s, u) && Done(s, c);
      }
    }
  }

  // ------------------------------------------------------- a gate met on its own path

  ghost function Gates(frames: seq<Frame>, i: nat): seq<nat>
    requires i <= |frames|
  {
    seq<nat>(|frames| - i, k requires 0 <= k < |frames| - i => frames[i + k].gate)
  }

  lemma CycleFound(a: Graph, s: Visit)
    requires Visiting(a, s) && Top(s.base, s.frames) != [] && TopOf(s) < |a.kinds| && s.onstack[TopOf(s)]
    ensures Cyclic(a)
  {
    hide Kids, Typed, Ordered, Complete;
    var v := TopOf(s);
    assert OnFrame(s.frames, v);
    var i :| 0 <= i < |s.frames| && s.frames[i].gate == v;
    var p := Gates(s.frames, i) + [v];
    forall k | 0 <= k < |p| - 1 ensures IsGate(a, p[k]) && p[k + 1] in Kids(a, p[k]) {
      assert p[k] == s.frames[i + k].gate;
      if k < |p| - 2 { assert p[k + 1] == s.frames[i + k + 1].gate; }
    }
    assert |p| > 1 && GatePath(a, p) && p[0] == p[|p| - 1];
  }

  // ------------------------------------------------------- start and end

  ghost predicate Between(a: Graph, s: Visit) {
    Visiting(a, s) && s.frames == [] && s.base == []
  }

  ghost function Start(a: Graph): Visit {
    Visit(seq(|a.kinds|, _ => false), seq(|a.kinds|, _ => false), [], [], seq(|a.kinds|, _ => 0), 0)
  }

  lemma StartBetween(a: Graph)
    requires Typed(a)
    ensures Between(a, Start(a))
  {}

  lemma BeginAt(a: Graph, s: Visit, v: nat)
    requires Between(a, s) && 0 < v <= a.maxvar
    ensures Visiting(a, s.(base := [v]))
  {
    hide Typed, Chain, Complete, Ordered;
    var t := s.(base := [v]);
    assert forall u :: OnFrame(t.frames, u) <==> OnFrame(s.frames, u);
    BaseOnly(a, s, v);
  }

  lemma BaseOnly(a: Graph, s: Visit, v: nat)
    requires Between(a, s) && 0 < v <= a.maxvar && Sized(a, s.(base := [v]))
    ensures Chain(a, s.(base := [v])) && Complete(a, s.(base := [v])) && Ordered(a, s.(base := [v]))
  {
    assert forall u: nat :: Done(s.(base := [v]), u) <==> Done(s, u);
  }

  ghost predicate AllMarked(a: Graph, s: Visit, n: nat) {
    forall v :: 0 <= v < n && IsGate(a, v) ==> v < |s.mark| && s.mark[v]
  }

  /** When every gate is finished, the order of finishing ranks the gates. */
  lemma FinishedIsRanked(a: Graph, s: Visit)
    requires Between(a, s) && AllMarked(a, s, a.maxvar + 1)
    ensures Ranked(a, (v: nat) => if v < |s.fin| then s.fin[v] else 0)
  {
    hide Kids;
    forall v: nat | IsGate(a, v) ensures Done(s, v) {
      assert v <= a.maxvar && !OnFrame(s.frames, v);
    }
  }

  ghost function Unmarked(mark: seq<bool>): set<nat> {
    set v: nat | v < |mark| && !mark[v]
  }

  lemma MarkingShrinks(mark: seq<bool>, v: nat)
    requires v < |mark| && !mark[v]
    ensures |Unmarked(mark[v := true])| < |Unmarked(mark)|
  {
    assert Unmarked(mark) == Unmarked(mark[v := true]) + {v};
  }

  // ------------------------------------------------------- the loop

  /** The loop that starts from gate i: flags, stack and frames fit together. */
  ghost predicate Walking(a: Graph, s: Visit, mark: seq<bool>, onstack: seq<bool>, stack: seq<nat>, i: nat) {
    && Visiting(a, s) && s.mark == mark && s.onstack == onstack
    && Layout(stack, s.base, s.frames) && (s.base == [] || s.base == [i]) && IsGate(a, i)
    && AllMarked(a, s, i) && (s.base == [] ==> AllMarked(a, s, i + 1))
  }

  lemma WalkStart(a: Graph, s: Visit, i: nat)
    requires Between(a, s) && AllMarked(a, s, i) && IsGate(a, i) && 0 < i <= a.maxvar
    ensures Walking(a, s.(base := [i]), s.mark, s.onstack, [i], i)
  {
    BeginAt(a, s, i);
  }

  /** What the top of the stack tells. */
  lemma WalkTop(a: Graph, s: Visit, mark: seq<bool>, onstack: seq<bool>, stack: seq<nat>, i: nat)
    requires Walking(a, s, mark, onstack, stack, i) && stack != []
    ensures Typed(a) && |mark| == |onstack| == |a.kinds|
    ensures stack[|stack| - 1] > 0 ==>
              && Top(s.base, s.frames) != [] && TopOf(s) == stack[|stack| - 1] <= a.maxvar
              && (onstack[TopOf(s)] ==> Cyclic(a))
    ensures stack[|stack| - 1] == 0 ==>
              && s.frames != [] && s.frames[|s.frames| - 1].pending == [] && |stack| >= 2
              && stack[|stack| - 2] == s.frames[|s.frames| - 1].gate < |onstack|
  {
    hide Kids, Typed, Flags, Chain, Complete, Ordered, Flat;
    TopEntry(stack, s.base, s.frames);
    if stack[|stack| - 1] > 0 && onstack[TopOf(s)] { CycleFound(a, s); }
  }

  lemma WalkPop(a: Graph, s: Visit, mark: seq<bool>, onstack: seq<bool>, stack: seq<nat>, i: nat)
    requires Walking(a, s, mark, onstack, stack, i) && stack != [] && stack[|stack| - 1] > 0
    requires stack[|stack| - 1] < |mark| == |onstack| && !onstack[stack[|stack| - 1]]
    requires !IsGate(a, stack[|stack| - 1]) || mark[stack[|stack| - 1]]
    ensures Top(s.base, s.frames) != [] && Walking(a, Popped(s), mark, onstack, stack[..|stack| - 1], i)
  {
    hide Kids, Typed, Flags, Chain, Complete, Ordered, Sized, Flat;
    WalkTop(a, s, mark, onstack, stack, i);
    PopKeeps(a, s);
    PopLayout(stack, s.base, s.frames);
  }

  lemma OpenLayout(a: Graph, s: Visit, stack: seq<nat>, v: nat)
    requires Legal(a) && IsGate(a, v) && v < |s.mark| && v < |s.onstack| && v > 0
    requires Layout(stack, s.base, s.frames) && Top(s.base, s.frames) != [] && stack != [] && stack[|stack| - 1] == v
    ensures var t := Opened(a, s, v);
            Layout(stack + [0] + Operands(a, v), t.base, t.frames) && t.base == PopBase(s.base, s.frames)
  {
    hide Kids, Operands, Flat;
    PopLayout(stack, s.base, s.frames);
    OperandsAreKids(a, v);
    var p := Popped(s);
    PushLayout(stack[..|stack| - 1], p.base, p.frames, Frame(v, Operands(a, v)));
    assert stack[..|stack| - 1] + [v, 0] + Operands(a, v) == stack + [0] + Operands(a, v);
  }

  lemma WalkOpen(a: Graph, s: Visit, mark: seq<bool>, onstack: seq<bool>, stack: seq<nat>, i: nat)
    requires Legal(a) && Walking(a, s, mark, onstack, stack, i) && stack != [] && stack[|stack| - 1] > 0
    requires var v := stack[|stack| - 1]; v < |mark| == |onstack| && IsGate(a, v) && !mark[v]
    ensures var v := stack[|stack| - 1];
            && Top(s.base, s.frames) != [] && v < |s.mark| == |s.onstack|
            && Walking(a, Opened(a, s, v), mark[v := true], onstack[v := true], stack + [0] + Operands(a, v), i)
  {
    hide Kids, Visiting, Operands, Layout, Legal;
    WalkTop(a, s, mark, onstack, stack, i);
    OpenKeeps(a, s);
    OpenLayout(a, s, stack, stack[|stack| - 1]);
  }

  lemma WalkClose(a: Graph, s: Visit, mark: seq<bool>, onstack: seq<bool>, stack: seq<nat>, i: nat)
    requires Walking(a, s, mark, onstack, stack, i) && stack != [] && stack[|stack| - 1] == 0
    ensures s.frames != [] && |stack| >= 2 && stack[|stack| - 2] == s.frames[|s.frames| - 1].gate
    ensures s.onstack == onstack && s.frames[|s.frames| - 1].gate < |onstack| == |s.fin|
    ensures Walking(a, Closed(s), mark, onstack[stack[|stack| - 2] := false], stack[..|stack| - 2], i)
  {
    hide Kids, Typed, Flags, Chain, Complete, Ordered, Flat;
    WalkTop(a, s, mark, onstack, stack, i);
    CloseKeeps(a, s);
    CloseLayout(stack, s.base, s.frames);
  }

  lemma WalkEnd(a: Graph, s: Visit, mark: seq<bool>, onstack: seq<bool>, i: nat)
    requires Walking(a, s, mark, onstack, [], i)
    ensures Between(a, s) && s.mark == mark && s.onstack == onstack && AllMarked(a, s, i + 1)
  {
    hide Visiting, Flat;
    TopEntry([], s.base, s.frames);
  }

  lemma BetweenSizes(a: Graph, s: Visit)
    requires Between(a, s)
    ensures |s.mark| == |s.onstack| == |a.kinds| > a.maxvar && !IsGate(a, 0)
  {}

  lemma NextGate(a: Graph, s: Visit, i: nat)
    requires AllMarked(a, s, i) && (!IsGate(a, i) || (i < |s.mark| && s.mark[i]))
    ensures AllMarked(a, s, i + 1)
  {}

  lemma NoGateYet(a: Graph, s: Visit)
    requires Typed(a)
    ensures AllMarked(a, s, 1)
  {}

  lemma CyclicHasNoRank(a: Graph)
    requires Cyclic(a)
    ensures !exists rank :: Ranked(a, rank)
  {
    forall rank: nat -> nat | Ranked(a, rank) ensures false { RankedIsAcyclic(a, rank); }
  }

  /** A marked entry that is not on the stack is finished, and an unmarked one is not on the stack. */
  lemma WalkFlags(a: Graph, s: Visit, mark: seq<bool>, onstack: seq<bool>, stack: seq<nat>, i: nat)
    requires Walking(a, s, mark, onstack, stack, i)
    ensures |mark| == |onstack| && forall v :: 0 <= v < |onstack| && onstack[v] ==> mark[v] && IsGate(a, v)
  {}
}
