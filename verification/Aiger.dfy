/** The operations of the AIGER library on a graph. */
module Aiger {
  import opened Aig
  import opened AigCycles
  import opened AigReencode
  import opened AigRenumber
  import opened AigRebuild

  class AigerGraph {
    var maxvar: nat
    var inputs: seq<nat>
    var latches: seq<Latch>
    var outputs: seq<nat>
    var bad: seq<nat>
    var constraints: seq<nat>
    var justice: seq<seq<nat>>
    var fairness: seq<nat>
    var ands: seq<And>
    var kinds: seq<Kind>
    var mark: seq<bool>
    var onstack: seq<bool>

    ghost function Snap(): Graph
      reads this
    {
      Graph(maxvar, inputs, latches, outputs, bad, constraints, justice, fairness, ands, kinds)
    }

    /** Walk over the operands of gate i; true if a gate is met on its own path. */
    method WalkFrom(i: nat, ghost before: Visit) returns (error: bool, ghost after: Visit)
      requires Legal(Snap()) && Between(Snap(), before) && before.mark == mark && before.onstack == onstack
      requires AllMarked(Snap(), before, i) && IsGate(Snap(), i) && 0 < i <= maxvar
      modifies `mark, `onstack
      ensures error ==> Cyclic(Snap())
      ensures !error ==> Between(Snap(), after) && after.mark == mark && after.onstack == onstack
                         && AllMarked(Snap(), after, i + 1)
    {
      hide Kids, Legal, Walking, Between, AllMarked, Cyclic, Opened, Popped, Closed;
      var stack := [i];
      after := before.(base := [i]);
      WalkStart(Snap(), before, i);
      while stack != []
        invariant Walking(Snap(), after, mark, onstack, stack, i)
        decreases 4 * |Unmarked(mark)| + |stack|
      {
        var j := stack[|stack| - 1];
        WalkTop(Snap(), after, mark, onstack, stack, i);
        if j != 0 {
          if mark[j] && onstack[j] {
            return true, after;
          }
          if !kinds[j].Gate? || mark[j] {
            WalkFlags(Snap(), after, mark, onstack, stack, i);
            WalkPop(Snap(), after, mark, onstack, stack, i);
            after := Popped(after);
            stack := stack[..|stack| - 1];
          } else {
            WalkOpen(Snap(), after, mark, onstack, stack, i);
            MarkingShrinks(mark, j);
            after := Opened(Snap(), after, j);
            mark, onstack := mark[j := true], onstack[j := true];
            ghost var operands := Operands(Snap(), j);
            ghost var below := stack;
            stack := stack + [0];
            var g := ands[kinds[j].idx];
            if Var(g.rhs0) != 0 { stack := stack + [Var(g.rhs0)]; }
            if Var(g.rhs1) != 0 { stack := stack + [Var(g.rhs1)]; }
            assert stack == below + [0] + operands;
          }
        } else {
          WalkClose(Snap(), after, mark, onstack, stack, i);
          after := Closed(after);
          j := stack[|stack| - 2];
          stack := stack[..|stack| - 2];
          onstack := onstack[j := false];
        }
      }
      WalkEnd(Snap(), after, mark, onstack, i);
      error := false;
    }

    /** Whether some gate is defined in terms of itself; if not, the gates can be ranked. */
    method CheckForCycles() returns (error: bool)
      requires Legal(Snap()) && Cleared(Snap(), mark) && Cleared(Snap(), onstack)
      modifies `mark, `onstack
      ensures error <==> Cyclic(Snap())
      ensures error <==> !exists rank :: Ranked(Snap(), rank)
    {
      hide Kids, Visiting, Cyclic, Ranked, Between, AllMarked;
      ghost var a := Snap();
      ghost var s := Start(a);
      assert mark == s.mark && onstack == s.onstack;
      StartBetween(a);
      NoGateYet(a, s);
      for i := 1 to maxvar + 1
        invariant Between(a, s) && s.mark == mark && s.onstack == onstack && AllMarked(a, s, i)
      {
        BetweenSizes(a, s);
        if kinds[i].Gate? && !mark[i] {
          error, s := WalkFrom(i, s);
          if error {
            CyclicHasNoRank(a);
            return;
          }
        } else {
          NextGate(a, s, i);
        }
      }
      FinishedIsRanked(a, s);
      RankedIsAcyclic(a, (v: nat) => if v < |s.fin| then s.fin[v] else 0);
      error := false;
    }

    /** The largest literal of an input or a latch. */
    method MaxInputOrLatch() returns (res: nat)
      ensures forall i :: 0 <= i < |inputs| ==> inputs[i] <= res
      ensures forall i :: 0 <= i < |latches| ==> latches[i].lit <= res
      ensures res == 0 || res in inputs || exists i :: 0 <= i < |latches| && latches[i].lit == res
    {
      res := 0;
      for i := 0 to |inputs|
        invariant forall k :: 0 <= k < i ==> inputs[k] <= res
        invariant res == 0 || res in inputs
      {
        if inputs[i] > res { res := inputs[i]; }
      }
      for i := 0 to |latches|
        invariant forall k :: 0 <= k < |inputs| ==> inputs[k] <= res
        invariant forall k :: 0 <= k < i ==> latches[k].lit <= res
        invariant res == 0 || res in inputs || exists k :: 0 <= k < |latches| && latches[k].lit == res
      {
        if latches[i].lit > res { res := latches[i].lit; }
      }
    }

    /** Whether inputs, latches and gates are numbered in order without gaps, operands sorted. */
    method IsReencoded() returns (yes: bool)
      ensures yes <==> Reencoded(Snap())
    {
      var max := 0;
      for i := 0 to |inputs|
        invariant max == 2 * i && forall k :: 0 <= k < i ==> inputs[k] == 2 * (k + 1)
      {
        max := max + 2;
        if max != inputs[i] { return false; }
      }
      for i := 0 to |latches|
        invariant max == 2 * (|inputs| + i) && forall k :: 0 <= k < i ==> latches[k].lit == 2 * (|inputs| + k + 1)
      {
        max := max + 2;
        if max != latches[i].lit { return false; }
      }
      var lhs := MaxInputOrLatch();
      assert lhs == max by {
        if |latches| > 0 { assert latches[|latches| - 1].lit == max; }
        else if |inputs| > 0 { assert inputs[|inputs| - 1] == max; }
      }
      lhs := lhs + 2;
      for i := 0 to |ands|
        invariant lhs == Leaves(Snap()) + 2 + 2 * i
        invariant forall k :: 0 <= k < i ==>
          ands[k].lhs == Leaves(Snap()) + 2 + 2 * k && ands[k].lhs >= ands[k].rhs0 >= ands[k].rhs1
      {
        var g := ands[i];
        if g.lhs <= max || g.lhs != lhs || g.lhs < g.rhs0 || g.rhs0 < g.rhs1 { return false; }
        lhs := lhs + 2;
      }
      yes := true;
    }

    /** The code of a literal; gates in its cone are given codes first, operands before gates. */
    method ReencodeLit(ghost a: Graph, ghost rank: nat -> nat, ghost roots: seq<nat>,
                       lit: nat, next0: nat, code0: seq<nat>)
      returns (res: nat, next: nat, code: seq<nat>)
      requires ands == a.ands && kinds == a.kinds && maxvar == a.maxvar
      requires Coding(a, roots, code0, next0) && Ranked(a, rank) && Cleared(a, onstack) && Defined(a, lit)
      modifies `onstack
      ensures Coding(a, roots + [lit], code, next) && Extends(code0, code) && Cleared(a, onstack)
      ensures CodedLit(code, lit) && res == code[lit]
    {
      hide Coding, Ranked, Looping, Extends, Cleared, Kids;
      next, code := next0, code0;
      CodingLegal(a, roots, code, next);
      MoreRoots(a, roots, lit, code, next);
      ExtendsSelf(code);
      if lit < 2 {
        return lit, next, code;
      }
      LitCode(a, roots, code, next, lit);
      if code[lit] > 0 {
        return code[lit], next, code;
      }
      var v := Var(lit);
      next, code := Descend(a, rank, roots + [lit], v, next, code);
      CodingLegal(a, roots + [lit], code, next);
      res := code[lit];
    }

    /** Push the operands of a gate that are gates not being visited, the larger variable first. */
    method PushOperands(ghost a: Graph, v: nat, below: seq<nat>) returns (stack: seq<nat>)
      requires ands == a.ands && kinds == a.kinds && maxvar == a.maxvar && |onstack| == |kinds|
      requires Legal(a) && IsGate(a, v)
      requires forall c: nat :: c in GateOperands(a, v) && c < |onstack| ==> !onstack[c]
      ensures stack == below + GateOperands(a, v)
    {
      var g := ands[kinds[v].idx];
      assert Defined(a, g.rhs0) && Defined(a, g.rhs1);
      var child0, child1 := Var(g.rhs0), Var(g.rhs1);
      if child0 < child1 {
        child0, child1 := child1, child0;
      }
      stack := below;
      assert child0 in Kids(a, v) && child1 in Kids(a, v);
      GateOperandsIn(a, v);
      if child0 != 0 && !kinds[child0].Input? && !kinds[child0].Latched? && !onstack[child0] {
        stack := stack + [child0];
      }
      if child1 != 0 && !kinds[child1].Input? && !kinds[child1].Latched? && !onstack[child1] {
        stack := stack + [child1];
      }
    }

    /** Depth-first search below gate v with an explicit stack; 0 marks a gate whose operands are done. */
    method Descend(ghost a: Graph, ghost rank: nat -> nat, ghost roots: seq<nat>, v: nat, next0: nat, code0: seq<nat>)
      returns (next: nat, code: seq<nat>)
      requires ands == a.ands && kinds == a.kinds && maxvar == a.maxvar
      requires Coding(a, roots, code0, next0) && Ranked(a, rank) && Cleared(a, onstack)
      requires IsGate(a, v) && roots != [] && Var(roots[|roots| - 1]) == v
      modifies `onstack
      ensures Coding(a, roots, code, next) && Extends(code0, code) && Cleared(a, onstack) && Coded(code, v)
    {
      hide Coding, Ranked, Looping, Extends, Cleared, Coded, Typed, GateOperands, Unvisited, Legal;
      next, code := next0, code0;
      var stack := [v];
      ghost var d := Descent(onstack, code, next, [v], []);
      LoopStart(a, rank, roots, onstack, code, next, v);
      while stack != []
        invariant Looping(a, rank, roots, d, v, code0, onstack, code, next, stack)
        decreases 4 * |Unvisited(onstack, code)| + |stack|
      {
        var entry := stack[|stack| - 1];
        LoopTop(a, rank, roots, d, v, code0, onstack, code, next, stack);
        if entry != 0 {
          if code[2 * entry] == 0 && !onstack[entry] {
            d := StepExpand(a, rank, roots, d, v, code0, onstack, code, next, stack);
            onstack := onstack[entry := true];
            assert stack[..|stack| - 1] + [entry, 0] == stack + [0];
            stack := PushOperands(a, entry, stack[..|stack| - 1] + [entry, 0]);
          } else {
            d := StepPop(a, rank, roots, d, v, code0, onstack, code, next, stack);
            stack := stack[..|stack| - 1];
          }
        } else {
          d := StepClose(a, rank, roots, d, v, code0, onstack, code, next, stack);
          entry := stack[|stack| - 2];
          stack := stack[..|stack| - 2];
          onstack := onstack[entry := false];
          code := code[2 * entry := next][2 * entry + 1 := next + 1];
          next := next + 2;
        }
      }
      LoopEnd(a, rank, roots, d, v, code0, onstack, code, next);
    }

    /** The codes of inputs and latches. */
    method FirstCodeTable() returns (code: seq<nat>, next: nat)
      requires Legal(Snap())
      ensures Coding(Snap(), [], code, next)
    {
      hide FirstCodes, Legal, Coding;
      ghost var a := Snap();
      code := seq(2 * (maxvar + 1), _ => 0);
      code := code[1 := 1];
      next := 2;
      LegalTyped(a);
      NoCodes(a, code);
      for i := 0 to |inputs|
        invariant FirstCodes(a, code, i) && next == 2 * (i + 1)
      {
        var lit := inputs[i];
        FirstCodeNext(a, code, i, lit);
        code := code[lit := next][lit + 1 := next + 1];
        next := next + 2;
      }
      for i := 0 to |latches|
        invariant FirstCodes(a, code, |inputs| + i) && next == 2 * (|inputs| + i + 1)
      {
        var lit := latches[i].lit;
        FirstCodeNext(a, code, |inputs| + i, lit);
        code := code[lit := next][lit + 1 := next + 1];
        next := next + 2;
      }
      FirstCodesCoding(a, code, |inputs| + |latches|);
    }

    /** The codes of a list of literals. */
    method ReencodeAll(ghost a: Graph, ghost rank: nat -> nat, ghost roots: seq<nat>,
                       lits: seq<nat>, next0: nat, code0: seq<nat>)
      returns (res: seq<nat>, next: nat, code: seq<nat>)
      requires ands == a.ands && kinds == a.kinds && maxvar == a.maxvar
      requires Coding(a, roots, code0, next0) && Ranked(a, rank) && Cleared(a, onstack) && AllDefined(a, lits)
      modifies `onstack
      ensures Coding(a, roots + lits, code, next) && Grows(code0, code) && Cleared(a, onstack)
      ensures Translated(code, lits, res)
    {
      hide Coding, Ranked, Cleared, Grows, Translated, Extends, CodedLit;
      res, next, code := [], next0, code0;
      NothingTranslated(code, lits);
      GrowsSelf(code);
      assert roots + lits[..0] == roots;
      for i := 0 to |lits|
        invariant Coding(a, roots + lits[..i], code, next) && Grows(code0, code) && Cleared(a, onstack)
        invariant Translated(code, lits[..i], res)
      {
        ghost var before, n := code, next;
        var x;
        x, next, code := ReencodeLit(a, rank, roots + lits[..i], lits[i], next, code);
        assert roots + lits[..i] + [lits[i]] == roots + lits[..i + 1];
        ExtendsGrows(a, roots + lits[..i], before, n, roots + lits[..i + 1], code, next);
        GrowsChain(code0, before, code);
        TranslatedGrows(before, code, lits[..i], res);
        TranslatedNext(code, lits, i, res, x);
        res := res + [x];
      }
      assert lits[..|lits|] == lits;
    }

    /** The codes of next-state and reset literals, latch by latch. */
    method ReencodeLatches(ghost a: Graph, ghost rank: nat -> nat, next0: nat, code0: seq<nat>)
      returns (next: nat, code: seq<nat>)
      requires ands == a.ands && kinds == a.kinds && maxvar == a.maxvar && latches == a.latches && Legal(a)
      requires Coding(a, [], code0, next0) && Ranked(a, rank) && Cleared(a, onstack)
      modifies `onstack, `latches
      ensures Coding(a, Latches(a.latches), code, next) && Cleared(a, onstack)
      ensures LatchesDone(code, a.latches, latches, |a.latches|)
    {
      hide Coding, Ranked, Cleared, Grows, Extends, CodedLit, Legal, Latches;
      next, code := next0, code0;
      NoLatches(a);
      for i := 0 to |latches|
        invariant Coding(a, Latches(a.latches[..i]), code, next) && Cleared(a, onstack)
        invariant LatchesDone(code, a.latches, latches, i)
      {
        next, code := ReencodeLatch(a, rank, i, next, code);
      }
      assert a.latches[..|a.latches|] == a.latches;
    }

    method ReencodeLatch(ghost a: Graph, ghost rank: nat -> nat, i: nat, next0: nat, code0: seq<nat>)
      returns (next: nat, code: seq<nat>)
      requires ands == a.ands && kinds == a.kinds && maxvar == a.maxvar && Legal(a) && i < |a.latches|
      requires Coding(a, Latches(a.latches[..i]), code0, next0) && Ranked(a, rank) && Cleared(a, onstack)
      requires LatchesDone(code0, a.latches, latches, i)
      modifies `onstack, `latches
      ensures Coding(a, Latches(a.latches[..i + 1]), code, next) && Cleared(a, onstack)
      ensures LatchesDone(code, a.latches, latches, i + 1)
    {
      hide Coding, Ranked, Cleared, Grows, Extends, CodedLit, Legal, Latches;
      ghost var r := Latches(a.latches[..i]);
      var res;
      LatchDefined(a, i);
      res, next, code := ReencodeLit(a, rank, r, latches[i].next, next0, code0);
      ExtendsGrows(a, r, code0, next0, r + [latches[i].next], code, next);
      LatchesGrow(code0, code, a.latches, latches, i);
      latches := latches[i := latches[i].(next := res)];
      ghost var before, n := code, next;
      res, next, code := ReencodeLit(a, rank, r + [a.latches[i].next], latches[i].reset, next, code);
      ExtendsGrows(a, r + [a.latches[i].next], before, n, r + [a.latches[i].next] + [a.latches[i].reset], code, next);
      LatchGrows(before, code, a.latches, latches, i);
      latches := latches[i := latches[i].(reset := res)];
      LatchRootsNext(a.latches, i);
    }

    method ReencodeJustice(ghost a: Graph, ghost rank: nat -> nat, ghost roots: seq<nat>, next0: nat, code0: seq<nat>)
      returns (next: nat, code: seq<nat>)
      requires ands == a.ands && kinds == a.kinds && maxvar == a.maxvar && justice == a.justice
      requires Coding(a, roots, code0, next0) && Ranked(a, rank) && Cleared(a, onstack)
      requires forall i :: 0 <= i < |a.justice| ==> AllDefined(a, a.justice[i])
      modifies `onstack, `justice
      ensures Coding(a, roots + Flatten(a.justice), code, next) && Grows(code0, code) && Cleared(a, onstack)
      ensures TranslatedJustice(code, a.justice, justice)
    {
      hide Coding, Ranked, Cleared, Grows, Translated, Flatten, AllDefined;
      next, code := next0, code0;
      NoJustice(roots, a.justice);
      GrowsSelf(code);
      for i := 0 to |justice|
        invariant Coding(a, roots + Flatten(a.justice[..i]), code, next) && Grows(code0, code) && Cleared(a, onstack)
        invariant JusticeDone(code, a.justice, justice, i)
      {
        ghost var r := roots + Flatten(a.justice[..i]);
        ghost var before := code;
        var res;
        res, next, code := ReencodeAll(a, rank, r, justice[i], next, code);
        GrowsChain(code0, before, code);
        JusticeGrows(before, code, a.justice, justice, i);
        FlattenNext(a.justice, i);
        assert r + a.justice[i] == roots + Flatten(a.justice[..i + 1]);
        justice := justice[i := res];
      }
      assert a.justice[..|a.justice|] == a.justice;
    }

    /** Keep the coded gates, recoded, in place. */
    method CompactAnds(ghost a: Graph, ghost roots: seq<nat>, code: seq<nat>, ghost next: nat)
      requires ands == a.ands && Coding(a, roots, code, next)
      modifies `ands
      ensures NewAnds(a, code, ands)
    {
      hide Coding, Compacted, NewAnds, SortByLhs;
      var j := 0;
      AndsInTable(a, roots, code, next);
      for i := 0 to |ands|
        invariant |ands| == |a.ands| && j <= i && ands[i..] == a.ands[i..]
        invariant Compacted(a, code, ands[..j], i)
      {
        assert ands[i] == ands[i..][0] == a.ands[i];
        CompactNext(a, roots, code, next, ands[..j], i);
        var g := ands[i];
        var lhs := code[g.lhs];
        assert ands[i + 1..] == ands[i..][1..] == a.ands[i..][1..] == a.ands[i + 1..];
        if lhs > 0 {
          var rhs0, rhs1 := code[g.rhs0], code[g.rhs1];
          if rhs0 < rhs1 {
            rhs0, rhs1 := rhs1, rhs0;
          }
          ghost var gs, was := ands[..j], ands;
          ands := ands[j := And(lhs, rhs0, rhs1)];
          j := j + 1;
          assert ands[..j] == gs + [RecodeAnd(code, a.ands[i])];
          assert ands[i + 1..] == was[i + 1..];
        }
      }
      SortedAreNew(a, code, ands[..j]);
      ands := SortByLhs(ands[..j]);
    }

    method ResetKinds()
      requires |kinds| > maxvar && kinds[0] == Undefined
      modifies `kinds
      ensures |kinds| > maxvar && kinds[0] == Undefined
    {
      for i := 1 to maxvar + 1
        invariant |kinds| > maxvar && kinds[0] == Undefined
      {
        kinds := kinds[i := Undefined];
      }
    }

    method EnterGates(first: nat)
      requires |kinds| > maxvar == first + |ands| - 1 && first > 0 && kinds[0] == Undefined
      requires forall j :: 0 <= j < |ands| ==> ands[j].lhs == 2 * (first + j)
      modifies `kinds
      ensures |kinds| > maxvar && kinds[0] == Undefined
      ensures forall j :: 0 <= j < |ands| ==> kinds[first + j] == Gate(j)
    {
      for i := 0 to |ands|
        invariant |kinds| > maxvar && kinds[0] == Undefined
        invariant forall j :: 0 <= j < i ==> kinds[first + j] == Gate(j)
      {
        assert Var(ands[i].lhs) == first + i;
        kinds := kinds[Var(ands[i].lhs) := Gate(i)];
      }
    }

    /** Inputs take their new literals. */
    method EnterInputs(code: seq<nat>)
      requires |kinds| > maxvar >= |inputs| && kinds[0] == Undefined
      requires forall i :: 0 <= i < |inputs| ==> inputs[i] < |code| && code[inputs[i]] == 2 * (i + 1)
      modifies `kinds, `inputs
      ensures |kinds| == old(|kinds|) && |inputs| == old(|inputs|) && kinds[0] == Undefined
      ensures forall k :: 0 <= k < |inputs| ==> inputs[k] == 2 * (k + 1) && kinds[k + 1] == Input(k)
      ensures forall v :: |inputs| < v < |kinds| ==> kinds[v] == old(kinds[v])
    {
      for i := 0 to |inputs|
        invariant |kinds| == old(|kinds|) && kinds[0] == Undefined && |inputs| == old(|inputs|)
        invariant forall k :: 0 <= k < i ==> inputs[k] == 2 * (k + 1) && kinds[k + 1] == Input(k)
        invariant forall k :: i <= k < |inputs| ==> inputs[k] == old(inputs[k])
        invariant forall v :: i < v < |kinds| ==> kinds[v] == old(kinds[v])
      {
        inputs := inputs[i := code[inputs[i]]];
        assert Var(inputs[i]) == i + 1;
        kinds := kinds[Var(inputs[i]) := Input(i)];
      }
    }

    /** Latches take their new literals. */
    method EnterLatches(code: seq<nat>, first: nat)
      requires |kinds| > maxvar >= first + |latches| - 1 && first > 0 && kinds[0] == Undefined
      requires forall i :: 0 <= i < |latches| ==> latches[i].lit < |code| && code[latches[i].lit] == 2 * (first + i)
      modifies `kinds, `latches
      ensures |kinds| == old(|kinds|) && |latches| == old(|latches|) && kinds[0] == Undefined
      ensures forall k :: 0 <= k < |latches| ==>
                latches[k] == old(latches[k]).(lit := 2 * (first + k)) && kinds[first + k] == Latched(k)
      ensures forall v :: 0 <= v < |kinds| && !(first <= v < first + |latches|) ==> kinds[v] == old(kinds[v])
    {
      for i := 0 to |latches|
        invariant |kinds| == old(|kinds|) && |latches| == old(|latches|) && kinds[0] == Undefined
        invariant forall k :: 0 <= k < i ==>
          latches[k] == old(latches[k]).(lit := 2 * (first + k)) && kinds[first + k] == Latched(k)
        invariant forall k :: i <= k < |latches| ==> latches[k] == old(latches[k])
        invariant forall v :: 0 <= v < |kinds| && !(first <= v < first + i) ==> kinds[v] == old(kinds[v])
      {
        latches := latches[i := latches[i].(lit := code[latches[i].lit])];
        assert Var(latches[i].lit) == first + i;
        kinds := kinds[Var(latches[i].lit) := Latched(i)];
      }
    }

    /** Reset the type flags, then enter gates, inputs and latches; the literals of the latter two change here. */
    method FixKinds(ghost a: Graph, code: seq<nat>)
      requires inputs == a.inputs && |latches| == |a.latches| && Placed(a, code, ands, maxvar) && |kinds| > maxvar
      requires kinds[0] == Undefined && forall i :: 0 <= i < |latches| ==> latches[i].lit == a.latches[i].lit
      modifies `kinds, `inputs, `latches
      ensures FreshKinds(Snap()) && |inputs| == |a.inputs| && |latches| == |a.latches|
      ensures forall i :: 0 <= i < |inputs| ==> inputs[i] == 2 * (i + 1)
      ensures forall i :: 0 <= i < |latches| ==> latches[i] == old(latches[i]).(lit := 2 * (|inputs| + i + 1))
    {
      ResetKinds();
      EnterGates(|inputs| + |latches| + 1);
      EnterInputs(code);
      EnterLatches(code, |inputs| + 1);
      KindsFresh(Snap());
    }

    /** Give codes to everything the roots are made of; the roots take their new literals. */
    method ReencodeRoots(ghost a: Graph, ghost rank: nat -> nat) returns (code: seq<nat>, next: nat)
      requires a == Snap() && Legal(a) && Ranked(a, rank) && Cleared(a, onstack)
      modifies `onstack, `latches, `outputs, `bad, `constraints, `justice, `fairness
      ensures Coding(a, Roots(a), code, next) && Cleared(a, onstack)
      ensures LatchesDone(code, a.latches, latches, |a.latches|)
      ensures RootsDone(code, a, Snap())
    {
      hide Coding, Ranked, Cleared, Grows, Translated, Flatten, AllDefined, TranslatedJustice, LatchesDone, Latches, Legal;
      LegalRoots(a);
      code, next := FirstCodeTable();
      next, code := ReencodeLatches(a, rank, next, code);
      ghost var r, c0 := Latches(a.latches), code;
      outputs, next, code := ReencodeAll(a, rank, r, outputs, next, code);
      ghost var c1 := code;
      bad, next, code := ReencodeAll(a, rank, r + a.outputs, bad, next, code);
      ghost var c2 := code;
      constraints, next, code := ReencodeAll(a, rank, r + a.outputs + a.bad, constraints, next, code);
      ghost var c3 := code;
      next, code := ReencodeJustice(a, rank, r + a.outputs + a.bad + a.constraints, next, code);
      ghost var c4 := code;
      fairness, next, code :=
        ReencodeAll(a, rank, r + a.outputs + a.bad + a.constraints + Flatten(a.justice), fairness, next, code);
      GrowChain(a, Snap(), c0, c1, c2, c3, c4, code, latches);
    }

    /** Renumber the graph: leaves first, then the gates in the cones of the roots, operands before gates. */
    method Reencode(ghost rank: nat -> nat)
      requires Legal(Snap()) && Ranked(Snap(), rank) && Cleared(Snap(), onstack)
      modifies this
      ensures Legal(Snap()) && Ranked(Snap(), Self) && Reencoded(Snap())
      ensures SameMeaning(old(Snap()), rank, Snap(), Self)
      ensures old(Reencoded(Snap())) ==> Snap() == old(Snap())
      ensures !old(Reencoded(Snap())) ==> exists code, next :: Renumbered(old(Snap()), Snap(), code, next)
    {
      hide Coding, Ranked, Cleared, Legal, NewAnds, FreshKinds, RootsDone, LatchesDone, Placed, Translated, TranslatedLatches;
      hide Roots, SameMeaning, Reencoded, TranslatedJustice;
      ghost var a := Snap();
      var done := IsReencoded();
      if done {
        ReencodedRanked(a, rank);
        SameGraph(a, rank, Self);
        return;
      }
      var code, next := ReencodeRoots(a, rank);
      ghost var mid := latches;
      CompactAnds(a, Roots(a), code, next);
      VariablesShrink(a, Roots(a), code, next);
      PartsPlaced(a, code, next, ands);
      MidLatches(code, a.latches, mid);
      ConstantKind(a, Roots(a), code, next);
      maxvar := Var(next - 1);
      FixKinds(a, code);
      TranslatedLeaves(a, code, next, Snap(), mid);
      RootsDoneLists(code, a, Snap());
      assert Renumbered(a, Snap(), code, next);
      RenumberedIsLegal(a, Snap(), code, next);
      RenumberedIsRanked(a, Snap(), code, next);
      RenumberedIsReencoded(a, Snap(), code, next);
      RenumberedSameMeaning(a, rank, Snap(), code, next);
    }
  }
}
