/** A renumbered graph means the same as the graph it was made from. */
module AigRenumber {
  import opened Aig
  import opened AigReencode

  ghost function Self(v: nat): nat { v }

  /** The larger operand first. */
  function RecodeAnd(code: seq<nat>, g: And): And
    requires g.lhs < |code| && g.rhs0 < |code| && g.rhs1 < |code|
  {
    var x, y := code[g.rhs0], code[g.rhs1];
    And(code[g.lhs], if x < y then y else x, if x < y then x else y)
  }

  ghost predicate CodedLit(code: seq<nat>, lit: nat) {
    lit < |code| && (lit < 2 || Coded(code, Var(lit)))
  }

  ghost predicate AllCoded(code: seq<nat>, lits: seq<nat>) {
    forall i :: 0 <= i < |lits| ==> CodedLit(code, lits[i])
  }

  /** The literals under their new codes. */
  ghost predicate Translated(code: seq<nat>, xs: seq<nat>, ys: seq<nat>) {
    |ys| == |xs| && AllCoded(code, xs) && forall i :: 0 <= i < |xs| ==> ys[i] == code[xs[i]]
  }

  ghost predicate TranslatedLatches(code: seq<nat>, xs: seq<Latch>, ys: seq<Latch>) {
    && |ys| == |xs|
    && forall i :: 0 <= i < |xs| ==>
         && CodedLit(code, xs[i].lit) && CodedLit(code, xs[i].next) && CodedLit(code, xs[i].reset)
         && ys[i] == Latch(code[xs[i].lit], code[xs[i].next], code[xs[i].reset])
  }

  ghost predicate TranslatedJustice(code: seq<nat>, xs: seq<seq<nat>>, ys: seq<seq<nat>>) {
    |ys| == |xs| && forall i :: 0 <= i < |xs| ==> Translated(code, xs[i], ys[i])
  }

  ghost predicate InTable(code: seq<nat>, g: And) {
    g.lhs < |code| && g.rhs0 < |code| && g.rhs1 < |code|
  }

  /** g is one of the first n gates under its new code. */
  ghost predicate Stems(a: Graph, code: seq<nat>, g: And, n: nat) {
    exists i :: 0 <= i < n <= |a.ands| && InTable(code, a.ands[i]) && code[a.ands[i].lhs] > 0 && g == RecodeAnd(code, a.ands[i])
  }

  /** The coded gates and no others, in the order of their codes. */
  ghost predicate NewAnds(a: Graph, code: seq<nat>, gs: seq<And>) {
    && (forall i :: 0 <= i < |a.ands| ==> InTable(code, a.ands[i]))
    && (forall j :: 0 <= j < |gs| ==> Stems(a, code, gs[j], |a.ands|))
    && (forall i :: 0 <= i < |a.ands| && code[a.ands[i].lhs] > 0 ==> RecodeAnd(code, a.ands[i]) in gs)
    && (forall i, j :: 0 <= i < j < |gs| ==> gs[i].lhs < gs[j].lhs)
  }

  ghost predicate FreshKinds(b: Graph) {
    && |b.kinds| > b.maxvar && b.kinds[0] == Undefined
    && (forall i :: 0 <= i < |b.inputs| ==> Fresh(b, b.inputs[i], Input(i)))
    && (forall i :: 0 <= i < |b.latches| ==> Fresh(b, b.latches[i].lit, Latched(i)))
    && (forall i :: 0 <= i < |b.ands| ==> Fresh(b, b.ands[i].lhs, Gate(i)))
  }

  /** b is a, restricted to the coded gates and renumbered. */
  ghost predicate Renumbered(a: Graph, b: Graph, code: seq<nat>, next: nat) {
    && Coding(a, Roots(a), code, next) && b.maxvar + 1 == next / 2
    && Translated(code, a.inputs, b.inputs) && TranslatedLatches(code, a.latches, b.latches)
    && Translated(code, a.outputs, b.outputs) && Translated(code, a.bad, b.bad)
    && Translated(code, a.constraints, b.constraints) && TranslatedJustice(code, a.justice, b.justice)
    && Translated(code, a.fairness, b.fairness)
    && NewAnds(a, code, b.ands) && FreshKinds(b)
  }

  // ------------------------------------------------------- the order of the gates

  lemma GateOfCode(a: Graph, code: seq<nat>, next: nat, gs: seq<And>, k: nat)
    requires Coding(a, Roots(a), code, next) && NewAnds(a, code, gs)
    requires Leaves(a) < k < next && k % 2 == 0
    ensures exists j :: 0 <= j < |gs| && gs[j].lhs == k
  {
    hide Legal, GatesCoded, ConeOnly, Roots;
    assert HasCode(code, k);
    var v: nat :| Coded(code, v) && code[2 * v] == k;
    LateCodeIsGate(a, code, next, v);
    var i := a.kinds[v].idx;
    assert RecodeAnd(code, a.ands[i]) in gs;
  }

  lemma LeafCode(a: Graph, code: seq<nat>, v: nat)
    requires Typed(a) && |code| == 2 * (a.maxvar + 1) && LeavesCoded(a, code) && v <= a.maxvar
    requires a.kinds[v].Input? || a.kinds[v].Latched?
    ensures 0 < code[2 * v] <= Leaves(a)
  {
    match a.kinds[v]
    case Input(i) => assert code[a.inputs[i]] == 2 * (i + 1);
    case Latched(i) => assert code[a.latches[i].lit] == 2 * (|a.inputs| + i + 1);
  }

  /** A code behind those of the leaves belongs to a gate. */
  lemma LateCodeIsGate(a: Graph, code: seq<nat>, next: nat, v: nat)
    requires Coding(a, Roots(a), code, next) && Coded(code, v) && code[2 * v] > Leaves(a)
    ensures v <= a.maxvar && IsGate(a, v) && a.kinds[v].idx < |a.ands| && a.ands[a.kinds[v].idx].lhs == 2 * v
  {
    hide Roots, ConeOnly, Kids;
    assert v <= a.maxvar && a.kinds[v] != Undefined;
    if !a.kinds[v].Gate? { LeafCode(a, code, v); }
  }

  lemma NewAndCode(a: Graph, code: seq<nat>, next: nat, gs: seq<And>, j: nat)
    requires Coding(a, Roots(a), code, next) && NewAnds(a, code, gs) && j < |gs|
    ensures Leaves(a) < gs[j].lhs < next && gs[j].lhs % 2 == 0
  {
    hide Roots, ConeOnly, HasCode;
    assert Stems(a, code, gs[j], |a.ands|);
    var i :| 0 <= i < |a.ands| && InTable(code, a.ands[i]) && code[a.ands[i].lhs] > 0 && gs[j] == RecodeAnd(code, a.ands[i]);
    var v := Var(a.ands[i].lhs);
    assert a.ands[i].lhs == 2 * v && Coded(code, v) && IsGate(a, v);
  }

  /** The gates are numbered without gaps behind the leaves. */
  lemma {:induction false} Consecutive(a: Graph, code: seq<nat>, next: nat, gs: seq<And>, j: nat)
    requires Coding(a, Roots(a), code, next) && NewAnds(a, code, gs) && j < |gs|
    ensures gs[j].lhs == Leaves(a) + 2 + 2 * j
    decreases j
  {
    hide Coding;
    if j > 0 { Consecutive(a, code, next, gs, j - 1); }
    forall i | 0 <= i < j ensures gs[i].lhs == Leaves(a) + 2 + 2 * i { Consecutive(a, code, next, gs, i); }
    NewAndCode(a, code, next, gs, j);
    var k := Leaves(a) + 2 + 2 * j;
    assert gs[j].lhs >= k by { if j > 0 { assert gs[j - 1].lhs < gs[j].lhs; } }
    GateOfCode(a, code, next, gs, k);
    var p :| 0 <= p < |gs| && gs[p].lhs == k;
    assert p >= j && gs[j].lhs <= gs[p].lhs;
  }

  lemma CountGates(a: Graph, code: seq<nat>, next: nat, gs: seq<And>)
    requires Coding(a, Roots(a), code, next) && NewAnds(a, code, gs)
    ensures next == Leaves(a) + 2 + 2 * |gs|
  {
    hide Coding;
    LeavesFirst(a, code, next);
    if |gs| > 0 {
      Consecutive(a, code, next, gs, |gs| - 1);
      NewAndCode(a, code, next, gs, |gs| - 1);
    }
    var k := Leaves(a) + 2 + 2 * |gs|;
    forall j | 0 <= j < |gs| ensures gs[j].lhs != k { Consecutive(a, code, next, gs, j); }
    if k < next { GateOfCode(a, code, next, gs, k); }
  }

  lemma LeavesFirst(a: Graph, code: seq<nat>, next: nat)
    requires Coding(a, Roots(a), code, next)
    ensures Leaves(a) + 2 <= next && next % 2 == 0
  {
    LeavesBelow(a, code, next);
  }

  // ------------------------------------------------------- the new graph is legal

  /** Every variable of the new graph is the code of one of the old. */
  lemma NewTyped(a: Graph, b: Graph, code: seq<nat>, next: nat)
    requires Renumbered(a, b, code, next)
    ensures Typed(b)
  {
    hide Coding, NewAnds, Translated, TranslatedLatches, TranslatedJustice, FreshKinds, Roots;
    NewLeaves(a, b, code, next);
    CountGates(a, code, next, b.ands);
    forall v | 0 < v <= b.maxvar ensures KindFits(b, v) {
      NewKind(a, b, code, next, v);
    }
    FitsTyped(b);
  }

  ghost predicate KindFits(b: Graph, v: nat)
    requires v < |b.kinds|
  {
    match b.kinds[v]
    case Undefined => true
    case Input(i) => i < |b.inputs| && b.inputs[i] == 2 * v
    case Latched(i) => i < |b.latches| && b.latches[i].lit == 2 * v
    case Gate(i) => i < |b.ands| && b.ands[i].lhs == 2 * v
  }

  lemma FitsTyped(b: Graph)
    requires FreshKinds(b) && forall v :: 0 < v <= b.maxvar ==> KindFits(b, v)
    ensures Typed(b)
  {
    forall v | 0 <= v <= b.maxvar
      ensures match b.kinds[v]
              case Undefined => true
              case Input(i) => i < |b.inputs| && b.inputs[i] == 2 * v
              case Latched(i) => i < |b.latches| && b.latches[i].lit == 2 * v
              case Gate(i) => i < |b.ands| && b.ands[i].lhs == 2 * v
    {
      assert v > 0 ==> KindFits(b, v);
    }
  }

  lemma NewLeaves(a: Graph, b: Graph, code: seq<nat>, next: nat)
    requires Renumbered(a, b, code, next)
    ensures |b.inputs| == |a.inputs| && |b.latches| == |a.latches| && |b.kinds| > b.maxvar
    ensures forall i :: 0 <= i < |b.inputs| ==> b.inputs[i] == 2 * (i + 1)
    ensures forall i :: 0 <= i < |b.latches| ==> b.latches[i].lit == 2 * (|b.inputs| + i + 1)
  {
    hide Roots, Table, GatesCoded, ConeOnly, NewAnds;
  }

  lemma NewKind(a: Graph, b: Graph, code: seq<nat>, next: nat, v: nat)
    requires Renumbered(a, b, code, next) && 0 < v <= b.maxvar && next == Leaves(a) + 2 + 2 * |b.ands|
    ensures v < |b.kinds| && KindFits(b, v) && b.kinds[v] != Undefined
  {
    hide Coding, NewAnds, Translated, TranslatedLatches, TranslatedJustice, Roots;
    NewLeaves(a, b, code, next);
    if v <= |b.inputs| {
      assert b.inputs[v - 1] == 2 * v && Fresh(b, b.inputs[v - 1], Input(v - 1));
    } else if v <= |b.inputs| + |b.latches| {
      var i := v - |b.inputs| - 1;
      assert b.latches[i].lit == 2 * v && Fresh(b, b.latches[i].lit, Latched(i));
    } else {
      var j := v - |b.inputs| - |b.latches| - 1;
      Consecutive(a, code, next, b.ands, j);
      assert Fresh(b, b.ands[j].lhs, Gate(j));
    }
  }

  /** A coded literal becomes a defined one. */
  lemma NewDefined(a: Graph, b: Graph, code: seq<nat>, next: nat, lit: nat)
    requires Renumbered(a, b, code, next) && CodedLit(code, lit)
    ensures Defined(b, code[lit]) && code[lit] % 2 == lit % 2
    ensures Var(lit) != 0 ==> 0 < Var(code[lit]) <= b.maxvar && code[lit] == code[2 * Var(lit)] + lit % 2
  {
    hide Legal, LeavesCoded, GatesCoded, ConeOnly, NewAnds, Translated, TranslatedLatches, TranslatedJustice, Roots, HasCode;
    CountGates(a, code, next, b.ands);
    if lit >= 2 {
      assert lit == 2 * Var(lit) || lit == 2 * Var(lit) + 1;
      NewKind(a, b, code, next, Var(code[lit]));
    } else {
      assert code[lit] == lit;
    }
  }

  // ------------------------------------------------------- the new gates

  /** Where the new gate of an old one is, and what it is made of. */
  lemma NewGate(a: Graph, b: Graph, code: seq<nat>, next: nat, v: nat)
    requires Renumbered(a, b, code, next) && Coded(code, v) && v <= a.maxvar && IsGate(a, v)
    ensures var w := Var(code[2 * v]);
            && w <= b.maxvar < |b.kinds| && b.kinds[w].Gate? && a.kinds[v].idx < |a.ands|
            && b.kinds[w].idx < |b.ands| && InTable(code, a.ands[a.kinds[v].idx])
            && b.ands[b.kinds[w].idx] == RecodeAnd(code, a.ands[a.kinds[v].idx])
            && a.ands[a.kinds[v].idx].lhs == 2 * v
  {
    hide Coding, Translated, TranslatedLatches, TranslatedJustice, Roots;
    CodingLegal(a, Roots(a), code, next);
    var i := a.kinds[v].idx;
    var g := RecodeAnd(code, a.ands[i]);
    assert g in b.ands;
    var j :| 0 <= j < |b.ands| && b.ands[j] == g;
    assert Fresh(b, b.ands[j].lhs, Gate(j));
  }

  /** Where a new gate comes from. */
  lemma OldGate(a: Graph, b: Graph, code: seq<nat>, next: nat, j: nat) returns (v: nat)
    requires Renumbered(a, b, code, next) && j < |b.ands|
    ensures Coded(code, v) && v <= a.maxvar && IsGate(a, v) && a.kinds[v].idx < |a.ands|
    ensures InTable(code, a.ands[a.kinds[v].idx]) && b.ands[j] == RecodeAnd(code, a.ands[a.kinds[v].idx])
    ensures code[2 * v] == b.ands[j].lhs && a.ands[a.kinds[v].idx].lhs == 2 * v
  {
    hide Coding, Translated, TranslatedLatches, TranslatedJustice, Roots, Legal, RecodeAnd;
    CodingLegal(a, Roots(a), code, next);
    assert Stems(a, code, b.ands[j], |a.ands|);
    var i :| 0 <= i < |a.ands| && InTable(code, a.ands[i]) && code[a.ands[i].lhs] > 0 && b.ands[j] == RecodeAnd(code, a.ands[i]);
    GateVariable(a, i);
    RecodedHead(code, a.ands[i]);
    v := Var(a.ands[i].lhs);
  }

  lemma GateVariable(a: Graph, i: nat)
    requires Legal(a) && i < |a.ands|
    ensures var v := Var(a.ands[i].lhs); IsGate(a, v) && v <= a.maxvar && a.kinds[v] == Gate(i) && a.ands[i].lhs == 2 * v
  {
    assert Fresh(a, a.ands[i].lhs, Gate(i));
  }

  lemma RecodedHead(code: seq<nat>, g: And)
    requires InTable(code, g)
    ensures RecodeAnd(code, g).lhs == code[g.lhs]
  {}

  /** Both operands of a coded gate are coded, with smaller codes. */
  lemma OperandsCoded(a: Graph, code: seq<nat>, next: nat, v: nat)
    requires Coding(a, Roots(a), code, next) && Coded(code, v) && v <= a.maxvar && IsGate(a, v)
    ensures a.kinds[v].idx < |a.ands|
    ensures var g := a.ands[a.kinds[v].idx];
            && CodedLit(code, g.rhs0) && CodedLit(code, g.rhs1) && Defined(a, g.rhs0) && Defined(a, g.rhs1)
            && (Var(g.rhs0) == 0 || code[2 * Var(g.rhs0)] < code[2 * v])
            && (Var(g.rhs1) == 0 || code[2 * Var(g.rhs1)] < code[2 * v])
  {
    hide Roots, ConeOnly, LeavesCoded, HasCode;
    var g := a.ands[a.kinds[v].idx];
    assert Var(g.rhs0) in Kids(a, v) && Var(g.rhs1) in Kids(a, v);
    assert Defined(a, g.rhs0) && Defined(a, g.rhs1);
  }

  lemma CodeOfLit(a: Graph, code: seq<nat>, next: nat, lit: nat)
    requires Table(a, code, next) && CodedLit(code, lit)
    ensures code[lit] == if lit < 2 then lit else code[2 * Var(lit)] + lit % 2
    ensures lit >= 2 ==> code[2 * Var(lit)] % 2 == 0 && code[2 * Var(lit)] > 0
  {
    assert lit == 2 * Var(lit) || lit == 2 * Var(lit) + 1;
  }

  lemma CodingTable(a: Graph, roots: seq<nat>, code: seq<nat>, next: nat)
    requires Coding(a, roots, code, next)
    ensures Table(a, code, next)
  {}

  /** Operands stand before their gate, the larger one first. */
  lemma NewDescends(a: Graph, b: Graph, code: seq<nat>, next: nat, j: nat)
    requires Renumbered(a, b, code, next) && j < |b.ands|
    ensures b.ands[j].lhs > b.ands[j].rhs0 >= b.ands[j].rhs1
    ensures Defined(b, b.ands[j].rhs0) && Defined(b, b.ands[j].rhs1)
  {
    hide Renumbered, Coding, Coded, Table;
    var v := OldGate(a, b, code, next, j);
    RenumberedCoding(a, b, code, next);
    OperandsCoded(a, code, next, v);
    var g := a.ands[a.kinds[v].idx];
    CodingTable(a, Roots(a), code, next);
    CodeOfLit(a, code, next, g.rhs0);
    CodeOfLit(a, code, next, g.rhs1);
    CodeOfLit(a, code, next, 2 * v);
    NewDefined(a, b, code, next, g.rhs0);
    NewDefined(a, b, code, next, g.rhs1);
  }

  lemma RenumberedCoding(a: Graph, b: Graph, code: seq<nat>, next: nat)
    requires Renumbered(a, b, code, next)
    ensures Coding(a, Roots(a), code, next) && Legal(a)
  {}

  // ------------------------------------------------------- main results

  /** The property that `aiger_is_reencoded` tests. */
  ghost predicate Reencoded(b: Graph) {
    && (forall i :: 0 <= i < |b.inputs| ==> b.inputs[i] == 2 * (i + 1))
    && (forall i :: 0 <= i < |b.latches| ==> b.latches[i].lit == 2 * (|b.inputs| + i + 1))
    && (forall j :: 0 <= j < |b.ands| ==>
          b.ands[j].lhs == Leaves(b) + 2 + 2 * j && b.ands[j].lhs >= b.ands[j].rhs0 >= b.ands[j].rhs1)
  }

  lemma RenumberedIsReencoded(a: Graph, b: Graph, code: seq<nat>, next: nat)
    requires Renumbered(a, b, code, next)
    ensures Reencoded(b)
  {
    NewLeaves(a, b, code, next);
    forall j | 0 <= j < |b.ands|
      ensures b.ands[j].lhs == Leaves(b) + 2 + 2 * j && b.ands[j].lhs >= b.ands[j].rhs0 >= b.ands[j].rhs1
    {
      Consecutive(a, code, next, b.ands, j);
      NewDescends(a, b, code, next, j);
    }
  }

  lemma RenumberedIsRanked(a: Graph, b: Graph, code: seq<nat>, next: nat)
    requires Renumbered(a, b, code, next)
    ensures Ranked(b, Self)
  {
    NewTyped(a, b, code, next);
    hide Renumbered;
    forall v: nat, c: nat | IsGate(b, v) && c in Kids(b, v) && IsGate(b, c) ensures Self(c) < Self(v) {
      NewDescends(a, b, code, next, b.kinds[v].idx);
    }
  }

  lemma TranslatedDefined(a: Graph, b: Graph, code: seq<nat>, next: nat, xs: seq<nat>, ys: seq<nat>)
    requires Renumbered(a, b, code, next) && Translated(code, xs, ys)
    ensures AllDefined(b, ys)
  {
    hide Renumbered, Coded;
    forall i | 0 <= i < |ys| ensures Defined(b, ys[i]) {
      assert CodedLit(code, xs[i]);
      NewDefined(a, b, code, next, xs[i]);
    }
  }

  lemma {:induction false} JusticeDefined(a: Graph, b: Graph, code: seq<nat>, next: nat, xs: seq<seq<nat>>, ys: seq<seq<nat>>)
    requires Renumbered(a, b, code, next) && TranslatedJustice(code, xs, ys)
    ensures AllDefined(b, Flatten(ys))
    decreases |ys|
  {
    hide Renumbered, Coded, Translated;
    if ys != [] {
      var n := |ys| - 1;
      assert TranslatedJustice(code, xs[..n], ys[..n]) by {
        forall i | 0 <= i < n ensures Translated(code, xs[..n][i], ys[..n][i]) { assert Translated(code, xs[i], ys[i]); }
      }
      JusticeDefined(a, b, code, next, xs[..n], ys[..n]);
      TranslatedDefined(a, b, code, next, xs[n], ys[n]);
    }
  }

  lemma LatchesDefined(a: Graph, b: Graph, code: seq<nat>, next: nat)
    requires Renumbered(a, b, code, next)
    ensures AllDefined(b, Latches(b.latches))
  {
    hide Coding, NewAnds, FreshKinds, Translated, TranslatedJustice, Defined, Coded;
    forall k | 0 <= k < |Latches(b.latches)| ensures Defined(b, Latches(b.latches)[k]) {
      var i := k / 2;
      assert k == 2 * i || k == 2 * i + 1;
      NewDefined(a, b, code, next, a.latches[i].next);
      NewDefined(a, b, code, next, a.latches[i].reset);
    }
  }

  lemma AllDefinedRoots(b: Graph)
    requires AllDefined(b, Latches(b.latches)) && AllDefined(b, b.outputs) && AllDefined(b, b.bad)
    requires AllDefined(b, b.constraints) && AllDefined(b, Flatten(b.justice)) && AllDefined(b, b.fairness)
    ensures AllDefined(b, Roots(b))
  {
    hide Defined;
  }

  lemma RenumberedIsLegal(a: Graph, b: Graph, code: seq<nat>, next: nat)
    requires Renumbered(a, b, code, next)
    ensures Legal(b)
  {
    hide Coding, NewAnds, Translated, TranslatedLatches, TranslatedJustice, FreshKinds, Typed, Defined, Latches, Flatten;
    NewTyped(a, b, code, next);
    forall j | 0 <= j < |b.ands| ensures Defined(b, b.ands[j].rhs0) && Defined(b, b.ands[j].rhs1) {
      NewDescends(a, b, code, next, j);
    }
    LatchesDefined(a, b, code, next);
    TranslatedDefined(a, b, code, next, a.outputs, b.outputs);
    TranslatedDefined(a, b, code, next, a.bad, b.bad);
    TranslatedDefined(a, b, code, next, a.constraints, b.constraints);
    JusticeDefined(a, b, code, next, a.justice, b.justice);
    TranslatedDefined(a, b, code, next, a.fairness, b.fairness);
    AllDefinedRoots(b);
  }

  // ------------------------------------------------------- meaning

  ghost predicate Comparable(a: Graph, ra: nat -> nat, b: Graph, rb: nat -> nat) {
    && Legal(a) && Ranked(a, ra) && Legal(b) && Ranked(b, rb)
    && |a.inputs| == |b.inputs| && |a.latches| == |b.latches|
  }

  /** The literals at the same places have the same values, whatever the inputs and latches. */
  ghost predicate SameValues(a: Graph, ra: nat -> nat, b: Graph, rb: nat -> nat, xs: seq<nat>, ys: seq<nat>)
    requires Comparable(a, ra, b, rb)
  {
    && |xs| == |ys| && AllDefined(a, xs) && AllDefined(b, ys)
    && forall i, ins: seq<bool>, ls: seq<bool> :: 0 <= i < |xs| && |ins| == |a.inputs| && |ls| == |a.latches| ==>
         Value(b, rb, ins, ls, ys[i]) == Value(a, ra, ins, ls, xs[i])
  }

  ghost function Nexts(ls: seq<Latch>): seq<nat> { seq(|ls|, i requires 0 <= i < |ls| => ls[i].next) }

  ghost function Resets(ls: seq<Latch>): seq<nat> { seq(|ls|, i requires 0 <= i < |ls| => ls[i].reset) }

  /** Every literal the graphs are kept for has the same value in both. */
  ghost predicate SameMeaning(a: Graph, ra: nat -> nat, b: Graph, rb: nat -> nat) {
    && Comparable(a, ra, b, rb)
    && SameValues(a, ra, b, rb, Nexts(a.latches), Nexts(b.latches))
    && SameValues(a, ra, b, rb, Resets(a.latches), Resets(b.latches))
    && SameValues(a, ra, b, rb, a.outputs, b.outputs) && SameValues(a, ra, b, rb, a.bad, b.bad)
    && SameValues(a, ra, b, rb, a.constraints, b.constraints)
    && |a.justice| == |b.justice|
    && (forall i :: 0 <= i < |a.justice| ==> SameValues(a, ra, b, rb, a.justice[i], b.justice[i]))
    && SameValues(a, ra, b, rb, a.fairness, b.fairness)
  }

  /** A variable and its code have the same value. */
  lemma {:induction false} SameVar(a: Graph, rank: nat -> nat, b: Graph, code: seq<nat>, next: nat,
                                   ins: seq<bool>, ls: seq<bool>, v: nat)
    requires Renumbered(a, b, code, next) && Comparable(a, rank, b, Self) && Coded(code, v) && v <= a.maxvar
    requires |ins| == |a.inputs| && |ls| == |a.latches| && Var(code[2 * v]) <= b.maxvar
    ensures VarValue(b, Self, ins, ls, Var(code[2 * v])) == VarValue(a, rank, ins, ls, v)
    decreases code[2 * v]
  {
    hide Renumbered, Comparable, Legal, Coding;
    ComparableFacts(a, rank, b);
    if IsGate(a, v) {
      NewGate(a, b, code, next, v);
      RenumberedCoding(a, b, code, next);
      OperandsCoded(a, code, next, v);
      var g := a.ands[a.kinds[v].idx];
      SameLit(a, rank, b, code, next, ins, ls, g.rhs0, code[2 * v]);
      SameLit(a, rank, b, code, next, ins, ls, g.rhs1, code[2 * v]);
      GateValue(a, rank, ins, ls, v);
      GateValue(b, Self, ins, ls, Var(code[2 * v]));
    } else {
      SameLeaf(a, rank, b, code, next, ins, ls, v);
    }
  }

  lemma ComparableFacts(a: Graph, ra: nat -> nat, b: Graph)
    requires Comparable(a, ra, b, Self)
    ensures Legal(a) && Ranked(a, ra) && Legal(b) && Ranked(b, Self) && Typed(a) && Typed(b)
    ensures |a.inputs| == |b.inputs| && |a.latches| == |b.latches|
  {}

  lemma GateValue(a: Graph, rank: nat -> nat, ins: seq<bool>, ls: seq<bool>, v: nat)
    requires Legal(a) && Ranked(a, rank) && |ins| == |a.inputs| && |ls| == |a.latches| && IsGate(a, v)
    ensures a.kinds[v].idx < |a.ands|
    ensures var g := a.ands[a.kinds[v].idx];
            && Defined(a, g.rhs0) && Defined(a, g.rhs1)
            && VarValue(a, rank, ins, ls, v) == (Value(a, rank, ins, ls, g.rhs0) && Value(a, rank, ins, ls, g.rhs1))
  {
    var g := a.ands[a.kinds[v].idx];
    assert Defined(a, g.rhs0) && Defined(a, g.rhs1);
  }

  lemma SameLit(a: Graph, rank: nat -> nat, b: Graph, code: seq<nat>, next: nat,
                ins: seq<bool>, ls: seq<bool>, lit: nat, bound: nat)
    requires Renumbered(a, b, code, next) && Comparable(a, rank, b, Self) && CodedLit(code, lit) && Defined(a, lit)
    requires |ins| == |a.inputs| && |ls| == |a.latches| && (Var(lit) == 0 || code[2 * Var(lit)] < bound)
    ensures Defined(b, code[lit]) && Value(b, Self, ins, ls, code[lit]) == Value(a, rank, ins, ls, lit)
    decreases bound, 0
  {
    hide Renumbered, Legal, Coding;
    NewDefined(a, b, code, next, lit);
    RenumberedCoding(a, b, code, next);
    CodingTable(a, Roots(a), code, next);
    CodeOfLit(a, code, next, lit);
    if lit >= 2 {
      SameVar(a, rank, b, code, next, ins, ls, Var(lit));
    } else {
      ConstantFalse(a, rank, ins, ls);
      ConstantFalse(b, Self, ins, ls);
    }
  }

  lemma ConstantFalse(a: Graph, rank: nat -> nat, ins: seq<bool>, ls: seq<bool>)
    requires Legal(a) && Ranked(a, rank) && |ins| == |a.inputs| && |ls| == |a.latches|
    ensures !VarValue(a, rank, ins, ls, 0)
  {}

  lemma SameLeaf(a: Graph, rank: nat -> nat, b: Graph, code: seq<nat>, next: nat, ins: seq<bool>, ls: seq<bool>, v: nat)
    requires Renumbered(a, b, code, next) && Comparable(a, rank, b, Self) && Coded(code, v) && v <= a.maxvar
    requires |ins| == |a.inputs| && |ls| == |a.latches| && Var(code[2 * v]) <= b.maxvar && !IsGate(a, v)
    ensures VarValue(b, Self, ins, ls, Var(code[2 * v])) == VarValue(a, rank, ins, ls, v)
  {
    hide Roots, ConeOnly, NewAnds, Table, Ranked;
    var w := Var(code[2 * v]);
    assert a.kinds[v] != Undefined;
    if a.kinds[v].Input? {
      assert a.inputs[a.kinds[v].idx] == 2 * v;
      assert Fresh(b, b.inputs[a.kinds[v].idx], Input(a.kinds[v].idx));
    } else {
      assert a.latches[a.kinds[v].idx].lit == 2 * v;
      assert Fresh(b, b.latches[a.kinds[v].idx].lit, Latched(a.kinds[v].idx));
    }
  }

  lemma TranslatedSame(a: Graph, rank: nat -> nat, b: Graph, code: seq<nat>, next: nat, xs: seq<nat>, ys: seq<nat>)
    requires Renumbered(a, b, code, next) && Comparable(a, rank, b, Self) && Translated(code, xs, ys) && AllDefined(a, xs)
    ensures SameValues(a, rank, b, Self, xs, ys)
  {
    hide Renumbered, Legal, Ranked, Defined;
    TranslatedDefined(a, b, code, next, xs, ys);
    forall i, ins: seq<bool>, ls: seq<bool> | 0 <= i < |xs| && |ins| == |a.inputs| && |ls| == |a.latches|
      ensures Value(b, Self, ins, ls, ys[i]) == Value(a, rank, ins, ls, xs[i])
    {
      SameLit(a, rank, b, code, next, ins, ls, xs[i], if Var(xs[i]) == 0 then 0 else code[2 * Var(xs[i])] + 1);
    }
  }

  lemma {:induction false} LatchRoots(a: Graph, ls: seq<Latch>)
    requires AllDefined(a, Latches(ls))
    ensures AllDefined(a, Nexts(ls)) && AllDefined(a, Resets(ls))
  {
    hide Defined;
    forall i | 0 <= i < |ls| ensures Defined(a, ls[i].next) && Defined(a, ls[i].reset) {
      assert Latches(ls)[2 * i] == ls[i].next && Latches(ls)[2 * i + 1] == ls[i].reset;
    }
  }

  lemma {:induction false} JusticeRoots(a: Graph, s: seq<seq<nat>>, i: nat)
    requires AllDefined(a, Flatten(s)) && i < |s|
    ensures AllDefined(a, s[i])
    decreases |s|
  {
    hide Defined;
    var n := |s| - 1;
    assert Flatten(s) == Flatten(s[..n]) + s[n];
    AllDefinedSplit(a, Flatten(s[..n]), s[n]);
    if i < n { JusticeRoots(a, s[..n], i); }
  }

  lemma AllDefinedSplit(a: Graph, x: seq<nat>, y: seq<nat>)
    requires AllDefined(a, x + y)
    ensures AllDefined(a, x) && AllDefined(a, y)
  {
    hide Defined;
    forall i | 0 <= i < |x| ensures Defined(a, x[i]) { assert (x + y)[i] == x[i]; }
    forall i | 0 <= i < |y| ensures Defined(a, y[i]) { assert (x + y)[|x| + i] == y[i]; }
  }

  /** Each list of roots is defined. */
  lemma RootLists(a: Graph)
    requires AllDefined(a, Roots(a))
    ensures AllDefined(a, Nexts(a.latches)) && AllDefined(a, Resets(a.latches)) && AllDefined(a, a.outputs)
    ensures AllDefined(a, a.bad) && AllDefined(a, a.constraints) && AllDefined(a, a.fairness)
    ensures forall i :: 0 <= i < |a.justice| ==> AllDefined(a, a.justice[i])
  {
    hide AllDefined, Flatten, Latches;
    var l, j := Latches(a.latches), Flatten(a.justice);
    AllDefinedSplit(a, l + a.outputs + a.bad + a.constraints + j, a.fairness);
    AllDefinedSplit(a, l + a.outputs + a.bad + a.constraints, j);
    AllDefinedSplit(a, l + a.outputs + a.bad, a.constraints);
    AllDefinedSplit(a, l + a.outputs, a.bad);
    AllDefinedSplit(a, l, a.outputs);
    LatchRoots(a, a.latches);
    forall i | 0 <= i < |a.justice| ensures AllDefined(a, a.justice[i]) { JusticeRoots(a, a.justice, i); }
  }

  lemma LatchesTranslated(a: Graph, b: Graph, code: seq<nat>, next: nat)
    requires Renumbered(a, b, code, next)
    ensures Translated(code, Nexts(a.latches), Nexts(b.latches)) && Translated(code, Resets(a.latches), Resets(b.latches))
  {}

  lemma RenumberedComparable(a: Graph, rank: nat -> nat, b: Graph, code: seq<nat>, next: nat)
    requires Renumbered(a, b, code, next) && Ranked(a, rank)
    ensures Comparable(a, rank, b, Self)
  {
    RenumberedCoding(a, b, code, next);
    RenumberedIsLegal(a, b, code, next);
    RenumberedIsRanked(a, b, code, next);
    NewLeaves(a, b, code, next);
  }

  /** Renumbering changes the value of no root, for any values of inputs and latches. */
  lemma RenumberedSameMeaning(a: Graph, rank: nat -> nat, b: Graph, code: seq<nat>, next: nat)
    requires Renumbered(a, b, code, next) && Ranked(a, rank)
    ensures SameMeaning(a, rank, b, Self)
  {
    hide Coding, NewAnds, Translated, TranslatedLatches, FreshKinds, Comparable, SameValues, Roots, Ranked, AllDefined;
    RenumberedComparable(a, rank, b, code, next);
    RenumberedCoding(a, b, code, next);
    LegalRoots(a);
    LatchesTranslated(a, b, code, next);
    TranslatedSame(a, rank, b, code, next, Nexts(a.latches), Nexts(b.latches));
    TranslatedSame(a, rank, b, code, next, Resets(a.latches), Resets(b.latches));
    TranslatedSame(a, rank, b, code, next, a.outputs, b.outputs);
    TranslatedSame(a, rank, b, code, next, a.bad, b.bad);
    TranslatedSame(a, rank, b, code, next, a.constraints, b.constraints);
    TranslatedSame(a, rank, b, code, next, a.fairness, b.fairness);
    forall i | 0 <= i < |a.justice| ensures SameValues(a, rank, b, Self, a.justice[i], b.justice[i]) {
      TranslatedSame(a, rank, b, code, next, a.justice[i], b.justice[i]);
    }
  }

  lemma LegalRoots(a: Graph)
    requires Legal(a)
    ensures AllDefined(a, Nexts(a.latches)) && AllDefined(a, Resets(a.latches)) && AllDefined(a, a.outputs)
    ensures AllDefined(a, a.bad) && AllDefined(a, a.constraints) && AllDefined(a, a.fairness)
    ensures forall i :: 0 <= i < |a.justice| ==> AllDefined(a, a.justice[i])
  {
    RootLists(a);
  }

  /** Exactly the gates in the cones of the roots have been kept. */
  lemma ConeKept(a: Graph, b: Graph, code: seq<nat>, next: nat, v: nat)
    requires Renumbered(a, b, code, next) && v <= a.maxvar && IsGate(a, v)
    ensures Typed(a) && (Coded(code, v) <==> InCone(a, Roots(a), v))
    ensures InCone(a, Roots(a), v) <==> exists j :: 0 <= j < |b.ands| && b.ands[j].lhs == code[2 * v]
  {
    RootsCoded(a, b, code, next);
    hide Roots, LeavesCoded, Table, Kids;
    RenumberedCoding(a, b, code, next);
    var d: set<nat> := set u: nat | u <= a.maxvar && Coded(code, u) && IsGate(a, u);
    assert OperandClosed(a, d) by {
      ConstantNoGate(a);
      forall u: nat, c: nat | u in d && c in Kids(a, u) && IsGate(a, c) ensures c in d {
        assert c != 0;
      }
    }
    assert HoldsRoots(a, Roots(a), d);
    if InCone(a, Roots(a), v) { assert v in d; }
    KeptGate(a, b, code, next, v);
  }

  lemma {:induction false} JusticeCoded(code: seq<nat>, xs: seq<seq<nat>>, ys: seq<seq<nat>>)
    requires TranslatedJustice(code, xs, ys)
    ensures AllCoded(code, Flatten(xs))
    decreases |xs|
  {
    hide CodedLit;
    if xs != [] {
      var n := |xs| - 1;
      assert Translated(code, xs[n], ys[n]);
      JusticeCoded(code, xs[..n], ys[..n]);
    }
  }

  lemma RootsCoded(a: Graph, b: Graph, code: seq<nat>, next: nat)
    requires Renumbered(a, b, code, next)
    ensures AllCoded(code, Roots(a))
  {
    hide CodedLit, Coding, NewAnds, FreshKinds;
    JusticeCoded(code, a.justice, b.justice);
    forall k | 0 <= k < |Latches(a.latches)| ensures CodedLit(code, Latches(a.latches)[k]) {
      var i := k / 2;
      assert k == 2 * i || k == 2 * i + 1;
      assert CodedLit(code, a.latches[i].next) && CodedLit(code, a.latches[i].reset);
    }
  }

  lemma ConstantNoGate(a: Graph)
    requires Typed(a)
    ensures !IsGate(a, 0)
  {}

  lemma KeptGate(a: Graph, b: Graph, code: seq<nat>, next: nat, v: nat)
    requires Renumbered(a, b, code, next) && v <= a.maxvar && IsGate(a, v)
    ensures 2 * v < |code|
    ensures Coded(code, v) <==> exists j :: 0 <= j < |b.ands| && b.ands[j].lhs == code[2 * v]
  {
    hide Roots, LeavesCoded, GatesCoded, ConeOnly, HasCode;
    if Coded(code, v) {
      NewGate(a, b, code, next, v);
    }
    forall j | 0 <= j < |b.ands| ensures b.ands[j].lhs > 0 { NewDescends(a, b, code, next, j); }
  }

  // ------------------------------------------------------- a graph that is left alone

  lemma {:induction false} RankIrrelevant(a: Graph, ra: nat -> nat, rb: nat -> nat, ins: seq<bool>, ls: seq<bool>, v: nat)
    requires Legal(a) && Ranked(a, ra) && Ranked(a, rb) && |ins| == |a.inputs| && |ls| == |a.latches| && v <= a.maxvar
    ensures VarValue(a, ra, ins, ls, v) == VarValue(a, rb, ins, ls, v)
    decreases (if IsGate(a, v) then 1 + ra(v) else 0)
  {
    if IsGate(a, v) {
      GateValue(a, ra, ins, ls, v);
      GateValue(a, rb, ins, ls, v);
      var g := a.ands[a.kinds[v].idx];
      assert Var(g.rhs0) in Kids(a, v) && Var(g.rhs1) in Kids(a, v);
      RankIrrelevant(a, ra, rb, ins, ls, Var(g.rhs0));
      RankIrrelevant(a, ra, rb, ins, ls, Var(g.rhs1));
    }
  }

  lemma SameList(a: Graph, ra: nat -> nat, rb: nat -> nat, xs: seq<nat>)
    requires Legal(a) && Ranked(a, ra) && Ranked(a, rb) && AllDefined(a, xs)
    ensures SameValues(a, ra, a, rb, xs, xs)
  {
    forall i, ins: seq<bool>, ls: seq<bool> | 0 <= i < |xs| && |ins| == |a.inputs| && |ls| == |a.latches|
      ensures Value(a, rb, ins, ls, xs[i]) == Value(a, ra, ins, ls, xs[i])
    {
      RankIrrelevant(a, ra, rb, ins, ls, Var(xs[i]));
    }
  }

  lemma SameGraph(a: Graph, ra: nat -> nat, rb: nat -> nat)
    requires Legal(a) && Ranked(a, ra) && Ranked(a, rb)
    ensures SameMeaning(a, ra, a, rb)
  {
    hide SameValues, AllDefined, Typed;
    LegalRoots(a);
    SameList(a, ra, rb, Nexts(a.latches));
    SameList(a, ra, rb, Resets(a.latches));
    SameList(a, ra, rb, a.outputs);
    SameList(a, ra, rb, a.bad);
    SameList(a, ra, rb, a.constraints);
    SameList(a, ra, rb, a.fairness);
    forall i | 0 <= i < |a.justice| ensures SameValues(a, ra, a, rb, a.justice[i], a.justice[i]) {
      SameList(a, ra, rb, a.justice[i]);
    }
  }

  /** A re-encoded graph without cycles is ranked by its numbering. */
  lemma ReencodedRanked(a: Graph, rank: nat -> nat)
    requires Legal(a) && Ranked(a, rank) && Reencoded(a)
    ensures Ranked(a, Self)
  {
    forall v: nat, c: nat | IsGate(a, v) && c in Kids(a, v) && IsGate(a, c) ensures Self(c) < Self(v) {
      var g := a.ands[a.kinds[v].idx];
      assert c <= v;
      assert rank(c) < rank(v);
    }
  }
}
