/** And-inverter graphs as the AIGER library stores them, and the values of their literals. */
module Aig {

  /** Literal 2v stands for variable v, literal 2v + 1 for its negation; variable 0 is false. */
  function Var(lit: nat): nat { lit / 2 }

  function Negative(lit: nat): bool { lit % 2 == 1 }

  datatype And = And(lhs: nat, rhs0: nat, rhs1: nat)

  datatype Latch = Latch(lit: nat, next: nat, reset: nat)

  /** The exclusive type flags of a variable, with the index of its definition. */
  datatype Kind = Undefined | Input(idx: nat) | Latched(idx: nat) | Gate(idx: nat)

  datatype Graph = Graph(maxvar: nat, inputs: seq<nat>, latches: seq<Latch>, outputs: seq<nat>, bad: seq<nat>,
                         constraints: seq<nat>, justice: seq<seq<nat>>, fairness: seq<nat>,
                         ands: seq<And>, kinds: seq<Kind>)

  ghost predicate IsGate(a: Graph, v: nat) {
    v <= a.maxvar < |a.kinds| && a.kinds[v].Gate?
  }

  ghost predicate Defined(a: Graph, lit: nat) {
    Var(lit) == 0 || (Var(lit) <= a.maxvar < |a.kinds| && a.kinds[Var(lit)] != Undefined)
  }

  /** The literal of a definition: positive and not the constant. */
  ghost predicate Fresh(a: Graph, lit: nat, kind: Kind) {
    lit % 2 == 0 && 0 < Var(lit) <= a.maxvar < |a.kinds| && a.kinds[Var(lit)] == kind
  }

  /** Type flags and definitions belong together. */
  ghost predicate Typed(a: Graph) {
    && |a.kinds| > a.maxvar && a.kinds[0] == Undefined
    && (forall i :: 0 <= i < |a.inputs| ==> Fresh(a, a.inputs[i], Input(i)))
    && (forall i :: 0 <= i < |a.latches| ==> Fresh(a, a.latches[i].lit, Latched(i)))
    && (forall i :: 0 <= i < |a.ands| ==> Fresh(a, a.ands[i].lhs, Gate(i)))
    && (forall v :: 0 <= v <= a.maxvar ==>
          match a.kinds[v]
          case Undefined => true
          case Input(i) => i < |a.inputs| && a.inputs[i] == 2 * v
          case Latched(i) => i < |a.latches| && a.latches[i].lit == 2 * v
          case Gate(i) => i < |a.ands| && a.ands[i].lhs == 2 * v)
  }

  ghost predicate AllDefined(a: Graph, lits: seq<nat>) {
    forall i :: 0 <= i < |lits| ==> Defined(a, lits[i])
  }

  ghost function Latches(ls: seq<Latch>): (lits: seq<nat>)
    ensures |lits| == 2 * |ls|
    ensures forall i :: 0 <= i < |ls| ==> lits[2 * i] == ls[i].next && lits[2 * i + 1] == ls[i].reset
  {
    if ls == [] then [] else Latches(ls[..|ls| - 1]) + [ls[|ls| - 1].next, ls[|ls| - 1].reset]
  }

  ghost function Flatten(s: seq<seq<nat>>): seq<nat> {
    if s == [] then [] else Flatten(s[..|s| - 1]) + s[|s| - 1]
  }

  /** The literals the graph is kept for, in the order in which they are visited. */
  ghost function Roots(a: Graph): seq<nat> {
    Latches(a.latches) + a.outputs + a.bad + a.constraints + Flatten(a.justice) + a.fairness
  }

  /** A graph that `aiger_check` accepts, apart from cycles. */
  ghost predicate Legal(a: Graph) {
    && Typed(a)
    && (forall i :: 0 <= i < |a.ands| ==> Defined(a, a.ands[i].rhs0) && Defined(a, a.ands[i].rhs1))
    && AllDefined(a, Roots(a))
  }

  /** The variables on the right-hand side of gate v. */
  ghost function Kids(a: Graph, v: nat): set<nat>
    requires Typed(a)
  {
    if IsGate(a, v) then {Var(a.ands[a.kinds[v].idx].rhs0), Var(a.ands[a.kinds[v].idx].rhs1)} else {}
  }

  /** Gates come after what they are made of. */
  ghost predicate Ranked(a: Graph, rank: nat -> nat) {
    && Typed(a)
    && forall v, c :: IsGate(a, v) && c in Kids(a, v) && IsGate(a, c) ==> rank(c) < rank(v)
  }

  /** Every step goes from a gate to a variable on its right-hand side. */
  ghost predicate GatePath(a: Graph, p: seq<nat>) {
    Typed(a) && forall i :: 0 <= i < |p| - 1 ==> IsGate(a, p[i]) && p[i + 1] in Kids(a, p[i])
  }

  /** Some gate reaches itself. */
  ghost predicate Cyclic(a: Graph) {
    exists p: seq<nat> :: |p| > 1 && GatePath(a, p) && p[0] == p[|p| - 1]
  }

  lemma {:induction false} PathDescends(a: Graph, rank: nat -> nat, p: seq<nat>, i: nat)
    requires Ranked(a, rank) && GatePath(a, p) && 0 < i < |p| && IsGate(a, p[|p| - 1])
    ensures rank(p[i]) < rank(p[0])
    decreases i
  {
    assert IsGate(a, p[i - 1]) && p[i] in Kids(a, p[i - 1]);
    assert IsGate(a, p[i]) by { if i < |p| - 1 { assert IsGate(a, p[i]); } }
    if i > 1 { PathDescends(a, rank, p, i - 1); }
  }

  /** A graph with ranks has no cycle. */
  lemma RankedIsAcyclic(a: Graph, rank: nat -> nat)
    requires Ranked(a, rank)
    ensures !Cyclic(a)
  {
    forall p: seq<nat> | |p| > 1 && GatePath(a, p) ensures p[0] != p[|p| - 1] {
      assert IsGate(a, p[0]);
      if IsGate(a, p[|p| - 1]) { PathDescends(a, rank, p, |p| - 1); }
    }
  }

  // ------------------------------------------------------- values

  /** The value of a variable under values of the inputs and of the latches. */
  ghost function VarValue(a: Graph, rank: nat -> nat, ins: seq<bool>, ls: seq<bool>, v: nat): bool
    requires Legal(a) && Ranked(a, rank) && |ins| == |a.inputs| && |ls| == |a.latches| && v <= a.maxvar
    decreases (if IsGate(a, v) then 1 + rank(v) else 0)
  {
    match a.kinds[v]
    case Undefined => false
    case Input(i) => ins[i]
    case Latched(i) => ls[i]
    case Gate(i) =>
      var g := a.ands[i];
      assert IsGate(a, v) && Defined(a, g.rhs0) && Defined(a, g.rhs1);
      assert Var(g.rhs0) in Kids(a, v) && Var(g.rhs1) in Kids(a, v);
      && (VarValue(a, rank, ins, ls, Var(g.rhs0)) != Negative(g.rhs0))
      && (VarValue(a, rank, ins, ls, Var(g.rhs1)) != Negative(g.rhs1))
  }

  ghost function Value(a: Graph, rank: nat -> nat, ins: seq<bool>, ls: seq<bool>, lit: nat): bool
    requires Legal(a) && Ranked(a, rank) && |ins| == |a.inputs| && |ls| == |a.latches| && Defined(a, lit)
  {
    VarValue(a, rank, ins, ls, Var(lit)) != Negative(lit)
  }

  // ------------------------------------------------------- depth-first search with a sentinel

  /** A gate whose operands are being visited, with the entries above its sentinel. */
  datatype Frame = Frame(gate: nat, pending: seq<nat>)

  /** The stack: entries, then for each frame the gate, the sentinel 0 and the pending entries. */
  ghost function Flat(base: seq<nat>, frames: seq<Frame>): seq<nat> {
    if frames == [] then base
    else Flat(base, frames[..|frames| - 1]) + [frames[|frames| - 1].gate, 0] + frames[|frames| - 1].pending
  }

  /** The gates whose frame is open. */
  ghost predicate OnFrame(frames: seq<Frame>, v: nat) {
    exists i :: 0 <= i < |frames| && frames[i].gate == v
  }

  ghost predicate AllPositive(s: seq<nat>) {
    forall i :: 0 <= i < |s| ==> s[i] > 0
  }

  ghost predicate Layout(stack: seq<nat>, base: seq<nat>, frames: seq<Frame>) {
    && stack == Flat(base, frames) && AllPositive(base)
    && forall i :: 0 <= i < |frames| ==> frames[i].gate > 0 && AllPositive(frames[i].pending)
  }

  /** The entries above the last sentinel. */
  ghost function Top(base: seq<nat>, frames: seq<Frame>): seq<nat> {
    if frames == [] then base else frames[|frames| - 1].pending
  }

  /** The same stack without its top entry. */
  ghost function PopBase(base: seq<nat>, frames: seq<Frame>): seq<nat>
    requires Top(base, frames) != []
  {
    if frames == [] then base[..|base| - 1] else base
  }

  ghost function PopFrames(base: seq<nat>, frames: seq<Frame>): seq<Frame>
    requires Top(base, frames) != []
  {
    if frames == [] then []
    else
      var f := frames[|frames| - 1];
      frames[|frames| - 1 := f.(pending := f.pending[..|f.pending| - 1])]
  }

  /** What the top of the stack is. */
  lemma TopEntry(stack: seq<nat>, base: seq<nat>, frames: seq<Frame>)
    requires Layout(stack, base, frames)
    ensures stack == [] <==> base == [] && frames == []
    ensures stack != [] && stack[|stack| - 1] > 0 <==> Top(base, frames) != []
    ensures Top(base, frames) != [] ==> stack[|stack| - 1] == Top(base, frames)[|Top(base, frames)| - 1]
    ensures stack != [] && stack[|stack| - 1] == 0 ==>
              && frames != [] && |stack| >= 2 && stack[|stack| - 2] == frames[|frames| - 1].gate
              && frames[|frames| - 1].pending == []
  {
    if frames != [] {
      var f := frames[|frames| - 1];
      assert stack == Flat(base, frames[..|frames| - 1]) + [f.gate, 0] + f.pending;
      if f.pending == [] { assert stack == Flat(base, frames[..|frames| - 1]) + [f.gate, 0]; }
    }
  }

  lemma PopLayout(stack: seq<nat>, base: seq<nat>, frames: seq<Frame>)
    requires Layout(stack, base, frames) && Top(base, frames) != []
    ensures stack != [] && Layout(stack[..|stack| - 1], PopBase(base, frames), PopFrames(base, frames))
    ensures Flat(PopBase(base, frames), PopFrames(base, frames)) == stack[..|stack| - 1]
  {
    if frames != [] {
      var f := frames[|frames| - 1];
      var g := PopFrames(base, frames);
      assert g[..|g| - 1] == frames[..|frames| - 1];
      assert stack == Flat(base, frames[..|frames| - 1]) + [f.gate, 0] + f.pending;
    }
  }

  /** Opening a frame on top. */
  lemma PushLayout(stack: seq<nat>, base: seq<nat>, frames: seq<Frame>, f: Frame)
    requires Layout(stack, base, frames) && f.gate > 0 && AllPositive(f.pending)
    ensures Layout(stack + [f.gate, 0] + f.pending, base, frames + [f])
  {
    assert (frames + [f])[..|frames|] == frames;
  }

  /** Closing the top frame. */
  lemma CloseLayout(stack: seq<nat>, base: seq<nat>, frames: seq<Frame>)
    requires Layout(stack, base, frames) && frames != [] && frames[|frames| - 1].pending == []
    ensures |stack| >= 2 && Layout(stack[..|stack| - 2], base, frames[..|frames| - 1])
  {
    var f := frames[|frames| - 1];
    assert stack == Flat(base, frames[..|frames| - 1]) + [f.gate, 0];
  }
}
