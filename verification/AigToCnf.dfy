/** The translation of a single-output graph into clauses that only say what the polarities of its gates require. */
module AigToCnf {
  import opened Aig
  import opened AigReencode
  import opened AigRenumber
  import AigBinary
  import opened Aiger
  import opened Dqbf

  /** What is written: the two numbers of the header and the clauses. */
  datatype Cnf = Cnf(vars: nat, count: nat, clauses: seq<Clause>)

  datatype Refusal = HasLatches | HasBad | HasConstraints | NoOutput | ManyOutputs

  /** `number` gives a literal its number; it is empty when the output is constant. */
  datatype Outcome = Refused(reason: Refusal) | Written(cnf: Cnf, number: seq<int>)

  function Flip(lit: nat): nat { if lit % 2 == 0 then lit + 1 else lit - 1 }

  // ------------------------------------------------------- what the translation is for

  /** The number of an input, or 0. */
  function InputName(number: seq<int>, i: nat): int {
    if 2 * (i + 1) < |number| then number[2 * (i + 1)] else 0
  }

  ghost predicate Agree(val: Valuation, number: seq<int>, ins: seq<bool>) {
    forall i :: 0 <= i < |ins| && InputName(number, i) != 0 ==> val(InputName(number, i)) == ins[i]
  }

  /** The inputs with a number have different ones. */
  ghost predicate NamesDiffer(number: seq<int>, n: nat) {
    && (forall i :: 0 <= i < n ==> InputName(number, i) >= 0)
    && (forall i, j :: 0 <= i < j < n && InputName(number, i) != 0 ==> InputName(number, i) != InputName(number, j))
  }

  ghost predicate Mentions(f: seq<Clause>, k: int) {
    exists i, j :: 0 <= i < |f| && 0 <= j < |f[i]| && Abs(f[i][j]) == k
  }

  /** The header tells the number of clauses and the variables 1 to vars, which all occur. */
  ghost predicate HeaderFits(cnf: Cnf) {
    && cnf.count == |cnf.clauses|
    && (forall i, j :: 0 <= i < |cnf.clauses| && 0 <= j < |cnf.clauses[i]| ==>
          1 <= Abs(cnf.clauses[i][j]) <= cnf.vars)
    && (forall k :: 1 <= k <= cnf.vars ==> Mentions(cnf.clauses, k))
  }

  ghost predicate Models(cnf: Cnf, number: seq<int>, ins: seq<bool>, val: Valuation) {
    AllSat(val, cnf.clauses) && Agree(val, number, ins)
  }

  /** The models, seen on the inputs, are the input values for which the output is true. */
  ghost predicate Encodes(a: Graph, rank: nat -> nat, cnf: Cnf, number: seq<int>)
    requires Legal(a) && Ranked(a, rank) && a.latches == [] && |a.outputs| == 1 && Defined(a, a.outputs[0])
  {
    forall ins: seq<bool> :: |ins| == |a.inputs| ==>
      (Value(a, rank, ins, [], a.outputs[0]) <==> exists val :: Models(cnf, number, ins, val))
  }

  // ------------------------------------------------------- references

  /** A re-encoded graph with one output that is not constant. */
  ghost predicate Convertible(a: Graph) {
    Legal(a) && Ranked(a, Self) && Reencoded(a) && a.latches == [] && |a.outputs| == 1 && a.outputs[0] >= 2
  }

  ghost predicate Below(a: Graph, lit: nat) { lit < 2 * (a.maxvar + 1) }

  lemma GateShape(a: Graph, j: nat)
    requires Convertible(a) && j < |a.ands|
    ensures var g := a.ands[j];
            && g.lhs == 2 * (|a.inputs| + 1 + j) && Below(a, g.lhs) && IsGate(a, Var(g.lhs)) && a.kinds[Var(g.lhs)] == Gate(j)
            && g.rhs0 < g.lhs && g.rhs1 < g.lhs && Defined(a, g.rhs0) && Defined(a, g.rhs1)
  {
    var g := a.ands[j];
    assert Fresh(a, g.lhs, Gate(j)) && IsGate(a, Var(g.lhs));
    assert Defined(a, g.rhs0) && Defined(a, g.rhs1);
    NotItself(a, j, Var(g.rhs0));
    NotItself(a, j, Var(g.rhs1));
  }

  lemma NotItself(a: Graph, j: nat, c: nat)
    requires Convertible(a) && j < |a.ands| && (c == Var(a.ands[j].rhs0) || c == Var(a.ands[j].rhs1))
    ensures c != Var(a.ands[j].lhs)
  {
    var v := Var(a.ands[j].lhs);
    assert Fresh(a, a.ands[j].lhs, Gate(j)) && IsGate(a, v) && c in Kids(a, v);
    assert IsGate(a, c) ==> Self(c) < Self(v);
  }

  function Bump(refs: seq<nat>, lit: nat): seq<nat> {
    if lit < |refs| then refs[lit := refs[lit] + 1] else refs
  }

  /** Pass the references of both literals of a gate on to its operands. */
  function BumpGate(refs: seq<nat>, g: And): seq<nat> {
    if g.lhs + 1 < |refs| then
      var r := if refs[g.lhs] > 0 then Bump(Bump(refs, g.rhs0), g.rhs1) else refs;
      if r[g.lhs + 1] > 0 then Bump(Bump(r, Flip(g.rhs0)), Flip(g.rhs1)) else r
    else refs
  }

  /** Literal lit is needed because gate g has references. */
  ghost predicate NeededBy(refs: seq<nat>, g: And, lit: nat)
    requires g.lhs + 1 < |refs|
  {
    || (refs[g.lhs] > 0 && (lit == g.rhs0 || lit == g.rhs1))
    || (refs[g.lhs + 1] > 0 && (lit == Flip(g.rhs0) || lit == Flip(g.rhs1)))
  }

  ghost predicate Needed(a: Graph, refs: seq<nat>, i: nat, lit: nat)
    requires |refs| == 2 * (a.maxvar + 1)
  {
    lit in a.outputs
    || exists j :: i <= j < |a.ands| && a.ands[j].lhs + 1 < |refs| && NeededBy(refs, a.ands[j], lit)
  }

  /** The literals with a reference are the output and what the gates from i on need. */
  ghost predicate Counted(a: Graph, refs: seq<nat>, i: nat) {
    && |refs| == 2 * (a.maxvar + 1)
    && forall lit: nat :: lit < |refs| ==> (refs[lit] > 0 <==> Needed(a, refs, i, lit))
  }

  lemma BumpGateAt(refs: seq<nat>, g: And, lit: nat)
    requires g.lhs % 2 == 0 && g.rhs0 < g.lhs && g.rhs1 < g.lhs && g.lhs + 1 < |refs| && lit < |refs|
    ensures |BumpGate(refs, g)| == |refs|
    ensures BumpGate(refs, g)[lit] > 0 <==> refs[lit] > 0 || NeededBy(refs, g, lit)
    ensures lit >= g.lhs ==> BumpGate(refs, g)[lit] == refs[lit]
  {}

  lemma NeededStays(a: Graph, refs: seq<nat>, i: nat, j: nat, lit: nat)
    requires Convertible(a) && |refs| == 2 * (a.maxvar + 1) && i <= j < |a.ands| && Below(a, lit)
    requires a.ands[i].lhs + 1 < |refs| && a.ands[j].lhs + 1 < |refs|
    ensures |BumpGate(refs, a.ands[i])| == |refs|
    ensures NeededBy(BumpGate(refs, a.ands[i]), a.ands[j], lit) == NeededBy(refs, a.ands[j], lit)
  {
    hide Convertible, BumpGate;
    GateShape(a, i);
    GateShape(a, j);
    BumpGateAt(refs, a.ands[i], a.ands[j].lhs);
    BumpGateAt(refs, a.ands[i], a.ands[j].lhs + 1);
  }

  lemma CountStep(a: Graph, refs: seq<nat>, i: nat)
    requires Convertible(a) && i < |a.ands| && Counted(a, refs, i + 1)
    ensures Counted(a, BumpGate(refs, a.ands[i]), i)
  {
    var g, r := a.ands[i], BumpGate(refs, a.ands[i]);
    forall j | 0 <= j < |a.ands| ensures a.ands[j].lhs + 1 < |refs| { GateShape(a, j); }
    GateShape(a, i);
    hide Convertible, BumpGate, NeededBy;
    BumpGateAt(refs, g, 0);
    forall lit: nat | lit < |refs| ensures r[lit] > 0 <==> Needed(a, r, i, lit) {
      BumpGateAt(refs, g, lit);
      forall j | i <= j < |a.ands| ensures NeededBy(r, a.ands[j], lit) == NeededBy(refs, a.ands[j], lit) {
        NeededStays(a, refs, i, j, lit);
      }
      NeededNext(a, refs, r, i, lit);
    }
  }

  lemma NeededNext(a: Graph, refs: seq<nat>, r: seq<nat>, i: nat, lit: nat)
    requires |r| == |refs| == 2 * (a.maxvar + 1) && i < |a.ands|
    requires forall j :: 0 <= j < |a.ands| ==> a.ands[j].lhs + 1 < |refs|
    requires forall j :: i <= j < |a.ands| ==> NeededBy(r, a.ands[j], lit) == NeededBy(refs, a.ands[j], lit)
    ensures Needed(a, r, i, lit) <==> Needed(a, refs, i + 1, lit) || NeededBy(refs, a.ands[i], lit)
  {
    hide NeededBy;
  }

  /** The literal is the output, or an operand that a carried literal of a gate needs with this sign. */
  ghost predicate Carried(a: Graph, lit: nat)
    decreases 2 * (a.maxvar + 1) - lit
  {
    && Below(a, lit)
    && (lit in a.outputs || exists j :: 0 <= j < |a.ands| && lit < a.ands[j].lhs && CarriedBy(a, a.ands[j], lit))
  }

  ghost predicate CarriedBy(a: Graph, g: And, lit: nat)
    requires lit < g.lhs
    decreases 2 * (a.maxvar + 1) - lit, 0
  {
    && Below(a, lit)
    && (((lit == g.rhs0 || lit == g.rhs1) && Carried(a, g.lhs))
        || ((lit == Flip(g.rhs0) || lit == Flip(g.rhs1)) && Carried(a, g.lhs + 1)))
  }

  /** The literals with references are those that paths of signed operands lead to from the output. */
  lemma {:induction false} CountedIsCarried(a: Graph, refs: seq<nat>, lit: nat)
    requires Convertible(a) && Counted(a, refs, 0) && lit < |refs|
    ensures refs[lit] > 0 <==> Carried(a, lit)
    decreases |refs| - lit
  {
    hide Convertible;
    assert refs[lit] > 0 <==> Needed(a, refs, 0, lit);
    forall j | 0 <= j < |a.ands|
      ensures a.ands[j].lhs + 1 < |refs|
      ensures NeededBy(refs, a.ands[j], lit) <==> lit < a.ands[j].lhs && CarriedBy(a, a.ands[j], lit)
    {
      GateShape(a, j);
      if lit < a.ands[j].lhs {
        CountedIsCarried(a, refs, a.ands[j].lhs);
        CountedIsCarried(a, refs, a.ands[j].lhs + 1);
        hide Counted, Carried;
      }
    }
    hide Counted, NeededBy, CarriedBy;
  }

  lemma CountStart(a: Graph, refs: seq<nat>)
    requires |refs| == 2 * (a.maxvar + 1) && |a.outputs| == 1
    requires forall lit: nat :: lit < |refs| ==> (refs[lit] > 0 <==> lit == a.outputs[0])
    ensures Counted(a, refs, |a.ands|)
  {}

  method CountRefs(ands: seq<And>, maxvar: nat, out: nat, ghost a: Graph) returns (refs: array<nat>)
    requires Convertible(a) && ands == a.ands && maxvar == a.maxvar && out == a.outputs[0]
    ensures fresh(refs) && Counted(a, refs[..], 0)
  {
    OutputBelow(a);
    refs := new nat[2 * (maxvar + 1)](_ => 0);
    refs[out] := refs[out] + 1;
    CountStart(a, refs[..]);
    var i := |ands|;
    while i > 0
      invariant 0 <= i <= |ands| && Counted(a, refs[..], i) && refs.Length == 2 * (maxvar + 1)
    {
      i := i - 1;
      GateShape(a, i);
      CountStep(a, refs[..], i);
      CountGate(refs, ands[i]);
    }
  }

  method CountGate(refs: array<nat>, g: And)
    requires g.lhs % 2 == 0 && g.rhs0 < g.lhs && g.rhs1 < g.lhs && g.lhs + 1 < refs.Length
    modifies refs
    ensures refs[..] == BumpGate(old(refs[..]), g)
  {
    if refs[g.lhs] > 0 {
      refs[g.rhs0] := refs[g.rhs0] + 1;
      refs[g.rhs1] := refs[g.rhs1] + 1;
    }
    if refs[g.lhs + 1] > 0 {
      refs[Flip(g.rhs0)] := refs[Flip(g.rhs0)] + 1;
      refs[Flip(g.rhs1)] := refs[Flip(g.rhs1)] + 1;
    }
  }

  lemma OutputBelow(a: Graph)
    requires Convertible(a)
    ensures |a.outputs| == 1 && Defined(a, a.outputs[0]) && Below(a, a.outputs[0])
  {
    RootLists(a);
  }

  // ------------------------------------------------------- numbers

  ghost predicate Used(refs: seq<nat>, v: nat) {
    2 * v + 1 < |refs| && (refs[2 * v] > 0 || refs[2 * v + 1] > 0)
  }

  /** The number of a variable; that of the constant stands for true. */
  ghost function Name(number: seq<int>, v: nat): int
    requires 2 * v + 1 < |number|
  {
    if v == 0 then number[1] else number[2 * v]
  }

  ghost predicate NamedTo(refs: seq<nat>, number: seq<int>, v: nat, m: nat)
    requires |number| == |refs| && 2 * v <= |number|
  {
    && (forall u: nat :: u < v ==> number[2 * u] == -number[2 * u + 1] && 0 <= Name(number, u) <= m)
    && (forall u: nat :: u < v ==> (Name(number, u) > 0 <==> Used(refs, u)))
  }

  ghost predicate NamesRise(number: seq<int>, v: nat)
    requires 2 * v <= |number|
  {
    forall u: nat, w: nat :: u < w < v && Name(number, u) > 0 && Name(number, w) > 0 ==> Name(number, u) < Name(number, w)
  }

  ghost predicate NamesFill(number: seq<int>, v: nat, m: nat)
    requires 2 * v <= |number|
  {
    forall k :: 1 <= k <= m ==> Names(number, v, k)
  }

  ghost predicate Names(number: seq<int>, v: nat, k: int)
    requires 2 * v <= |number|
  {
    exists u: nat :: u < v && Name(number, u) == k
  }

  /** The variables below v have numbers from 1 to m if they have references, and none otherwise. */
  ghost predicate Numbered(refs: seq<nat>, number: seq<int>, v: nat, m: nat) {
    && |number| == |refs| && 2 * v <= |number|
    && NamedTo(refs, number, v, m) && NamesRise(number, v) && NamesFill(number, v, m)
    && forall lit :: 2 * v <= lit < |number| ==> number[lit] == 0
  }

  lemma NumberNext(refs: seq<nat>, number: seq<int>, v: nat, m: nat)
    requires Numbered(refs, number, v, m) && 2 * v + 1 < |number| && Used(refs, v) && v > 0
    ensures Numbered(refs, number[2 * v := m + 1][2 * v + 1 := -(m + 1)], v + 1, m + 1)
  {
    var w, t := v + 1, number[2 * v := m + 1][2 * v + 1 := -(m + 1)];
    assert forall u: nat :: u < v ==> Name(t, u) == Name(number, u) && t[2 * u] == number[2 * u] && t[2 * u + 1] == number[2 * u + 1];
    assert Name(t, v) == m + 1;
    forall k | 1 <= k <= m + 1 ensures Names(t, w, k) {
      if k <= m {
        assert Names(number, v, k);
        var u: nat :| u < v && Name(number, u) == k;
        assert Name(t, u) == k;
      }
    }
  }

  lemma NumberSkip(refs: seq<nat>, number: seq<int>, v: nat, m: nat)
    requires Numbered(refs, number, v, m) && 2 * v + 1 < |number| && !Used(refs, v)
    ensures Numbered(refs, number, v + 1, m)
  {
    assert Name(number, v) == 0;
    var w := v + 1;
    forall k | 1 <= k <= m ensures Names(number, w, k) {
      assert Names(number, v, k);
      var u: nat :| u < v && Name(number, u) == k;
    }
  }

  lemma NumberFirst(refs: seq<nat>, number: seq<int>)
    requires |number| == |refs| >= 2 && forall lit :: 2 <= lit < |number| ==> number[lit] == 0
    requires number[1] == (if Used(refs, 0) then 1 else 0) && number[0] == -number[1]
    ensures Numbered(refs, number, 1, number[1])
  {
    assert Name(number, 0) == number[1];
  }

  /** How many clauses the first i gates give. */
  function GateCount(refs: seq<nat>, ands: seq<And>, i: nat): nat
    requires i <= |ands|
  {
    if i == 0 then 0
    else GateCount(refs, ands, i - 1) + ClauseCount(refs, ands[i - 1].lhs)
  }

  function ClauseCount(refs: seq<nat>, lit: nat): nat {
    if lit + 1 < |refs| then (if refs[lit] > 0 then 2 else 0) + (if refs[lit + 1] > 0 then 1 else 0) else 0
  }

  /** Inputs come first, then gates. */
  function LeafOrGate(a: Graph, v: nat): Kind
    requires v > 0
  {
    if v <= |a.inputs| then Input(v - 1) else Gate(v - |a.inputs| - 1)
  }

  /** Every referenced variable but the constant is an input or a gate. */
  lemma NoStray(a: Graph, refs: seq<nat>, v: nat)
    requires Convertible(a) && Counted(a, refs, 0) && Used(refs, v) && v > 0
    ensures v <= |a.inputs| + |a.ands| && a.kinds[v] == LeafOrGate(a, v)
  {
    hide Convertible, Counted;
    var lit := if refs[2 * v] > 0 then 2 * v else 2 * v + 1;
    NeededDefined(a, refs, lit);
    KindOf(a, v);
  }

  lemma NeededDefined(a: Graph, refs: seq<nat>, lit: nat)
    requires Convertible(a) && Counted(a, refs, 0) && lit < |refs| && refs[lit] > 0
    ensures Defined(a, lit)
  {
    hide Convertible;
    OutputBelow(a);
    if lit !in a.outputs {
      var j :| 0 <= j < |a.ands| && a.ands[j].lhs + 1 < |refs| && NeededBy(refs, a.ands[j], lit);
      GateShape(a, j);
      FlipVar(a.ands[j].rhs0);
      FlipVar(a.ands[j].rhs1);
    }
  }

  lemma FlipVar(lit: nat)
    ensures Var(Flip(lit)) == Var(lit) && Negative(Flip(lit)) != Negative(lit)
  {}

  lemma KindOf(a: Graph, v: nat)
    requires Convertible(a) && 0 < v <= a.maxvar && a.kinds[v] != Undefined
    ensures v <= |a.inputs| + |a.ands| && a.kinds[v] == LeafOrGate(a, v)
  {
    match a.kinds[v]
    case Input(i) => assert a.inputs[i] == 2 * v;
    case Latched(i) =>
    case Gate(i) => assert a.ands[i].lhs == 2 * v;
  }

  lemma CountRises(refs: seq<nat>, ands: seq<And>, i: nat)
    requires i < |ands|
    ensures GateCount(refs, ands, i + 1) == GateCount(refs, ands, i) + ClauseCount(refs, ands[i].lhs)
  {}

  /** Gates that come before variable v. */
  function GatesBefore(a: Graph, v: nat): (n: nat)
    ensures n <= |a.ands|
  {
    if v <= |a.inputs| then 0
    else if v <= |a.inputs| + |a.ands| then v - |a.inputs| - 1
    else |a.ands|
  }

  /** What the next variable adds to the number of clauses. */
  lemma NextCount(a: Graph, refs: seq<nat>, v: nat)
    requires Convertible(a) && Counted(a, refs, 0) && 0 < v <= a.maxvar
    ensures GateCount(refs, a.ands, GatesBefore(a, v + 1)) ==
            GateCount(refs, a.ands, GatesBefore(a, v))
            + (if v <= |a.inputs| || !Used(refs, v) then 0 else ClauseCount(refs, 2 * v))
  {
    hide Convertible, Counted, GateCount;
    if Used(refs, v) { NoStray(a, refs, v); }
    if |a.inputs| < v <= |a.inputs| + |a.ands| {
      GateShape(a, v - |a.inputs| - 1);
      CountRises(refs, a.ands, v - |a.inputs| - 1);
    }
  }

  lemma CountedSize(a: Graph, refs: seq<nat>)
    requires Counted(a, refs, 0)
    ensures |refs| == 2 * (a.maxvar + 1) && GateCount(refs, a.ands, 0) == 0
  {}

  lemma GatesInRange(a: Graph)
    requires Convertible(a)
    ensures |a.inputs| + |a.ands| <= a.maxvar
  {
    AigBinary.LastInRange(a);
  }

  method NumberVariables(refs: array<nat>, maxvar: nat, inputs: nat, ghost a: Graph)
    returns (number: array<int>, m: nat, n: nat)
    requires Convertible(a) && Counted(a, refs[..], 0) && maxvar == a.maxvar && inputs == |a.inputs|
    ensures fresh(number) && Numbered(refs[..], number[..], maxvar + 1, m)
    ensures n == 1 + (if Used(refs[..], 0) then 1 else 0) + GateCount(refs[..], a.ands, |a.ands|)
  {
    hide Convertible, Counted, NamedTo, NamesRise, NamesFill, GateCount;
    CountedSize(a, refs[..]);
    number := new int[2 * (maxvar + 1)](_ => 0);
    m, n := 0, 1;
    if refs[0] > 0 || refs[1] > 0 {
      number[0], number[1] := -1, 1;
      m := m + 1;
      n := n + 1;
    }
    ghost var first := n;
    NumberFirst(refs[..], number[..]);
    var lit := 2;
    while lit <= 2 * maxvar
      invariant lit % 2 == 0 && 2 <= lit <= 2 * maxvar + 2 && number.Length == refs.Length == 2 * (maxvar + 1)
      invariant Numbered(refs[..], number[..], lit / 2, m)
      invariant n == first + GateCount(refs[..], a.ands, GatesBefore(a, lit / 2))
    {
      ghost var v := lit / 2;
      NextCount(a, refs[..], v);
      if refs[lit] > 0 || refs[lit + 1] > 0 {
        NumberNext(refs[..], number[..], v, m);
        m := m + 1;
        var k: int := m;
        number[lit] := k;
        number[lit + 1] := -k;
        if lit > 2 * inputs + 1 {
          if refs[lit] > 0 { n := n + 2; }
          if refs[lit + 1] > 0 { n := n + 1; }
        }
      } else {
        NumberSkip(refs[..], number[..], v, m);
      }
      lit := lit + 2;
    }
    GatesInRange(a);
  }

  // ------------------------------------------------------- clauses

  ghost predicate Within(g: And, n: nat) {
    g.lhs + 1 < n && g.rhs0 < g.lhs && g.rhs1 < g.lhs && g.lhs % 2 == 0
  }

  ghost predicate AllWithin(ands: seq<And>, n: nat) {
    forall j :: 0 <= j < |ands| ==> Within(ands[j], n)
  }

  /** Two clauses for the literal of a gate, one for its negation, each only if it is referenced. */
  function GateClauses(refs: seq<nat>, number: seq<int>, g: And): seq<Clause>
    requires Within(g, |refs|) && |number| == |refs|
  {
    (if refs[g.lhs] > 0 then [[number[g.lhs + 1], number[g.rhs1]], [number[g.lhs + 1], number[g.rhs0]]] else [])
    + (if refs[g.lhs + 1] > 0 then [[number[g.lhs], number[Flip(g.rhs1)], number[Flip(g.rhs0)]]] else [])
  }

  ghost function AndClauses(refs: seq<nat>, number: seq<int>, ands: seq<And>, i: nat): (f: seq<Clause>)
    requires AllWithin(ands, |refs|) && |number| == |refs| && i <= |ands|
    ensures |f| == GateCount(refs, ands, i)
  {
    if i == 0 then [] else AndClauses(refs, number, ands, i - 1) + GateClauses(refs, number, ands[i - 1])
  }

  ghost function Constants(refs: seq<nat>, number: seq<int>): seq<Clause>
    requires 2 <= |refs| == |number|
  {
    if Used(refs, 0) then [[number[1]]] else []
  }

  ghost function AllClauses(refs: seq<nat>, number: seq<int>, ands: seq<And>, out: nat): seq<Clause>
    requires AllWithin(ands, |refs|) && 2 <= |number| == |refs| && out < |refs|
  {
    Constants(refs, number) + AndClauses(refs, number, ands, |ands|) + [[number[out]]]
  }

  lemma AndClausesStart(refs: seq<nat>, number: seq<int>, ands: seq<And>)
    requires AllWithin(ands, |refs|) && |number| == |refs|
    ensures AndClauses(refs, number, ands, 0) == []
  {}

  lemma AndClausesNext(refs: seq<nat>, number: seq<int>, ands: seq<And>, i: nat)
    requires AllWithin(ands, |refs|) && |number| == |refs| && i < |ands|
    ensures AndClauses(refs, number, ands, i + 1)
            == AndClauses(refs, number, ands, i) + GateClauses(refs, number, ands[i])
  {}

  method EmitClauses(refs: array<nat>, number: array<int>, ands: seq<And>, out: nat) returns (clauses: seq<Clause>)
    requires AllWithin(ands, refs.Length) && 2 <= number.Length == refs.Length && out < refs.Length
    ensures clauses == AllClauses(refs[..], number[..], ands, out)
  {
    hide GateClauses, GateCount, AndClauses, Within, Flip;
    AndClausesStart(refs[..], number[..], ands);
    clauses := [];
    if refs[0] > 0 || refs[1] > 0 { clauses := clauses + [[number[1]]]; }
    assert clauses == Constants(refs[..], number[..]);
    for i := 0 to |ands|
      invariant clauses == Constants(refs[..], number[..]) + AndClauses(refs[..], number[..], ands, i)
    {
      AndClausesNext(refs[..], number[..], ands, i);
      clauses := EmitGate(refs, number, ands[i], clauses);
    }
    clauses := clauses + [[number[out]]];
  }

  method EmitGate(refs: array<nat>, number: array<int>, g: And, before: seq<Clause>) returns (clauses: seq<Clause>)
    requires Within(g, refs.Length) && number.Length == refs.Length
    ensures clauses == before + GateClauses(refs[..], number[..], g)
  {
    clauses := before;
    if refs[g.lhs] > 0 {
      clauses := clauses + [[number[Flip(g.lhs)], number[g.rhs1]]];
      clauses := clauses + [[number[Flip(g.lhs)], number[g.rhs0]]];
    }
    if refs[g.lhs + 1] > 0 {
      clauses := clauses + [[number[g.lhs], number[Flip(g.rhs1)], number[Flip(g.rhs0)]]];
    }
  }

  // ------------------------------------------------------- meaning of the clauses

  /** What the three loops leave behind. */
  ghost predicate Ready(a: Graph, refs: seq<nat>, number: seq<int>, m: nat) {
    && Convertible(a) && Counted(a, refs, 0) && Numbered(refs, number, a.maxvar + 1, m)
    && AllWithin(a.ands, |refs|) && a.outputs[0] < |refs| && |number| == |refs| == 2 * (a.maxvar + 1)
  }

  lemma ReadyFacts(a: Graph, refs: seq<nat>, number: seq<int>, m: nat)
    requires Convertible(a) && Counted(a, refs, 0) && Numbered(refs, number, a.maxvar + 1, m)
    ensures Ready(a, refs, number, m)
  {
    OutputBelow(a);
    forall j | 0 <= j < |a.ands| ensures Within(a.ands[j], |refs|) { GateShape(a, j); }
  }

  /** Referenced literals have numbers with opposite signs for opposite literals. */
  lemma NumberOf(a: Graph, refs: seq<nat>, number: seq<int>, m: nat, lit: nat)
    requires Ready(a, refs, number, m) && lit < |refs| && (refs[lit] > 0 || (Flip(lit) < |refs| && refs[Flip(lit)] > 0))
    ensures Flip(lit) < |refs| && number[Flip(lit)] == -number[lit] && number[lit] != 0 && Abs(number[lit]) <= m
    ensures (number[lit] > 0) == (Negative(lit) == (Var(lit) == 0)) && Abs(number[lit]) == Name(number, Var(lit))
  {
    hide Convertible, Counted, NamesRise, NamesFill, AllWithin;
    var v := Var(lit);
    assert Used(refs, v);
    assert number[2 * v] == -number[2 * v + 1] && Name(number, v) > 0;
  }

  /** What a referenced gate needs is referenced. */
  lemma OperandsReferenced(a: Graph, refs: seq<nat>, number: seq<int>, m: nat, j: nat)
    requires Ready(a, refs, number, m) && j < |a.ands|
    ensures var g := a.ands[j];
            && Within(g, |refs|) && Defined(a, g.rhs0) && Defined(a, g.rhs1)
            && Flip(g.rhs0) < |refs| && Flip(g.rhs1) < |refs|
            && (refs[g.lhs] > 0 ==> refs[g.rhs0] > 0 && refs[g.rhs1] > 0)
            && (refs[g.lhs + 1] > 0 ==> refs[Flip(g.rhs0)] > 0 && refs[Flip(g.rhs1)] > 0)
  {
    hide Numbered;
    GateShape(a, j);
    hide Convertible;
    var g := a.ands[j];
    forall lit: nat | lit < |refs| && NeededBy(refs, g, lit) ensures refs[lit] > 0 {
      assert Needed(a, refs, 0, lit);
    }
  }

  lemma {:induction false} GateIn(refs: seq<nat>, number: seq<int>, ands: seq<And>, i: nat, j: nat, val: Valuation)
    requires AllWithin(ands, |refs|) && |number| == |refs| && j < i <= |ands|
    requires AllSat(val, AndClauses(refs, number, ands, i))
    ensures Within(ands[j], |refs|) && AllSat(val, GateClauses(refs, number, ands[j]))
    decreases i
  {
    hide GateClauses, AllSat;
    AllSatConcat(val, AndClauses(refs, number, ands, i - 1), GateClauses(refs, number, ands[i - 1]));
    if j < i - 1 { GateIn(refs, number, ands, i - 1, j, val); }
  }

  /** The clauses for the literal of a gate, read as a condition on its operands. */
  ghost predicate PositiveHolds(refs: seq<nat>, number: seq<int>, g: And, val: Valuation)
    requires Within(g, |refs|) && |number| == |refs|
  {
    refs[g.lhs] > 0 ==>
      True(val, number[g.lhs + 1]) || (True(val, number[g.rhs1]) && True(val, number[g.rhs0]))
  }

  /** The same for its negation. */
  ghost predicate NegativeHolds(refs: seq<nat>, number: seq<int>, g: And, val: Valuation)
    requires Within(g, |refs|) && |number| == |refs|
  {
    refs[g.lhs + 1] > 0 ==>
      True(val, number[g.lhs]) || True(val, number[Flip(g.rhs1)]) || True(val, number[Flip(g.rhs0)])
  }

  lemma GateMeans(refs: seq<nat>, number: seq<int>, g: And, val: Valuation)
    requires Within(g, |refs|) && |number| == |refs|
    ensures AllSat(val, GateClauses(refs, number, g)) <==>
            PositiveHolds(refs, number, g, val) && NegativeHolds(refs, number, g, val)
  {
    var c, d, e := [number[g.lhs + 1], number[g.rhs1]], [number[g.lhs + 1], number[g.rhs0]],
                   [number[g.lhs], number[Flip(g.rhs1)], number[Flip(g.rhs0)]];
    var x := if refs[g.lhs] > 0 then [c, d] else [];
    var y := if refs[g.lhs + 1] > 0 then [e] else [];
    PairMeans(val, number[g.lhs + 1], number[g.rhs1]);
    PairMeans(val, number[g.lhs + 1], number[g.rhs0]);
    ThreeMeans(val, number[g.lhs], number[Flip(g.rhs1)], number[Flip(g.rhs0)]);
    hide Sat;
    AllSatConcat(val, x, y);
    if refs[g.lhs] > 0 { assert x[0] == c && x[1] == d; }
    if refs[g.lhs + 1] > 0 { assert y[0] == e; }
  }

  lemma ThreeMeans(val: Valuation, x: int, y: int, z: int)
    ensures Sat(val, [x, y, z]) <==> True(val, x) || True(val, y) || True(val, z)
  {
    var c := [x, y, z];
    assert c[0] == x && c[1] == y && c[2] == z;
  }

  /** The clauses hold if and only if the constant, every gate and the output are as they say. */
  lemma ClausesMean(refs: seq<nat>, number: seq<int>, ands: seq<And>, out: nat, val: Valuation)
    requires AllWithin(ands, |refs|) && 2 <= |number| == |refs| && out < |refs|
    ensures AllSat(val, AllClauses(refs, number, ands, out)) <==>
            && (Used(refs, 0) ==> True(val, number[1]))
            && AllSat(val, AndClauses(refs, number, ands, |ands|)) && True(val, number[out])
  {
    hide AllSat, AndClauses, True, Used;
    var x, y := Constants(refs, number), AndClauses(refs, number, ands, |ands|);
    AllSatConcat(val, x + y, [[number[out]]]);
    AllSatConcat(val, x, y);
    UnitMeans(val, number[out]);
    UnitMeans(val, number[1]);
    NoClauses(val);
  }

  lemma NoClauses(val: Valuation)
    ensures AllSat(val, [])
  {}

  lemma Opposite(val: Valuation, x: int)
    requires x != 0
    ensures True(val, -x) == !True(val, x)
  {}

  lemma ReferencedDefined(a: Graph, refs: seq<nat>, number: seq<int>, m: nat, lit: nat)
    requires Ready(a, refs, number, m) && lit < |refs| && refs[lit] > 0
    ensures Convertible(a) && Legal(a) && Ranked(a, Self) && a.latches == [] && Defined(a, lit) && Var(lit) <= a.maxvar
    ensures Var(lit) == 0 ==> Used(refs, 0)
    ensures Var(lit) > 0 ==> Var(lit) <= |a.inputs| + |a.ands| && a.kinds[Var(lit)] == LeafOrGate(a, Var(lit))
  {
    hide Convertible, Counted, Numbered, AllWithin;
    ConvertibleFacts(a);
    NeededDefined(a, refs, lit);
    if Var(lit) > 0 {
      assert Used(refs, Var(lit));
      NoStray(a, refs, Var(lit));
    }
  }

  lemma ConvertibleFacts(a: Graph)
    requires Convertible(a)
    ensures Legal(a) && Ranked(a, Self) && a.latches == [] && |a.outputs| == 1
  {}

  lemma ConstantLit(a: Graph, ins: seq<bool>, lit: nat)
    requires Legal(a) && Ranked(a, Self) && a.latches == [] && |ins| == |a.inputs| && lit < 2
    ensures Value(a, Self, ins, [], lit) == (lit == 1)
  {
    ConstantFalse(a, Self, ins, []);
  }

  lemma InputLit(a: Graph, ins: seq<bool>, lit: nat)
    requires Legal(a) && Ranked(a, Self) && a.latches == [] && |ins| == |a.inputs| && 0 < Var(lit) <= |a.inputs|
    requires Var(lit) <= a.maxvar < |a.kinds| && a.kinds[Var(lit)] == Input(Var(lit) - 1)
    ensures Value(a, Self, ins, [], lit) == (ins[Var(lit) - 1] != Negative(lit))
  {}

  /** A valuation that satisfies the clauses of the gates and agrees with the inputs. */
  ghost predicate Modelled(a: Graph, refs: seq<nat>, number: seq<int>, m: nat, val: Valuation, ins: seq<bool>) {
    && Ready(a, refs, number, m) && |ins| == |a.inputs| && Agree(val, number, ins)
    && (Used(refs, 0) ==> True(val, number[1])) && AllSat(val, AndClauses(refs, number, a.ands, |a.ands|))
  }

  ghost predicate Forced(refs: seq<nat>, number: seq<int>, g: And, val: Valuation, lit: nat)
    requires Within(g, |refs|) && |number| == |refs|
  {
    if lit == g.lhs then refs[g.rhs0] > 0 && refs[g.rhs1] > 0 && True(val, number[g.rhs0]) && True(val, number[g.rhs1])
    else refs[Flip(g.rhs0)] > 0 && refs[Flip(g.rhs1)] > 0
         && (True(val, number[Flip(g.rhs0)]) || True(val, number[Flip(g.rhs1)]))
  }

  /** A true literal of a gate makes operands true as its clauses say. */
  lemma GateForces(a: Graph, refs: seq<nat>, number: seq<int>, m: nat, val: Valuation, ins: seq<bool>, j: nat, lit: nat)
    requires Modelled(a, refs, number, m, val, ins) && j < |a.ands| && (lit == a.ands[j].lhs || lit == a.ands[j].lhs + 1)
    requires lit < |refs| == |number| && refs[lit] > 0 && True(val, number[lit])
    ensures Within(a.ands[j], |refs|) && Defined(a, a.ands[j].rhs0) && Defined(a, a.ands[j].rhs1)
    ensures Forced(refs, number, a.ands[j], val, lit)
  {
    hide *;
    ModelledParts(a, refs, number, m, val, ins);
    ReadyGate(a, refs, number, m, j);
    NumberOf(a, refs, number, m, lit);
    OperandsReferenced(a, refs, number, m, j);
    GateIn(refs, number, a.ands, |a.ands|, j, val);
    GateMeans(refs, number, a.ands[j], val);
    ForcedBy(refs, number, a.ands[j], val, lit);
  }

  lemma ModelledParts(a: Graph, refs: seq<nat>, number: seq<int>, m: nat, val: Valuation, ins: seq<bool>)
    requires Modelled(a, refs, number, m, val, ins)
    ensures Ready(a, refs, number, m) && |number| == |refs| && AllWithin(a.ands, |refs|) && |ins| == |a.inputs|
    ensures AllSat(val, AndClauses(refs, number, a.ands, |a.ands|))
  {}

  lemma ForcedBy(refs: seq<nat>, number: seq<int>, g: And, val: Valuation, lit: nat)
    requires Within(g, |refs|) && |number| == |refs| && (lit == g.lhs || lit == g.lhs + 1)
    requires refs[lit] > 0 && True(val, number[lit]) && number[Flip(lit)] == -number[lit] != 0
    requires PositiveHolds(refs, number, g, val) && NegativeHolds(refs, number, g, val)
    requires refs[g.lhs] > 0 ==> refs[g.rhs0] > 0 && refs[g.rhs1] > 0
    requires refs[g.lhs + 1] > 0 ==> refs[Flip(g.rhs0)] > 0 && refs[Flip(g.rhs1)] > 0
    ensures Forced(refs, number, g, val, lit)
  {
    Opposite(val, number[lit]);
  }

  /** In a model, a referenced literal that is true has the value true. */
  lemma {:induction false} TrueIsTrue(a: Graph, refs: seq<nat>, number: seq<int>, m: nat, val: Valuation,
                                      ins: seq<bool>, lit: nat)
    requires Modelled(a, refs, number, m, val, ins) && lit < |refs| == |number| && refs[lit] > 0 && True(val, number[lit])
    ensures Legal(a) && Ranked(a, Self) && a.latches == [] && |ins| == |a.inputs| && Defined(a, lit)
    ensures Value(a, Self, ins, [], lit)
    decreases Var(lit)
  {
    ReferencedDefined(a, refs, number, m, lit);
    NumberOf(a, refs, number, m, lit);
    if Var(lit) == 0 {
      hide Ready, Legal, Ranked, AllSat, AndClauses, Agree, Convertible;
      ConstantLit(a, ins, lit);
    } else if Var(lit) <= |a.inputs| {
      hide Ready, Legal, Ranked, AllSat, AndClauses, Convertible;
      InputTrue(a, refs, number, m, val, ins, lit);
      InputLit(a, ins, lit);
    } else {
      GateIsTrue(a, refs, number, m, val, ins, lit);
    }
  }

  lemma {:induction false} GateIsTrue(a: Graph, refs: seq<nat>, number: seq<int>, m: nat, val: Valuation,
                                      ins: seq<bool>, lit: nat)
    requires Modelled(a, refs, number, m, val, ins) && lit < |refs| == |number| && refs[lit] > 0 && True(val, number[lit])
    requires Var(lit) > |a.inputs|
    ensures Legal(a) && Ranked(a, Self) && a.latches == [] && |ins| == |a.inputs| && Defined(a, lit)
    ensures Value(a, Self, ins, [], lit)
    decreases Var(lit), 0
  {
    ReferencedDefined(a, refs, number, m, lit);
    var j := Var(lit) - |a.inputs| - 1;
    var g := a.ands[j];
    ReadyGate(a, refs, number, m, j);
    ModelledSize(a, refs, number, m, val, ins);
    hide Modelled, Legal, Ranked, Value, True, Convertible;
    GateForces(a, refs, number, m, val, ins, j, lit);
    GateLit(a, ins, lit, j);
    if lit == g.lhs {
      TrueIsTrue(a, refs, number, m, val, ins, g.rhs0);
      TrueIsTrue(a, refs, number, m, val, ins, g.rhs1);
    } else if True(val, number[Flip(g.rhs0)]) {
      FlipValue(a, ins, g.rhs0);
      TrueIsTrue(a, refs, number, m, val, ins, Flip(g.rhs0));
    } else {
      FlipValue(a, ins, g.rhs1);
      TrueIsTrue(a, refs, number, m, val, ins, Flip(g.rhs1));
    }
  }

  lemma ModelledSize(a: Graph, refs: seq<nat>, number: seq<int>, m: nat, val: Valuation, ins: seq<bool>)
    requires Modelled(a, refs, number, m, val, ins)
    ensures |ins| == |a.inputs|
  {}

  lemma ReadyGate(a: Graph, refs: seq<nat>, number: seq<int>, m: nat, j: nat)
    requires Ready(a, refs, number, m) && j < |a.ands|
    ensures AllWithin(a.ands, |refs|) && |number| == |refs| == 2 * (a.maxvar + 1)
    ensures a.ands[j].lhs == 2 * (|a.inputs| + 1 + j)
  {
    GateShape(a, j);
  }

  lemma FlipValue(a: Graph, ins: seq<bool>, lit: nat)
    requires Legal(a) && Ranked(a, Self) && a.latches == [] && |ins| == |a.inputs| && Defined(a, lit)
    ensures Defined(a, Flip(lit)) && Value(a, Self, ins, [], Flip(lit)) == !Value(a, Self, ins, [], lit)
    ensures Var(Flip(lit)) == Var(lit)
  {
    FlipVar(lit);
  }

  lemma GateLit(a: Graph, ins: seq<bool>, lit: nat, j: nat)
    requires Legal(a) && Ranked(a, Self) && a.latches == [] && |ins| == |a.inputs| && j < |a.ands| && Defined(a, lit)
    requires Var(lit) <= a.maxvar < |a.kinds| && a.kinds[Var(lit)] == Gate(j)
    ensures var g := a.ands[j];
            && Defined(a, g.rhs0) && Defined(a, g.rhs1)
            && Value(a, Self, ins, [], lit)
               == ((Value(a, Self, ins, [], g.rhs0) && Value(a, Self, ins, [], g.rhs1)) != Negative(lit))
  {
    GateValue(a, Self, ins, [], Var(lit));
  }

  lemma InputTrue(a: Graph, refs: seq<nat>, number: seq<int>, m: nat, val: Valuation, ins: seq<bool>, lit: nat)
    requires Ready(a, refs, number, m) && lit < |refs| && refs[lit] > 0 && |ins| == |a.inputs| && Agree(val, number, ins)
    requires 0 < Var(lit) <= |a.inputs|
    ensures True(val, number[lit]) == (ins[Var(lit) - 1] != Negative(lit))
  {
    NumberOf(a, refs, number, m, lit);
    hide Convertible, Counted, Numbered, AllWithin;
    var i := Var(lit) - 1;
    assert InputName(number, i) == Name(number, Var(lit)) != 0;
  }

  // ------------------------------------------------------- a model for every input

  /** Every number stands for the value of its variable. */
  ghost function ChosenModel(a: Graph, number: seq<int>, ins: seq<bool>): Valuation
    requires Legal(a) && Ranked(a, Self) && a.latches == [] && |ins| == |a.inputs| && |number| == 2 * (a.maxvar + 1)
  {
    k => exists v: nat :: v <= a.maxvar && Name(number, v) == k && (v == 0 || VarValue(a, Self, ins, [], v))
  }

  lemma ChosenAt(a: Graph, refs: seq<nat>, number: seq<int>, m: nat, ins: seq<bool>, v: nat)
    requires Ready(a, refs, number, m) && Legal(a) && Ranked(a, Self) && a.latches == [] && |ins| == |a.inputs|
    requires v <= a.maxvar && Name(number, v) > 0
    ensures ChosenModel(a, number, ins)(Name(number, v)) == (v == 0 || VarValue(a, Self, ins, [], v))
  {
    hide Convertible, Counted, NamesFill, NamedTo, AllWithin, Legal, Ranked, VarValue;
    var val := ChosenModel(a, number, ins);
    if val(Name(number, v)) {
      var u: nat :| u <= a.maxvar && Name(number, u) == Name(number, v) && (u == 0 || VarValue(a, Self, ins, [], u));
      assert !(u < v) && !(v < u);
    }
  }

  lemma ChosenValue(a: Graph, refs: seq<nat>, number: seq<int>, m: nat, ins: seq<bool>, lit: nat)
    requires Ready(a, refs, number, m) && Legal(a) && Ranked(a, Self) && a.latches == [] && |ins| == |a.inputs|
    requires lit < |refs| && Defined(a, lit) && (refs[lit] > 0 || (Flip(lit) < |refs| && refs[Flip(lit)] > 0))
    ensures True(ChosenModel(a, number, ins), number[lit]) == Value(a, Self, ins, [], lit)
  {
    NumberOf(a, refs, number, m, lit);
    hide Ready, ChosenModel, Legal, Ranked;
    ReadySizes(a, refs, number, m);
    ChosenAt(a, refs, number, m, ins, Var(lit));
    if Var(lit) == 0 { ConstantLit(a, ins, lit); }
  }

  lemma ReadySizes(a: Graph, refs: seq<nat>, number: seq<int>, m: nat)
    requires Ready(a, refs, number, m)
    ensures |number| == |refs| == 2 * (a.maxvar + 1) && AllWithin(a.ands, |refs|) && |a.outputs| == 1
    ensures a.outputs[0] < |refs| && Convertible(a) && refs[a.outputs[0]] > 0 && Defined(a, a.outputs[0])
  {
    hide Numbered;
    OutputBelow(a);
    hide Convertible;
    assert Needed(a, refs, 0, a.outputs[0]);
  }

  lemma {:induction false} ChosenGates(a: Graph, refs: seq<nat>, number: seq<int>, m: nat, ins: seq<bool>, i: nat)
    requires Ready(a, refs, number, m) && Legal(a) && Ranked(a, Self) && a.latches == [] && |ins| == |a.inputs|
    requires i <= |a.ands|
    ensures AllSat(ChosenModel(a, number, ins), AndClauses(refs, number, a.ands, i))
    decreases i
  {
    hide Ready, ChosenModel, Legal, Ranked, GateClauses, AllSat;
    ReadySizes(a, refs, number, m);
    var val := ChosenModel(a, number, ins);
    if i == 0 {
      NoClauses(val);
    } else {
      ChosenGates(a, refs, number, m, ins, i - 1);
      ChosenGate(a, refs, number, m, ins, i - 1);
      AllSatConcat(val, AndClauses(refs, number, a.ands, i - 1), GateClauses(refs, number, a.ands[i - 1]));
    }
  }

  lemma ChosenGate(a: Graph, refs: seq<nat>, number: seq<int>, m: nat, ins: seq<bool>, j: nat)
    requires Ready(a, refs, number, m) && Legal(a) && Ranked(a, Self) && a.latches == [] && |ins| == |a.inputs|
    requires j < |a.ands|
    ensures Within(a.ands[j], |refs|) && AllSat(ChosenModel(a, number, ins), GateClauses(refs, number, a.ands[j]))
  {
    var val := ChosenModel(a, number, ins);
    ReadySizes(a, refs, number, m);
    OperandsReferenced(a, refs, number, m, j);
    ChosenPositive(a, refs, number, m, ins, j);
    ChosenNegative(a, refs, number, m, ins, j);
    hide Ready, ChosenModel, Legal, Ranked, AllSat, True, Convertible, GateClauses, PositiveHolds, NegativeHolds;
    GateMeans(refs, number, a.ands[j], val);
  }

  lemma ChosenPositive(a: Graph, refs: seq<nat>, number: seq<int>, m: nat, ins: seq<bool>, j: nat)
    requires Ready(a, refs, number, m) && Legal(a) && Ranked(a, Self) && a.latches == [] && |ins| == |a.inputs|
    requires j < |a.ands| && Within(a.ands[j], |refs|) && |number| == |refs| == 2 * (a.maxvar + 1)
    ensures PositiveHolds(refs, number, a.ands[j], ChosenModel(a, number, ins))
  {
    hide *;
    var g := a.ands[j];
    WithinFacts(g, |refs|);
    if refs[g.lhs] > 0 {
      ReadyShape(a, refs, number, m, j);
      GateValues(a, ins, j);
      OperandsReferenced(a, refs, number, m, j);
      ChosenValue(a, refs, number, m, ins, g.lhs + 1);
      ChosenValue(a, refs, number, m, ins, g.rhs0);
      ChosenValue(a, refs, number, m, ins, g.rhs1);
    }
    PositiveBy(refs, number, g, ChosenModel(a, number, ins));
  }

  lemma WithinFacts(g: And, n: nat)
    requires Within(g, n)
    ensures g.lhs + 1 < n && Flip(g.lhs) == g.lhs + 1 && Flip(g.lhs + 1) == g.lhs
    ensures g.rhs0 < n && g.rhs1 < n && Flip(Flip(g.rhs0)) == g.rhs0 && Flip(Flip(g.rhs1)) == g.rhs1
  {}

  lemma PositiveBy(refs: seq<nat>, number: seq<int>, g: And, val: Valuation)
    requires Within(g, |refs|) && |number| == |refs|
    requires refs[g.lhs] > 0 ==>
               True(val, number[g.lhs + 1]) || (True(val, number[g.rhs1]) && True(val, number[g.rhs0]))
    ensures PositiveHolds(refs, number, g, val)
  {}

  lemma NegativeBy(refs: seq<nat>, number: seq<int>, g: And, val: Valuation)
    requires Within(g, |refs|) && |number| == |refs|
    requires refs[g.lhs + 1] > 0 ==>
               True(val, number[g.lhs]) || True(val, number[Flip(g.rhs1)]) || True(val, number[Flip(g.rhs0)])
    ensures NegativeHolds(refs, number, g, val)
  {}

  lemma ChosenNegative(a: Graph, refs: seq<nat>, number: seq<int>, m: nat, ins: seq<bool>, j: nat)
    requires Ready(a, refs, number, m) && Legal(a) && Ranked(a, Self) && a.latches == [] && |ins| == |a.inputs|
    requires j < |a.ands| && Within(a.ands[j], |refs|) && |number| == |refs| == 2 * (a.maxvar + 1)
    ensures NegativeHolds(refs, number, a.ands[j], ChosenModel(a, number, ins))
  {
    hide *;
    var g := a.ands[j];
    WithinFacts(g, |refs|);
    if refs[g.lhs + 1] > 0 {
      ReadyShape(a, refs, number, m, j);
      GateValues(a, ins, j);
      OperandsReferenced(a, refs, number, m, j);
      ChosenValue(a, refs, number, m, ins, g.lhs);
      ChosenValue(a, refs, number, m, ins, Flip(g.rhs0));
      ChosenValue(a, refs, number, m, ins, Flip(g.rhs1));
    }
    NegativeBy(refs, number, g, ChosenModel(a, number, ins));
  }

  /** The values of both literals of a gate. */
  lemma GateValues(a: Graph, ins: seq<bool>, j: nat)
    requires Legal(a) && Ranked(a, Self) && a.latches == [] && |ins| == |a.inputs| && j < |a.ands|
    requires var g := a.ands[j]; g.lhs % 2 == 0 && Var(g.lhs) <= a.maxvar < |a.kinds| && a.kinds[Var(g.lhs)] == Gate(j)
    requires Defined(a, a.ands[j].lhs) && Defined(a, a.ands[j].lhs + 1)
    ensures var g := a.ands[j];
            && Defined(a, g.rhs0) && Defined(a, g.rhs1) && Defined(a, Flip(g.rhs0)) && Defined(a, Flip(g.rhs1))
            && (Value(a, Self, ins, [], g.lhs + 1) || (Value(a, Self, ins, [], g.rhs1) && Value(a, Self, ins, [], g.rhs0)))
            && (Value(a, Self, ins, [], g.lhs) || Value(a, Self, ins, [], Flip(g.rhs1))
                || Value(a, Self, ins, [], Flip(g.rhs0)))
  {
    hide Legal, Ranked;
    GateLit(a, ins, a.ands[j].lhs, j);
    FlipValue(a, ins, a.ands[j].rhs0);
    FlipValue(a, ins, a.ands[j].rhs1);
    FlipValue(a, ins, a.ands[j].lhs);
  }

  lemma ReadyShape(a: Graph, refs: seq<nat>, number: seq<int>, m: nat, j: nat)
    requires Ready(a, refs, number, m) && j < |a.ands|
    ensures var g := a.ands[j]; g.lhs % 2 == 0 && Var(g.lhs) <= a.maxvar < |a.kinds| && a.kinds[Var(g.lhs)] == Gate(j)
    ensures Defined(a, a.ands[j].lhs) && Defined(a, a.ands[j].lhs + 1)
  {
    hide Convertible, Counted, Numbered, AllWithin;
    GateShape(a, j);
  }

  lemma ChosenAgrees(a: Graph, refs: seq<nat>, number: seq<int>, m: nat, ins: seq<bool>)
    requires Ready(a, refs, number, m) && Legal(a) && Ranked(a, Self) && a.latches == [] && |ins| == |a.inputs|
    ensures Agree(ChosenModel(a, number, ins), number, ins)
  {
    hide ChosenModel, Legal, Ranked, VarValue;
    forall i | 0 <= i < |ins| && InputName(number, i) != 0
      ensures ChosenModel(a, number, ins)(InputName(number, i)) == ins[i]
    {
      InputNamed(a, refs, number, m, i);
      ChosenAt(a, refs, number, m, ins, i + 1);
      InputValue(a, ins, i);
    }
  }

  lemma InputNamed(a: Graph, refs: seq<nat>, number: seq<int>, m: nat, i: nat)
    requires Ready(a, refs, number, m) && i < |a.inputs|
    ensures i + 1 <= a.maxvar < |a.kinds| && InputName(number, i) == Name(number, i + 1) && 0 <= InputName(number, i) <= m
    ensures a.kinds[i + 1] == Input(i)
  {
    GatesInRange(a);
    assert Fresh(a, a.inputs[i], Input(i));
    assert Name(number, i + 1) >= 0;
  }

  lemma InputValue(a: Graph, ins: seq<bool>, i: nat)
    requires Legal(a) && Ranked(a, Self) && a.latches == [] && |ins| == |a.inputs| && i < |a.inputs|
    requires i + 1 <= a.maxvar < |a.kinds| && a.kinds[i + 1] == Input(i)
    ensures VarValue(a, Self, ins, [], i + 1) == ins[i]
  {}

  // ------------------------------------------------------- the header

  ghost predicate LitsWithin(f: seq<Clause>, m: nat) {
    forall i, j :: 0 <= i < |f| && 0 <= j < |f[i]| ==> 1 <= Abs(f[i][j]) <= m
  }

  lemma WithinConcat(f: seq<Clause>, g: seq<Clause>, m: nat)
    requires LitsWithin(f, m) && LitsWithin(g, m)
    ensures LitsWithin(f + g, m)
  {}

  lemma MentionsConcat(f: seq<Clause>, g: seq<Clause>, k: int)
    ensures Mentions(f, k) || Mentions(g, k) ==> Mentions(f + g, k)
  {
    if Mentions(f, k) {
      var i, j :| 0 <= i < |f| && 0 <= j < |f[i]| && Abs(f[i][j]) == k;
      assert (f + g)[i][j] == f[i][j];
    } else if Mentions(g, k) {
      var i, j :| 0 <= i < |g| && 0 <= j < |g[i]| && Abs(g[i][j]) == k;
      assert (f + g)[|f| + i][j] == g[i][j];
    }
  }

  ghost predicate Numeral(number: seq<int>, m: nat, lit: nat) {
    lit < |number| && 1 <= Abs(number[lit]) <= m
  }

  lemma GateNumerals(a: Graph, refs: seq<nat>, number: seq<int>, m: nat, j: nat)
    requires Ready(a, refs, number, m) && j < |a.ands|
    ensures Within(a.ands[j], |refs|) && |number| == |refs| && LitsWithin(GateClauses(refs, number, a.ands[j]), m)
  {
    hide *;
    var g := a.ands[j];
    ReadySizes(a, refs, number, m);
    OperandsReferenced(a, refs, number, m, j);
    WithinFacts(g, |refs|);
    if refs[g.lhs] > 0 {
      NumeralOf(a, refs, number, m, g.lhs + 1);
      NumeralOf(a, refs, number, m, g.rhs0);
      NumeralOf(a, refs, number, m, g.rhs1);
    }
    if refs[g.lhs + 1] > 0 {
      NumeralOf(a, refs, number, m, g.lhs);
      NumeralOf(a, refs, number, m, Flip(g.rhs0));
      NumeralOf(a, refs, number, m, Flip(g.rhs1));
    }
    NumeralsWithin(refs, number, g, m);
  }

  lemma NumeralOf(a: Graph, refs: seq<nat>, number: seq<int>, m: nat, lit: nat)
    requires Ready(a, refs, number, m) && lit < |refs| && (refs[lit] > 0 || (Flip(lit) < |refs| && refs[Flip(lit)] > 0))
    ensures Numeral(number, m, lit)
  {
    NumberOf(a, refs, number, m, lit);
  }

  lemma NumeralsWithin(refs: seq<nat>, number: seq<int>, g: And, m: nat)
    requires Within(g, |refs|) && |number| == |refs| && Flip(g.rhs0) < |refs| && Flip(g.rhs1) < |refs|
    requires refs[g.lhs] > 0 ==> Numeral(number, m, g.lhs + 1) && Numeral(number, m, g.rhs0) && Numeral(number, m, g.rhs1)
    requires refs[g.lhs + 1] > 0 ==>
               Numeral(number, m, g.lhs) && Numeral(number, m, Flip(g.rhs0)) && Numeral(number, m, Flip(g.rhs1))
    ensures LitsWithin(GateClauses(refs, number, g), m)
  {}

  lemma {:induction false} AndNumerals(a: Graph, refs: seq<nat>, number: seq<int>, m: nat, i: nat)
    requires Ready(a, refs, number, m) && i <= |a.ands|
    ensures AllWithin(a.ands, |refs|) && |number| == |refs| && LitsWithin(AndClauses(refs, number, a.ands, i), m)
    decreases i
  {
    hide *;
    ReadySizes(a, refs, number, m);
    if i == 0 {
      AndClausesStart(refs, number, a.ands);
      NothingWithin(m);
    } else {
      AndClausesNext(refs, number, a.ands, i - 1);
      AndNumerals(a, refs, number, m, i - 1);
      GateNumerals(a, refs, number, m, i - 1);
      WithinConcat(AndClauses(refs, number, a.ands, i - 1), GateClauses(refs, number, a.ands[i - 1]), m);
    }
  }

  lemma NothingWithin(m: nat)
    ensures LitsWithin([], m)
  {}

  lemma AllNumerals(a: Graph, refs: seq<nat>, number: seq<int>, m: nat)
    requires Ready(a, refs, number, m)
    ensures AllWithin(a.ands, |refs|) && 2 <= |number| == |refs| && |a.outputs| == 1 && a.outputs[0] < |refs|
    ensures LitsWithin(AllClauses(refs, number, a.ands, a.outputs[0]), m)
  {
    ReadySizes(a, refs, number, m);
    AndNumerals(a, refs, number, m, |a.ands|);
    NumberOf(a, refs, number, m, a.outputs[0]);
    if Used(refs, 0) { NumberOf(a, refs, number, m, 1); }
    hide Ready, AndClauses, AllWithin, Counted, Numbered, Convertible;
    WithinConcat(Constants(refs, number), AndClauses(refs, number, a.ands, |a.ands|), m);
    WithinConcat(Constants(refs, number) + AndClauses(refs, number, a.ands, |a.ands|), [[number[a.outputs[0]]]], m);
  }

  lemma GateMentions(refs: seq<nat>, number: seq<int>, g: And, lit: nat)
    requires Within(g, |refs|) && |number| == |refs| && lit < |refs| && NeededBy(refs, g, lit)
    ensures Mentions(GateClauses(refs, number, g), Abs(number[lit]))
  {
    var x: seq<Clause> := if refs[g.lhs] > 0 then [[number[g.lhs + 1], number[g.rhs1]], [number[g.lhs + 1], number[g.rhs0]]] else [];
    var y: seq<Clause> := if refs[g.lhs + 1] > 0 then [[number[g.lhs], number[Flip(g.rhs1)], number[Flip(g.rhs0)]]] else [];
    if refs[g.lhs] > 0 && lit == g.rhs0 { assert x[1][1] == number[lit]; }
    else if refs[g.lhs] > 0 && lit == g.rhs1 { assert x[0][1] == number[lit]; }
    else if lit == Flip(g.rhs0) { assert y[0][2] == number[lit]; }
    else { assert y[0][1] == number[lit]; }
    MentionsConcat(x, y, Abs(number[lit]));
  }

  lemma {:induction false} AndMentions(refs: seq<nat>, number: seq<int>, ands: seq<And>, i: nat, j: nat, k: int)
    requires AllWithin(ands, |refs|) && |number| == |refs| && j < i <= |ands|
    requires Within(ands[j], |refs|) && Mentions(GateClauses(refs, number, ands[j]), k)
    ensures Mentions(AndClauses(refs, number, ands, i), k)
    decreases i
  {
    hide GateClauses, Mentions, AllWithin, Within;
    AndClausesNext(refs, number, ands, i - 1);
    assert Within(ands[i - 1], |refs|) by { AllWithinAt(ands, |refs|, i - 1); }
    MentionsConcat(AndClauses(refs, number, ands, i - 1), GateClauses(refs, number, ands[i - 1]), k);
    if j < i - 1 { AndMentions(refs, number, ands, i - 1, j, k); }
  }

  lemma AllWithinAt(ands: seq<And>, n: nat, i: nat)
    requires AllWithin(ands, n) && i < |ands|
    ensures Within(ands[i], n)
  {}

  lemma SingleMentions(x: int)
    ensures Mentions([[x]], Abs(x))
  {
    var f := [[x]];
    assert f[0][0] == x;
  }

  lemma LitMentioned(a: Graph, refs: seq<nat>, number: seq<int>, m: nat, lit: nat)
    requires Ready(a, refs, number, m) && lit < |refs| && refs[lit] > 0
    ensures AllWithin(a.ands, |refs|) && 2 <= |number| == |refs| && |a.outputs| == 1 && a.outputs[0] < |refs|
    ensures Mentions(AllClauses(refs, number, a.ands, a.outputs[0]), Abs(number[lit]))
  {
    hide *;
    ReadySizes(a, refs, number, m);
    var k, x, z := Abs(number[lit]), AndClauses(refs, number, a.ands, |a.ands|), [[number[a.outputs[0]]]];
    SingleMentions(number[a.outputs[0]]);
    if lit != a.outputs[0] {
      var j := NeedingGate(a, refs, number, m, lit);
      GateMentions(refs, number, a.ands[j], lit);
      AndMentions(refs, number, a.ands, |a.ands|, j, k);
      MentionsConcat(Constants(refs, number), x, k);
    }
    MentionsConcat(Constants(refs, number) + x, z, k);
    EmittedAre(refs, number, a.ands, a.outputs[0]);
  }

  lemma EmittedAre(refs: seq<nat>, number: seq<int>, ands: seq<And>, out: nat)
    requires AllWithin(ands, |refs|) && 2 <= |number| == |refs| && out < |refs|
    ensures AllClauses(refs, number, ands, out)
            == Constants(refs, number) + AndClauses(refs, number, ands, |ands|) + [[number[out]]]
  {}

  lemma NeedingGate(a: Graph, refs: seq<nat>, number: seq<int>, m: nat, lit: nat) returns (j: nat)
    requires Ready(a, refs, number, m) && lit < |refs| && refs[lit] > 0 && |a.outputs| == 1 && lit != a.outputs[0]
    ensures j < |a.ands| && Within(a.ands[j], |refs|) && NeededBy(refs, a.ands[j], lit)
  {
    hide Convertible, Numbered, NeededBy;
    assert Needed(a, refs, 0, lit);
    j :| 0 <= j < |a.ands| && a.ands[j].lhs + 1 < |refs| && NeededBy(refs, a.ands[j], lit);
  }

  lemma AllMentioned(a: Graph, refs: seq<nat>, number: seq<int>, m: nat, k: int)
    requires Ready(a, refs, number, m) && 1 <= k <= m
    ensures AllWithin(a.ands, |refs|) && 2 <= |number| == |refs| && |a.outputs| == 1 && a.outputs[0] < |refs|
    ensures Mentions(AllClauses(refs, number, a.ands, a.outputs[0]), k)
  {
    ReadySizes(a, refs, number, m);
    var v := NamedBy(a, refs, number, m, k);
    var lit := if refs[2 * v] > 0 then 2 * v else 2 * v + 1;
    LitMentioned(a, refs, number, m, lit);
    NumberOf(a, refs, number, m, lit);
  }

  lemma NamedBy(a: Graph, refs: seq<nat>, number: seq<int>, m: nat, k: int) returns (v: nat)
    requires Ready(a, refs, number, m) && 1 <= k <= m
    ensures 2 * v + 1 < |refs| == |number| && Used(refs, v) && Name(number, v) == k
  {
    hide Convertible, Counted;
    assert Names(number, a.maxvar + 1, k);
    v :| v < a.maxvar + 1 && Name(number, v) == k;
  }

  /** The header of the clauses that the three loops produce. */
  lemma HeaderHolds(a: Graph, refs: seq<nat>, number: seq<int>, m: nat, cnf: Cnf)
    requires Ready(a, refs, number, m) && 2 <= |number| == |refs| && AllWithin(a.ands, |refs|)
    requires |a.outputs| == 1 && a.outputs[0] < |refs| && cnf.vars == m
    requires cnf.clauses == AllClauses(refs, number, a.ands, a.outputs[0])
    requires cnf.count == 1 + (if Used(refs, 0) then 1 else 0) + GateCount(refs, a.ands, |a.ands|)
    ensures HeaderFits(cnf)
  {
    AllNumerals(a, refs, number, m);
    hide Ready, AndClauses, AllWithin, Mentions;
    forall k | 1 <= k <= cnf.vars ensures Mentions(cnf.clauses, k) { AllMentioned(a, refs, number, m, k); }
  }

  // ------------------------------------------------------- the translation

  /** The clauses of a re-encoded graph have exactly the models they should have. */
  lemma ClausesEncode(a: Graph, refs: seq<nat>, number: seq<int>, m: nat, cnf: Cnf)
    requires Ready(a, refs, number, m) && 2 <= |number| == |refs| && AllWithin(a.ands, |refs|)
    requires |a.outputs| == 1 && a.outputs[0] < |refs|
    requires cnf.clauses == AllClauses(refs, number, a.ands, a.outputs[0])
    ensures Legal(a) && Ranked(a, Self) && a.latches == [] && Defined(a, a.outputs[0])
    ensures Encodes(a, Self, cnf, number)
  {
    var out := a.outputs[0];
    ReadySizes(a, refs, number, m);
    ConvertibleFacts(a);
    forall ins: seq<bool> | |ins| == |a.inputs|
      ensures Value(a, Self, ins, [], out) <==> exists val :: Models(cnf, number, ins, val)
    {
      hide Ready, Convertible, Legal, Ranked, AllSat, AllClauses, AndClauses, AllWithin;
      if Value(a, Self, ins, [], out) {
        OutputHasModel(a, refs, number, m, ins);
        assert Models(cnf, number, ins, ChosenModel(a, number, ins));
      }
      if val :| Models(cnf, number, ins, val) {
        ClausesMean(refs, number, a.ands, out, val);
        TrueIsTrue(a, refs, number, m, val, ins, out);
      }
    }
  }

  lemma OutputHasModel(a: Graph, refs: seq<nat>, number: seq<int>, m: nat, ins: seq<bool>)
    requires Ready(a, refs, number, m) && Legal(a) && Ranked(a, Self) && a.latches == [] && |ins| == |a.inputs|
    requires 2 <= |number| == |refs| == 2 * (a.maxvar + 1) && AllWithin(a.ands, |refs|)
    requires |a.outputs| == 1 && a.outputs[0] < |refs| && Defined(a, a.outputs[0])
    requires Value(a, Self, ins, [], a.outputs[0])
    ensures AllSat(ChosenModel(a, number, ins), AllClauses(refs, number, a.ands, a.outputs[0]))
    ensures Agree(ChosenModel(a, number, ins), number, ins)
  {
    hide Legal, Ranked, AllSat, AllClauses, AndClauses, AllWithin, ChosenModel, Agree, True, Convertible, Counted, Numbered;
    var val := ChosenModel(a, number, ins);
    ReadySizes(a, refs, number, m);
    ChosenAgrees(a, refs, number, m, ins);
    ChosenGates(a, refs, number, m, ins, |a.ands|);
    ChosenValue(a, refs, number, m, ins, a.outputs[0]);
    if Used(refs, 0) {
      ConstantLit(a, ins, 1);
      ChosenValue(a, refs, number, m, ins, 1);
    }
    ClausesMean(refs, number, a.ands, a.outputs[0], val);
  }

  /** Re-encoding first does not change what the inputs say about the output. */
  lemma EncodesBefore(a: Graph, rank: nat -> nat, b: Graph, cnf: Cnf, number: seq<int>)
    requires SameMeaning(a, rank, b, Self) && a.latches == [] && b.latches == [] && |a.outputs| == |b.outputs| == 1
    requires Defined(b, b.outputs[0]) && Legal(b) && Ranked(b, Self) && Encodes(b, Self, cnf, number)
    ensures Legal(a) && Ranked(a, rank) && Defined(a, a.outputs[0]) && Encodes(a, rank, cnf, number)
  {
    hide Legal, Ranked, Value, Models;
  }

  /** The clauses for a constant output. */
  lemma ConstantEncodes(b: Graph, cnf: Cnf)
    requires Legal(b) && Ranked(b, Self) && b.latches == [] && |b.outputs| == 1 && b.outputs[0] < 2
    requires cnf == if b.outputs[0] == 0 then Cnf(0, 1, [[]]) else Cnf(0, 0, [])
    ensures Defined(b, b.outputs[0]) && Encodes(b, Self, cnf, []) && HeaderFits(cnf)
  {
    forall ins: seq<bool> | |ins| == |b.inputs|
      ensures Value(b, Self, ins, [], b.outputs[0]) <==> exists val :: Models(cnf, [], ins, val)
    {
      ConstantLit(b, ins, b.outputs[0]);
      var val: Valuation := _ => true;
      if b.outputs[0] == 1 { assert Models(cnf, [], ins, val); }
      forall v: Valuation ensures !AllSat(v, [[]]) { EmptyFails(v); }
    }
  }

  lemma EmptyFails(val: Valuation)
    ensures !AllSat(val, [[]])
  {
    var f: seq<Clause> := [[]];
    assert !Sat(val, f[0]);
  }

  lemma InputNamesDiffer(a: Graph, refs: seq<nat>, number: seq<int>, m: nat)
    requires Ready(a, refs, number, m)
    ensures NamesDiffer(number, |a.inputs|)
  {
    hide Ready, Convertible, Name;
    ReadySizes(a, refs, number, m);
    forall i | 0 <= i < |a.inputs| ensures InputName(number, i) >= 0 { InputNamed(a, refs, number, m, i); }
    forall i, j | 0 <= i < j < |a.inputs| && InputName(number, i) != 0
      ensures InputName(number, i) != InputName(number, j)
    {
      InputNamed(a, refs, number, m, i);
      InputNamed(a, refs, number, m, j);
      NamesApart(a, refs, number, m, i + 1, j + 1);
    }
  }

  lemma NamesApart(a: Graph, refs: seq<nat>, number: seq<int>, m: nat, u: nat, w: nat)
    requires Ready(a, refs, number, m) && u < w <= a.maxvar && Name(number, u) > 0
    ensures Name(number, u) != Name(number, w)
  {
    hide Convertible, Counted, NamedTo, NamesFill, AllWithin;
  }

  /** Which clauses are written for the re-encoded graph: those of carried literals, or a constant. */
  ghost predicate Emitted(b: Graph, cnf: Cnf, number: seq<int>) {
    && |b.outputs| == 1
    && if b.outputs[0] == 0 then cnf == Cnf(0, 1, [[]]) && number == []
       else if b.outputs[0] == 1 then cnf == Cnf(0, 0, []) && number == []
       else exists refs: seq<nat> :: EmittedFor(b, cnf, number, refs)
  }

  ghost predicate EmittedFor(b: Graph, cnf: Cnf, number: seq<int>, refs: seq<nat>) {
    && |refs| == 2 * (b.maxvar + 1) && (forall lit: nat :: lit < |refs| ==> (refs[lit] > 0 <==> Carried(b, lit)))
    && Ready(b, refs, number, cnf.vars)
    && cnf.clauses == AllClauses(refs, number, b.ands, b.outputs[0])
  }

  lemma EmittedAll(b: Graph, cnf: Cnf, number: seq<int>, refs: seq<nat>)
    requires Ready(b, refs, number, cnf.vars)
    requires cnf.clauses == AllClauses(refs, number, b.ands, b.outputs[0])
    ensures Emitted(b, cnf, number)
  {
    hide AllClauses;
    forall lit: nat | lit < |refs| ensures refs[lit] > 0 <==> Carried(b, lit) { CountedIsCarried(b, refs, lit); }
    hide Carried, Counted, Numbered;
    assert EmittedFor(b, cnf, number, refs);
  }

  ghost predicate Accepted(a: Graph) {
    a.latches == [] && a.bad == [] && a.constraints == [] && |a.outputs| == 1
  }

  /** Re-encode the graph, count references, number the referenced variables, emit their clauses. */
  method Convert(g: AigerGraph, ghost rank: nat -> nat) returns (res: Outcome)
    requires Legal(g.Snap()) && Ranked(g.Snap(), rank) && Cleared(g.Snap(), g.onstack)
    modifies g
    ensures res.Written? <==> Accepted(old(g.Snap()))
    ensures res.Refused? ==> g.Snap() == old(g.Snap())
    ensures res == Refused(HasLatches) <==> old(g.latches) != []
    ensures res == Refused(HasBad) <==> old(g.latches) == [] && old(g.bad) != []
    ensures res == Refused(HasConstraints) <==> old(g.latches) == [] && old(g.bad) == [] && old(g.constraints) != []
    ensures res.Refused? && res.reason in {NoOutput, ManyOutputs} ==>
              old(g.latches) == [] && old(g.bad) == [] && old(g.constraints) == []
    ensures res == Refused(NoOutput) ==> old(g.outputs) == []
    ensures res == Refused(ManyOutputs) ==> |old(g.outputs)| > 1
    ensures res.Written? ==>
              var a := old(g.Snap());
              && HeaderFits(res.cnf) && NamesDiffer(res.number, |a.inputs|)
              && Defined(a, a.outputs[0]) && Encodes(a, rank, res.cnf, res.number)
              && Emitted(g.Snap(), res.cnf, res.number)
  {
    if g.latches != [] { return Refused(HasLatches); }
    if g.bad != [] { return Refused(HasBad); }
    if g.constraints != [] { return Refused(HasConstraints); }
    if g.outputs == [] { return Refused(NoOutput); }
    if |g.outputs| > 1 { return Refused(ManyOutputs); }
    hide Legal, Ranked, Reencoded, Cleared, Encodes, HeaderFits, NamesDiffer, Value, Emitted;
    ghost var a := g.Snap();
    g.Reencode(rank);
    ghost var b := g.Snap();
    SameShape(a, rank, b);
    var cnf, number := ConvertReencoded(g);
    EncodesBefore(a, rank, b, cnf, number);
    res := Written(cnf, number);
  }

  lemma SameShape(a: Graph, rank: nat -> nat, b: Graph)
    requires SameMeaning(a, rank, b, Self)
    ensures |a.latches| == |b.latches| && |a.outputs| == |b.outputs| && |a.inputs| == |b.inputs|
  {
    hide Legal, Ranked, Value;
  }

  method ConvertReencoded(g: AigerGraph) returns (cnf: Cnf, number: seq<int>)
    requires Legal(g.Snap()) && Ranked(g.Snap(), Self) && Reencoded(g.Snap()) && g.latches == [] && |g.outputs| == 1
    ensures HeaderFits(cnf) && NamesDiffer(number, |g.inputs|)
    ensures Defined(g.Snap(), g.outputs[0]) && Encodes(g.Snap(), Self, cnf, number)
    ensures Emitted(g.Snap(), cnf, number)
  {
    hide Legal, Ranked, Reencoded, Encodes, HeaderFits, Counted, Numbered, AllClauses, EmittedFor;
    ghost var b := g.Snap();
    if g.outputs[0] == 0 {
      cnf, number := Cnf(0, 1, [[]]), [];
      ConstantEncodes(b, cnf);
    } else if g.outputs[0] == 1 {
      cnf, number := Cnf(0, 0, []), [];
      ConstantEncodes(b, cnf);
    } else {
      var refs := CountRefs(g.ands, g.maxvar, g.outputs[0], b);
      var numbers, m, n := NumberVariables(refs, g.maxvar, |g.inputs|, b);
      number := numbers[..];
      ReadyFacts(b, refs[..], number, m);
      var clauses := EmitClauses(refs, numbers, g.ands, g.outputs[0]);
      cnf := Cnf(m, n, clauses);
      HeaderHolds(b, refs[..], number, m, cnf);
      ClausesEncode(b, refs[..], number, m, cnf);
      InputNamesDiffer(b, refs[..], number, m);
      EmittedAll(b, cnf, number, refs[..]);
    }
  }
}
