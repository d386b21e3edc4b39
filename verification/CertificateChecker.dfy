/** The tools that check a circuit certificate: dependency check, translation to clauses, matrix check. */
module CertificateChecker {
  import opened Dqbf
  import opened Certificate

  // ------------------------------------------------------- dependencies

  class DependencyChecker {
    const circuit: Circuit
    const given: map<int, set<int>>
    var computed: map<nat, set<int>>

    ghost predicate Computed(k: nat)
      requires k <= |circuit.ands|
      reads this
    {
      forall v: nat :: v != 0 && Known(circuit, k, v) ==> v in computed && computed[v] == Support(circuit, k, v)
    }

    constructor (c: Circuit, deps: map<int, set<int>>)
      requires Topological(c)
      ensures circuit == c && given == deps && Computed(0)
    {
      circuit, given, computed := c, deps, map[];
      new;
      for i := 0 to |circuit.inputs|
        invariant forall j :: 0 <= j < i ==> circuit.inputs[j].lit in computed
                                             && computed[circuit.inputs[j].lit] == {circuit.inputs[j].name}
      {
        var x := circuit.inputs[i];
        computed := computed[Strip(x.lit) := {x.name}];
      }
      forall v: nat | v != 0 && Known(circuit, 0, v) ensures v in computed && computed[v] == Support(circuit, 0, v) {
        var i :| 0 <= i < |circuit.inputs| && circuit.inputs[i].lit == v;
        InputSupport(circuit, i);
      }
    }

    method ComputeDependencies()
      requires Topological(circuit) && Computed(0)
      modifies this
      ensures Computed(|circuit.ands|)
    {
      for k := 0 to |circuit.ands|
        invariant Computed(k)
      {
        hide Topological, Support, Known;
        var a := circuit.ands[k];
        var lhs, rhs0, rhs1 := Strip(a.lhs), Strip(a.rhs0), Strip(a.rhs1);
        SupportNext(circuit, k);
        OperandsKnown(circuit, k);
        var deps: set<int> := {};
        if rhs0 != 0 {
          deps := deps + computed[rhs0];
        }
        if rhs1 != 0 {
          deps := deps + computed[rhs1];
        }
        computed := computed[lhs := deps];
      }
    }

    /** Whether every output depends only on what its variable may depend on. */
    method Check() returns (ok: bool)
      requires Topological(circuit) && Computed(0)
      modifies this
      ensures ok <==> |given| == |circuit.outputs| && DependenciesOk(circuit, given)
    {
      if |given| != |circuit.outputs| {
        return false;
      }
      ComputeDependencies();
      for i := 0 to |circuit.outputs|
        invariant Computed(|circuit.ands|)
        invariant forall j :: 0 <= j < i ==>
          Strip(circuit.outputs[j].lit) == 0 || Support(circuit, |circuit.ands|, Strip(circuit.outputs[j].lit))
            <= (if circuit.outputs[j].name in given then given[circuit.outputs[j].name] else {})
      {
        var out, name := Strip(circuit.outputs[i].lit), circuit.outputs[i].name;
        OutputKnown(circuit, i);
        if out != 0 {
          var deps := computed[out];
          var allowed := if name in given then given[name] else {};
          if !(deps <= allowed) {
            return false;
          }
        }
      }
      ok := true;
    }
  }

  lemma InputSupport(c: Circuit, i: nat)
    requires Topological(c) && i < |c.inputs|
    ensures Support(c, 0, c.inputs[i].lit) == {c.inputs[i].name}
  {
    forall j | 0 <= j < |c.inputs| && c.inputs[j].lit == c.inputs[i].lit ensures j == i {}
  }

  lemma {:induction false} ConstantSupport(c: Circuit, k: nat)
    requires Topological(c) && k <= |c.ands|
    ensures Support(c, k, 0) == {}
    decreases k
  {
    if k > 0 {
      ConstantSupport(c, k - 1);
      assert !Known(c, k - 1, c.ands[k - 1].lhs);
    } else {
      assert forall i :: 0 <= i < |c.inputs| ==> c.inputs[i].lit != 0;
    }
  }

  lemma SupportNext(c: Circuit, k: nat)
    requires Topological(c) && k < |c.ands|
    ensures Strip(c.ands[k].lhs) == c.ands[k].lhs > 0 && !Known(c, k, c.ands[k].lhs)
    ensures Support(c, k + 1, c.ands[k].lhs) == Support(c, k, Strip(c.ands[k].rhs0)) + Support(c, k, Strip(c.ands[k].rhs1))
    ensures Support(c, k, 0) == {}
    ensures forall v: nat :: Known(c, k + 1, v) ==> v == c.ands[k].lhs || (Known(c, k, v) && Support(c, k + 1, v) == Support(c, k, v))
  {
    hide Topological, Support;
    GateFresh(c, k);
    ConstantSupport(c, k);
    forall v: nat | Known(c, k + 1, v) && v != c.ands[k].lhs ensures Known(c, k, v) && Support(c, k + 1, v) == Support(c, k, v) {
      SupportElsewhere(c, k, v);
    }
  }

  lemma GateFresh(c: Circuit, k: nat)
    requires Topological(c) && k < |c.ands|
    ensures Strip(c.ands[k].lhs) == c.ands[k].lhs > 0 && !Known(c, k, c.ands[k].lhs)
    ensures Support(c, k + 1, c.ands[k].lhs) == Support(c, k, Strip(c.ands[k].rhs0)) + Support(c, k, Strip(c.ands[k].rhs1))
  {}

  lemma SupportElsewhere(c: Circuit, k: nat, v: nat)
    requires k < |c.ands| && v != c.ands[k].lhs
    ensures Support(c, k + 1, v) == Support(c, k, v)
  {}

  lemma OutputKnown(c: Circuit, i: nat)
    requires Topological(c) && i < |c.outputs|
    ensures Known(c, |c.ands|, Strip(c.outputs[i].lit))
  {}

  // ------------------------------------------------------- clauses

  ghost predicate Bounded(clauses: seq<Clause>, top: int) {
    forall i, j :: 0 <= i < |clauses| && 0 <= j < |clauses[i]| ==> clauses[i][j] != 0 && Abs(clauses[i][j]) <= top
  }

  /** The operands of the gates translated so far have variables. */
  ghost predicate Operands(c: Circuit, ren: map<nat, int>, k: nat) {
    forall j :: 0 <= j < k && j < |c.ands| ==> HasOperands(ren, c.ands[j])
  }

  ghost predicate Grown(ren: map<nat, int>, ren2: map<nat, int>) {
    forall v :: v in ren ==> v in ren2 && ren2[v] == ren[v]
  }

  lemma MeansGrown(val: Valuation, ren: map<nat, int>, ren2: map<nat, int>, lit: nat)
    requires Grown(ren, ren2) && (lit < 2 || Strip(lit) in ren)
    ensures Means(val, ren2, lit) == Means(val, ren, lit)
  {}

  /** New variables leave the meaning of the old clauses alone, unless the constant gets one. */
  lemma EncodesGrown(c: Circuit, ren: map<nat, int>, ren2: map<nat, int>, k: nat, clauses: seq<Clause>)
    requires Encodes(c, ren, k, 0, clauses) && Operands(c, ren, k) && Grown(ren, ren2) && (0 in ren2 ==> 0 in ren)
    ensures Encodes(c, ren2, k, 0, clauses)
  {
    hide AllSat;
    forall val: Valuation ensures CircuitHolds(c, ren, k, 0, val) <==> CircuitHolds(c, ren2, k, 0, val) {
      HoldsGrown(c, ren, ren2, k, val);
    }
  }

  lemma HoldsGrown(c: Circuit, ren: map<nat, int>, ren2: map<nat, int>, k: nat, val: Valuation)
    requires Operands(c, ren, k) && Grown(ren, ren2)
    ensures (forall j :: 0 <= j < k && j < |c.ands| ==> GateHolds(val, ren, c.ands[j]))
            <==> (forall j :: 0 <= j < k && j < |c.ands| ==> GateHolds(val, ren2, c.ands[j]))
  {
    forall j | 0 <= j < k && j < |c.ands| ensures GateHolds(val, ren, c.ands[j]) == GateHolds(val, ren2, c.ands[j]) {
      assert HasOperands(ren, c.ands[j]);
      MeansGrown(val, ren, ren2, c.ands[j].rhs0);
      MeansGrown(val, ren, ren2, c.ands[j].rhs1);
    }
  }

  /** The clauses of gate k say that it holds. */
  ghost predicate SaysGate(ren: map<nat, int>, g: And, clauses: seq<Clause>) {
    HasOperands(ren, g) && forall val: Valuation :: AllSat(val, clauses) <==> GateHolds(val, ren, g)
  }

  lemma EncodesGate(c: Circuit, ren: map<nat, int>, k: nat, clauses: seq<Clause>, more: seq<Clause>)
    requires Encodes(c, ren, k, 0, clauses) && k < |c.ands| && SaysGate(ren, c.ands[k], more)
    ensures Encodes(c, ren, k + 1, 0, clauses + more)
  {
    hide AllSat, GateHolds;
    forall val: Valuation ensures AllSat(val, clauses + more) <==> CircuitHolds(c, ren, k + 1, 0, val) {
      AllSatConcat(val, clauses, more);
    }
  }

  /** Both operands are the constant true: the constant gets a variable, which the clauses make false. */
  lemma EncodesTrueGate(c: Circuit, ren: map<nat, int>, ren2: map<nat, int>, k: nat, clauses: seq<Clause>, all: seq<Clause>)
    requires Encodes(c, ren, k, 0, clauses) && Operands(c, ren, k) && Grown(ren, ren2) && k < |c.ands|
    requires c.ands[k].rhs0 == 1 && c.ands[k].rhs1 == 1 && c.ands[k].lhs in ren && 0 in ren2
    requires ren2[0] > 0 && ren[c.ands[k].lhs] > 0
    requires all == clauses + [[ren[c.ands[k].lhs]]] + [[ren[c.ands[k].lhs], ren2[0]], [-ren[c.ands[k].lhs], -ren2[0]]]
    ensures Encodes(c, ren2, k + 1, 0, all)
  {
    hide AllSat, CircuitHolds;
    forall val: Valuation ensures AllSat(val, all) <==> CircuitHolds(c, ren2, k + 1, 0, val) {
      TrueGateAt(c, ren, ren2, k, clauses, val);
    }
  }

  lemma TrueGateAt(c: Circuit, ren: map<nat, int>, ren2: map<nat, int>, k: nat, clauses: seq<Clause>, val: Valuation)
    requires AllSat(val, clauses) <==> CircuitHolds(c, ren, k, 0, val)
    requires Operands(c, ren, k) && Grown(ren, ren2) && k < |c.ands|
    requires c.ands[k].rhs0 == 1 && c.ands[k].rhs1 == 1 && c.ands[k].lhs in ren && 0 in ren2
    requires ren2[0] > 0 && ren[c.ands[k].lhs] > 0
    ensures var l, x := ren[c.ands[k].lhs], ren2[0];
            AllSat(val, clauses + [[l]] + [[l, x], [-l, -x]]) <==> CircuitHolds(c, ren2, k + 1, 0, val)
  {
    hide AllSat;
    var l, x := ren[c.ands[k].lhs], ren2[0];
    AllSatConcat(val, clauses + [[l]], [[l, x], [-l, -x]]);
    AllSatConcat(val, clauses, [[l]]);
    UnitMeans(val, l);
    EqualMeans(val, l, -x);
    assert -(-x) == x;
    HoldsGrown(c, ren, ren2, k, val);
    assert GateHolds(val, ren2, c.ands[k]) <==> val(l);
  }

  /** The clauses of one output. */
  ghost predicate SaysOutput(ren: map<nat, int>, o: Symbol, clauses: seq<Clause>) {
    (o.lit < 2 || Strip(o.lit) in ren) && forall val: Valuation :: AllSat(val, clauses) <==> OutputHolds(val, ren, o)
  }

  lemma EncodesOutput(c: Circuit, ren: map<nat, int>, n: nat, clauses: seq<Clause>, more: seq<Clause>)
    requires Encodes(c, ren, |c.ands|, n, clauses) && n < |c.outputs| && SaysOutput(ren, c.outputs[n], more)
    ensures Encodes(c, ren, |c.ands|, n + 1, clauses + more)
  {
    hide AllSat, GateHolds, OutputHolds;
    forall val: Valuation ensures AllSat(val, clauses + more) <==> CircuitHolds(c, ren, |c.ands|, n + 1, val) {
      AllSatConcat(val, clauses, more);
    }
  }

  lemma NothingEncoded(c: Circuit, ren: map<nat, int>)
    requires 0 !in ren
    ensures Encodes(c, ren, 0, 0, [])
  {}

  class CnfConverter {
    const circuit: Circuit
    var renamings: map<nat, int>
    var freshStart: int
    var nofClauses: nat
    var clauses: seq<Clause>

    /** The first k gates have been translated. */
    ghost predicate Translated(k: nat)
      reads this
    {
      && k <= |circuit.ands| && Renames(circuit, renamings, freshStart, k) && Operands(circuit, renamings, k)
      && Encodes(circuit, renamings, k, 0, clauses) && nofClauses == |clauses| && Bounded(clauses, freshStart)
    }

    constructor (ghost q: Formula, c: Circuit)
      requires Named(q, c) && Topological(c)
      ensures circuit == c && Translated(0)
    {
      circuit, renamings, freshStart, nofClauses, clauses := c, map[], 0, 0, [];
      new;
      NamedApart(q, circuit);
      NameInputs();
      NameOutputs();
      InputsRename(circuit, renamings, freshStart);
      NothingEncoded(circuit, renamings);
    }

    method NameInputs()
      requires Topological(circuit) && renamings == map[] && freshStart == 0
      modifies `renamings, `freshStart
      ensures InputsNamed(circuit, renamings, freshStart, |circuit.inputs|)
    {
      hide Topological, InputsNamed;
      NoInputs(circuit);
      for i := 0 to |circuit.inputs|
        invariant InputsNamed(circuit, renamings, freshStart, i)
      {
        InputNext(circuit, renamings, freshStart, i);
        HandleSymbol(circuit.inputs[i]);
      }
    }

    method NameOutputs()
      requires InputsNamed(circuit, renamings, freshStart, |circuit.inputs|)
      modifies `freshStart
      ensures InputsNamed(circuit, renamings, freshStart, |circuit.inputs|)
      ensures forall j :: 0 <= j < |circuit.outputs| ==> circuit.outputs[j].name <= freshStart
    {
      for i := 0 to |circuit.outputs|
        invariant freshStart >= old(freshStart)
        invariant forall j :: 0 <= j < i ==> circuit.outputs[j].name <= freshStart
      {
        freshStart := if circuit.outputs[i].name > freshStart then circuit.outputs[i].name else freshStart;
      }
    }

    method HandleSymbol(sym: Symbol)
      modifies `renamings, `freshStart
      ensures renamings == old(renamings)[sym.lit := sym.name][sym.lit + 1 := -sym.name]
      ensures freshStart == if sym.name > old(freshStart) then sym.name else old(freshStart)
    {
      renamings := renamings[sym.lit := sym.name];
      renamings := renamings[sym.lit + 1 := -sym.name];
      freshStart := if sym.name > freshStart then sym.name else freshStart;
    }

    /** The formula literal of a circuit literal; a variable without one gets a fresh one. */
    method GetRenaming(lit: nat) returns (res: int)
      modifies `renamings, `freshStart
      ensures var v := Strip(lit);
              && (if v in old(renamings) then renamings == old(renamings) && freshStart == old(freshStart)
                  else freshStart == old(freshStart) + 1 && renamings == old(renamings)[v := freshStart])
              && v in renamings && res == if lit % 2 == 0 then renamings[v] else -renamings[v]
    {
      var v := Strip(lit);
      var x;
      if v !in renamings {
        freshStart := freshStart + 1;
        x := freshStart;
        renamings := renamings[v := x];
      } else {
        x := renamings[v];
      }
      res := if lit % 2 == 0 then x else -x;
    }

    /** Gate k has its variable lhs, but no clauses yet. */
    ghost predicate Pending(k: nat, lhs: int)
      reads this
    {
      && k < |circuit.ands| && Renames(circuit, renamings, freshStart, k + 1) && Operands(circuit, renamings, k + 1)
      && Encodes(circuit, renamings, k, 0, clauses) && nofClauses == |clauses| && Bounded(clauses, freshStart)
      && HasOperands(renamings, circuit.ands[k]) && lhs == renamings[circuit.ands[k].lhs]
      && GateBounds(renamings, circuit.ands[k], freshStart)
    }

    method NameGate(k: nat) returns (lhs: int)
      requires Topological(circuit) && Translated(k) && k < |circuit.ands|
      modifies `renamings, `freshStart
      ensures Pending(k, lhs)
    {
      hide Topological, Renames, Encodes, Operands, Bounded, GateBounds;
      ghost var ren, top := renamings, freshStart;
      GateNamed(circuit, ren, freshStart, k);
      lhs := GetRenaming(circuit.ands[k].lhs);
      EncodesGrown(circuit, ren, renamings, k, clauses);
      GateVars(circuit, renamings, freshStart, k);
      BoundedMore(clauses, top, freshStart, []);
      assert clauses + [] == clauses;
    }

    method Emit(more: seq<Clause>, ghost k: nat, ghost lhs: int)
      requires Pending(k, lhs) && SaysGate(renamings, circuit.ands[k], more) && Bounded(more, freshStart)
      modifies `clauses, `nofClauses
      ensures Translated(k + 1)
    {
      hide Renames, Encodes, Operands, Bounded, GateBounds, SaysGate;
      EncodesGate(circuit, renamings, k, clauses, more);
      BoundedMore(clauses, freshStart, freshStart, more);
      clauses := clauses + more;
      nofClauses := nofClauses + |more|;
    }

    /** The clauses of gate k. */
    method HandleAnd(k: nat)
      requires Topological(circuit) && Translated(k) && k < |circuit.ands|
      modifies this
      ensures Translated(k + 1)
    {
      hide Topological, Translated, Bounded, SaysGate, Renames, Encodes, Operands;
      var a := circuit.ands[k];
      var lhs := NameGate(k);
      if a.rhs0 == 0 || a.rhs1 == 0 {
        FalseGate(renamings, a, lhs);
        SmallClauses(lhs, lhs, lhs, freshStart);
        Emit([[-lhs]], k, lhs);
      } else if a.rhs0 == 1 {
        if a.rhs1 == 1 {
          HandleTrueGate(k, lhs);
        } else {
          var rhs := GetRenaming(a.rhs1);
          CopyGate(renamings, a, lhs, rhs, a.rhs1);
          SmallClauses(lhs, rhs, lhs, freshStart);
          Emit([[lhs, -rhs], [-lhs, rhs]], k, lhs);
        }
      } else if a.rhs1 == 1 {
        var rhs := GetRenaming(a.rhs0);
        CopyGate(renamings, a, lhs, rhs, a.rhs0);
        SmallClauses(lhs, rhs, lhs, freshStart);
        Emit([[lhs, -rhs], [-lhs, rhs]], k, lhs);
      } else {
        var rhs0 := GetRenaming(a.rhs0);
        var rhs1 := GetRenaming(a.rhs1);
        TwoGate(renamings, a, lhs, rhs0, rhs1);
        SmallClauses(lhs, rhs0, rhs1, freshStart);
        Emit([[lhs, -rhs0, -rhs1], [-lhs, rhs0], [-lhs, rhs1]], k, lhs);
      }
    }

    /** Both operands are true: the unit clause is followed by clauses over a variable for the constant. */
    method HandleTrueGate(k: nat, lhs: int)
      requires Topological(circuit) && Pending(k, lhs) && circuit.ands[k].rhs0 == 1 && circuit.ands[k].rhs1 == 1
      modifies this
      ensures Translated(k + 1)
    {
      hide Topological, Renames, Encodes, Operands, Bounded;
      TrueGateStep(circuit, renamings, freshStart, k, clauses);
      clauses := clauses + [[lhs]];
      nofClauses := nofClauses + 1;
      var rhs := GetRenaming(circuit.ands[k].rhs1);
      clauses := clauses + [[lhs, -rhs], [-lhs, rhs]];
      nofClauses := nofClauses + 2;
    }

    /** Gates, then outputs; the header announces the variables and clauses. */
    method WriteCnfModel() returns (maxVariable: int, announced: nat)
      requires Topological(circuit) && Translated(0)
      modifies this
      ensures Renames(circuit, renamings, freshStart, |circuit.ands|) && Operands(circuit, renamings, |circuit.ands|)
      ensures Encodes(circuit, renamings, |circuit.ands|, |circuit.outputs|, clauses)
      ensures forall i :: 0 <= i < |circuit.outputs| ==> circuit.outputs[i].lit < 2 || Strip(circuit.outputs[i].lit) in renamings
      ensures announced == |clauses| && Bounded(clauses, maxVariable)
    {
      hide Topological, Renames, Encodes, Operands, Bounded, SaysOutput;
      for k := 0 to |circuit.ands|
        invariant Translated(k)
      {
        HandleAnd(k);
      }
      for i := 0 to |circuit.outputs|
        invariant Renames(circuit, renamings, freshStart, |circuit.ands|) && Operands(circuit, renamings, |circuit.ands|)
        invariant Encodes(circuit, renamings, |circuit.ands|, i, clauses)
        invariant nofClauses == |clauses| && Bounded(clauses, freshStart)
        invariant forall j :: 0 <= j < i ==> circuit.outputs[j].lit < 2 || Strip(circuit.outputs[j].lit) in renamings
      {
        WriteOutput(i);
      }
      maxVariable, announced := freshStart, nofClauses;
    }

    method WriteOutput(i: nat)
      requires Topological(circuit) && i < |circuit.outputs|
      requires Renames(circuit, renamings, freshStart, |circuit.ands|) && Encodes(circuit, renamings, |circuit.ands|, i, clauses)
      requires nofClauses == |clauses| && Bounded(clauses, freshStart)
      modifies this
      ensures renamings == old(renamings) && freshStart == old(freshStart)
      ensures Encodes(circuit, renamings, |circuit.ands|, i + 1, clauses)
      ensures nofClauses == |clauses| && Bounded(clauses, freshStart)
      ensures circuit.outputs[i].lit < 2 || Strip(circuit.outputs[i].lit) in renamings
    {
      hide Topological, Renames, Encodes, Bounded, SaysOutput;
      var o := circuit.outputs[i];
      OutputNamed(circuit, renamings, freshStart, i);
      if o.lit == 0 {
        ConstantOutput(renamings, o);
        AddOutput(i, [[-o.name]]);
      } else if o.lit == 1 {
        ConstantOutput(renamings, o);
        AddOutput(i, [[o.name]]);
      } else {
        var x := GetRenaming(o.lit);
        CopyOutput(renamings, o, x);
        AddOutput(i, [[o.name, -x], [-o.name, x]]);
      }
    }

    method AddOutput(ghost i: nat, more: seq<Clause>)
      requires i < |circuit.outputs| && Encodes(circuit, renamings, |circuit.ands|, i, clauses)
      requires SaysOutput(renamings, circuit.outputs[i], more) && Bounded(more, freshStart)
      requires nofClauses == |clauses| && Bounded(clauses, freshStart)
      modifies `clauses, `nofClauses
      ensures Encodes(circuit, renamings, |circuit.ands|, i + 1, clauses)
      ensures nofClauses == |clauses| && Bounded(clauses, freshStart)
    {
      hide Encodes, Bounded, SaysOutput;
      EncodesOutput(circuit, renamings, i, clauses, more);
      BoundedMore(clauses, freshStart, freshStart, more);
      clauses := clauses + more;
      nofClauses := nofClauses + |more|;
    }
  }

  // ------------------------------------------------------- one gate

  function RenLit(ren: map<nat, int>, lit: nat): int
    requires Strip(lit) in ren
  {
    if lit % 2 == 0 then ren[Strip(lit)] else -ren[Strip(lit)]
  }

  /** A new gate has no variable yet, and its operands have theirs. */
  lemma GateNamed(c: Circuit, ren: map<nat, int>, top: int, k: nat)
    requires Topological(c) && Renames(c, ren, top, k) && k < |c.ands| && Operands(c, ren, k)
    ensures var g, ren2 := c.ands[k], ren[c.ands[k].lhs := top + 1];
            && g.lhs !in ren && Strip(g.lhs) == g.lhs && g.lhs % 2 == 0 && g.lhs > 0 && Grown(ren, ren2)
            && Renames(c, ren2, top + 1, k + 1) && HasOperands(ren2, g) && Operands(c, ren2, k + 1)
  {
    GateFresh(c, k);
    OperandNamed(c, ren, top, k, c.ands[k].rhs0);
    OperandNamed(c, ren, top, k, c.ands[k].rhs1);
    GateRenames(c, ren, top, k);
    OperandsGrown(c, ren, ren[c.ands[k].lhs := top + 1], k);
  }

  lemma GateRenames(c: Circuit, ren: map<nat, int>, top: int, k: nat)
    requires Renames(c, ren, top, k) && k < |c.ands| && c.ands[k].lhs % 2 == 0 && !Known(c, k, c.ands[k].lhs)
    ensures c.ands[k].lhs !in ren && Renames(c, ren[c.ands[k].lhs := top + 1], top + 1, k + 1)
  {
    var ren2 := ren[c.ands[k].lhs := top + 1];
    forall i | 0 <= i < |c.inputs| ensures c.inputs[i].lit != c.ands[k].lhs {}
  }

  lemma OperandNamed(c: Circuit, ren: map<nat, int>, top: int, k: nat, lit: nat)
    requires Renames(c, ren, top, k) && k <= |c.ands| && Known(c, k, Strip(lit))
    ensures lit < 2 || Strip(lit) in ren
  {}

  lemma OperandsGrown(c: Circuit, ren: map<nat, int>, ren2: map<nat, int>, k: nat)
    requires Operands(c, ren, k) && Grown(ren, ren2)
    ensures Operands(c, ren2, k)
  {
    forall j | 0 <= j < k && j < |c.ands| ensures HasOperands(ren2, c.ands[j]) { assert HasOperands(ren, c.ands[j]); }
  }

  lemma OperandsLess(c: Circuit, ren: map<nat, int>, k: nat)
    requires Operands(c, ren, k + 1)
    ensures Operands(c, ren, k)
  {}

  /** The variables of a gate and its operands are positive and within bounds. */
  ghost predicate GateBounds(ren: map<nat, int>, g: And, top: int)
    requires HasOperands(ren, g)
  {
    && 0 < ren[g.lhs] <= top
    && (g.rhs0 < 2 || 0 < ren[Strip(g.rhs0)] <= top) && (g.rhs1 < 2 || 0 < ren[Strip(g.rhs1)] <= top)
  }

  lemma GateVars(c: Circuit, ren: map<nat, int>, top: int, k: nat)
    requires Topological(c) && Renames(c, ren, top, k + 1) && k < |c.ands| && HasOperands(ren, c.ands[k])
    ensures GateBounds(ren, c.ands[k], top)
  {}

  /** The constant may be given a variable at any time. */
  lemma ConstantNamed(c: Circuit, ren: map<nat, int>, top: int, k: nat)
    requires Topological(c) && Renames(c, ren, top, k)
    ensures var ren2 := if 0 in ren then ren else ren[0 := top + 1];
            && Renames(c, ren2, if 0 in ren then top else top + 1, k) && Grown(ren, ren2)
            && 0 < ren2[0] <= (if 0 in ren then top else top + 1)
  {}

  lemma TrueGateStep(c: Circuit, ren: map<nat, int>, top: int, k: nat, clauses: seq<Clause>)
    requires Topological(c) && k < |c.ands| && Renames(c, ren, top, k + 1) && Operands(c, ren, k + 1)
    requires Encodes(c, ren, k, 0, clauses) && Bounded(clauses, top) && HasOperands(ren, c.ands[k])
    requires GateBounds(ren, c.ands[k], top) && c.ands[k].rhs0 == 1 && c.ands[k].rhs1 == 1
    ensures var ren2, top2, l := if 0 in ren then ren else ren[0 := top + 1], if 0 in ren then top else top + 1, ren[c.ands[k].lhs];
            var all := clauses + [[l]] + [[l, ren2[0]], [-l, -ren2[0]]];
            && Renames(c, ren2, top2, k + 1) && Operands(c, ren2, k + 1) && Encodes(c, ren2, k + 1, 0, all) && Bounded(all, top2)
  {
    hide Topological, Encodes, Operands, Bounded, Renames, Grown;
    var ren2, top2, l := if 0 in ren then ren else ren[0 := top + 1], if 0 in ren then top else top + 1, ren[c.ands[k].lhs];
    var all := clauses + [[l]] + [[l, ren2[0]], [-l, -ren2[0]]];
    ConstantNamed(c, ren, top, k + 1);
    OperandsLess(c, ren, k);
    EncodesTrueGate(c, ren, ren2, k, clauses, all);
    OperandsGrown(c, ren, ren2, k + 1);
    SmallClauses(l, -ren2[0], l, top2);
    BoundedMore(clauses, top, top2, [[l]] + [[l, ren2[0]], [-l, -ren2[0]]]);
    assert all == clauses + ([[l]] + [[l, ren2[0]], [-l, -ren2[0]]]);
  }

  lemma FalseGate(ren: map<nat, int>, g: And, l: int)
    requires HasOperands(ren, g) && (g.rhs0 == 0 || g.rhs1 == 0) && l == ren[g.lhs] > 0
    ensures SaysGate(ren, g, [[-l]])
  {
    hide AllSat;
    forall val: Valuation ensures AllSat(val, [[-l]]) <==> GateHolds(val, ren, g) { UnitMeans(val, -l); }
  }

  lemma RenLitMeans(val: Valuation, ren: map<nat, int>, lit: nat)
    requires lit >= 2 && Strip(lit) in ren && ren[Strip(lit)] > 0
    ensures True(val, RenLit(ren, lit)) == Means(val, ren, lit)
  {}

  lemma CopyGate(ren: map<nat, int>, g: And, l: int, r: int, lit: nat)
    requires HasOperands(ren, g) && l == ren[g.lhs] > 0 && lit >= 2
    requires (g.rhs0 == 1 && g.rhs1 == lit) || (g.rhs1 == 1 && g.rhs0 == lit)
    requires ren[Strip(lit)] > 0 && r == RenLit(ren, lit)
    ensures SaysGate(ren, g, [[l, -r], [-l, r]])
  {
    hide AllSat;
    forall val: Valuation ensures AllSat(val, [[l, -r], [-l, r]]) <==> GateHolds(val, ren, g) {
      EqualMeans(val, l, r);
      RenLitMeans(val, ren, lit);
    }
  }

  lemma TwoGate(ren: map<nat, int>, g: And, l: int, r0: int, r1: int)
    requires HasOperands(ren, g) && l == ren[g.lhs] > 0 && g.rhs0 >= 2 && g.rhs1 >= 2
    requires ren[Strip(g.rhs0)] > 0 && r0 == RenLit(ren, g.rhs0) && ren[Strip(g.rhs1)] > 0 && r1 == RenLit(ren, g.rhs1)
    ensures SaysGate(ren, g, [[l, -r0, -r1], [-l, r0], [-l, r1]])
  {
    hide AllSat;
    forall val: Valuation ensures AllSat(val, [[l, -r0, -r1], [-l, r0], [-l, r1]]) <==> GateHolds(val, ren, g) {
      ConjunctionMeans(val, l, r0, r1);
      RenLitMeans(val, ren, g.rhs0);
      RenLitMeans(val, ren, g.rhs1);
    }
  }

  /** The clauses of a gate over literals within bounds. */
  lemma SmallClauses(l: int, r: int, t: int, top: int)
    requires l != 0 && r != 0 && t != 0 && Abs(l) <= top && Abs(r) <= top && Abs(t) <= top
    ensures Bounded([[l]], top) && Bounded([[-l]], top) && Bounded([[l, -r], [-l, r]], top)
    ensures Bounded([[l]] + [[l, -r], [-l, r]], top) && Bounded([[l, -r, -t], [-l, r], [-l, t]], top)
  {}

  lemma BoundedMore(clauses: seq<Clause>, top: int, top2: int, more: seq<Clause>)
    requires Bounded(clauses, top) && top <= top2 && Bounded(more, top2)
    ensures Bounded(clauses + more, top2)
  {}

  /** The first n inputs have their names. */
  ghost predicate InputsNamed(c: Circuit, ren: map<nat, int>, top: int, n: nat) {
    && n <= |c.inputs| && top >= 0
    && (forall i :: 0 <= i < n ==> c.inputs[i].lit in ren && ren[c.inputs[i].lit] == c.inputs[i].name <= top)
    && (forall v :: v in ren && v % 2 == 0 ==> exists i :: 0 <= i < n && c.inputs[i].lit == v)
  }

  lemma NoInputs(c: Circuit)
    ensures InputsNamed(c, map[], 0, 0)
  {}

  lemma InputNext(c: Circuit, ren: map<nat, int>, top: int, n: nat)
    requires Topological(c) && InputsNamed(c, ren, top, n) && n < |c.inputs|
    ensures var x := c.inputs[n];
            InputsNamed(c, ren[x.lit := x.name][x.lit + 1 := -x.name], if x.name > top then x.name else top, n + 1)
  {
    var x := c.inputs[n];
    var ren2 := ren[x.lit := x.name][x.lit + 1 := -x.name];
    forall i | 0 <= i < n ensures c.inputs[i].lit in ren2 && ren2[c.inputs[i].lit] == c.inputs[i].name {
      assert c.inputs[i].lit != x.lit && c.inputs[i].lit % 2 == 0;
    }
    forall v | v in ren2 && v % 2 == 0 ensures exists i :: 0 <= i < n + 1 && c.inputs[i].lit == v {
      if v in ren {
        var i :| 0 <= i < n && c.inputs[i].lit == v;
      } else {
        assert c.inputs[n].lit == v;
      }
    }
  }

  /** What the names are like. */
  ghost predicate NamesApart(c: Circuit) {
    && (forall i :: 0 <= i < |c.inputs| ==> c.inputs[i].name > 0)
    && (forall i :: 0 <= i < |c.outputs| ==> c.outputs[i].name > 0)
    && (forall i, j :: 0 <= i < |c.inputs| && 0 <= j < |c.outputs| ==> c.inputs[i].name != c.outputs[j].name)
    && (forall i, j :: 0 <= i < j < |c.inputs| ==> c.inputs[i].name != c.inputs[j].name)
  }

  lemma NamedApart(q: Formula, c: Circuit)
    requires Named(q, c)
    ensures NamesApart(c)
  {
    forall i | 0 <= i < |c.inputs| ensures c.inputs[i].name in q.universals {}
    forall i | 0 <= i < |c.outputs| ensures c.outputs[i].name in q.deps.Keys {}
  }

  lemma InputsRename(c: Circuit, ren: map<nat, int>, top: int)
    requires NamesApart(c) && Topological(c) && InputsNamed(c, ren, top, |c.inputs|)
    requires forall i :: 0 <= i < |c.outputs| ==> c.outputs[i].name <= top
    ensures Renames(c, ren, top, 0) && 0 !in ren
  {
    hide Topological, NamesApart;
    forall v | v in ren && v % 2 == 0
      ensures Known(c, 0, v) && v != 0 && 0 < ren[v] <= top
      ensures forall i :: 0 <= i < |c.outputs| ==> ren[v] != c.outputs[i].name
    {
      var i := NamedInput(c, ren, top, v);
    }
    forall v, w | v in ren && w in ren && v % 2 == 0 && w % 2 == 0 && ren[v] == ren[w] ensures v == w {
      var i := NamedInput(c, ren, top, v);
      var j := NamedInput(c, ren, top, w);
      SameName(c, i, j);
    }
    OutputsPositive(c);
  }

  lemma OutputsPositive(c: Circuit)
    requires NamesApart(c)
    ensures forall i :: 0 <= i < |c.outputs| ==> c.outputs[i].name > 0
    ensures forall i :: 0 <= i < |c.inputs| ==> c.inputs[i].name > 0
  {}

  lemma SameName(c: Circuit, i: nat, j: nat)
    requires NamesApart(c) && i < |c.inputs| && j < |c.inputs| && c.inputs[i].name == c.inputs[j].name
    ensures i == j
  {}

  lemma NamedInput(c: Circuit, ren: map<nat, int>, top: int, v: nat) returns (i: nat)
    requires NamesApart(c) && Topological(c) && InputsNamed(c, ren, top, |c.inputs|) && v in ren && v % 2 == 0
    ensures i < |c.inputs| && c.inputs[i].lit == v && ren[v] == c.inputs[i].name && 0 < ren[v] <= top
    ensures InputLit(c, v) && v != 0 && forall j :: 0 <= j < |c.outputs| ==> ren[v] != c.outputs[j].name
  {
    i :| 0 <= i < |c.inputs| && c.inputs[i].lit == v;
  }

  // ------------------------------------------------------- outputs

  lemma OutputNamed(c: Circuit, ren: map<nat, int>, top: int, i: nat)
    requires Topological(c) && Renames(c, ren, top, |c.ands|) && i < |c.outputs|
    ensures var o := c.outputs[i];
            && 0 < o.name && (o.lit < 2 || (Strip(o.lit) in ren && 0 < ren[Strip(o.lit)]))
            && Bounded([[o.name]], top) && Bounded([[-o.name]], top)
            && (o.lit < 2 || var x := RenLit(ren, o.lit); Bounded([[o.name, -x], [-o.name, x]], top))
  {
    var o := c.outputs[i];
    OutputKnown(c, i);
    OperandNamed(c, ren, top, |c.ands|, o.lit);
    SmallClauses(o.name, if o.lit < 2 then o.name else RenLit(ren, o.lit), o.name, top);
  }

  lemma ConstantOutput(ren: map<nat, int>, o: Symbol)
    requires o.lit < 2 && o.name > 0
    ensures SaysOutput(ren, o, if o.lit == 0 then [[-o.name]] else [[o.name]])
  {
    hide AllSat;
    var more := if o.lit == 0 then [[-o.name]] else [[o.name]];
    forall val: Valuation ensures AllSat(val, more) <==> OutputHolds(val, ren, o) {
      UnitMeans(val, if o.lit == 0 then -o.name else o.name);
    }
  }

  lemma CopyOutput(ren: map<nat, int>, o: Symbol, x: int)
    requires o.lit >= 2 && o.name > 0 && Strip(o.lit) in ren && ren[Strip(o.lit)] > 0 && x == RenLit(ren, o.lit)
    ensures SaysOutput(ren, o, [[o.name, -x], [-o.name, x]])
  {
    hide AllSat;
    forall val: Valuation ensures AllSat(val, [[o.name, -x], [-o.name, x]]) <==> OutputHolds(val, ren, o) {
      EqualMeans(val, o.name, x);
      RenLitMeans(val, ren, o.lit);
    }
  }

  // ------------------------------------------------------- the checks

  /** A complete satisfiability solver with assumptions. */
  type SatSolver = (seq<Clause>, seq<int>) -> bool

  ghost predicate Decides(solve: SatSolver) {
    forall f, a :: solve(f, a) <==> exists val: Valuation :: AllSat(val, f) && AllTrue(val, a)
  }

  function NegateLits(c: Clause): (r: seq<int>)
    ensures r == Negated(c)
  {
    seq(|c|, i requires 0 <= i < |c| => -c[i])
  }

  /** Whether no clause of the matrix can be falsified together with the clauses. */
  method CheckMatrix(clauses: seq<Clause>, matrix: seq<Clause>, solve: SatSolver) returns (ok: bool)
    requires Decides(solve)
    ensures ok <==> forall val: Valuation, i :: 0 <= i < |matrix| ==> !(AllSat(val, clauses) && AllTrue(val, Negated(matrix[i])))
  {
    for i := 0 to |matrix|
      invariant forall val: Valuation, j :: 0 <= j < i ==> !(AllSat(val, clauses) && AllTrue(val, Negated(matrix[j])))
    {
      var sat := solve(clauses, NegateLits(matrix[i]));
      if sat {
        return false;
      }
    }
    ok := true;
  }

  /** The certificate is accepted exactly when every output keeps to its dependencies and the functions
      of the circuit satisfy the matrix; then the formula is true. */
  method CheckModelAig(q: Formula, c: Circuit, solve: SatSolver) returns (ok: bool)
    requires Named(q, c) && Topological(c) && Decides(solve)
    ensures ok <==>
              && |q.deps| == |c.outputs| && DependenciesOk(c, q.deps)
              && forall u: set<int>, aux: Valuation :: u <= q.universals ==> AllSat(Induced(q, CircuitFamily(c), aux, u), q.matrix)
    ensures ok ==> Winning(q, CircuitFamily(c)) && IsTrue(q)
  {
    hide Named, Topological, Encodes, Renames, Bounded, DependenciesOk, CircuitFamily, Induced, Respects;
    var checker := new DependencyChecker(c, q.deps);
    var dependenciesOk := checker.Check();
    if !dependenciesOk {
      return false;
    }
    AcceptedRespects(q, c);
    var converter := new CnfConverter(q, c);
    var _, _ := converter.WriteCnfModel();
    ghost var ren, top := converter.renamings, converter.freshStart;
    var clauses := converter.clauses;
    EntailedIffSatisfied(q, c, ren, top, clauses);
    var consistent := solve(clauses, []);
    NoAssumptions(solve, clauses);
    if !consistent {
      return false;
    }
    ok := CheckMatrix(clauses, q.matrix, solve);
  }

  lemma NoAssumptions(solve: SatSolver, clauses: seq<Clause>)
    requires Decides(solve)
    ensures solve(clauses, []) <==> exists val: Valuation :: AllSat(val, clauses)
  {
    hide AllSat;
    if val: Valuation :| AllSat(val, clauses) { assert AllTrue(val, []); }
  }
}
