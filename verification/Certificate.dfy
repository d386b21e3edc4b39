/** Circuits as certificates: what they compute, what their inputs can influence, and their clauses. */
module Certificate {
  import opened Dqbf
  import Aig

  type And = Aig.And

  /** A circuit literal with the name of a variable of the formula. */
  datatype Symbol = Symbol(lit: nat, name: int)

  datatype Circuit = Circuit(inputs: seq<Symbol>, ands: seq<And>, outputs: seq<Symbol>)

  /** aiger_strip: the positive literal of the same variable. */
  function Strip(lit: nat): nat { lit - lit % 2 }

  // ------------------------------------------------------- circuits in topological order

  ghost predicate InputLit(c: Circuit, v: nat) {
    exists i :: 0 <= i < |c.inputs| && c.inputs[i].lit == v
  }

  /** v is the constant, an input or one of the first k gates. */
  ghost predicate Known(c: Circuit, k: nat, v: nat) {
    v == 0 || InputLit(c, v) || exists j :: 0 <= j < k <= |c.ands| && c.ands[j].lhs == v
  }

  ghost predicate Topological(c: Circuit) {
    && (forall i :: 0 <= i < |c.inputs| ==> c.inputs[i].lit > 0 && c.inputs[i].lit % 2 == 0)
    && (forall i, j :: 0 <= i < j < |c.inputs| ==> c.inputs[i].lit != c.inputs[j].lit)
    && (forall k :: 0 <= k < |c.ands| ==>
          && c.ands[k].lhs % 2 == 0 && !Known(c, k, c.ands[k].lhs)
          && Known(c, k, Strip(c.ands[k].rhs0)) && Known(c, k, Strip(c.ands[k].rhs1)))
    && (forall i :: 0 <= i < |c.outputs| ==> Known(c, |c.ands|, Strip(c.outputs[i].lit)))
  }

  /** Inputs are named by the universals, outputs by the existentials, each once. */
  ghost predicate Named(q: Formula, c: Circuit) {
    && WellFormed(q)
    && (forall v :: v in q.universals <==> exists i :: 0 <= i < |c.inputs| && c.inputs[i].name == v)
    && (forall i, j :: 0 <= i < j < |c.inputs| ==> c.inputs[i].name != c.inputs[j].name)
    && (forall v :: v in q.deps <==> exists i :: 0 <= i < |c.outputs| && c.outputs[i].name == v)
    && (forall i, j :: 0 <= i < j < |c.outputs| ==> c.outputs[i].name != c.outputs[j].name)
  }

  // ------------------------------------------------------- values

  /** The value of a positive literal after the first k gates. */
  ghost function VarValue(c: Circuit, u: set<int>, k: nat, v: nat): bool
    requires k <= |c.ands|
    decreases k, 0
  {
    if k == 0 then exists i :: 0 <= i < |c.inputs| && c.inputs[i].lit == v && c.inputs[i].name in u
    else if c.ands[k - 1].lhs == v then
      LitValue(c, u, k - 1, c.ands[k - 1].rhs0) && LitValue(c, u, k - 1, c.ands[k - 1].rhs1)
    else VarValue(c, u, k - 1, v)
  }

  ghost function LitValue(c: Circuit, u: set<int>, k: nat, lit: nat): bool
    requires k <= |c.ands|
    decreases k, 1
  {
    VarValue(c, u, k, Strip(lit)) != (lit % 2 == 1)
  }

  /** The functions that the outputs compute. */
  ghost function CircuitFamily(c: Circuit): Family {
    (e, u) => exists i :: 0 <= i < |c.outputs| && c.outputs[i].name == e && LitValue(c, u, |c.ands|, c.outputs[i].lit)
  }

  /** Later gates do not change what is known. */
  lemma {:induction false} KnownStays(c: Circuit, u: set<int>, j: nat, k: nat, v: nat)
    requires Topological(c) && j <= k <= |c.ands| && Known(c, j, v)
    ensures Known(c, k, v) && VarValue(c, u, k, v) == VarValue(c, u, j, v)
    decreases k - j
  {
    if j < k {
      KnownStays(c, u, j, k - 1, v);
      assert !Known(c, k - 1, c.ands[k - 1].lhs);
    }
  }

  lemma {:induction false} ConstantFalse(c: Circuit, u: set<int>, k: nat)
    requires Topological(c) && k <= |c.ands|
    ensures !VarValue(c, u, k, 0)
    decreases k
  {
    if k > 0 {
      ConstantFalse(c, u, k - 1);
      assert !Known(c, k - 1, c.ands[k - 1].lhs);
    }
  }

  /** A gate has the value of its operands. */
  lemma GateValue(c: Circuit, u: set<int>, k: nat)
    requires Topological(c) && k < |c.ands|
    ensures VarValue(c, u, |c.ands|, c.ands[k].lhs)
            == (LitValue(c, u, |c.ands|, c.ands[k].rhs0) && LitValue(c, u, |c.ands|, c.ands[k].rhs1))
  {
    var g, n := c.ands[k], |c.ands|;
    assert Known(c, k + 1, g.lhs);
    KnownStays(c, u, k + 1, n, g.lhs);
    KnownStays(c, u, k, n, Strip(g.rhs0));
    KnownStays(c, u, k, n, Strip(g.rhs1));
  }

  lemma InputValue(c: Circuit, u: set<int>, i: nat)
    requires Topological(c) && i < |c.inputs|
    ensures VarValue(c, u, |c.ands|, c.inputs[i].lit) == (c.inputs[i].name in u)
  {
    assert Known(c, 0, c.inputs[i].lit);
    KnownStays(c, u, 0, |c.ands|, c.inputs[i].lit);
  }

  // ------------------------------------------------------- which inputs matter

  /** The names of the inputs that v can be reached from, after the first k gates. */
  ghost function Support(c: Circuit, k: nat, v: nat): set<int>
    requires k <= |c.ands|
    decreases k
  {
    if k == 0 then set i | 0 <= i < |c.inputs| && c.inputs[i].lit == v :: c.inputs[i].name
    else if c.ands[k - 1].lhs == v then
      Support(c, k - 1, Strip(c.ands[k - 1].rhs0)) + Support(c, k - 1, Strip(c.ands[k - 1].rhs1))
    else Support(c, k - 1, v)
  }

  lemma {:induction false} SupportDecides(c: Circuit, k: nat, v: nat, u: set<int>, w: set<int>)
    requires k <= |c.ands| && u * Support(c, k, v) == w * Support(c, k, v)
    ensures VarValue(c, u, k, v) == VarValue(c, w, k, v)
    decreases k
  {
    if k == 0 {
      forall i | 0 <= i < |c.inputs| && c.inputs[i].lit == v ensures c.inputs[i].name in u <==> c.inputs[i].name in w {
        assert c.inputs[i].name in Support(c, 0, v);
        assert c.inputs[i].name in u <==> c.inputs[i].name in u * Support(c, 0, v);
      }
    } else if c.ands[k - 1].lhs == v {
      var v0, v1 := Strip(c.ands[k - 1].rhs0), Strip(c.ands[k - 1].rhs1);
      var s := Support(c, k, v);
      assert u * Support(c, k - 1, v0) == (u * s) * Support(c, k - 1, v0) == w * Support(c, k - 1, v0);
      assert u * Support(c, k - 1, v1) == (u * s) * Support(c, k - 1, v1) == w * Support(c, k - 1, v1);
      SupportDecides(c, k - 1, v0, u, w);
      SupportDecides(c, k - 1, v1, u, w);
    } else {
      SupportDecides(c, k - 1, v, u, w);
    }
  }

  /** What the dependency check accepts. */
  ghost predicate DependenciesOk(c: Circuit, deps: map<int, set<int>>) {
    forall i :: 0 <= i < |c.outputs| ==>
      Strip(c.outputs[i].lit) == 0
      || Support(c, |c.ands|, Strip(c.outputs[i].lit)) <= (if c.outputs[i].name in deps then deps[c.outputs[i].name] else {})
  }

  /** The functions of an accepted circuit respect the dependencies. */
  lemma AcceptedRespects(q: Formula, c: Circuit)
    requires Named(q, c) && Topological(c) && DependenciesOk(c, q.deps)
    ensures Respects(q, CircuitFamily(c))
  {
    var s := CircuitFamily(c);
    forall e, u: set<int>, w: set<int> | e in q.deps && u * q.deps[e] == w * q.deps[e] ensures s(e, u) == s(e, w) {
      var i :| 0 <= i < |c.outputs| && c.outputs[i].name == e;
      var v := Strip(c.outputs[i].lit);
      if v == 0 {
        ConstantFalse(c, u, |c.ands|);
        ConstantFalse(c, w, |c.ands|);
      } else {
        var p := Support(c, |c.ands|, v);
        assert u * p == (u * q.deps[e]) * p == (w * q.deps[e]) * p == w * p;
        SupportDecides(c, |c.ands|, v, u, w);
      }
      FamilyAt(c, i, u);
      FamilyAt(c, i, w);
    }
  }

  lemma FamilyAt(c: Circuit, i: nat, u: set<int>)
    requires i < |c.outputs| && forall i, j :: 0 <= i < j < |c.outputs| ==> c.outputs[i].name != c.outputs[j].name
    ensures CircuitFamily(c)(c.outputs[i].name, u) == LitValue(c, u, |c.ands|, c.outputs[i].lit)
  {
    forall j | 0 <= j < |c.outputs| && c.outputs[j].name == c.outputs[i].name ensures j == i {}
  }

  // ------------------------------------------------------- clauses

  /** The value of a circuit literal when circuit variables are renamed to formula variables. */
  ghost predicate Means(val: Valuation, ren: map<nat, int>, lit: nat)
    requires lit < 2 || Strip(lit) in ren
  {
    if lit < 2 then lit == 1 else val(ren[Strip(lit)]) != (lit % 2 == 1)
  }

  ghost predicate HasOperands(ren: map<nat, int>, g: And) {
    g.lhs in ren && (g.rhs0 < 2 || Strip(g.rhs0) in ren) && (g.rhs1 < 2 || Strip(g.rhs1) in ren)
  }

  ghost predicate GateHolds(val: Valuation, ren: map<nat, int>, g: And) {
    HasOperands(ren, g) && (val(ren[g.lhs]) <==> Means(val, ren, g.rhs0) && Means(val, ren, g.rhs1))
  }

  ghost predicate OutputHolds(val: Valuation, ren: map<nat, int>, o: Symbol) {
    (o.lit < 2 || Strip(o.lit) in ren) && (val(o.name) <==> Means(val, ren, o.lit))
  }

  /** The first k gates hold, the constant is false where it has a variable, and the first n outputs hold. */
  ghost predicate CircuitHolds(c: Circuit, ren: map<nat, int>, k: nat, n: nat, val: Valuation) {
    && (forall j :: 0 <= j < k && j < |c.ands| ==> GateHolds(val, ren, c.ands[j]))
    && (0 in ren ==> !val(ren[0]))
    && (forall i :: 0 <= i < n && i < |c.outputs| ==> OutputHolds(val, ren, c.outputs[i]))
  }

  /** The clauses say exactly that. */
  ghost predicate Encodes(c: Circuit, ren: map<nat, int>, k: nat, n: nat, clauses: seq<Clause>) {
    forall val: Valuation :: AllSat(val, clauses) <==> CircuitHolds(c, ren, k, n, val)
  }

  /** Names for inputs, fresh variables for the rest, all different. */
  ghost predicate Renames(c: Circuit, ren: map<nat, int>, top: int, k: nat) {
    && top >= 0
    && (forall i :: 0 <= i < |c.inputs| ==>
          c.inputs[i].lit in ren && ren[c.inputs[i].lit] == c.inputs[i].name && 0 < c.inputs[i].name <= top)
    && (forall i :: 0 <= i < |c.outputs| ==> 0 < c.outputs[i].name <= top)
    && (forall j :: 0 <= j < k && j < |c.ands| ==> c.ands[j].lhs in ren)
    && (forall v :: v in ren && v % 2 == 0 ==> 0 < ren[v] <= top && Known(c, k, v))
    && (forall v, w :: v in ren && w in ren && v % 2 == 0 && w % 2 == 0 && ren[v] == ren[w] ==> v == w)
    && (forall v, i :: v in ren && v % 2 == 0 && 0 <= i < |c.outputs| ==> ren[v] != c.outputs[i].name)
  }

  // ------------------------------------------------------- the clauses of one gate

  /** x equals y. */
  lemma EqualMeans(val: Valuation, x: int, y: int)
    requires x != 0 && y != 0
    ensures AllSat(val, [[x, -y], [-x, y]]) <==> True(val, x) == True(val, y)
  {
    var c, d := [x, -y], [-x, y];
    assert [c, d][0] == c && [c, d][1] == d && c[0] == x && c[1] == -y && d[0] == -x && d[1] == y;
  }

  /** x is the conjunction of y and z. */
  lemma ConjunctionMeans(val: Valuation, x: int, y: int, z: int)
    requires x != 0 && y != 0 && z != 0
    ensures AllSat(val, [[x, -y, -z], [-x, y], [-x, z]]) <==> (True(val, x) <==> True(val, y) && True(val, z))
  {
    var c, d, e := [x, -y, -z], [-x, y], [-x, z];
    var f := [c, d, e];
    assert f[0] == c && f[1] == d && f[2] == e && c[0] == x && c[1] == -y && c[2] == -z;
    assert d[0] == -x && d[1] == y && e[0] == -x && e[1] == z;
  }

  // ------------------------------------------------------- models of the clauses

  /** The inputs that a valuation makes true. */
  ghost function InputsOf(c: Circuit, val: Valuation): set<int> {
    set i | 0 <= i < |c.inputs| && val(c.inputs[i].name) :: c.inputs[i].name
  }

  /** In a model of the clauses every circuit variable has the value that the circuit computes. */
  lemma {:induction false} ModelComputes(c: Circuit, ren: map<nat, int>, top: int, val: Valuation, k: nat, v: nat)
    requires Topological(c) && Renames(c, ren, top, |c.ands|) && k <= |c.ands| && Known(c, k, v) && v in ren && v % 2 == 0
    requires CircuitHolds(c, ren, |c.ands|, 0, val)
    ensures val(ren[v]) == VarValue(c, InputsOf(c, val), k, v)
    decreases k, 0
  {
    hide Topological, Renames;
    var u := InputsOf(c, val);
    if v == 0 {
      ConstantFalse(c, u, k);
    } else if k == 0 {
      ModelInput(c, ren, top, val, v);
    } else if c.ands[k - 1].lhs == v {
      var g := c.ands[k - 1];
      assert GateHolds(val, ren, g);
      OperandsKnown(c, k - 1);
      ModelOperand(c, ren, top, val, k - 1, g.rhs0);
      ModelOperand(c, ren, top, val, k - 1, g.rhs1);
    } else {
      ModelComputes(c, ren, top, val, k - 1, v);
    }
  }

  lemma OperandsKnown(c: Circuit, k: nat)
    requires Topological(c) && k < |c.ands|
    ensures Known(c, k, Strip(c.ands[k].rhs0)) && Known(c, k, Strip(c.ands[k].rhs1))
  {}

  lemma ModelOperand(c: Circuit, ren: map<nat, int>, top: int, val: Valuation, k: nat, lit: nat)
    requires Topological(c) && Renames(c, ren, top, |c.ands|) && k <= |c.ands| && Known(c, k, Strip(lit))
    requires CircuitHolds(c, ren, |c.ands|, 0, val) && (lit < 2 || Strip(lit) in ren)
    ensures Means(val, ren, lit) == LitValue(c, InputsOf(c, val), k, lit)
    decreases k, 1
  {
    hide Topological, Renames, CircuitHolds;
    if lit < 2 {
      ConstantFalse(c, InputsOf(c, val), k);
    } else {
      ModelComputes(c, ren, top, val, k, Strip(lit));
    }
  }

  lemma ModelInput(c: Circuit, ren: map<nat, int>, top: int, val: Valuation, v: nat)
    requires Topological(c) && Renames(c, ren, top, |c.ands|) && Known(c, 0, v) && v in ren && v > 0
    ensures val(ren[v]) == VarValue(c, InputsOf(c, val), 0, v)
  {
    var i :| 0 <= i < |c.inputs| && c.inputs[i].lit == v;
    forall j | 0 <= j < |c.inputs| && c.inputs[j].lit == v ensures j == i {}
    if c.inputs[i].name in InputsOf(c, val) {
      var j :| 0 <= j < |c.inputs| && val(c.inputs[j].name) && c.inputs[j].name == c.inputs[i].name;
    }
  }

  /** The valuation in which the circuit runs on u. */
  ghost function RunOn(c: Circuit, ren: map<nat, int>, u: set<int>): Valuation {
    x =>
      if exists i :: 0 <= i < |c.outputs| && c.outputs[i].name == x then CircuitFamily(c)(x, u)
      else exists v :: v in ren && v % 2 == 0 && ren[v] == x && VarValue(c, u, |c.ands|, v)
  }

  lemma RunAt(c: Circuit, ren: map<nat, int>, top: int, u: set<int>, v: nat)
    requires Renames(c, ren, top, |c.ands|) && v in ren && v % 2 == 0
    ensures RunOn(c, ren, u)(ren[v]) == VarValue(c, u, |c.ands|, v)
  {
    forall w | w in ren && w % 2 == 0 && ren[w] == ren[v] ensures w == v {}
  }

  lemma RunMeans(c: Circuit, ren: map<nat, int>, top: int, u: set<int>, lit: nat)
    requires Topological(c) && Renames(c, ren, top, |c.ands|) && (lit < 2 || Strip(lit) in ren)
    ensures Means(RunOn(c, ren, u), ren, lit) == LitValue(c, u, |c.ands|, lit)
  {
    hide Topological, Renames, RunOn;
    if lit < 2 { ConstantFalse(c, u, |c.ands|); } else { RunAt(c, ren, top, u, Strip(lit)); }
  }

  /** Running the circuit on any inputs gives a model of its clauses. */
  lemma RunHolds(q: Formula, c: Circuit, ren: map<nat, int>, top: int, u: set<int>)
    requires Named(q, c) && Topological(c) && Renames(c, ren, top, |c.ands|)
    requires forall j :: 0 <= j < |c.ands| ==> HasOperands(ren, c.ands[j])
    requires forall i :: 0 <= i < |c.outputs| ==> c.outputs[i].lit < 2 || Strip(c.outputs[i].lit) in ren
    ensures CircuitHolds(c, ren, |c.ands|, |c.outputs|, RunOn(c, ren, u))
  {
    hide Topological, Renames, RunOn, Named;
    var val := RunOn(c, ren, u);
    forall j | 0 <= j < |c.ands| ensures GateHolds(val, ren, c.ands[j]) {
      var g := c.ands[j];
      GateValue(c, u, j);
      EvenLhs(c, j);
      RunAt(c, ren, top, u, g.lhs);
      RunMeans(c, ren, top, u, g.rhs0);
      RunMeans(c, ren, top, u, g.rhs1);
    }
    if 0 in ren {
      RunAt(c, ren, top, u, 0);
      ConstantFalse(c, u, |c.ands|);
    }
    forall i | 0 <= i < |c.outputs| ensures OutputHolds(val, ren, c.outputs[i]) {
      RunMeans(c, ren, top, u, c.outputs[i].lit);
      RunOutput(q, c, ren, i, u);
    }
  }

  lemma EvenLhs(c: Circuit, j: nat)
    requires Topological(c) && j < |c.ands|
    ensures c.ands[j].lhs % 2 == 0
  {}

  lemma RunOutput(q: Formula, c: Circuit, ren: map<nat, int>, i: nat, u: set<int>)
    requires Named(q, c) && i < |c.outputs|
    ensures RunOn(c, ren, u)(c.outputs[i].name) == LitValue(c, u, |c.ands|, c.outputs[i].lit)
  {
    FamilyAt(c, i, u);
  }

  /** On the variables of the formula the run is the valuation that the circuit's family induces. */
  lemma RunIsInduced(q: Formula, c: Circuit, ren: map<nat, int>, top: int, u: set<int>, aux: Valuation, x: int)
    requires Named(q, c) && Topological(c) && Renames(c, ren, top, |c.ands|) && x in q.universals + q.deps.Keys
    ensures RunOn(c, ren, u)(x) == Induced(q, CircuitFamily(c), aux, u)(x)
  {
    if x in q.universals {
      var i :| 0 <= i < |c.inputs| && c.inputs[i].name == x;
      InputValue(c, u, i);
      RunAt(c, ren, top, u, c.inputs[i].lit);
    }
  }

  // ------------------------------------------------------- the certificate theorem

  /** What the checks on the clauses establish: they have a model, and it cannot falsify the matrix. */
  ghost predicate MatrixEntailed(clauses: seq<Clause>, matrix: seq<Clause>) {
    && (exists val: Valuation :: AllSat(val, clauses))
    && forall val: Valuation, i :: 0 <= i < |matrix| ==> !(AllSat(val, clauses) && AllTrue(val, Negated(matrix[i])))
  }

  lemma NegatedAllTrue(val: Valuation, c: Clause)
    requires 0 !in c
    ensures AllTrue(val, Negated(c)) <==> !Sat(val, c)
  {
    if AllTrue(val, Negated(c)) {
      forall i | 0 <= i < |c| ensures !True(val, c[i]) { assert c[i] in c && True(val, Negated(c)[i]); }
    } else {
      var i :| 0 <= i < |c| && !True(val, Negated(c)[i]);
      assert c[i] in c && True(val, c[i]);
    }
  }

  /** The clauses of the matrix hold in every model of the circuit's clauses exactly when the circuit's
      family satisfies the matrix. */
  lemma EntailedIffSatisfied(q: Formula, c: Circuit, ren: map<nat, int>, top: int, clauses: seq<Clause>)
    requires Named(q, c) && Topological(c) && Renames(c, ren, top, |c.ands|)
    requires Encodes(c, ren, |c.ands|, |c.outputs|, clauses)
    requires forall j :: 0 <= j < |c.ands| ==> HasOperands(ren, c.ands[j])
    requires forall i :: 0 <= i < |c.outputs| ==> c.outputs[i].lit < 2 || Strip(c.outputs[i].lit) in ren
    ensures MatrixEntailed(clauses, q.matrix) <==>
              forall u: set<int>, aux: Valuation :: u <= q.universals ==> AllSat(Induced(q, CircuitFamily(c), aux, u), q.matrix)
  {
    hide Sat, AllTrue, Named, Topological, Renames, Induced, CircuitFamily, CircuitHolds, RunOn, HasOperands;
    if MatrixEntailed(clauses, q.matrix) {
      forall u: set<int>, aux: Valuation | u <= q.universals ensures AllSat(Induced(q, CircuitFamily(c), aux, u), q.matrix) {
        EntailedAt(q, c, ren, top, clauses, u, aux);
      }
    }
    if forall u: set<int>, aux: Valuation :: u <= q.universals ==> AllSat(Induced(q, CircuitFamily(c), aux, u), q.matrix) {
      RunHolds(q, c, ren, top, {});
      forall val: Valuation, i | 0 <= i < |q.matrix| && AllSat(val, clauses) ensures !AllTrue(val, Negated(q.matrix[i])) {
        ModelSatisfies(q, c, ren, top, val, i);
      }
    }
  }

  lemma EntailedAt(q: Formula, c: Circuit, ren: map<nat, int>, top: int, clauses: seq<Clause>, u: set<int>, aux: Valuation)
    requires Named(q, c) && Topological(c) && Renames(c, ren, top, |c.ands|)
    requires Encodes(c, ren, |c.ands|, |c.outputs|, clauses) && MatrixEntailed(clauses, q.matrix)
    requires forall j :: 0 <= j < |c.ands| ==> HasOperands(ren, c.ands[j])
    requires forall i :: 0 <= i < |c.outputs| ==> c.outputs[i].lit < 2 || Strip(c.outputs[i].lit) in ren
    ensures AllSat(Induced(q, CircuitFamily(c), aux, u), q.matrix)
  {
    hide Sat, AllTrue, Topological, Renames, Induced, CircuitFamily, CircuitHolds, RunOn, HasOperands;
    var val := RunOn(c, ren, u);
    RunHolds(q, c, ren, top, u);
    assert AllSat(val, clauses);
    forall i | 0 <= i < |q.matrix| ensures Sat(Induced(q, CircuitFamily(c), aux, u), q.matrix[i]) {
      assert OverVars(q.matrix[i], q.universals + q.deps.Keys);
      NegatedAllTrue(val, q.matrix[i]);
      forall x | x in q.universals + q.deps.Keys ensures val(x) == Induced(q, CircuitFamily(c), aux, u)(x) {
        RunIsInduced(q, c, ren, top, u, aux, x);
      }
      SatAgrees(val, Induced(q, CircuitFamily(c), aux, u), q.matrix[i], q.universals + q.deps.Keys);
    }
  }

  /** A model of the clauses is, on the formula's variables, the circuit run on its inputs. */
  lemma ModelIsInduced(q: Formula, c: Circuit, ren: map<nat, int>, top: int, val: Valuation, x: int)
    requires Named(q, c) && Topological(c) && Renames(c, ren, top, |c.ands|)
    requires CircuitHolds(c, ren, |c.ands|, |c.outputs|, val) && x in q.universals + q.deps.Keys
    ensures Induced(q, CircuitFamily(c), val, InputsOf(c, val))(x) == val(x)
  {
    var u := InputsOf(c, val);
    if x in q.universals {
      var i :| 0 <= i < |c.inputs| && c.inputs[i].name == x;
      if x in u {
        var j :| 0 <= j < |c.inputs| && val(c.inputs[j].name) && c.inputs[j].name == x;
      }
    } else {
      var i :| 0 <= i < |c.outputs| && c.outputs[i].name == x;
      ModelOutput(c, ren, top, val, i);
      FamilyAt(c, i, u);
    }
  }

  lemma ModelOutput(c: Circuit, ren: map<nat, int>, top: int, val: Valuation, i: nat)
    requires Topological(c) && Renames(c, ren, top, |c.ands|) && i < |c.outputs|
    requires CircuitHolds(c, ren, |c.ands|, |c.outputs|, val)
    ensures val(c.outputs[i].name) == LitValue(c, InputsOf(c, val), |c.ands|, c.outputs[i].lit)
  {
    hide Renames;
    assert OutputHolds(val, ren, c.outputs[i]);
    ModelOperand(c, ren, top, val, |c.ands|, c.outputs[i].lit);
  }

  lemma ModelSatisfies(q: Formula, c: Circuit, ren: map<nat, int>, top: int, val: Valuation, i: nat)
    requires Named(q, c) && Topological(c) && Renames(c, ren, top, |c.ands|)
    requires CircuitHolds(c, ren, |c.ands|, |c.outputs|, val) && i < |q.matrix|
    requires forall u: set<int>, aux: Valuation :: u <= q.universals ==> AllSat(Induced(q, CircuitFamily(c), aux, u), q.matrix)
    ensures !AllTrue(val, Negated(q.matrix[i]))
  {
    hide Sat, AllTrue, Topological, Renames, Induced, CircuitFamily, CircuitHolds;
    var u := InputsOf(c, val);
    assert u <= q.universals;
    var ind := Induced(q, CircuitFamily(c), val, u);
    assert AllSat(ind, q.matrix);
    assert OverVars(q.matrix[i], q.universals + q.deps.Keys);
    NegatedAllTrue(val, q.matrix[i]);
    forall x | x in q.universals + q.deps.Keys ensures ind(x) == val(x) {
      ModelIsInduced(q, c, ren, top, val, x);
    }
    SatAgrees(ind, val, q.matrix[i], q.universals + q.deps.Keys);
  }
}
